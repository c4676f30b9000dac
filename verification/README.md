# Exercise apps: stores, mock back end and list logic, in Dafny

This project models the logic at the core of four React/Redux exercise
applications:

- **Kanban board.** The normalized board store holds boards, columns and tasks in
  three entity adapters. The model covers its reducers and selectors, the
  drag-and-drop dispatch, the filter modal's handlers, the task filter and sort
  used by the board view, the sample data and its entity generators, and the
  UI and user slices.
- **Real-time chat.** The chat store covers rooms, messages indexed by room and
  by direct chat, direct chats and typing indicators. Alongside it are the
  user, notification and auth slices, and the chat page's selection of the
  current chat and its messages.
- **E-commerce dashboard.** The mock back end covers login, token check,
  products, orders, customers and dashboard statistics, including filtering,
  sorting and paging. The three list slices, the dashboard and UI slices, the
  helpers (avatar colour, truncation, status colours, percentage change,
  grouping, initials), the sidebar's active-route test and the help page's
  FAQ filter and counts are modelled too.
- **Blog, product gallery and product reviews.** The model covers the blog
  helpers (truncate, reading time, slug, related posts) and the blog list
  page's filter and sort. It also covers the product gallery's categories and
  filter, and the reviews' average, sort and star rendering.

Each Redux reducer is a pure function from the old state to the new. An Immer
write becomes a map or sequence update.

The Redux Toolkit entity adapter is one generic module, `EntityAdapter`. It
keeps an `ids` sequence and an `entities` map. Its consistency predicate
`Valid` requires that the ids list every key once and that each entity sits
under its own id.

The kanban invariant `KanbanInvariant.Inv` adds referential integrity:

- every `columnOrder` entry is a column of that board;
- every `taskIds` entry is a task of that column, on the same board;
- every column is listed by its board, and every task by its column.

Every board reducer is proved to keep this invariant.

The chat store has its own invariant `ChatStore.ChatInv`:

- message ids are listed once;
- the room and direct-chat indexes resolve to stored messages;
- direct chats are listed once.

Each chat reducer is proved to keep it.

JavaScript semantics are written out where they matter:

- `splice` and `slice` index normalisation (negative means from the end, then
  clamp);
- truthiness of `''`, `null` and `undefined`;
- `x || d` defaults;
- 32-bit `<<` and `>>` in the colour hash;
- `Number('') == 0`;
- `parseInt` on ids, including its radix-16 reading of a `0x` or `0X` prefix;
- the stability of `Array.prototype.sort`, modelled as a stable insertion sort
  by an integer key.

Clocks, uuids, random numbers and `localStorage` are parameters.

Shared modules:

- `Wrappers`: `Option` and `Result`.
- `Seqs`: filter, map, dedup, find, splice and counting, each with lemmas.
- `Text`: ASCII case mapping, split and join, trim, decimal parsing and
  printing.
- `Sorting`: stable sort by key, with stability and permutation lemmas.

## Model

| member | source | states |
|---|---|---|
| EntityAdapter.AddOne | javascript/senior/exercise-2-kanban-board/starter/src/store/slices/boardSlice.js:354 | addOne stores a new entity under its id and appends the id. An entity whose id is present leaves the state unchanged. Validity is preserved. |
| EntityAdapter.AddMany | javascript/senior/exercise-2-kanban-board/starter/src/store/slices/boardSlice.js:338-340 | Adding many entities adds exactly their ids as keys, keeps every existing entity and preserves validity. |
| EntityAdapter.SetAll | javascript/senior/exercise-2-kanban-board/starter/src/store/slices/boardSlice.js:338-340 | setAll yields a valid adapter whose keys are exactly the payload's ids. |
| EntityAdapter.AddManyIds | javascript/senior/exercise-2-kanban-board/starter/src/store/slices/boardSlice.js:338-340 | The ids produced by setAll are the payload's ids with duplicates dropped, in first-seen order. |
| EntityAdapter.SetAllDistinct | javascript/senior/exercise-2-kanban-board/starter/src/store/slices/boardSlice.js:338-340 | With distinct ids, setAll keeps the payload's order and stores each entity under its id. |
| EntityAdapter.UpsertOne | javascript/senior/exercise-2-kanban-board/starter/src/store/slices/boardSlice.js:360 | upsertOne puts the entity under its id and leaves the other entities alone. A known id keeps the ids order. Validity is preserved. |
| EntityAdapter.RemoveManyWhere | javascript/senior/exercise-2-kanban-board/starter/src/store/slices/boardSlice.js:378-379 | When the removed keys are, in a consistent state, exactly the keys of the entities a condition picks out, removeMany leaves nothing new or changed, and in a consistent state removes exactly those entities and keeps the other ids in order. |
| EntityAdapter.RemoveMany | javascript/senior/exercise-2-kanban-board/starter/src/store/slices/boardSlice.js:378-379 | removeMany drops exactly the given keys from both the map and the ids, keeps everything else and preserves validity. |
| EntityAdapter.RemoveOne | javascript/senior/exercise-2-kanban-board/starter/src/store/slices/boardSlice.js:382 | removeOne drops exactly one key from both the map and the ids and preserves validity. |
| EntityAdapter.SelectById | javascript/senior/exercise-2-kanban-board/starter/src/store/slices/boardSlice.js:492-495 | A lookup finds an entity iff the key is stored, and returns that entity. |
| EntityAdapter.SelectByIdCarriesId | javascript/senior/exercise-2-kanban-board/starter/src/store/slices/boardSlice.js:492-495 | In a valid adapter a found entity carries the id it was looked up by, and it is found iff the id is listed. |
| EntityAdapter.Resolve | javascript/senior/exercise-2-kanban-board/starter/src/store/slices/boardSlice.js:496-503 | Mapping ids to entities and dropping the missing ones yields, in order, the entities of exactly the stored ids. |
| EntityAdapter.ResolveAll | javascript/senior/exercise-2-kanban-board/starter/src/store/slices/boardSlice.js:496-503 | When every id is stored, resolving drops nothing and keeps the order. |
| KanbanStore.SetActiveBoard | javascript/senior/exercise-2-kanban-board/starter/src/store/slices/boardSlice.js:274-276 | setActiveBoard changes only the active board. |
| KanbanStore.MoveTask | javascript/senior/exercise-2-kanban-board/starter/src/store/slices/boardSlice.js:277-306 | See the moveTask notes below the table. |
| KanbanStore.MoveTaskAcross | javascript/senior/exercise-2-kanban-board/starter/src/store/slices/boardSlice.js:293-305 | Across columns, the task leaves the source at the normalised source index and enters the destination at the normalised destination index. Its columnId becomes the destination, and no other task changes. |
| KanbanStore.MoveColumn | javascript/senior/exercise-2-kanban-board/starter/src/store/slices/boardSlice.js:307-326 | Without an active board nothing changes. Otherwise only its columnOrder is permuted, with the moved column landing at the destination index. |
| KanbanStore.FetchBoardsPending | javascript/senior/exercise-2-kanban-board/starter/src/store/slices/boardSlice.js:331-333 | Pending sets the status to loading and changes nothing else. |
| KanbanStore.FetchBoardsFulfilled | javascript/senior/exercise-2-kanban-board/starter/src/store/slices/boardSlice.js:334-346 | All three adapters are replaced by the payload and the status becomes succeeded. The first board becomes active only when no board was active and the payload has boards. |
| KanbanStore.FetchBoardsRejected | javascript/senior/exercise-2-kanban-board/starter/src/store/slices/boardSlice.js:347-350 | The status becomes failed. The error is the payload, or the fixed message when the payload is falsy. Data is kept. |
| KanbanStore.CreateBoard | javascript/senior/exercise-2-kanban-board/starter/src/store/slices/boardSlice.js:353-356 | createBoard adds the board as addOne does: its id becomes a key and no stored board changes. A new id stores the board and is appended to ids, and a taken id leaves the boards as they were. The id becomes the active board. |
| KanbanStore.UpdateBoard | javascript/senior/exercise-2-kanban-board/starter/src/store/slices/boardSlice.js:359-361 | updateBoard stores the board under its id, keeps every other board, appends a new id to ids and leaves ids alone for a known one. Nothing else changes. |
| KanbanStore.DeleteBoard | javascript/senior/exercise-2-kanban-board/starter/src/store/slices/boardSlice.js:364-388 | See the deleteBoard notes below the table. |
| KanbanStore.CreateColumn | javascript/senior/exercise-2-kanban-board/starter/src/store/slices/boardSlice.js:391-402 | createColumn adds the column as addOne does and appends its id to its board's columnOrder. No other board changes. |
| KanbanStore.UpdateColumn | javascript/senior/exercise-2-kanban-board/starter/src/store/slices/boardSlice.js:405-407 | updateColumn stores the column under its id and keeps every other column; ids grow only for a new id. Nothing else changes. |
| KanbanStore.DeleteColumn | javascript/senior/exercise-2-kanban-board/starter/src/store/slices/boardSlice.js:410-429 | deleteColumn removes the column key, keeps the other columns, and in a consistent store drops exactly that id from ids. It removes every task whose columnId names the column (in a consistent store exactly those; the other tasks stay unchanged and in order) and drops the id from the named board's columnOrder. No other board changes. |
| KanbanStore.CreateTask | javascript/senior/exercise-2-kanban-board/starter/src/store/slices/boardSlice.js:432-443 | createTask adds the task as addOne does and appends its id to its column's taskIds. No other column changes. |
| KanbanStore.UpdateTask | javascript/senior/exercise-2-kanban-board/starter/src/store/slices/boardSlice.js:446-467 | See the updateTask notes below the table. |
| KanbanStore.DeleteTask | javascript/senior/exercise-2-kanban-board/starter/src/store/slices/boardSlice.js:470-481 | deleteTask removes the task key, keeps the other tasks, and in a consistent store drops exactly that id from ids. It drops the id from the named column only. |
| KanbanStore.SelectActiveBoard | javascript/senior/exercise-2-kanban-board/starter/src/store/slices/boardSlice.js:492-495 | The selector finds a board iff the active id is truthy and stored, and returns that board. |
| KanbanStore.SelectActiveBoardColumns | javascript/senior/exercise-2-kanban-board/starter/src/store/slices/boardSlice.js:496-503 | The selector returns the active board's columnOrder entries that are stored, in order, as columns. It returns the empty list without an active board. |
| KanbanInvariant.ListedInExactlyOneColumn | javascript/senior/exercise-2-kanban-board/starter/src/store/slices/boardSlice.js:432-443 | Under the invariant a column lists a task iff the task's columnId names that column. |
| KanbanInvariant.ListedOnExactlyOneBoard | javascript/senior/exercise-2-kanban-board/starter/src/store/slices/boardSlice.js:391-402 | Under the invariant a board lists a column iff the column's boardId names that board. |
| KanbanInvariant.OrderHasColumns | javascript/senior/exercise-2-kanban-board/starter/src/store/slices/boardSlice.js:496-503 | Every columnOrder entry is a stored column of that board. |
| KanbanInvariant.TaskIdsHaveTasks | javascript/senior/exercise-2-kanban-board/starter/src/components/BoardView.js:28-30 | Every taskIds entry is a stored task of that column. |
| KanbanInvariant.InitialInv | javascript/senior/exercise-2-kanban-board/starter/src/store/slices/boardSlice.js:265-272 | The empty initial store is consistent. |
| KanbanInvariant.MoveTaskInv | javascript/senior/exercise-2-kanban-board/starter/src/store/slices/boardSlice.js:277-306 | moveTask keeps the store consistent when source and destination are on the same board. |
| KanbanInvariant.MoveWithinInv | javascript/senior/exercise-2-kanban-board/starter/src/store/slices/boardSlice.js:293-296 | Reordering within one column keeps the store consistent. |
| KanbanInvariant.PermuteTaskIdsInv | javascript/senior/exercise-2-kanban-board/starter/src/store/slices/boardSlice.js:293-296 | Replacing a column's taskIds by any permutation keeps the store consistent. |
| KanbanInvariant.MoveAcrossInv | javascript/senior/exercise-2-kanban-board/starter/src/store/slices/boardSlice.js:293-305 | Moving a task between two columns of one board keeps the store consistent. |
| KanbanInvariant.MoveColumnInv | javascript/senior/exercise-2-kanban-board/starter/src/store/slices/boardSlice.js:307-326 | moveColumn keeps the store consistent. |
| KanbanInvariant.PermuteColumnOrderInv | javascript/senior/exercise-2-kanban-board/starter/src/store/slices/boardSlice.js:315-325 | Replacing a board's columnOrder by any permutation keeps the store consistent. |
| KanbanInvariant.StatusReducersInv | javascript/senior/exercise-2-kanban-board/starter/src/store/slices/boardSlice.js:331-350 | setActiveBoard and the pending and rejected reducers keep the store consistent. |
| KanbanInvariant.SameAdaptersInv | javascript/senior/exercise-2-kanban-board/starter/src/store/slices/boardSlice.js:265-272 | Consistency depends only on the three adapters. |
| KanbanInvariant.CreateBoardInv | javascript/senior/exercise-2-kanban-board/starter/src/store/slices/boardSlice.js:353-356 | Adding a board with an empty columnOrder, as the thunk builds it, keeps the store consistent. |
| KanbanInvariant.UpdateBoardInv | javascript/senior/exercise-2-kanban-board/starter/src/store/slices/boardSlice.js:359-361 | Updating a board without touching its columnOrder keeps the store consistent. |
| KanbanInvariant.DeleteBoardInv | javascript/senior/exercise-2-kanban-board/starter/src/store/slices/boardSlice.js:364-388 | Deleting a board with its columns and tasks leaves nothing dangling. |
| KanbanInvariant.CreateColumnInv | javascript/senior/exercise-2-kanban-board/starter/src/store/slices/boardSlice.js:391-402 | Adding a fresh, empty column to an existing board keeps the store consistent. |
| KanbanInvariant.UpdateColumnInv | javascript/senior/exercise-2-kanban-board/starter/src/store/slices/boardSlice.js:405-407 | Updating a column without changing its board or taskIds keeps the store consistent. |
| KanbanInvariant.DeleteColumnInv | javascript/senior/exercise-2-kanban-board/starter/src/store/slices/boardSlice.js:410-429 | Deleting a column named with its own board keeps the store consistent. |
| KanbanInvariant.CreateTaskInv | javascript/senior/exercise-2-kanban-board/starter/src/store/slices/boardSlice.js:432-443 | Adding a fresh task to an existing column of its board keeps the store consistent. |
| KanbanInvariant.UpdateTaskInv | javascript/senior/exercise-2-kanban-board/starter/src/store/slices/boardSlice.js:446-467 | Updating a task, including moving it to another column of its board, keeps the store consistent. |
| KanbanInvariant.DeleteTaskInv | javascript/senior/exercise-2-kanban-board/starter/src/store/slices/boardSlice.js:470-481 | Deleting a task named with its own column keeps the store consistent. |
| KanbanInvariant.SelectActiveBoardColumnsInv | javascript/senior/exercise-2-kanban-board/starter/src/store/slices/boardSlice.js:496-503 | In a consistent store the selector drops nothing. It returns one column per columnOrder id, in order, each on the active board. |
| KanbanFixtures.SampleConsistent | javascript/senior/exercise-2-kanban-board/starter/src/store/slices/boardSlice.js:6-97 | A store holding the slice's sample data is consistent. |
| KanbanFixtures.SampleLoad | javascript/senior/exercise-2-kanban-board/starter/src/store/slices/boardSlice.js:105-116 | Loading the sample from any state stores exactly the sample and is consistent. board-1 becomes active unless a board already was. |
| KanbanFixtures.SampleBoardsLoad | javascript/senior/exercise-2-kanban-board/starter/src/store/slices/boardSlice.js:7-20 | The loaded sample boards are exactly board-1. |
| KanbanFixtures.SampleColumnsLoad | javascript/senior/exercise-2-kanban-board/starter/src/store/slices/boardSlice.js:21-50 | The loaded sample columns are exactly the three listed ones, stored as given. |
| KanbanFixtures.SampleTasksLoad | javascript/senior/exercise-2-kanban-board/starter/src/store/slices/boardSlice.js:51-96 | The loaded sample tasks are exactly the five listed ones, stored as given. |
| KanbanFixtures.FixturesConsistent | javascript/senior/exercise-2-kanban-board/starter/src/utils/initialData.js:51-253 | The exported boards, columns and tasks are referentially consistent, and each ids array lists exactly its entities' keys. |
| KanbanFixtures.FixtureTaskInOneColumn | javascript/senior/exercise-2-kanban-board/starter/src/utils/initialData.js:129-253 | Every fixture task is listed by exactly the column its columnId names. |
| KanbanFixtures.FixtureWipNonNegative | javascript/senior/exercise-2-kanban-board/starter/src/utils/initialData.js:74-127 | Every fixture column has a non-negative WIP limit. |
| KanbanFixtures.GenerateTask | javascript/senior/exercise-2-kanban-board/starter/src/utils/initialData.js:256-272 | generateTask copies the given fields. It defaults the description to '', the priority to medium and a falsy assignee to none, and stamps both timestamps with now. |
| KanbanFixtures.GenerateColumn | javascript/senior/exercise-2-kanban-board/starter/src/utils/initialData.js:275-287 | generateColumn has no tasks and a WIP limit of 0 unless one is given. |
| KanbanFixtures.GenerateBoard | javascript/senior/exercise-2-kanban-board/starter/src/utils/initialData.js:290-302 | generateBoard has no columns, and its description defaults to ''. |
| KanbanFixtures.CreateGeneratedBoardInv | javascript/senior/exercise-2-kanban-board/starter/src/utils/initialData.js:290-302 | Adding a generated board keeps any consistent store consistent. |
| KanbanFixtures.CreateGeneratedColumnInv | javascript/senior/exercise-2-kanban-board/starter/src/utils/initialData.js:275-287 | A generated column with a fresh id on an existing board keeps the store consistent. |
| KanbanFixtures.CreateGeneratedTaskInv | javascript/senior/exercise-2-kanban-board/starter/src/utils/initialData.js:256-272 | A generated task with a fresh id in an existing column of its board keeps the store consistent. |
| KanbanDrag.HandleDragEnd | javascript/senior/exercise-2-kanban-board/starter/src/App.js:22-52 | See the handleDragEnd notes below the table. |
| KanbanDrag.DropKeepsInv | javascript/senior/exercise-2-kanban-board/starter/src/App.js:22-52 | Whatever a drop dispatches keeps a consistent store consistent. |
| KanbanDrag.IdleDropChangesNothing | javascript/senior/exercise-2-kanban-board/starter/src/App.js:26-34 | A drop without a destination, or back in place, leaves the store unchanged. |
| KanbanTasks.FilterTask | javascript/senior/exercise-2-kanban-board/starter/src/utils/mockApi.js:93-126 | See the filterTask notes below the table. |
| KanbanTasks.NoFiltersKeepsAll | javascript/senior/exercise-2-kanban-board/starter/src/utils/mockApi.js:93-126 | With every filter falsy, every task passes. |
| KanbanTasks.StricterFiltersKeepFewer | javascript/senior/exercise-2-kanban-board/starter/src/utils/mockApi.js:93-126 | Switching more criteria on only removes tasks. |
| KanbanTasks.PriorityRank | javascript/senior/exercise-2-kanban-board/starter/src/utils/mockApi.js:143-146 | The priority ranks are 1..3, with low lowest and high highest. |
| KanbanTasks.SortTasks | javascript/senior/exercise-2-kanban-board/starter/src/utils/mockApi.js:135-150 | sortTasks returns a permutation, ordered by the sort key ascending for asc and descending otherwise. |
| KanbanTasks.SortTasksStable | javascript/senior/exercise-2-kanban-board/starter/src/utils/mockApi.js:135-150 | The sort is stable: the tasks sharing any one sort-key value appear in the result in their input order, in both directions. |
| KanbanTasks.SortByPriority | javascript/senior/exercise-2-kanban-board/starter/src/utils/mockApi.js:141-148 | Sorting by priority orders tasks by rank, in the requested direction. |
| KanbanTasks.UnknownSortKeepsOrder | javascript/senior/exercise-2-kanban-board/starter/src/utils/mockApi.js:135-150 | An unknown sort field keeps the input order. |
| KanbanTasks.ColumnTasks | javascript/senior/exercise-2-kanban-board/starter/src/components/BoardView.js:24-43 | A column shows only tasks that pass the filter and are stored under one of its ids, never more tasks than it lists. |
| KanbanTasks.ProcessColumns | javascript/senior/exercise-2-kanban-board/starter/src/components/BoardView.js:23-45 | The board view keeps every column, in order, each with its shown tasks. |
| KanbanTasks.ShownIsPermutationOfKept | javascript/senior/exercise-2-kanban-board/starter/src/components/BoardView.js:28-38 | A column's shown tasks are a permutation of its resolved tasks that pass the filter. |
| KanbanUi.NoFilters | javascript/senior/exercise-2-kanban-board/starter/src/store/slices/uiSlice.js:18-23 | The initial filter record has every criterion falsy. |
| KanbanUi.InitialUi | javascript/senior/exercise-2-kanban-board/starter/src/store/slices/uiSlice.js:6-26 | Initially the sidebar is open and every modal is closed with no data. Filters are empty and the sort is createdAt ascending. |
| KanbanUi.ToggleSidebar | javascript/senior/exercise-2-kanban-board/starter/src/store/slices/uiSlice.js:28-30 | toggleSidebar flips the sidebar and nothing else. |
| KanbanUi.ToggleSidebarTwice | javascript/senior/exercise-2-kanban-board/starter/src/store/slices/uiSlice.js:28-30 | Toggling twice restores the state. |
| KanbanUi.OpenModal | javascript/senior/exercise-2-kanban-board/starter/src/store/slices/uiSlice.js:31-35 | openModal opens that modal and sets its data. Other modals keep their flags. |
| KanbanUi.CloseModal | javascript/senior/exercise-2-kanban-board/starter/src/store/slices/uiSlice.js:36-42 | closeModal closes that modal. The data is cleared iff no modal remains open. |
| KanbanUi.CloseAllModals | javascript/senior/exercise-2-kanban-board/starter/src/store/slices/uiSlice.js:43-48 | closeAllModals closes every modal and clears the data. |
| KanbanUi.OpenThenCloseClearsData | javascript/senior/exercise-2-kanban-board/starter/src/store/slices/uiSlice.js:31-42 | Opening and closing a modal from an all-closed state leaves everything closed with no data. |
| KanbanUi.CloseLastIsCloseAll | javascript/senior/exercise-2-kanban-board/starter/src/store/slices/uiSlice.js:36-48 | Closing the only open modal equals closeAllModals. |
| KanbanUi.SetFilter | javascript/senior/exercise-2-kanban-board/starter/src/store/slices/uiSlice.js:49-52 | setFilter sets exactly the named criterion. An unknown name adds a property that nothing reads. |
| KanbanUi.ClearFilters | javascript/senior/exercise-2-kanban-board/starter/src/store/slices/uiSlice.js:53-60 | clearFilters restores the initial filter record. |
| KanbanUi.ClearedFiltersKeepEveryTask | javascript/senior/exercise-2-kanban-board/starter/src/store/slices/uiSlice.js:53-60 | After clearFilters every task passes the task filter. |
| KanbanUi.ClearAfterSetFilter | javascript/senior/exercise-2-kanban-board/starter/src/store/slices/uiSlice.js:49-60 | clearFilters undoes any setFilter. |
| KanbanUi.SetSortBy | javascript/senior/exercise-2-kanban-board/starter/src/store/slices/uiSlice.js:61-63 | setSortBy changes only the sort field. |
| KanbanUi.ToggleSortDirection | javascript/senior/exercise-2-kanban-board/starter/src/store/slices/uiSlice.js:64-66 | The direction becomes asc iff it was not asc. |
| KanbanUi.ToggleSortDirectionTwice | javascript/senior/exercise-2-kanban-board/starter/src/store/slices/uiSlice.js:64-66 | From asc or desc, toggling twice restores the state. |
| KanbanUsers.InitialUsers | javascript/senior/exercise-2-kanban-board/starter/src/store/slices/userSlice.js:49-54 | Initially no users are loaded, user-1 is current and the status is idle. |
| KanbanUsers.SetCurrentUser | javascript/senior/exercise-2-kanban-board/starter/src/store/slices/userSlice.js:56-58 | setCurrentUser changes only the current user. |
| KanbanUsers.FetchUsersPending | javascript/senior/exercise-2-kanban-board/starter/src/store/slices/userSlice.js:63-65 | Pending sets the status to loading only. |
| KanbanUsers.FetchUsersFulfilled | javascript/senior/exercise-2-kanban-board/starter/src/store/slices/userSlice.js:66-69 | The users become a valid adapter holding exactly the payload's ids, deduplicated in order, and the status becomes succeeded. |
| KanbanUsers.FetchUsersRejected | javascript/senior/exercise-2-kanban-board/starter/src/store/slices/userSlice.js:70-73 | The status becomes failed, with the payload or the fixed message as the error. |
| KanbanUsers.SelectCurrentUser | javascript/senior/exercise-2-kanban-board/starter/src/store/slices/userSlice.js:87-90 | The selector finds a user iff one is stored under the current id. A null id is looked up as the key "null". |
| KanbanUsers.SelectCurrentUserId | javascript/senior/exercise-2-kanban-board/starter/src/store/slices/userSlice.js:87-90 | In a valid adapter the selected user has the current id, and is found iff that id is listed. |
| KanbanUsers.DefaultUserResolves | javascript/senior/exercise-2-kanban-board/starter/src/store/slices/userSlice.js:5-54 | After the sample users load, the default current user is John Doe. |
| KanbanFiltersModal.Toggle | javascript/senior/exercise-2-kanban-board/starter/src/components/modals/FiltersModal.js:23-34 | Toggling a value removes it if present and appends it otherwise. Other values are unaffected, and duplicates never appear. |
| KanbanFiltersModal.ToggleTwice | javascript/senior/exercise-2-kanban-board/starter/src/components/modals/FiltersModal.js:23-47 | Toggling twice restores the same members, and the same sequence when the value was absent. |
| KanbanFiltersModal.HandlePriorityChange | javascript/senior/exercise-2-kanban-board/starter/src/components/modals/FiltersModal.js:23-34 | The priority checkbox flips exactly that priority. |
| KanbanFiltersModal.HandleAssigneeChange | javascript/senior/exercise-2-kanban-board/starter/src/components/modals/FiltersModal.js:36-47 | The assignee checkbox flips exactly that user. |
| KanbanFiltersModal.UnassignedCheckboxFlips | javascript/senior/exercise-2-kanban-board/starter/src/components/modals/FiltersModal.js:207-208 | The unassigned checkbox flips the unassigned entry only. |
| KanbanFiltersModal.HandleDateChange | javascript/senior/exercise-2-kanban-board/starter/src/components/modals/FiltersModal.js:49-57 | start or end sets that bound and keeps the other. |
| ChatStore.InitialChat | javascript/senior/exercise-1-real-time-chat/starter/src/store/slices/chatSlice.js:4-52 | Initially there are the three public rooms, each with an empty message index, no messages and no direct chats. general is active. |
| ChatStore.InitialChatInv | javascript/senior/exercise-1-real-time-chat/starter/src/store/slices/chatSlice.js:4-52 | The initial chat store is consistent. |
| ChatStore.SortedPair | javascript/senior/exercise-1-real-time-chat/starter/src/store/slices/chatSlice.js:131 | The two participants, ordered by code-unit comparison. |
| ChatStore.DirectChatId | javascript/senior/exercise-1-real-time-chat/starter/src/store/slices/chatSlice.js:131 | A direct chat id is the sorted pair joined by '-'. |
| ChatStore.DirectChatIdSymmetric | javascript/senior/exercise-1-real-time-chat/starter/src/store/slices/chatSlice.js:131 | Both participants get the same chat id. |
| ChatStore.DirectChatIdSplits | javascript/senior/exercise-1-real-time-chat/starter/src/store/slices/chatSlice.js:131 | For dash-free ids, splitting the chat id recovers the sorted pair. |
| ChatStore.FetchStart | javascript/senior/exercise-1-real-time-chat/starter/src/store/slices/chatSlice.js:59-62 | The fetch start reducers set loading and clear the error only. |
| ChatStore.FetchFailure | javascript/senior/exercise-1-real-time-chat/starter/src/store/slices/chatSlice.js:76-79 | The fetch failure reducers stop loading and set the error only. |
| ChatStore.FetchRoomsSuccess | javascript/senior/exercise-1-real-time-chat/starter/src/store/slices/chatSlice.js:63-75 | The rooms are replaced by the payload in order, and the last room per id wins. Nothing else changes. |
| ChatStore.FetchMessagesSuccess | javascript/senior/exercise-1-real-time-chat/starter/src/store/slices/chatSlice.js:86-105 | The room's index becomes the payload's ids. New ids are appended once to the message list, payload messages overwrite and others are kept. |
| ChatStore.StoreMessage | javascript/senior/exercise-1-real-time-chat/starter/src/store/slices/chatSlice.js:117-122 | The message is stored under its id, and its id is listed once. |
| ChatStore.AddMessage | javascript/senior/exercise-1-real-time-chat/starter/src/store/slices/chatSlice.js:112-151 | See the addMessage notes below the table. |
| ChatStore.ReplySharesDirectChat | javascript/senior/exercise-1-real-time-chat/starter/src/store/slices/chatSlice.js:130-149 | A reply lands in the same direct chat, after the message, and the chat record is not recreated. |
| ChatStore.UpdateMessageStatus | javascript/senior/exercise-1-real-time-chat/starter/src/store/slices/chatSlice.js:154-160 | Only a stored message's status changes. An unknown id changes nothing. |
| ChatStore.SetActiveChat | javascript/senior/exercise-1-real-time-chat/starter/src/store/slices/chatSlice.js:163-165 | setActiveChat changes only the active chat. |
| ChatStore.SetUserTyping | javascript/senior/exercise-1-real-time-chat/starter/src/store/slices/chatSlice.js:168-180 | Typing records the user with the time, and stopping deletes the user. Other chats are untouched. |
| ChatStore.TypingThenStopped | javascript/senior/exercise-1-real-time-chat/starter/src/store/slices/chatSlice.js:168-180 | Starting and then stopping typing leaves the chat's map without that user. |
| ChatStore.CreateRoom | javascript/senior/exercise-1-real-time-chat/starter/src/store/slices/chatSlice.js:183-189 | createRoom stores the room, appends its id and gives it an empty index. |
| ChatStore.FetchRoomsSuccessInv | javascript/senior/exercise-1-real-time-chat/starter/src/store/slices/chatSlice.js:63-75 | Loading rooms keeps the chat store consistent. |
| ChatStore.FetchMessagesSuccessInv | javascript/senior/exercise-1-real-time-chat/starter/src/store/slices/chatSlice.js:86-105 | Loading a room's messages keeps the chat store consistent. |
| ChatStore.FetchMessagesListed | javascript/senior/exercise-1-real-time-chat/starter/src/store/slices/chatSlice.js:92-101 | Loading messages keeps every stored message listed exactly once. |
| ChatStore.FetchMessagesIndexes | javascript/senior/exercise-1-real-time-chat/starter/src/store/slices/chatSlice.js:102-104 | After loading messages, every index still resolves to stored messages. |
| ChatStore.AddMessageInv | javascript/senior/exercise-1-real-time-chat/starter/src/store/slices/chatSlice.js:112-151 | addMessage keeps the chat store consistent. |
| ChatStore.AddMessageListed | javascript/senior/exercise-1-real-time-chat/starter/src/store/slices/chatSlice.js:117-122 | addMessage keeps every stored message listed exactly once. |
| ChatStore.AddMessageRooms | javascript/senior/exercise-1-real-time-chat/starter/src/store/slices/chatSlice.js:125-129 | addMessage keeps the room list and the room map in agreement. |
| ChatStore.AddMessageIndexes | javascript/senior/exercise-1-real-time-chat/starter/src/store/slices/chatSlice.js:125-136 | After addMessage every index still resolves to stored messages. |
| ChatStore.AddMessageDirectChats | javascript/senior/exercise-1-real-time-chat/starter/src/store/slices/chatSlice.js:130-149 | Every direct-chat index keeps its chat record, listed once. |
| ChatStore.UpdateMessageStatusInv | javascript/senior/exercise-1-real-time-chat/starter/src/store/slices/chatSlice.js:154-160 | Changing a status keeps the chat store consistent. |
| ChatStore.CreateRoomInv | javascript/senior/exercise-1-real-time-chat/starter/src/store/slices/chatSlice.js:183-189 | Creating a room keeps the chat store consistent. |
| ChatStore.StatusReducersInv | javascript/senior/exercise-1-real-time-chat/starter/src/store/slices/chatSlice.js:59-109 | The start and failure reducers and setActiveChat keep the store consistent. |
| ChatStore.SetUserTypingInv | javascript/senior/exercise-1-real-time-chat/starter/src/store/slices/chatSlice.js:168-180 | Typing indicators keep the store consistent. |
| ChatView.OtherParticipant | javascript/senior/exercise-1-real-time-chat/starter/src/pages/Chat.js:43-44 | The chat id's first half if it is not me, else its second half. A missing half is undefined. |
| ChatView.OtherParticipantOfDirectChat | javascript/senior/exercise-1-real-time-chat/starter/src/pages/Chat.js:43-44 | For a direct chat id built by addMessage, the other participant is exactly the partner. |
| ChatView.CurrentChatData | javascript/senior/exercise-1-real-time-chat/starter/src/pages/Chat.js:36-49 | A room chat shows its room iff it is stored. A direct chat shows the other participant iff that user is known. Other kinds show nothing. |
| ChatView.DirectChatShowsPartner | javascript/senior/exercise-1-real-time-chat/starter/src/pages/Chat.js:36-49 | An active direct chat with a known partner shows that partner. |
| ChatView.Resolve | javascript/senior/exercise-1-real-time-chat/starter/src/pages/Chat.js:52-62 | Each listed id maps to its stored message, or to undefined when it is missing. |
| ChatView.CurrentMessages | javascript/senior/exercise-1-real-time-chat/starter/src/pages/Chat.js:52-62 | The active room's or direct chat's index is resolved in order. It is empty without an index or an active chat. |
| ChatView.CurrentMessagesResolve | javascript/senior/exercise-1-real-time-chat/starter/src/pages/Chat.js:52-62 | In a consistent store no shown message is undefined. |
| ChatView.AddedMessageShownLast | javascript/senior/exercise-1-real-time-chat/starter/src/pages/Chat.js:52-62 | A message added to the active room is shown last. |
| ChatUsers.InitialUsers | javascript/senior/exercise-1-real-time-chat/starter/src/store/slices/userSlice.js:3-9 | Initially there are no users, nobody is online and nothing is loading. |
| ChatUsers.FetchUsersStart | javascript/senior/exercise-1-real-time-chat/starter/src/store/slices/userSlice.js:15-18 | fetchUsersStart sets loading and clears the error only. |
| ChatUsers.FetchUsersFailure | javascript/senior/exercise-1-real-time-chat/starter/src/store/slices/userSlice.js:42-45 | fetchUsersFailure stops loading and sets the error only. |
| ChatUsers.FetchUsersSuccess | javascript/senior/exercise-1-real-time-chat/starter/src/store/slices/userSlice.js:19-41 | The ids are the payload's ids and the online list is the online users' ids. The last user per id is stored. |
| ChatUsers.FetchUsersSuccessExact | javascript/senior/exercise-1-real-time-chat/starter/src/store/slices/userSlice.js:19-41 | With distinct ids, the online list names, once each, exactly the known users whose status is online. |
| ChatUsers.UpdateUserStatus | javascript/senior/exercise-1-real-time-chat/starter/src/store/slices/userSlice.js:46-59 | A known user's status changes, and they are listed online iff the new status is online. An unknown id changes nothing. |
| ChatUsers.UpdateUserStatusExact | javascript/senior/exercise-1-real-time-chat/starter/src/store/slices/userSlice.js:46-59 | updateUserStatus keeps the online list exact. |
| ChatUsers.OnlineStaysKnown | javascript/senior/exercise-1-real-time-chat/starter/src/store/slices/userSlice.js:15-72 | Every reducer keeps the online list within the known users. |
| ChatUsers.AddUser | javascript/senior/exercise-1-real-time-chat/starter/src/store/slices/userSlice.js:60-72 | addUser stores the user and lists their id. An online user is added to the online list, which never shrinks. |
| ChatUsers.AddUserLeavesStaleOnline | javascript/senior/exercise-1-real-time-chat/starter/src/store/slices/userSlice.js:60-72 | Re-adding an online user as offline leaves them in the online list. |
| ChatUsers.AddUserFixed | javascript/senior/exercise-1-real-time-chat/starter/src/store/slices/userSlice.js:60-72 | The corrected addUser lists the user online iff their status is online. |
| ChatUsers.AddUserFixedExact | javascript/senior/exercise-1-real-time-chat/starter/src/store/slices/userSlice.js:60-72 | The corrected addUser keeps the online list exact. |
| ChatNotifications.InitialNotifications | javascript/senior/exercise-1-real-time-chat/starter/src/store/slices/notificationSlice.js:4-7 | Initially there are no notifications and no unread ones. |
| ChatNotifications.CountUnreadAppend | javascript/senior/exercise-1-real-time-chat/starter/src/store/slices/notificationSlice.js:13-23 | Unread counts add over concatenation. |
| ChatNotifications.CountUnreadMark | javascript/senior/exercise-1-real-time-chat/starter/src/store/slices/notificationSlice.js:24-32 | Marking an entry read lowers the unread count by one iff it was unread. |
| ChatNotifications.CountUnreadRemove | javascript/senior/exercise-1-real-time-chat/starter/src/store/slices/notificationSlice.js:39-51 | Removing an entry lowers the unread count by one iff it was unread. |
| ChatNotifications.CreateNotification | javascript/senior/exercise-1-real-time-chat/starter/src/store/slices/notificationSlice.js:70-76 | createNotification carries only content, never an id, read flag or timestamp. |
| ChatNotifications.AddNotification | javascript/senior/exercise-1-real-time-chat/starter/src/store/slices/notificationSlice.js:13-23 | The notification goes first, with payload fields overriding the defaults, and the counter grows by one. |
| ChatNotifications.AddNotificationExact | javascript/senior/exercise-1-real-time-chat/starter/src/store/slices/notificationSlice.js:13-23 | The counter stays exact iff the payload does not arrive already read. |
| ChatNotifications.AddCreatedNotificationExact | javascript/senior/exercise-1-real-time-chat/starter/src/store/slices/notificationSlice.js:70-76 | A created notification is unread, and adding it keeps the counter exact. |
| ChatNotifications.MarkAsRead | javascript/senior/exercise-1-real-time-chat/starter/src/store/slices/notificationSlice.js:24-32 | The first entry with the id is marked read, and the counter drops, not below 0, only if the entry was unread. An unknown id changes nothing. |
| ChatNotifications.MarkAsReadExact | javascript/senior/exercise-1-real-time-chat/starter/src/store/slices/notificationSlice.js:24-32 | Marking read keeps the counter exact. |
| ChatNotifications.MarkAsReadIdempotent | javascript/senior/exercise-1-real-time-chat/starter/src/store/slices/notificationSlice.js:24-32 | Marking twice is marking once. |
| ChatNotifications.MarkAllAsRead | javascript/senior/exercise-1-real-time-chat/starter/src/store/slices/notificationSlice.js:33-38 | Every entry becomes read and the counter is 0 and exact. |
| ChatNotifications.RemoveNotification | javascript/senior/exercise-1-real-time-chat/starter/src/store/slices/notificationSlice.js:39-51 | The first entry with the id is removed, and the counter drops only if it was unread. |
| ChatNotifications.RemoveNotificationExact | javascript/senior/exercise-1-real-time-chat/starter/src/store/slices/notificationSlice.js:39-51 | Removing keeps the counter exact. |
| ChatNotifications.ClearAll | javascript/senior/exercise-1-real-time-chat/starter/src/store/slices/notificationSlice.js:52-55 | clearAllNotifications restores the initial state. |
| ChatAuth.InitialAuth | javascript/senior/exercise-1-real-time-chat/starter/src/store/slices/authSlice.js:3-8 | Initially nobody is signed in and nothing is loading. |
| ChatAuth.AuthStart | javascript/senior/exercise-1-real-time-chat/starter/src/store/slices/authSlice.js:14-17 | loginStart and registerStart set loading and keep the session. |
| ChatAuth.AuthSuccess | javascript/senior/exercise-1-real-time-chat/starter/src/store/slices/authSlice.js:18-23 | A successful login or register signs the user in. |
| ChatAuth.AuthFailure | javascript/senior/exercise-1-real-time-chat/starter/src/store/slices/authSlice.js:24-27 | A failure sets the error and keeps the session. |
| ChatAuth.Logout | javascript/senior/exercise-1-real-time-chat/starter/src/store/slices/authSlice.js:42-45 | logout signs out. |
| ChatAuth.UpdateUserStatus | javascript/senior/exercise-1-real-time-chat/starter/src/store/slices/authSlice.js:46-50 | Only the signed-in user's status changes. Without a user nothing changes. |
| ChatAuth.ReducersKeepSignedInIffUser | javascript/senior/exercise-1-real-time-chat/starter/src/store/slices/authSlice.js:14-50 | Every reducer keeps "signed in iff there is a user". |
| ChatAuth.FailureKeepsSession | javascript/senior/exercise-1-real-time-chat/starter/src/store/slices/authSlice.js:24-27 | A failed second login keeps the earlier session. |
| ShopApi.Users | javascript/senior/exercise-3-e-commerce-dashboard/starter/src/utils/mockApi.js:8-29 | The mock back end has exactly two users. |
| ShopApi.Public | javascript/senior/exercise-3-e-commerce-dashboard/starter/src/utils/mockApi.js:124-130 | The returned user keeps the id and email and drops the password. |
| ShopApi.MockLogin | javascript/senior/exercise-3-e-commerce-dashboard/starter/src/utils/mockApi.js:111-133 | Login succeeds iff some user has that email and password, with a token bearing the prefix. Otherwise it fails with the fixed message. |
| ShopApi.MockCheckAuth | javascript/senior/exercise-3-e-commerce-dashboard/starter/src/utils/mockApi.js:140-161 | The check succeeds iff the token is present and has the prefix, returning the picked user. |
| ShopApi.LoginTokenPassesCheck | javascript/senior/exercise-3-e-commerce-dashboard/starter/src/utils/mockApi.js:111-161 | Every token login issues passes the check. |
| ShopApi.AdminLogsIn | javascript/senior/exercise-3-e-commerce-dashboard/starter/src/utils/mockApi.js:8-18 | The admin's credentials log in as the admin. |
| ShopApi.NumberOr | javascript/senior/exercise-3-e-commerce-dashboard/starter/src/utils/mockApi.js:202-203 | `x \|\| d` on numbers: missing or 0 gives the default. |
| ShopApi.CeilDiv | javascript/senior/exercise-3-e-commerce-dashboard/starter/src/utils/mockApi.js:214 | Math.ceil of the quotient, for either sign of the limit. |
| ShopApi.Clip | javascript/senior/exercise-3-e-commerce-dashboard/starter/src/utils/mockApi.js:207 | A slice bound is clipped into the list. |
| ShopApi.PageItemsClip | javascript/senior/exercise-3-e-commerce-dashboard/starter/src/utils/mockApi.js:204-207 | For positive page and limit, a page is the clipped window starting at (page - 1) * limit. |
| ShopApi.Paginate | javascript/senior/exercise-3-e-commerce-dashboard/starter/src/utils/mockApi.js:201-215 | See the paging notes below the table. |
| ShopApi.PaginateWindow | javascript/senior/exercise-3-e-commerce-dashboard/starter/src/utils/mockApi.js:204-207 | Page item i is list item (page - 1) * limit + i. |
| ShopApi.PageItemsWindow | javascript/senior/exercise-3-e-commerce-dashboard/starter/src/utils/mockApi.js:204-207 | A page has at most limit items, taken consecutively from its start. |
| ShopApi.PageRunPrefix | javascript/senior/exercise-3-e-commerce-dashboard/starter/src/utils/mockApi.js:204-207 | For limit at least 1, any run of pages 1..n of a list concatenates to the list's first n * limit items, or the whole list when that is shorter. |
| ShopApi.PagesCoverList | javascript/senior/exercise-3-e-commerce-dashboard/starter/src/utils/mockApi.js:204-214 | For limit at least 1, pages 1..totalPages concatenate to exactly the whole list, in order. |
| ShopApi.SortSpec | javascript/senior/exercise-3-e-commerce-dashboard/starter/src/utils/mockApi.js:191-192 | A sort is applied iff the sort parameter is truthy. |
| ShopApi.SortSpecOfJoin | javascript/senior/exercise-3-e-commerce-dashboard/starter/src/utils/mockApi.js:192-194 | "field:order" parses back to that field, descending iff the order is desc. |
| ShopApi.SortWith | javascript/senior/exercise-3-e-commerce-dashboard/starter/src/utils/mockApi.js:191-198 | The result is a permutation, ordered by the field's rank in the requested direction. Without a sort the order is kept. |
| ShopApi.FilterProducts | javascript/senior/exercise-3-e-commerce-dashboard/starter/src/utils/mockApi.js:169-188 | See the fetchProducts notes below the table. |
| ShopApi.ProductStages | javascript/senior/exercise-3-e-commerce-dashboard/starter/src/utils/mockApi.js:169-188 | The four filter stages in sequence equal one filter by their conjunction. |
| ShopApi.FetchProducts | javascript/senior/exercise-3-e-commerce-dashboard/starter/src/utils/mockApi.js:164-216 | The total counts the matching products, and every listed product is stored and matches. The page and limit default to 1 and 10. With a sort, the listed products are in non-decreasing rank of the field, or non-increasing for desc. |
| ShopApi.SortAndPage | javascript/senior/exercise-3-e-commerce-dashboard/starter/src/utils/mockApi.js:190-215 | The total is the filtered count and every listed item is filtered. For page and limit at least 1 the page is the slice of the sorted list starting at (page - 1) * limit, at most limit long and empty past the end. It is in the requested order. |
| ShopApi.SortAndPageLimit | javascript/senior/exercise-3-e-commerce-dashboard/starter/src/utils/mockApi.js:203 | An absent or 0 limit pages exactly like an explicit limit of 10. |
| ShopApi.ProductPagesCover | javascript/senior/exercise-3-e-commerce-dashboard/starter/src/utils/mockApi.js:164-216 | Fetching pages 1..totalPages of one query and concatenating them gives every matching product exactly once, sorted as requested. |
| ShopApi.ProductPageOf | javascript/senior/exercise-3-e-commerce-dashboard/starter/src/utils/mockApi.js:164-216 | Page k of fetchProducts is page k of the sorted matches, whatever page the query named. |
| ShopApi.PageItemsIn | javascript/senior/exercise-3-e-commerce-dashboard/starter/src/utils/mockApi.js:207 | Whatever a page lists is in the list. |
| ShopApi.BlankBoundsKeepOnlyFree | javascript/senior/exercise-3-e-commerce-dashboard/starter/src/utils/mockApi.js:182-188 | With the screen's initial filters, a product matches iff its price is 0. |
| ShopApi.BlankBoundsHidePricedProduct | javascript/senior/exercise-3-e-commerce-dashboard/starter/src/utils/mockApi.js:182-188 | A product priced 12 is not listed under the initial filters. |
| ShopApi.FilterProductsFixed | javascript/senior/exercise-3-e-commerce-dashboard/starter/src/utils/mockApi.js:182-188 | The corrected filter ignores empty price bounds. It agrees with the original whenever the bounds are truthy or absent. |
| ShopApi.BlankQueryKeepsAllFixed | javascript/senior/exercise-3-e-commerce-dashboard/starter/src/utils/mockApi.js:182-188 | Under the corrected filter, the initial filters list every product. |
| ShopApi.DecimalPriceBounds | javascript/senior/exercise-3-e-commerce-dashboard/starter/src/utils/mockApi.js:182-188 | A bound written as digits with a decimal point keeps exactly the products priced at least (or at most) its value. |
| ShopApi.NegativePriceBounds | javascript/senior/exercise-3-e-commerce-dashboard/starter/src/utils/mockApi.js:182-188 | A bound written as a minus sign before unsigned decimal text of value v is the bound -v, as a minimum and as a maximum. |
| ShopApi.CentsBoundsFilter | javascript/senior/exercise-3-e-commerce-dashboard/starter/src/utils/mockApi.js:182-188 | A minimum of "9.99" keeps a product priced 12.50 and a maximum of "9.99" drops it. |
| Text.ToNumber | javascript/senior/exercise-3-e-commerce-dashboard/starter/src/utils/mockApi.js:182-188 | Blank or all-white-space bounds convert to 0. |
| Text.ToNumberOfDecimal | javascript/senior/exercise-3-e-commerce-dashboard/starter/src/utils/mockApi.js:182-188 | Digits, a point and digits (either run may be empty, not both) convert to the whole part plus the fraction. |
| Text.UnsignedDecimalOfPoint | javascript/senior/exercise-3-e-commerce-dashboard/starter/src/utils/mockApi.js:182-188 | Digits, a point and digits denote the whole part plus the fraction. |
| Text.ToNumberOfDigits | javascript/senior/exercise-3-e-commerce-dashboard/starter/src/utils/mockApi.js:182-188 | Plain digits convert to their decimal value. |
| Text.UnsignedDecimalOfDigits | javascript/senior/exercise-3-e-commerce-dashboard/starter/src/utils/mockApi.js:182-188 | Plain digits denote their decimal value. |
| Text.ToNumberOfUnsigned | javascript/senior/exercise-3-e-commerce-dashboard/starter/src/utils/mockApi.js:182-188 | Unsigned decimal text of value v converts to v, and with a leading minus to -v. |
| Text.ToNumberOfTrim | javascript/senior/exercise-3-e-commerce-dashboard/starter/src/utils/mockApi.js:182-188 | The conversion looks only at the trimmed text: surrounding white space is ignored. |
| Text.ParseIntOfHex | javascript/senior/exercise-3-e-commerce-dashboard/starter/src/utils/mockApi.js:218-228 | parseInt of `0x` or `0X` followed by radix-16 digits of either case is their value; `0x` with no digit after it is NaN. |
| Text.ParseIntHexExamples | javascript/senior/exercise-3-e-commerce-dashboard/starter/src/utils/mockApi.js:218-228 | parseInt("0x1A") is 26, parseInt("0x2") is 2 and parseInt("0x") is NaN. |
| Text.ParseIntSignedHex | javascript/senior/exercise-3-e-commerce-dashboard/starter/src/utils/mockApi.js:218-228 | The sign is read before the prefix: parseInt("-0X1a") is -26. |
| Text.MagnitudeOfDigits | javascript/senior/exercise-3-e-commerce-dashboard/starter/src/utils/mockApi.js:218-228 | Text of decimal digits has no `0x` prefix and is read in radix 10 as its decimal value. |
| Text.ParseIntOfDigits | javascript/senior/exercise-3-e-commerce-dashboard/starter/src/utils/mockApi.js:218-228 | parseInt of plain decimal digits is their decimal value. |
| Text.ParseIntRoundTrip | javascript/senior/exercise-3-e-commerce-dashboard/starter/src/utils/mockApi.js:218-228 | parseInt reads back the decimal text of every integer, negative ones included. |
| Text.ToNumberRoundTrip | javascript/senior/exercise-3-e-commerce-dashboard/starter/src/utils/mockApi.js:182-188 | Converting back the decimal text of any integer, negative ones included, gives that integer. |
| Text.UnsignedDecimalOfString | javascript/senior/exercise-3-e-commerce-dashboard/starter/src/utils/mockApi.js:182-188 | The decimal text of a natural number is unsigned decimal text with that value. |
| Text.ToNumberOfPrice | javascript/senior/exercise-3-e-commerce-dashboard/starter/src/utils/mockApi.js:182-188 | "9.99" converts to 9.99. |
| Text.ToNumberOfNegativeFraction | javascript/senior/exercise-3-e-commerce-dashboard/starter/src/utils/mockApi.js:182-188 | "-2.5" converts to -2.5. |
| Text.ToNumberOfBlank | javascript/senior/exercise-3-e-commerce-dashboard/starter/src/utils/mockApi.js:182-188 | "" and " " convert to 0. |
| Text.ToNumberOfWord | javascript/senior/exercise-3-e-commerce-dashboard/starter/src/utils/mockApi.js:182-188 | "abc" converts to NaN, which no comparison accepts. |
| Text.ToNumberOfLonePunctuation | javascript/senior/exercise-3-e-commerce-dashboard/starter/src/utils/mockApi.js:182-188 | "." and "-" alone convert to NaN. |
| ShopApi.FetchProductById | javascript/senior/exercise-3-e-commerce-dashboard/starter/src/utils/mockApi.js:218-228 | It fails with "Product not found" iff no product's id equals parseInt(id). Otherwise it returns such a product. parseInt reads decimal text, or radix-16 text after a `0x`/`0X` prefix. |
| ShopApi.HexIdFindsProduct | javascript/senior/exercise-3-e-commerce-dashboard/starter/src/utils/mockApi.js:218-228 | The id "0x2" fetches product 2, because parseInt reads the `0x` prefix in radix 16. |
| ShopApi.CreateProduct | javascript/senior/exercise-3-e-commerce-dashboard/starter/src/utils/mockApi.js:230-243 | The new product's id is length + 1 unless the data gives one. It is stamped now and appended. |
| ShopApi.CreateAfterDeleteDuplicatesId | javascript/senior/exercise-3-e-commerce-dashboard/starter/src/utils/mockApi.js:230-277 | Deleting product 1 of [1, 2] and then creating a product gives id 2 twice. |
| ShopApi.MaxId | javascript/senior/exercise-3-e-commerce-dashboard/starter/src/utils/mockApi.js:234 | The largest product id, at least 0. |
| ShopApi.CreateProductFixed | javascript/senior/exercise-3-e-commerce-dashboard/starter/src/utils/mockApi.js:230-243 | The corrected create uses max id + 1 and keeps the ids distinct. |
| ShopApi.Overlay | javascript/senior/exercise-3-e-commerce-dashboard/starter/src/utils/mockApi.js:254-258 | Each field given in the data overrides the stored one, and the others are kept. |
| ShopApi.UpdateProduct | javascript/senior/exercise-3-e-commerce-dashboard/starter/src/utils/mockApi.js:245-263 | It fails iff no id equals parseInt(id), decimal or `0x` hex. Otherwise the first match is overlaid, stamped and written back in place. |
| ShopApi.DeleteProduct | javascript/senior/exercise-3-e-commerce-dashboard/starter/src/utils/mockApi.js:265-277 | It fails iff no id equals parseInt(id), decimal or `0x` hex. Otherwise exactly the first match is removed. |
| ShopApi.UpdateThenFetch | javascript/senior/exercise-3-e-commerce-dashboard/starter/src/utils/mockApi.js:218-263 | After an update that keeps the id, fetching by id returns the updated product. |
| ShopApi.CreateThenDelete | javascript/senior/exercise-3-e-commerce-dashboard/starter/src/utils/mockApi.js:230-277 | Creating a product and deleting it by its new id restores the table when that id was unused. |
| ShopApi.FilterOrders | javascript/senior/exercise-3-e-commerce-dashboard/starter/src/utils/mockApi.js:285-300 | An order is kept iff it passes each truthy filter: status, customer_id (read by parseInt, decimal or `0x` hex) and case-insensitive search on id or name. Order is kept. |
| ShopApi.FetchOrders | javascript/senior/exercise-3-e-commerce-dashboard/starter/src/utils/mockApi.js:280-328 | The total counts the matching orders, and every listed order is stored and matches. With a sort, the listed orders are in the requested rank order. |
| ShopApi.OrderPagesCover | javascript/senior/exercise-3-e-commerce-dashboard/starter/src/utils/mockApi.js:280-328 | Fetching pages 1..totalPages of one query and concatenating them gives every matching order exactly once, sorted as requested. |
| ShopApi.OrderPageOf | javascript/senior/exercise-3-e-commerce-dashboard/starter/src/utils/mockApi.js:280-328 | Page k of fetchOrders is page k of the sorted matches. |
| ShopApi.FetchOrderById | javascript/senior/exercise-3-e-commerce-dashboard/starter/src/utils/mockApi.js:330-340 | It fails with "Order not found" iff no order has that id as text. |
| ShopApi.UpdateOrderStatus | javascript/senior/exercise-3-e-commerce-dashboard/starter/src/utils/mockApi.js:342-358 | It fails iff no order has the id. Otherwise the first such order gets the status and the time, in place. |
| ShopApi.UpdateOrderStatusThenFetch | javascript/senior/exercise-3-e-commerce-dashboard/starter/src/utils/mockApi.js:330-358 | After a status change, fetching the order returns it with the new status. Only orders with that id differ. |
| ShopApi.FilterCustomers | javascript/senior/exercise-3-e-commerce-dashboard/starter/src/utils/mockApi.js:366-374 | A truthy search keeps customers whose name or email contains it, ignoring case, or whose phone contains it. |
| ShopApi.FetchCustomers | javascript/senior/exercise-3-e-commerce-dashboard/starter/src/utils/mockApi.js:361-402 | The total counts the matching customers, and every listed customer is stored and matches. With a sort, the listed customers are in the requested rank order. |
| ShopApi.CustomerPagesCover | javascript/senior/exercise-3-e-commerce-dashboard/starter/src/utils/mockApi.js:361-402 | Fetching pages 1..totalPages of one query and concatenating them gives every matching customer exactly once, sorted as requested. |
| ShopApi.CustomerPageOf | javascript/senior/exercise-3-e-commerce-dashboard/starter/src/utils/mockApi.js:361-402 | Page k of fetchCustomers is page k of the sorted matches. |
| ShopApi.FetchCustomerById | javascript/senior/exercise-3-e-commerce-dashboard/starter/src/utils/mockApi.js:404-414 | It fails with "Customer not found" iff no id equals parseInt(id). |
| ShopApi.FetchCustomerOrders | javascript/senior/exercise-3-e-commerce-dashboard/starter/src/utils/mockApi.js:416-422 | It returns exactly the orders whose customer id equals parseInt(id). |
| ShopApi.CustomerOrdersAgree | javascript/senior/exercise-3-e-commerce-dashboard/starter/src/utils/mockApi.js:290-292 | A customer's orders equal the order list filtered by that customer_id. |
| ShopApi.StatusCounts | javascript/senior/exercise-3-e-commerce-dashboard/starter/src/utils/mockApi.js:441-444 | One entry per status, holding the number of orders with that status. |
| ShopApi.DashboardStats | javascript/senior/exercise-3-e-commerce-dashboard/starter/src/utils/mockApi.js:425-467 | The totals are the table sizes. There is one status count per status, and it is the number of orders with that status. The top products are the id and name of TopRated's products, in its order. The recent orders are the first five orders. |
| ShopApi.TopRated | javascript/senior/exercise-3-e-commerce-dashboard/starter/src/utils/mockApi.js:447-449 | Five products (all when fewer) taken from the table, in non-increasing rating. No product left out is rated above any product kept. |
| ShopApi.TopRatedStable | javascript/senior/exercise-3-e-commerce-dashboard/starter/src/utils/mockApi.js:447-449 | Equal ratings keep table order: the listed products of any one rating are the first products of that rating in the table, in table order. |
| ShopApi.TopProductsFromTable | javascript/senior/exercise-3-e-commerce-dashboard/starter/src/utils/mockApi.js:447-455 | Each top-product entry carries the id and name of some product in the table. |
| ShopApi.StatusCountsCoverOrders | javascript/senior/exercise-3-e-commerce-dashboard/starter/src/utils/mockApi.js:441-444 | When every order has a known status, the status counts add up to the order count. |
| ShopLists.InitialList | javascript/senior/exercise-3-e-commerce-dashboard/starter/src/features/products/productsSlice.js:71-87 | Each list starts empty, on page 1 of 1, ten per page, with its filters. |
| ShopLists.Pending | javascript/senior/exercise-3-e-commerce-dashboard/starter/src/features/products/productsSlice.js:117-120 | Every pending case sets loading and clears the error only. |
| ShopLists.Rejected | javascript/senior/exercise-3-e-commerce-dashboard/starter/src/features/products/productsSlice.js:129-132 | Every rejected case stops loading and stores the message only. |
| ShopLists.ClearError | javascript/senior/exercise-3-e-commerce-dashboard/starter/src/features/products/productsSlice.js:93-95 | Clears only the error. |
| ShopLists.SetFilters | javascript/senior/exercise-3-e-commerce-dashboard/starter/src/features/products/productsSlice.js:96-102 | The payload's keys overwrite, the others stay, and the page resets to 1. |
| ShopLists.SetFiltersIdempotent | javascript/senior/exercise-3-e-commerce-dashboard/starter/src/features/products/productsSlice.js:96-102 | Setting the same filters twice is setting them once. |
| ShopLists.SetPage | javascript/senior/exercise-3-e-commerce-dashboard/starter/src/features/products/productsSlice.js:103-105 | Only the page changes. |
| ShopLists.SetLimit | javascript/senior/exercise-3-e-commerce-dashboard/starter/src/features/products/productsSlice.js:106-109 | The limit changes and the page resets to 1. |
| ShopLists.ClearDetail | javascript/senior/exercise-3-e-commerce-dashboard/starter/src/features/products/productsSlice.js:110-112 | Only the detail record is cleared. |
| ShopLists.PageFulfilled | javascript/senior/exercise-3-e-commerce-dashboard/starter/src/features/products/productsSlice.js:121-128 | The page and its figures are copied from the response. Detail, error and filters are kept. |
| ShopLists.DetailFulfilled | javascript/senior/exercise-3-e-commerce-dashboard/starter/src/features/products/productsSlice.js:139-142 | The fetched record becomes the detail record. |
| ShopLists.AddFulfilled | javascript/senior/exercise-3-e-commerce-dashboard/starter/src/features/products/productsSlice.js:153-157 | The new record goes first and the total grows by one. |
| ShopLists.ReplaceFulfilled | javascript/senior/exercise-3-e-commerce-dashboard/starter/src/features/orders/ordersSlice.js:126-139 | The first listed record with the id, and a matching detail record, are replaced. Nothing else changes. |
| ShopLists.ReplaceFulfilledIdempotent | javascript/senior/exercise-3-e-commerce-dashboard/starter/src/features/products/productsSlice.js:168-177 | Replacing twice with the same record is replacing once. |
| ShopLists.RemoveFulfilled | javascript/senior/exercise-3-e-commerce-dashboard/starter/src/features/products/productsSlice.js:188-195 | Every record with the id leaves the list, the total drops by one regardless, and a matching detail record is cleared. |
| ShopLists.AddThenRemove | javascript/senior/exercise-3-e-commerce-dashboard/starter/src/features/products/productsSlice.js:153-195 | Adding an unlisted record and removing it restores the list and the total. |
| ShopLists.InitialCustomers | javascript/senior/exercise-3-e-commerce-dashboard/starter/src/features/customers/customersSlice.js:45-59 | The customers list starts empty, with no customer orders. |
| ShopLists.CustomerOrdersFulfilled | javascript/senior/exercise-3-e-commerce-dashboard/starter/src/features/customers/customersSlice.js:126-129 | The customer's orders are stored, and the list only stops loading. |
| ShopLists.ClearCustomerDetail | javascript/senior/exercise-3-e-commerce-dashboard/starter/src/features/customers/customersSlice.js:82-85 | Clears the customer and their orders only. |
| ShopLists.ProductQueryOf | javascript/senior/exercise-3-e-commerce-dashboard/starter/src/features/products/productsSlice.js:80-86 | The request carries the page, the limit and each filter key that is present. |
| ShopLists.Get | javascript/senior/exercise-3-e-commerce-dashboard/starter/src/features/products/productsSlice.js:97-100 | Reading a filter key gives its value iff the key is present. |
| ShopLists.InitialProductsRequest | javascript/senior/exercise-3-e-commerce-dashboard/starter/src/features/products/productsSlice.js:80-86 | The first products request lists only products priced 0. |
| ShopDashboard.EmptyStats | javascript/senior/exercise-3-e-commerce-dashboard/starter/src/features/dashboard/dashboardSlice.js:18-27 | The initial statistics are all zero or empty. |
| ShopDashboard.InitialDashboard | javascript/senior/exercise-3-e-commerce-dashboard/starter/src/features/dashboard/dashboardSlice.js:17-31 | The dashboard starts with empty statistics, not loading and never updated. |
| ShopDashboard.ClearDashboardError | javascript/senior/exercise-3-e-commerce-dashboard/starter/src/features/dashboard/dashboardSlice.js:37-39 | Clears only the error. |
| ShopDashboard.StatsPending | javascript/senior/exercise-3-e-commerce-dashboard/starter/src/features/dashboard/dashboardSlice.js:43-46 | Sets loading and keeps the last statistics. |
| ShopDashboard.StatsFulfilled | javascript/senior/exercise-3-e-commerce-dashboard/starter/src/features/dashboard/dashboardSlice.js:47-51 | Stores the statistics and the update time. |
| ShopDashboard.StatsRejected | javascript/senior/exercise-3-e-commerce-dashboard/starter/src/features/dashboard/dashboardSlice.js:52-55 | Stores the error and keeps the statistics and the time. |
| ShopDashboard.FailedRefreshKeepsStats | javascript/senior/exercise-3-e-commerce-dashboard/starter/src/features/dashboard/dashboardSlice.js:43-55 | A failed refresh still shows the last loaded statistics and time. |
| ShopUi.InitialDarkMode | javascript/senior/exercise-3-e-commerce-dashboard/starter/src/features/ui/uiSlice.js:4-10 | A saved preference wins, as "true" or not. Otherwise the system preference applies. |
| ShopUi.InitialUi | javascript/senior/exercise-3-e-commerce-dashboard/starter/src/features/ui/uiSlice.js:12-18 | The sidebar starts open, with no notifications and no modal. |
| ShopUi.ToggleSidebar | javascript/senior/exercise-3-e-commerce-dashboard/starter/src/features/ui/uiSlice.js:24-26 | Flips only the sidebar. |
| ShopUi.SetSidebarOpen | javascript/senior/exercise-3-e-commerce-dashboard/starter/src/features/ui/uiSlice.js:27-29 | Sets only the sidebar. |
| ShopUi.ToggleDarkMode | javascript/senior/exercise-3-e-commerce-dashboard/starter/src/features/ui/uiSlice.js:30-33 | Flips only dark mode. |
| ShopUi.SetDarkMode | javascript/senior/exercise-3-e-commerce-dashboard/starter/src/features/ui/uiSlice.js:34-37 | Sets only dark mode. |
| ShopUi.TogglesAreInvolutions | javascript/senior/exercise-3-e-commerce-dashboard/starter/src/features/ui/uiSlice.js:24-37 | Each toggle undoes itself and equals setting the negation. |
| ShopUi.UnreadCount | javascript/senior/exercise-3-e-commerce-dashboard/starter/src/features/ui/uiSlice.js:83-84 | The unread count never exceeds the number of notifications. |
| ShopUi.AddNotification | javascript/senior/exercise-3-e-commerce-dashboard/starter/src/features/ui/uiSlice.js:38-45 | The notification is appended unread, stamped now, and the unread count grows by one. |
| ShopUi.MarkAsRead | javascript/senior/exercise-3-e-commerce-dashboard/starter/src/features/ui/uiSlice.js:46-51 | The first entry with the id is marked read, and an unknown id changes nothing. The unread count never grows. |
| ShopUi.MarkLowersUnread | javascript/senior/exercise-3-e-commerce-dashboard/starter/src/features/ui/uiSlice.js:46-51 | Marking one entry read never raises the unread count. |
| ShopUi.MarkAsReadIdempotent | javascript/senior/exercise-3-e-commerce-dashboard/starter/src/features/ui/uiSlice.js:46-51 | Marking twice is marking once. |
| ShopUi.ClearNotifications | javascript/senior/exercise-3-e-commerce-dashboard/starter/src/features/ui/uiSlice.js:52-54 | Empties the notifications only. |
| ShopUi.OpenModal | javascript/senior/exercise-3-e-commerce-dashboard/starter/src/features/ui/uiSlice.js:55-58 | Sets the modal type and its data, None standing for any falsy payload, and changes nothing else. |
| ShopUi.CloseModal | javascript/senior/exercise-3-e-commerce-dashboard/starter/src/features/ui/uiSlice.js:59-62 | Clears the modal and its data only. |
| ShopUi.OpenThenCloseModal | javascript/senior/exercise-3-e-commerce-dashboard/starter/src/features/ui/uiSlice.js:55-62 | Opening and then closing a modal is the same as closing. |
| ShopHelpers.ToInt32 | javascript/senior/exercise-3-e-commerce-dashboard/starter/src/utils/helpers.js:11 | ToInt32 lands in the signed 32-bit range, agrees modulo 2^32 and fixes in-range values. |
| ShopHelpers.ShiftLeft5 | javascript/senior/exercise-3-e-commerce-dashboard/starter/src/utils/helpers.js:11 | `hash << 5` is a signed 32-bit value. |
| ShopHelpers.ColorByte | javascript/senior/exercise-3-e-commerce-dashboard/starter/src/utils/helpers.js:17 | `(hash >> 8i) & 0xff` is a byte. |
| ShopHelpers.HexDigit | javascript/senior/exercise-3-e-commerce-dashboard/starter/src/utils/helpers.js:18 | A digit below 16 prints as a lower-case hex character. |
| ShopHelpers.HexDigitValue | javascript/senior/exercise-3-e-commerce-dashboard/starter/src/utils/helpers.js:18 | Reading a hex character inverts printing it. |
| ShopHelpers.ToHex | javascript/senior/exercise-3-e-commerce-dashboard/starter/src/utils/helpers.js:18 | toString(16) yields at least one hex digit. |
| ShopHelpers.PadHexByte | javascript/senior/exercise-3-e-commerce-dashboard/starter/src/utils/helpers.js:18 | The "00" + hex, slice(-2) padding gives exactly the byte's two digits. |
| ShopHelpers.StringToColor | javascript/senior/exercise-3-e-commerce-dashboard/starter/src/utils/helpers.js:6-22 | The colour is '#' followed by six hex digits. |
| ShopHelpers.ColorEncodesHash | javascript/senior/exercise-3-e-commerce-dashboard/starter/src/utils/helpers.js:6-22 | The three pairs encode the hash's low 24 bits, low byte first. |
| ShopHelpers.HexPairOfByte | javascript/senior/exercise-3-e-commerce-dashboard/starter/src/utils/helpers.js:18 | Printing a byte as two digits and reading it back is the identity. |
| ShopHelpers.EmptyNameIsBlack | javascript/senior/exercise-3-e-commerce-dashboard/starter/src/utils/helpers.js:6-22 | The empty name gets #000000. |
| ShopHelpers.TruncateText | javascript/senior/exercise-3-e-commerce-dashboard/starter/src/utils/helpers.js:63-67 | Falsy text gives '', and text within the limit is kept. Longer text keeps its first max(0, limit) characters and adds "...". |
| ShopHelpers.TruncateTextIdempotent | javascript/senior/exercise-3-e-commerce-dashboard/starter/src/utils/helpers.js:63-67 | Truncating twice is truncating once. |
| ShopHelpers.StatusColor | javascript/senior/exercise-3-e-commerce-dashboard/starter/src/utils/helpers.js:74-95 | A listed lower-cased status gets its colour, anything else 'default'. |
| ShopHelpers.StatusColorIgnoresCase | javascript/senior/exercise-3-e-commerce-dashboard/starter/src/utils/helpers.js:94 | The colour does not depend on case. |
| ShopHelpers.CamelCaseKeysUnreachable | javascript/senior/exercise-3-e-commerce-dashboard/starter/src/utils/helpers.js:84-86 | inStock, lowStock and outOfStock can never be looked up, because the key is lower-cased first, so they get 'default'. |
| ShopHelpers.PercentageChange | javascript/senior/exercise-3-e-commerce-dashboard/starter/src/utils/helpers.js:103-106 | From 0 the change is 100 for growth and 0 otherwise. |
| ShopHelpers.PercentageChangeRoundTrip | javascript/senior/exercise-3-e-commerce-dashboard/starter/src/utils/helpers.js:103-106 | Applying the percentage to the previous value recovers the current one. |
| ShopHelpers.GroupBy | javascript/senior/exercise-3-e-commerce-dashboard/starter/src/utils/helpers.js:157-166 | There is one group per key that occurs, holding that key's items in input order. |
| ShopHelpers.GroupSizesCoverInput | javascript/senior/exercise-3-e-commerce-dashboard/starter/src/utils/helpers.js:157-166 | The group sizes add up to the input length. |
| ShopHelpers.GroupSize | javascript/senior/exercise-3-e-commerce-dashboard/starter/src/utils/helpers.js:157-166 | A group's size is the number of items with that key. |
| ShopHelpers.FirstChars | javascript/senior/exercise-3-e-commerce-dashboard/starter/src/utils/helpers.js:176-178 | Empty parts contribute nothing, because part[0] is undefined and join skips it. |
| ShopHelpers.Initials | javascript/senior/exercise-3-e-commerce-dashboard/starter/src/utils/helpers.js:173-181 | The initials have at most two characters, and a falsy name gives ''. |
| ShopHelpers.InitialsOfWords | javascript/senior/exercise-3-e-commerce-dashboard/starter/src/utils/helpers.js:173-181 | For single-spaced words, the initials are the first two words' first letters, upper-cased. |
| ShopHelpers.IsActive | javascript/senior/exercise-3-e-commerce-dashboard/starter/src/components/layout/Sidebar.js:68-72 | '/' is active only on '/'. Other paths are active on every path they prefix. |
| ShopHelpers.ActiveOnDetailRoutes | javascript/senior/exercise-3-e-commerce-dashboard/starter/src/components/layout/Sidebar.js:68-72 | A section stays active on its sub-routes, and also on "/productsfoo". |
| ShopHelpers.AtMostOneActive | javascript/senior/exercise-3-e-commerce-dashboard/starter/src/components/layout/Sidebar.js:46-57 | At most one of the seven navigation items is active. |
| HelpFaq.FilteredFaqs | javascript/senior/exercise-3-e-commerce-dashboard/starter/src/pages/Help.js:112-117 | An FAQ is shown iff its question or answer contains the term, ignoring case, and it is in the active category or 'all' is active. The order is kept. |
| HelpFaq.EmptySearchShowsCategory | javascript/senior/exercise-3-e-commerce-dashboard/starter/src/pages/Help.js:112-117 | With no term, 'all' shows every FAQ and a category shows its own. |
| HelpFaq.CategoryCounts | javascript/senior/exercise-3-e-commerce-dashboard/starter/src/pages/Help.js:120-127 | 'all' counts every FAQ, and each category counts its own. |
| HelpFaq.CategoryCountsAddUp | javascript/senior/exercise-3-e-commerce-dashboard/starter/src/pages/Help.js:120-127 | When every FAQ has a listed category, the category counts add up to the 'all' count. |
| HelpFaq.BuiltInCountsAddUp | javascript/senior/exercise-3-e-commerce-dashboard/starter/src/pages/Help.js:60-127 | The eight built-in FAQs' counts add up. |
| BlogHelpers.TruncateText | javascript/middle/exercise-3-blog-platform/starter/src/utils/helpers.js:18-21 | Text within the length is kept. Otherwise slice(0, length) + "...", where a negative length counts from the end. |
| BlogHelpers.TruncateTextIdempotent | javascript/middle/exercise-3-blog-platform/starter/src/utils/helpers.js:18-21 | For a non-negative length, truncating twice is truncating once. |
| BlogHelpers.TruncateNegativeCutsAgain | javascript/middle/exercise-3-blog-platform/starter/src/utils/helpers.js:18-21 | With a negative length a second truncation cuts again. |
| BlogHelpers.ReadingTime | javascript/middle/exercise-3-blog-platform/starter/src/utils/helpers.js:28-32 | The reading time is the word count over 200, rounded up, and at least 1. |
| BlogHelpers.ReadingTimeCountsRuns | javascript/middle/exercise-3-blog-platform/starter/src/utils/helpers.js:30 | split(/\s+/) yields one more piece than there are white-space runs. |
| BlogHelpers.ReplaceFromShape | javascript/middle/exercise-3-blog-platform/starter/src/utils/helpers.js:43-44 | Run replacement leaves no two adjacent run characters. |
| BlogHelpers.ReplaceRunsShape | javascript/middle/exercise-3-blog-platform/starter/src/utils/helpers.js:43-44 | Each output character is the replacement or a kept non-run character, and no two run characters are adjacent. |
| BlogHelpers.ReplaceRunsFixed | javascript/middle/exercise-3-blog-platform/starter/src/utils/helpers.js:43-44 | Text already in that shape is left unchanged. |
| BlogHelpers.ReplaceRunsKeeps | javascript/middle/exercise-3-blog-platform/starter/src/utils/helpers.js:43-44 | A property of every kept character and of the replacement holds for all output. |
| BlogHelpers.GenerateSlug | javascript/middle/exercise-3-blog-platform/starter/src/utils/helpers.js:39-46 | The slug uses only [a-z0-9_-], never has "--", and the final trim removes nothing. |
| BlogHelpers.SlugBodyChars | javascript/middle/exercise-3-blog-platform/starter/src/utils/helpers.js:40-45 | Before trimming, the slug already has only slug characters, so trim is the identity. |
| BlogHelpers.GenerateSlugIdempotent | javascript/middle/exercise-3-blog-platform/starter/src/utils/helpers.js:39-46 | Slugging a slug returns it unchanged. |
| BlogHelpers.LeadingDashSurvives | javascript/middle/exercise-3-blog-platform/starter/src/utils/helpers.js:43-45 | " a" slugs to "-a", because trim does not remove dashes. |
| BlogHelpers.RelevanceScore | javascript/middle/exercise-3-blog-platform/starter/src/utils/helpers.js:73-86 | A shared category is worth 3 and each shared tag 1. |
| BlogHelpers.SelfScoreIsMaximal | javascript/middle/exercise-3-blog-platform/starter/src/utils/helpers.js:73-86 | No post scores higher than the current post against itself. |
| BlogHelpers.RelatedPosts | javascript/middle/exercise-3-blog-platform/starter/src/utils/helpers.js:55-65 | At most limit posts, none of them the current post and all from the list. They are in non-increasing relevance score, and no other post left out scores above any post listed. |
| BlogHelpers.RelatedPostsStable | javascript/middle/exercise-3-blog-platform/starter/src/utils/helpers.js:55-65 | Equal scores keep list order: the returned posts of any one score are the first other posts of that score, in list order. |
| BlogHelpers.RankedFacts | javascript/middle/exercise-3-blog-platform/starter/src/utils/helpers.js:56-63 | The ranking holds only other posts, in non-increasing score. |
| BlogHelpers.RelatedPostsArePrefix | javascript/middle/exercise-3-blog-platform/starter/src/utils/helpers.js:55-65 | For a non-negative limit, the related posts are the first limit posts of an ordering of all the other posts by non-increasing relevance score. |
| BlogList.SortPosts | javascript/middle/exercise-3-blog-platform/starter/src/pages/BlogListPage.js:45-58 | See the sortPosts notes below the table. |
| BlogList.ListPosts | javascript/middle/exercise-3-blog-platform/starter/src/pages/BlogListPage.js:20-42 | The list shows exactly the posts with the tag (or All) that match the term, as a permutation of the filtered posts. newest and oldest order them by date, a-z and z-a by collation rank, and any other option keeps the filtered order. |
| BlogList.TwoFilters | javascript/middle/exercise-3-blog-platform/starter/src/pages/BlogListPage.js:24-36 | The two conditional filter stages equal one filter by their conjunction. |
| BlogList.DefaultsShowEverything | javascript/middle/exercise-3-blog-platform/starter/src/pages/BlogListPage.js:20-57 | Tag All, no term and an unknown sort list every post in order. |
| ProductGallery.Categories | javascript/junior/exercise-3-product-gallery/solution/src/components/ProductGallery.js:14 | 'All' first, then each category that occurs, once, in first-seen order. |
| ProductGallery.CategoriesDistinct | javascript/junior/exercise-3-product-gallery/solution/src/components/ProductGallery.js:14 | The tabs are distinct iff no product's category is literally 'All'. |
| ProductGallery.FirstCategoryFirst | javascript/junior/exercise-3-product-gallery/solution/src/components/ProductGallery.js:14 | The first product's category is the first tab after 'All'. |
| ProductGallery.FilterGallery | javascript/junior/exercise-3-product-gallery/solution/src/components/ProductGallery.js:17-33 | A product is shown iff it is in the tab (or All) and its name contains the query, ignoring case. |
| ProductGallery.BothStages | javascript/junior/exercise-3-product-gallery/solution/src/components/ProductGallery.js:20-30 | The two conditional stages equal one filter by their conjunction. |
| ProductGallery.ShownInOrder | javascript/junior/exercise-3-product-gallery/solution/src/components/ProductGallery.js:17-33 | The shown products keep their catalogue order. |
| ProductGallery.InitialShowsAll | javascript/junior/exercise-3-product-gallery/solution/src/components/ProductGallery.js:9-11 | The initial state shows every product. |
| ProductGallery.TabsPartition | javascript/junior/exercise-3-product-gallery/solution/src/components/ProductGallery.js:14-33 | The category tabs' counts add up to the catalogue size. |
| ProductGallery.TabCount | javascript/junior/exercise-3-product-gallery/solution/src/components/ProductGallery.js:70 | A tab shows exactly the products of that category. |
| ProductReviews.AverageRating | javascript/middle/exercise-2-ecommerce-product-page/starter/src/components/ProductReviews.js:9 | The average times the count is the sum. With no reviews it is NaN, here None. |
| ProductReviews.SumBounds | javascript/middle/exercise-2-ecommerce-product-page/starter/src/components/ProductReviews.js:9 | The rating sum lies between count times the lowest and count times the highest rating. |
| ProductReviews.AverageBounds | javascript/middle/exercise-2-ecommerce-product-page/starter/src/components/ProductReviews.js:9 | The average lies within the ratings' bounds. |
| ProductReviews.SortReviews | javascript/middle/exercise-2-ecommerce-product-page/starter/src/components/ProductReviews.js:12-19 | 'date' puts the newest first, as a permutation. Every other option keeps the order. |
| ProductReviews.SameDayKeepsOrder | javascript/middle/exercise-2-ecommerce-product-page/starter/src/components/ProductReviews.js:12-19 | Reviews of the same day keep their relative order. |
| ProductReviews.RenderStars | javascript/middle/exercise-2-ecommerce-product-page/starter/src/components/ProductReviews.js:22-44 | floor(r) full stars, one half star iff the fraction is at least 0.5, and the rest of five empty, drawn full first, then half, then empty. NaN draws nothing. |
| ProductReviews.FiveStars | javascript/middle/exercise-2-ecommerce-product-page/starter/src/components/ProductReviews.js:22-44 | For a rating in [0, 5] exactly five stars are drawn, at most one of them half. |
| ProductReviews.SummaryStars | javascript/middle/exercise-2-ecommerce-product-page/starter/src/components/ProductReviews.js:53 | The summary shows five stars when there are reviews, and none without. |

Longer "states" entries:

- **KanbanStore.MoveTask** (`moveTask`):
  - A missing column leaves the state unchanged.
  - Within one column, taskIds is permuted and the moved id lands at the normalised destination index.
  - Boards, status and other columns are unchanged.
- **KanbanStore.DeleteBoard** (`deleteBoard`):
  - It removes the board as removeOne does.
  - Every column and every task whose boardId names the board is gone. In a consistent store nothing else is removed; the remaining columns and tasks are unchanged and their ids keep their order.
  - When the deleted board was active, the first remaining board becomes active, or none.
- **KanbanStore.UpdateTask** (`updateTask`):
  - It upserts the task.
  - A changed columnId takes the id out of the old column and appends it to the new one.
  - Otherwise no column changes.
- **KanbanDrag.HandleDragEnd** (`handleDragEnd`):
  - There is no dispatch without a destination, or for a drop in place.
  - A column drop dispatches moveColumn; any other drop dispatches moveTask with both droppables and indexes.
- **KanbanTasks.FilterTask** (`filterTask`): a task passes iff it meets every truthy criterion.
  - priority: the priority name matches.
  - assignee: the assignee matches.
  - due date: the date lies in the chosen bucket.
  - search: the term is found in the title or description, ignoring case.
- **ChatStore.AddMessage** (`addMessage`):
  - The message is stored and its id listed once.
  - A truthy room appends the id to the room's index.
  - Otherwise, with both sender and receiver, the id goes to the direct chat's index, and the direct chat is created once.
- **ShopApi.Paginate** (paging in the mock back end):
  - The page and limit default to 1 and 10, and the total is the list length.
  - totalPages is the ceiling of total over limit.
  - A page holds at most limit items.
- **ShopApi.FilterProducts** (`fetchProducts`): a product is kept iff
  - it passes the category and search filters when they are truthy, with search case-insensitive on name or description, and
  - it passes each price bound that is present, even when the bound is ''. The bound is compared as `Number(bound)`: signed decimal text with an optional fraction is its value, blank text is 0, and any other text is NaN, which drops every product.

  The order is kept.
- **BlogList.SortPosts** (`sortPosts`):
  - The result is always a permutation.
  - newest and oldest order by date; a-z and z-a order by collation rank.
  - Any other option keeps the input as it is.

## Left out

- Asynchronous thunks, timers, delays, `setTimeout` auto-removal in `showNotification`, and the React view layer are left out. Each thunk's effect on the store is modelled through its fulfilled, pending or rejected reducer.
- Clock readings, uuids, `Math.random` and the system dark-mode preference are parameters: `now`, `id`, `pick`, `suffix` and `prefersDark`.
- `localStorage` writes in the dark-mode reducers are left out; the initial read is the `saved` parameter.
- The Redux Toolkit entity adapter is library code outside this repository. `EntityAdapter` models its documented behaviour for `addOne`, `setAll`, `upsertOne` with whole entities, `removeOne` and `removeMany`.
- Dates are integer timestamps or ranks. `localeCompare` and the e-commerce sort fields are integer ranks passed in by the caller (`collate`, `rank`).
- The e-commerce comparator never returns 0, so for equal keys its order depends on the engine's sort algorithm. The model uses a stable sort, which agrees whenever keys differ.
- KanbanTasks.FilterTask: the due-date buckets (overdue, today, week, month) are a predicate parameter `inBucket`, because they read the current date.
- Text.ToNumber: models `Number()` for trimmed decimal text with an optional sign and fraction. Exponents (`1e3`), hex, octal and binary prefixes (`0x1f`) and `Infinity` are read as NaN here, although JavaScript gives them values.
- Text.ParseInt: reads decimal and `0x`-prefixed radix-16 text exactly. JavaScript rounds a value beyond 2^53 to a double, which the model does not; ids never come near it.
- Text.ToNumberOfDigits, Text.ToNumberOfDecimal: state the reading of unsigned text only. The minus sign is stated once, for any unsigned decimal text, by Text.ToNumberOfUnsigned, which takes its value from Text.UnsignedDecimalOfDigits or Text.UnsignedDecimalOfPoint.
- ShopApi.DecimalPriceBounds: covers unsigned bounds; ShopApi.NegativePriceBounds covers a bound with a minus sign.
- Product prices are exact reals, so double rounding of `Math.floor(Math.random() * 10000) / 100` and of the bound's conversion is not modelled. Ratings are integers in tenths, as the `toFixed(1)` text has one decimal.
- Strings are sequences of `char`. UTF-16 surrogate pairs are not modelled. Case mapping is ASCII only.
- Averages and percentage changes use mathematical reals, so floating-point rounding, `toFixed` and `NaN` (as `None`) are not modelled.
- ShopHelpers.StringToColor: only `hash << 5` is 32-bit; the addition and subtraction are exact integers (`ColorHash`). This agrees with JavaScript while |hash| stays below 2^53, beyond which JavaScript's doubles round and the model does not.
- `groupBy` and `getStatusColor` look keys up in plain objects, so keys such as `constructor` hit `Object.prototype`. The model uses maps without inherited keys.
- `formatCurrency`, `formatDate`, `formatPercentage`, `formatFileSize`, `generateId`, `debounce` and `isEmptyObject` are formatting, randomness, timing or reflection. They are left out.
- `mockLogout` always succeeds after a delay, so it is left out.
- ShopApi.CreateProduct: a field the payload leaves out is undefined in the source, which would make a later search throw and the rating sort compare NaN. The model fills it with "", 0.0 or 0, so callers are taken to supply every field.
- ShopApi.DashboardStats: `revenueByDay` and each top product's `sales` and `revenue` are random, and `totalRevenue` is a floating-point sum, so they are left out. The model keeps the counts, the top products' ids and names, and the recent orders.
- The `rating-high` and `rating-low` review options have no implementation in the source: the comparator returns 0, so the order is unchanged. `SortReviews` models exactly that.
- ProductGallery.TabsPartition requires that no product's category is literally `All`. Such a product would appear under the `All` tab only, and `CategoriesDistinct` states the iff.
- KanbanInvariant.MoveTaskInv requires source and destination columns on the same board, because `moveTask` does not update a moved task's `boardId`. The drag-and-drop UI only offers columns of the active board.
- KanbanInvariant.CreateColumnInv, CreateTaskInv, DeleteColumnInv and DeleteTaskInv take the thunks' guarantees as preconditions: a fresh uuid, and payload ids that name the owning board or column.
- KanbanFiltersModal.HandleDateChange: a field name other than `start` or `end` adds a property to `dueDateRange` that nothing reads. The model leaves the range unchanged.
- KanbanStore.MoveTask and MoveColumn require the source index to name an element, because `splice` would otherwise insert `undefined`. Moving across columns when the moved id has no task is a no-op, because the reducer throws and Immer discards the draft.
- `fetchBoards` receives objects keyed by id. The model takes their `Object.values` as sequences.
- `CurrentChatData` requires a signed-in user for a direct chat, because the page reads `user.id`. A signed-out user would throw.

## Findings

| source | as written | input that shows it | evidently intended | confidence | as-written member | corrected member |
|---|---|---|---|---|---|---|
| javascript/senior/exercise-1-real-time-chat/starter/src/store/slices/userSlice.js:60-72 | `addUser` pushes an online user's id onto `online` but never removes one | add `user1` online, then add `user1` with status `offline`: `user1` stays in `online` | `online` lists exactly the users whose status is online, as `updateUserStatus` keeps it | not executed | ChatUsers.AddUserLeavesStaleOnline | ChatUsers.AddUserFixedExact |
| javascript/senior/exercise-3-e-commerce-dashboard/starter/src/utils/mockApi.js:182-188 | a price bound is applied whenever the key is present, and `''` compares as 0 | the products screen's initial filters have `minPrice: ''` and `maxPrice: ''`, so a product priced 12 is filtered out | empty bounds are ignored, like the empty category and search | not executed | ShopApi.BlankBoundsHidePricedProduct | ShopApi.BlankQueryKeepsAllFixed |
| javascript/senior/exercise-3-e-commerce-dashboard/starter/src/utils/mockApi.js:230-243 | a new product's id is `products.length + 1` | products [1, 2]; delete 1; create: the new product gets id 2, which is already taken | ids stay unique, for example max id + 1 | not executed | ShopApi.CreateAfterDeleteDuplicatesId | ShopApi.CreateProductFixed |
