/** The kanban board's normalized store: boards, columns and tasks held in
    three entity adapters and cross-linked by `columnOrder`, `taskIds`,
    `boardId` and `columnId`, with the reducers of the `boards` slice and its
    two selectors. Every reducer is a pure function from the old state and the
    action payload to the new state; a reducer that throws leaves the store
    as it was. */
module KanbanStore {
  import opened Wrappers
  import opened Seqs
  import opened EntityAdapter

  datatype Priority = Low | Medium | High

  /** The string a task's `priority` field holds. */
  function PriorityName(p: Priority): string {
    match p
    case Low => "low"
    case Medium => "medium"
    case High => "high"
  }

  /** Timestamps are milliseconds since the epoch. */
  datatype Task = Task(
    id: Id, title: string, description: string, priority: Priority,
    dueDate: Option<int>, assignedTo: Option<Id>,
    columnId: Id, boardId: Id, createdAt: int, updatedAt: Option<int>)

  datatype Column = Column(
    id: Id, title: string, boardId: Id, taskIds: seq<Id>, wip: Option<int>, createdAt: int)

  datatype Board = Board(
    id: Id, title: string, description: string, columnOrder: seq<Id>,
    createdAt: int, updatedAt: Option<int>)

  datatype Status = Idle | Loading | Succeeded | Failed

  datatype BoardState = BoardState(
    boards: EntityState<Board>, columns: EntityState<Column>, tasks: EntityState<Task>,
    activeBoard: Option<Id>, status: Status, error: Option<string>)

  function BoardKey(b: Board): Id { b.id }
  function ColumnKey(c: Column): Id { c.id }
  function TaskKey(t: Task): Id { t.id }

  /** The slice's initial state. */
  function Initial(): BoardState {
    BoardState(Empty(), Empty(), Empty(), None, Idle, None)
  }

  /** Overwrite the stored column with id `c.id` (an Immer write through
      `state.columns.entities[key]`). */
  function PutColumn(st: BoardState, key: Id, c: Column): BoardState {
    st.(columns := st.columns.(entities := st.columns.entities[key := c]))
  }

  function PutBoard(st: BoardState, key: Id, b: Board): BoardState {
    st.(boards := st.boards.(entities := st.boards.entities[key := b]))
  }

  function PutTask(st: BoardState, key: Id, t: Task): BoardState {
    st.(tasks := st.tasks.(entities := st.tasks.entities[key := t]))
  }

  /** `setActiveBoard`. */
  function SetActiveBoard(st: BoardState, id: Option<Id>): (r: BoardState)
    ensures r.activeBoard == id
    ensures r.boards == st.boards && r.columns == st.columns && r.tasks == st.tasks
    ensures r.status == st.status && r.error == st.error
  {
    st.(activeBoard := id)
  }

  /** `moveTask`: take the id at `sourceIndex` out of the source column and
      insert it at `destinationIndex` of the destination column; across
      columns the task's `columnId` follows. Either column missing: no-op.
      The source requires `sourceIndex` to name an element (otherwise
      `undefined` would be inserted). */
  function MoveTask(st: BoardState, src: Id, dst: Id, sourceIndex: int, destinationIndex: int): (r: BoardState)
    requires src in st.columns.entities && dst in st.columns.entities ==>
      SpliceRemoves(|st.columns.entities[src].taskIds|, sourceIndex)
    ensures src !in st.columns.entities || dst !in st.columns.entities ==> r == st
    ensures r.boards == st.boards && r.activeBoard == st.activeBoard
    ensures r.status == st.status && r.error == st.error
    ensures forall c :: c in r.columns.entities <==> c in st.columns.entities
    ensures r.columns.ids == st.columns.ids && r.columns.entities.Keys == st.columns.entities.Keys
    ensures r.tasks.ids == st.tasks.ids && r.tasks.entities.Keys == st.tasks.entities.Keys
    ensures forall c | c in st.columns.entities && c != src && c != dst ::
      r.columns.entities[c] == st.columns.entities[c]
    ensures src == dst && src in st.columns.entities ==>
      var ids := st.columns.entities[src].taskIds;
      var moved := ids[RelIndex(|ids|, sourceIndex)];
      && r.tasks == st.tasks
      && r.columns.entities[src] == st.columns.entities[src].(taskIds := r.columns.entities[src].taskIds)
      && |r.columns.entities[src].taskIds| == |ids|
      && multiset(r.columns.entities[src].taskIds) == multiset(ids)
      && r.columns.entities[src].taskIds[RelIndex(|ids| - 1, destinationIndex)] == moved
  {
    if src !in st.columns.entities || dst !in st.columns.entities then st
    else
      var source := st.columns.entities[src];
      var k := RelIndex(|source.taskIds|, sourceIndex);
      var moved := source.taskIds[k];
      if src == dst then
        PutColumn(st, src, source.(taskIds := Move(source.taskIds, sourceIndex, destinationIndex)))
      else
        var dest := st.columns.entities[dst];
        if moved !in st.tasks.entities then st
        else
          var st1 := PutColumn(st, src, source.(taskIds := RemoveAt(source.taskIds, k)));
          var st2 := PutColumn(st1, dst, dest.(taskIds := InsertAt(dest.taskIds, RelIndex(|dest.taskIds|, destinationIndex), moved)));
          PutTask(st2, moved, st.tasks.entities[moved].(columnId := dst))
  }

  /** Across two columns, `moveTask` removes exactly the id at `sourceIndex`
      from the source, inserts it at `destinationIndex` in the destination,
      re-homes that task and changes no other task. */
  lemma MoveTaskAcross(st: BoardState, src: Id, dst: Id, sourceIndex: int, destinationIndex: int)
    requires src in st.columns.entities && dst in st.columns.entities && src != dst
    requires SpliceRemoves(|st.columns.entities[src].taskIds|, sourceIndex)
    requires var ids := st.columns.entities[src].taskIds;
      ids[RelIndex(|ids|, sourceIndex)] in st.tasks.entities
    ensures var ids := st.columns.entities[src].taskIds;
      var k := RelIndex(|ids|, sourceIndex);
      var dids := st.columns.entities[dst].taskIds;
      var r := MoveTask(st, src, dst, sourceIndex, destinationIndex);
      && r.columns.entities[src] == st.columns.entities[src].(taskIds := RemoveAt(ids, k))
      && r.columns.entities[dst] == st.columns.entities[dst].(taskIds := InsertAt(dids, RelIndex(|dids|, destinationIndex), ids[k]))
      && r.tasks.entities[ids[k]] == st.tasks.entities[ids[k]].(columnId := dst)
      && forall t | t in st.tasks.entities && t != ids[k] :: r.tasks.entities[t] == st.tasks.entities[t]
  {
  }

  /** `moveColumn`: reorder the active board's `columnOrder` by a remove and
      an insert. No active board (`null` or `''`) or an unknown one: no-op. */
  function MoveColumn(st: BoardState, sourceIndex: int, destinationIndex: int): (r: BoardState)
    requires Truthy(st.activeBoard) && st.activeBoard.value in st.boards.entities ==>
      SpliceRemoves(|st.boards.entities[st.activeBoard.value].columnOrder|, sourceIndex)
    ensures !Truthy(st.activeBoard) || st.activeBoard.value !in st.boards.entities ==> r == st
    ensures r.columns == st.columns && r.tasks == st.tasks && r.activeBoard == st.activeBoard
    ensures r.status == st.status && r.error == st.error
    ensures r.boards.ids == st.boards.ids && r.boards.entities.Keys == st.boards.entities.Keys
    ensures forall b | b in st.boards.entities && Some(b) != st.activeBoard ::
      r.boards.entities[b] == st.boards.entities[b]
    ensures Truthy(st.activeBoard) && st.activeBoard.value in st.boards.entities ==>
      var b := st.activeBoard.value;
      var order := st.boards.entities[b].columnOrder;
      && r.boards.entities[b] == st.boards.entities[b].(columnOrder := r.boards.entities[b].columnOrder)
      && |r.boards.entities[b].columnOrder| == |order|
      && multiset(r.boards.entities[b].columnOrder) == multiset(order)
      && r.boards.entities[b].columnOrder[RelIndex(|order| - 1, destinationIndex)]
         == order[RelIndex(|order|, sourceIndex)]
  {
    if !Truthy(st.activeBoard) then st
    else if st.activeBoard.value !in st.boards.entities then st
    else
      var board := st.boards.entities[st.activeBoard.value];
      PutBoard(st, st.activeBoard.value, board.(columnOrder := Move(board.columnOrder, sourceIndex, destinationIndex)))
  }

  /** `fetchBoards.pending`. */
  function FetchBoardsPending(st: BoardState): (r: BoardState)
    ensures r.status == Loading
    ensures r.(status := st.status) == st
  {
    st.(status := Loading)
  }

  /** `fetchBoards.fulfilled`: all three adapters replaced with the payload,
      and the first board made active when none is. */
  function FetchBoardsFulfilled(st: BoardState, boards: seq<Board>, columns: seq<Column>, tasks: seq<Task>): (r: BoardState)
    ensures r.status == Succeeded && r.error == st.error
    ensures r.boards == SetAll(boards, BoardKey)
    ensures r.columns == SetAll(columns, ColumnKey)
    ensures r.tasks == SetAll(tasks, TaskKey)
    ensures Truthy(st.activeBoard) ==> r.activeBoard == st.activeBoard
    ensures !Truthy(st.activeBoard) && |boards| > 0 ==> r.activeBoard == Some(BoardKey(boards[0]))
    ensures !Truthy(st.activeBoard) && |boards| == 0 ==> r.activeBoard == st.activeBoard
  {
    var bs := SetAll(boards, BoardKey);
    AddManyIds(boards, BoardKey);
    var active := if !Truthy(st.activeBoard) && |bs.ids| > 0 then Some(bs.ids[0]) else st.activeBoard;
    assert |boards| > 0 ==> |bs.ids| > 0 && bs.ids[0] == BoardKey(boards[0]) by {
      if |boards| > 0 {
        DedupFirst(Map(boards, BoardKey));
      }
    }
    BoardState(bs, SetAll(columns, ColumnKey), SetAll(tasks, TaskKey), active, Succeeded, st.error)
  }

  /** `fetchBoards.rejected`: the payload message, or the fixed fallback when
      the payload is empty. */
  function FetchBoardsRejected(st: BoardState, payload: Option<string>): (r: BoardState)
    ensures r.status == Failed
    ensures Truthy(payload) ==> r.error == payload
    ensures !Truthy(payload) ==> r.error == Some("Failed to fetch boards")
    ensures r.boards == st.boards && r.columns == st.columns && r.tasks == st.tasks
    ensures r.activeBoard == st.activeBoard
  {
    st.(status := Failed, error := Some(OrElse(payload, "Failed to fetch boards")))
  }

  /** `createBoard.fulfilled`: add the board and make it the active one. */
  function CreateBoard(st: BoardState, b: Board): (r: BoardState)
    ensures r.activeBoard == Some(b.id)
    ensures AddedOne(st.boards, r.boards, b, BoardKey)
    ensures r.columns == st.columns && r.tasks == st.tasks
    ensures r.status == st.status && r.error == st.error
  {
    st.(boards := AddOne(st.boards, b, BoardKey), activeBoard := Some(b.id))
  }

  /** `updateBoard.fulfilled`: upsert the board. */
  function UpdateBoard(st: BoardState, b: Board): (r: BoardState)
    ensures UpsertedOne(st.boards, r.boards, b, BoardKey)
    ensures r.columns == st.columns && r.tasks == st.tasks && r.activeBoard == st.activeBoard
    ensures r.status == st.status && r.error == st.error
  {
    st.(boards := UpsertOne(st.boards, b, BoardKey))
  }

  /** The ids of the stored columns whose `boardId` is `boardId`. */
  function ColumnsOfBoard(st: BoardState, boardId: Id): (r: set<Id>)
    ensures forall c | c in st.columns.entities && st.columns.entities[c].boardId == boardId ::
      st.columns.entities[c].id in r
  {
    set c | c in st.columns.entities && st.columns.entities[c].boardId == boardId :: st.columns.entities[c].id
  }

  function TasksOfBoard(st: BoardState, boardId: Id): (r: set<Id>)
    ensures forall t | t in st.tasks.entities && st.tasks.entities[t].boardId == boardId ::
      st.tasks.entities[t].id in r
  {
    set t | t in st.tasks.entities && st.tasks.entities[t].boardId == boardId :: st.tasks.entities[t].id
  }

  function TasksOfColumn(st: BoardState, columnId: Id): (r: set<Id>)
    ensures forall t | t in st.tasks.entities && st.tasks.entities[t].columnId == columnId ::
      st.tasks.entities[t].id in r
  {
    set t | t in st.tasks.entities && st.tasks.entities[t].columnId == columnId :: st.tasks.entities[t].id
  }

  /** `deleteBoard.fulfilled`: remove the board, every column and every task
      whose `boardId` matches, and if the board was active make the first
      remaining board (or none) active. */
  function DeleteBoard(st: BoardState, boardId: Id): (r: BoardState)
    ensures RemovedOne(st.boards, r.boards, boardId, BoardKey)
    ensures RemovedWhere(st.columns, r.columns, (c: Column) => c.boardId == boardId, ColumnKey)
    ensures RemovedWhere(st.tasks, r.tasks, (t: Task) => t.boardId == boardId, TaskKey)
    ensures st.activeBoard != Some(boardId) ==> r.activeBoard == st.activeBoard
    ensures st.activeBoard == Some(boardId) ==>
      r.activeBoard == (if |r.boards.ids| > 0 then Some(r.boards.ids[0]) else None)
    ensures r.status == st.status && r.error == st.error
  {
    var tasks := RemoveMany(st.tasks, TasksOfBoard(st, boardId), TaskKey);
    var columns := RemoveMany(st.columns, ColumnsOfBoard(st, boardId), ColumnKey);
    RemoveManyWhere(st.tasks, TasksOfBoard(st, boardId), (t: Task) => t.boardId == boardId, TaskKey);
    RemoveManyWhere(st.columns, ColumnsOfBoard(st, boardId), (c: Column) => c.boardId == boardId, ColumnKey);
    var boards := RemoveOne(st.boards, boardId, BoardKey);
    var active :=
      if st.activeBoard == Some(boardId) then (if |boards.ids| > 0 then Some(boards.ids[0]) else None)
      else st.activeBoard;
    BoardState(boards, columns, tasks, active, st.status, st.error)
  }

  /** `createColumn.fulfilled`: add the column, and append its id to its
      board's `columnOrder` when that board exists. */
  function CreateColumn(st: BoardState, c: Column): (r: BoardState)
    ensures AddedOne(st.columns, r.columns, c, ColumnKey)
    ensures r.tasks == st.tasks && r.activeBoard == st.activeBoard
    ensures r.status == st.status && r.error == st.error
    ensures r.boards.ids == st.boards.ids && r.boards.entities.Keys == st.boards.entities.Keys
    ensures forall b | b in st.boards.entities && b != c.boardId :: r.boards.entities[b] == st.boards.entities[b]
    ensures c.boardId in st.boards.entities ==>
      r.boards.entities[c.boardId] == st.boards.entities[c.boardId].(columnOrder := st.boards.entities[c.boardId].columnOrder + [c.id])
  {
    var st1 := st.(columns := AddOne(st.columns, c, ColumnKey));
    if c.boardId in st1.boards.entities then
      var board := st1.boards.entities[c.boardId];
      PutBoard(st1, c.boardId, board.(columnOrder := board.columnOrder + [c.id]))
    else st1
  }

  /** `updateColumn.fulfilled`: upsert the column. */
  function UpdateColumn(st: BoardState, c: Column): (r: BoardState)
    ensures UpsertedOne(st.columns, r.columns, c, ColumnKey)
    ensures r.boards == st.boards && r.tasks == st.tasks && r.activeBoard == st.activeBoard
    ensures r.status == st.status && r.error == st.error
  {
    st.(columns := UpsertOne(st.columns, c, ColumnKey))
  }

  /** `deleteColumn.fulfilled`: remove every task whose `columnId` matches,
      the column itself, and the column's id from the named board's
      `columnOrder`. Other boards are untouched. */
  function DeleteColumn(st: BoardState, columnId: Id, boardId: Id): (r: BoardState)
    ensures RemovedWhere(st.tasks, r.tasks, (t: Task) => t.columnId == columnId, TaskKey)
    ensures RemovedOne(st.columns, r.columns, columnId, ColumnKey)
    ensures r.boards.ids == st.boards.ids && r.boards.entities.Keys == st.boards.entities.Keys
    ensures forall b | b in st.boards.entities && b != boardId :: r.boards.entities[b] == st.boards.entities[b]
    ensures boardId in st.boards.entities ==>
      r.boards.entities[boardId] == st.boards.entities[boardId].(columnOrder := Without(st.boards.entities[boardId].columnOrder, {columnId}))
    ensures r.activeBoard == st.activeBoard && r.status == st.status && r.error == st.error
  {
    RemoveManyWhere(st.tasks, TasksOfColumn(st, columnId), (t: Task) => t.columnId == columnId, TaskKey);
    var st1 := st.(
      tasks := RemoveMany(st.tasks, TasksOfColumn(st, columnId), TaskKey),
      columns := RemoveOne(st.columns, columnId, ColumnKey));
    if boardId in st1.boards.entities then
      var board := st1.boards.entities[boardId];
      PutBoard(st1, boardId, board.(columnOrder := Without(board.columnOrder, {columnId})))
    else st1
  }

  /** `createTask.fulfilled`: add the task, and append its id to its column's
      `taskIds` when that column exists. */
  function CreateTask(st: BoardState, t: Task): (r: BoardState)
    ensures AddedOne(st.tasks, r.tasks, t, TaskKey)
    ensures r.boards == st.boards && r.activeBoard == st.activeBoard
    ensures r.status == st.status && r.error == st.error
    ensures r.columns.ids == st.columns.ids && r.columns.entities.Keys == st.columns.entities.Keys
    ensures forall c | c in st.columns.entities && c != t.columnId :: r.columns.entities[c] == st.columns.entities[c]
    ensures t.columnId in st.columns.entities ==>
      r.columns.entities[t.columnId] == st.columns.entities[t.columnId].(taskIds := st.columns.entities[t.columnId].taskIds + [t.id])
  {
    var st1 := st.(tasks := AddOne(st.tasks, t, TaskKey));
    if t.columnId in st1.columns.entities then
      var column := st1.columns.entities[t.columnId];
      PutColumn(st1, t.columnId, column.(taskIds := column.taskIds + [t.id]))
    else st1
  }

  /** `updateTask.fulfilled`: when the stored task exists and its `columnId`
      changes, filter its id out of the old column and append it to the new
      one (each only if it exists); then upsert the task. */
  function UpdateTask(st: BoardState, t: Task): (r: BoardState)
    ensures UpsertedOne(st.tasks, r.tasks, t, TaskKey)
    ensures r.boards == st.boards && r.activeBoard == st.activeBoard
    ensures r.status == st.status && r.error == st.error
    ensures r.columns.ids == st.columns.ids && r.columns.entities.Keys == st.columns.entities.Keys
    ensures t.id !in st.tasks.entities || st.tasks.entities[t.id].columnId == t.columnId ==>
      r.columns == st.columns
    ensures t.id in st.tasks.entities && st.tasks.entities[t.id].columnId != t.columnId ==>
      var prev := st.tasks.entities[t.id].columnId;
      && (prev in st.columns.entities ==>
           r.columns.entities[prev] == st.columns.entities[prev].(taskIds := Without(st.columns.entities[prev].taskIds, {t.id})))
      && (t.columnId in st.columns.entities ==>
           r.columns.entities[t.columnId] == st.columns.entities[t.columnId].(taskIds := st.columns.entities[t.columnId].taskIds + [t.id]))
      && forall c | c in st.columns.entities && c != prev && c != t.columnId ::
           r.columns.entities[c] == st.columns.entities[c]
  {
    var st1 :=
      if t.id in st.tasks.entities && st.tasks.entities[t.id].columnId != t.columnId then
        var prev := st.tasks.entities[t.id].columnId;
        var s1 :=
          if prev in st.columns.entities then
            PutColumn(st, prev, st.columns.entities[prev].(taskIds := Without(st.columns.entities[prev].taskIds, {t.id})))
          else st;
        if t.columnId in s1.columns.entities then
          PutColumn(s1, t.columnId, s1.columns.entities[t.columnId].(taskIds := s1.columns.entities[t.columnId].taskIds + [t.id]))
        else s1
      else st;
    st1.(tasks := UpsertOne(st1.tasks, t, TaskKey))
  }

  /** `deleteTask.fulfilled`: remove the task and filter its id out of the
      named column. */
  function DeleteTask(st: BoardState, taskId: Id, columnId: Id): (r: BoardState)
    ensures RemovedOne(st.tasks, r.tasks, taskId, TaskKey)
    ensures r.boards == st.boards && r.activeBoard == st.activeBoard
    ensures r.status == st.status && r.error == st.error
    ensures r.columns.ids == st.columns.ids && r.columns.entities.Keys == st.columns.entities.Keys
    ensures forall c | c in st.columns.entities && c != columnId :: r.columns.entities[c] == st.columns.entities[c]
    ensures columnId in st.columns.entities ==>
      r.columns.entities[columnId] == st.columns.entities[columnId].(taskIds := Without(st.columns.entities[columnId].taskIds, {taskId}))
  {
    var st1 := st.(tasks := RemoveOne(st.tasks, taskId, TaskKey));
    if columnId in st1.columns.entities then
      var column := st1.columns.entities[columnId];
      PutColumn(st1, columnId, column.(taskIds := Without(column.taskIds, {taskId})))
    else st1
  }

  /** `selectActiveBoard`: the active board, or nothing when no board is
      active or the active id names no board. */
  function SelectActiveBoard(st: BoardState): (r: Option<Board>)
    ensures r.Some? <==> Truthy(st.activeBoard) && st.activeBoard.value in st.boards.entities
    ensures r.Some? ==> r.value == st.boards.entities[st.activeBoard.value]
  {
    if Truthy(st.activeBoard) then SelectById(st.boards, st.activeBoard.value) else None
  }

  /** `selectActiveBoardColumns`: the active board's columns in `columnOrder`
      order, dropping ids that name no column; `[]` without an active board. */
  function SelectActiveBoardColumns(st: BoardState): (r: seq<Column>)
    ensures SelectActiveBoard(st).None? ==> r == []
    ensures SelectActiveBoard(st).Some? ==>
      var order := SelectActiveBoard(st).value.columnOrder;
      var shown := KeepKeys(order, st.columns.entities.Keys);
      |r| == |shown| && forall i | 0 <= i < |r| :: r[i] == st.columns.entities[shown[i]]
  {
    match SelectActiveBoard(st)
    case None => []
    case Some(board) => Resolve(board.columnOrder, st.columns.entities)
  }
}
