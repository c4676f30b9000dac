/** The kanban board's seed data and entity generators: the sample payload
    the `fetchBoards` thunk resolves with, the exported fixture maps, and
    `generateTask` / `generateColumn` / `generateBoard`. Clock readings, the
    random due dates and the uuid are parameters. */
module KanbanFixtures {
  import opened Wrappers
  import opened Seqs
  import opened EntityAdapter
  import opened KanbanStore
  import opened KanbanInvariant

  const DayMs: int := 24 * 60 * 60 * 1000

  // ---------------------------------------------------------------------------
  // The sample payload of `fetchBoards`

  function SampleBoards(now: int): seq<Board> {
    [Board("board-1", "Project Alpha", "Main development board for Project Alpha",
           ["column-1", "column-2", "column-3"], now, Some(now))]
  }

  function SampleColumns(now: int): seq<Column> {
    [ Column("column-1", "To Do", "board-1", ["task-1", "task-2", "task-3"], None, now),
      Column("column-2", "In Progress", "board-1", ["task-4"], None, now),
      Column("column-3", "Done", "board-1", ["task-5"], None, now) ]
  }

  function SampleTasks(now: int): seq<Task> {
    [ Task("task-1", "Research API options", "Evaluate different API options for the backend",
           High, Some(now + 7 * DayMs), Some("user-1"), "column-1", "board-1", now, None),
      Task("task-2", "Create wireframes", "Design initial wireframes for the dashboard",
           Medium, Some(now + 3 * DayMs), Some("user-2"), "column-1", "board-1", now, None),
      Task("task-3", "Setup development environment", "Configure development environment and tools",
           Low, Some(now + DayMs), None, "column-1", "board-1", now, None),
      Task("task-4", "Implement authentication", "Create user authentication system with JWT",
           High, Some(now + 2 * DayMs), Some("user-1"), "column-2", "board-1", now, None),
      Task("task-5", "Project setup", "Initialize project repository and documentation",
           Medium, Some(now - DayMs), Some("user-2"), "column-3", "board-1", now, None) ]
  }

  /** `r` holds exactly the sample payload: ids in payload order, each entity
      under its id. */
  ghost predicate HoldsSample(r: BoardState, now: int) {
    var bs := SampleBoards(now);
    var cs := SampleColumns(now);
    var ts := SampleTasks(now);
    && r.boards.ids == ["board-1"] && r.boards.entities.Keys == {"board-1"}
    && r.boards.entities["board-1"] == bs[0]
    && r.columns.ids == ["column-1", "column-2", "column-3"]
    && r.columns.entities.Keys == {"column-1", "column-2", "column-3"}
    && r.columns.entities["column-1"] == cs[0] && r.columns.entities["column-2"] == cs[1]
    && r.columns.entities["column-3"] == cs[2]
    && r.tasks.ids == ["task-1", "task-2", "task-3", "task-4", "task-5"]
    && r.tasks.entities.Keys == {"task-1", "task-2", "task-3", "task-4", "task-5"}
    && r.tasks.entities["task-1"] == ts[0] && r.tasks.entities["task-2"] == ts[1]
    && r.tasks.entities["task-3"] == ts[2] && r.tasks.entities["task-4"] == ts[3]
    && r.tasks.entities["task-5"] == ts[4]
  }

  /** A store holding the sample payload is consistent. */
  lemma SampleConsistent(st: BoardState, now: int)
    requires HoldsSample(st, now)
    ensures Inv(st)
  {
    SampleAdapters(st, now);
    SampleBoardsResolve(st, now);
    SampleColumnsResolve(st, now);
    SamplePlaced(st, now);
  }

  lemma SampleAdapters(st: BoardState, now: int)
    requires HoldsSample(st, now)
    ensures AdaptersValid(st)
  {
  }

  lemma SampleBoardsResolve(st: BoardState, now: int)
    requires HoldsSample(st, now)
    ensures BoardsResolve(st)
  {
  }

  lemma SampleColumnsResolve(st: BoardState, now: int)
    requires HoldsSample(st, now)
    ensures ColumnsResolve(st)
  {
    var cs := st.columns.entities;
    forall c | c in cs
      ensures NoDup(cs[c].taskIds)
      ensures forall i | 0 <= i < |cs[c].taskIds| :: TaskOfColumn(st, cs[c].taskIds[i], c)
    {
      if c == "column-1" {
        assert cs[c].taskIds == ["task-1", "task-2", "task-3"];
      } else if c == "column-2" {
        assert cs[c].taskIds == ["task-4"];
      } else {
        assert cs[c].taskIds == ["task-5"];
      }
    }
  }

  lemma SamplePlaced(st: BoardState, now: int)
    requires HoldsSample(st, now)
    ensures ColumnsPlaced(st) && TasksPlaced(st)
  {
  }

  /** `fetchBoards.fulfilled` with the sample payload, from any state, loads
      exactly the sample, which is consistent; `board-1` becomes active
      unless a board already was. */
  lemma SampleLoad(st: BoardState, now: int)
    ensures var r := FetchBoardsFulfilled(st, SampleBoards(now), SampleColumns(now), SampleTasks(now));
      && HoldsSample(r, now)
      && Inv(r)
      && r.activeBoard == (if Truthy(st.activeBoard) then st.activeBoard else Some("board-1"))
  {
    var r := FetchBoardsFulfilled(st, SampleBoards(now), SampleColumns(now), SampleTasks(now));
    SampleBoardsLoad(now);
    SampleColumnsLoad(now);
    SampleTasksLoad(now);
    SampleConsistent(r, now);
  }

  lemma SampleBoardsLoad(now: int)
    ensures var r := SetAll(SampleBoards(now), BoardKey);
      && r.ids == ["board-1"] && r.entities.Keys == {"board-1"}
      && r.entities["board-1"] == SampleBoards(now)[0]
  {
    var bs := SampleBoards(now);
    assert Map(bs, BoardKey) == ["board-1"];
    SetAllDistinct(bs, BoardKey);
    assert BoardKey(bs[0]) == "board-1";
  }

  lemma SampleColumnsLoad(now: int)
    ensures var r := SetAll(SampleColumns(now), ColumnKey);
      && r.ids == ["column-1", "column-2", "column-3"]
      && r.entities.Keys == {"column-1", "column-2", "column-3"}
      && r.entities["column-1"] == SampleColumns(now)[0]
      && r.entities["column-2"] == SampleColumns(now)[1]
      && r.entities["column-3"] == SampleColumns(now)[2]
  {
    var cs := SampleColumns(now);
    assert Map(cs, ColumnKey) == ["column-1", "column-2", "column-3"];
    SetAllDistinct(cs, ColumnKey);
    assert ColumnKey(cs[0]) == "column-1" && ColumnKey(cs[1]) == "column-2" && ColumnKey(cs[2]) == "column-3";
  }

  lemma SampleTasksLoad(now: int)
    ensures var r := SetAll(SampleTasks(now), TaskKey);
      && r.ids == ["task-1", "task-2", "task-3", "task-4", "task-5"]
      && r.entities.Keys == {"task-1", "task-2", "task-3", "task-4", "task-5"}
      && r.entities["task-1"] == SampleTasks(now)[0] && r.entities["task-2"] == SampleTasks(now)[1]
      && r.entities["task-3"] == SampleTasks(now)[2] && r.entities["task-4"] == SampleTasks(now)[3]
      && r.entities["task-5"] == SampleTasks(now)[4]
  {
    var ts := SampleTasks(now);
    SampleTaskIds(now);
    SetAllDistinct(ts, TaskKey);
    SampleTaskKeys(now);
  }

  lemma SampleTaskIds(now: int)
    ensures Map(SampleTasks(now), TaskKey) == ["task-1", "task-2", "task-3", "task-4", "task-5"]
    ensures NoDup(Map(SampleTasks(now), TaskKey))
  {
  }

  lemma SampleTaskKeys(now: int)
    ensures SetAll(SampleTasks(now), TaskKey).entities.Keys == {"task-1", "task-2", "task-3", "task-4", "task-5"}
  {
    var ts := SampleTasks(now);
    SampleTaskIds(now);
    SetAllKeys(ts, TaskKey);
  }

  /** With distinct ids, the keys `setAll` stores are exactly the ids it lists. */
  lemma SetAllKeys<T>(es: seq<T>, idOf: T -> Id)
    requires NoDup(Map(es, idOf))
    ensures SetAll(es, idOf).entities.Keys == set k | k in Map(es, idOf)
  {
    SetAllDistinct(es, idOf);
  }

  // ---------------------------------------------------------------------------
  // The exported fixture maps

  /** The fixture boards; both were created at `past` and updated at `now`. */
  function FixtureBoards(past: int, now: int): EntityState<Board> {
    EntityState(["board1", "board2"], map[
      "board1" := Board("board1", "Project Alpha", "Main development board for Project Alpha",
                        ["column1", "column2", "column3"], past, Some(now)),
      "board2" := Board("board2", "Marketing Campaign", "Q3 Marketing Campaign Planning",
                        ["column4", "column5", "column6"], past, Some(now))])
  }

  function FixtureColumns(past: int): EntityState<Column> {
    EntityState(["column1", "column2", "column3", "column4", "column5", "column6"], map[
      "column1" := Column("column1", "To Do", "board1", ["task1", "task2", "task3"], Some(0), past),
      "column2" := Column("column2", "In Progress", "board1", ["task4", "task5"], Some(3), past),
      "column3" := Column("column3", "Done", "board1", ["task6"], Some(0), past),
      "column4" := Column("column4", "Ideas", "board2", ["task7", "task8"], Some(0), past),
      "column5" := Column("column5", "Planning", "board2", ["task9"], Some(2), past),
      "column6" := Column("column6", "Completed", "board2", ["task10"], Some(0), past)])
  }

  /** The fixture tasks; `due(k)` is the random due date drawn for task `k`. */
  function FixtureTasks(past: int, now: int, due: int -> int): EntityState<Task> {
    EntityState(["task1", "task2", "task3", "task4", "task5", "task6", "task7", "task8", "task9", "task10"], map[
      "task1" := Task("task1", "Research API integration options",
        "Evaluate different API integration approaches and select the best one for our needs",
        High, Some(due(1)), Some("user2"), "column1", "board1", past, Some(now)),
      "task2" := Task("task2", "Design database schema",
        "Create the initial database schema for the project",
        Medium, Some(due(2)), Some("user3"), "column1", "board1", past, Some(now)),
      "task3" := Task("task3", "Setup CI/CD pipeline",
        "Configure the CI/CD pipeline for automated testing and deployment",
        Low, None, None, "column1", "board1", past, Some(now)),
      "task4" := Task("task4", "Implement user authentication",
        "Add user authentication functionality using JWT",
        High, Some(due(4)), Some("user2"), "column2", "board1", past, Some(now)),
      "task5" := Task("task5", "Create responsive UI components",
        "Develop reusable UI components that work across different screen sizes",
        Medium, Some(due(5)), Some("user3"), "column2", "board1", past, Some(now)),
      "task6" := Task("task6", "Write unit tests",
        "Create comprehensive unit tests for core functionality",
        Medium, Some(due(6)), Some("user2"), "column3", "board1", past, Some(now)),
      "task7" := Task("task7", "Social media campaign ideas",
        "Brainstorm ideas for the upcoming social media campaign",
        Medium, Some(due(7)), Some("user4"), "column4", "board2", past, Some(now)),
      "task8" := Task("task8", "Email newsletter template",
        "Design a new template for the monthly newsletter",
        Low, Some(due(8)), Some("user3"), "column4", "board2", past, Some(now)),
      "task9" := Task("task9", "Budget allocation",
        "Allocate budget for different marketing channels",
        High, Some(due(9)), Some("user1"), "column5", "board2", past, Some(now)),
      "task10" := Task("task10", "Competitor analysis",
        "Complete analysis of top 5 competitors",
        High, Some(due(10)), Some("user4"), "column6", "board2", past, Some(now))])
  }

  function FixtureStore(past: int, now: int, due: int -> int): BoardState {
    BoardState(FixtureBoards(past, now), FixtureColumns(past), FixtureTasks(past, now, due), None, Idle, None)
  }

  /** The fixtures are referentially consistent, and each `ids` array lists
      exactly the keys of its `entities` map. */
  lemma FixturesConsistent(past: int, now: int, due: int -> int)
    ensures Inv(FixtureStore(past, now, due))
  {
    var st := FixtureStore(past, now, due);
    FixtureAdapters(past, now, due);
    FixtureBoardsResolve(past, now, due);
    FixtureColumnsResolve(past, now, due);
    FixtureColumnsPlaced(past, now, due);
    FixtureTasksPlaced(past, now, due);
  }

  lemma FixtureAdapters(past: int, now: int, due: int -> int)
    ensures AdaptersValid(FixtureStore(past, now, due))
  {
    FixtureBoardsValid(past, now);
    FixtureColumnsValid(past);
    FixtureTasksValid(past, now, due);
  }

  lemma FixtureBoardsValid(past: int, now: int)
    ensures Valid(FixtureBoards(past, now), BoardKey)
  {
  }

  lemma FixtureColumnsValid(past: int)
    ensures Valid(FixtureColumns(past), ColumnKey)
  {
  }

  lemma FixtureTasksValid(past: int, now: int, due: int -> int)
    ensures Valid(FixtureTasks(past, now, due), TaskKey)
  {
    var ts := FixtureTasks(past, now, due);
    assert NoDup(ts.ids);
    assert forall i | 0 <= i < |ts.ids| :: ts.ids[i] in ts.entities;
    assert forall k | k in ts.entities :: k in ts.ids;
    assert forall k | k in ts.entities :: TaskKey(ts.entities[k]) == k;
  }

  lemma FixtureBoardsResolve(past: int, now: int, due: int -> int)
    ensures BoardsResolve(FixtureStore(past, now, due))
  {
  }

  lemma FixtureColumnsResolve(past: int, now: int, due: int -> int)
    ensures ColumnsResolve(FixtureStore(past, now, due))
  {
    var st := FixtureStore(past, now, due);
    var cs := st.columns.entities;
    forall c | c in cs
      ensures NoDup(cs[c].taskIds)
      ensures forall i | 0 <= i < |cs[c].taskIds| :: TaskOfColumn(st, cs[c].taskIds[i], c)
    {
      if c == "column1" {
        FixtureColumn1Resolves(past, now, due);
      } else if c == "column2" {
        FixtureColumn2Resolves(past, now, due);
      } else if c == "column3" {
        FixtureColumn3Resolves(past, now, due);
      } else if c == "column4" {
        FixtureColumn4Resolves(past, now, due);
      } else if c == "column5" {
        FixtureColumn5Resolves(past, now, due);
      } else {
        assert c == "column6";
        FixtureColumn6Resolves(past, now, due);
      }
    }
  }

  lemma FixtureColumn1Resolves(past: int, now: int, due: int -> int)
    ensures var cs := FixtureColumns(past).entities;
      "column1" in cs && NoDup(cs["column1"].taskIds)
      && forall i | 0 <= i < |cs["column1"].taskIds| :: TaskOfColumn(FixtureStore(past, now, due), cs["column1"].taskIds[i], "column1")
  {
    var cs := FixtureColumns(past).entities;
    var ts := FixtureTasks(past, now, due).entities;
    assert cs["column1"].taskIds == ["task1", "task2", "task3"] && cs["column1"].boardId == "board1";
    assert "task1" in ts && ts["task1"].columnId == "column1" && ts["task1"].boardId == "board1";
    assert "task2" in ts && ts["task2"].columnId == "column1" && ts["task2"].boardId == "board1";
    assert "task3" in ts && ts["task3"].columnId == "column1" && ts["task3"].boardId == "board1";
  }

  lemma FixtureColumn2Resolves(past: int, now: int, due: int -> int)
    ensures var cs := FixtureColumns(past).entities;
      "column2" in cs && NoDup(cs["column2"].taskIds)
      && forall i | 0 <= i < |cs["column2"].taskIds| :: TaskOfColumn(FixtureStore(past, now, due), cs["column2"].taskIds[i], "column2")
  {
    var cs := FixtureColumns(past).entities;
    var ts := FixtureTasks(past, now, due).entities;
    assert cs["column2"].taskIds == ["task4", "task5"] && cs["column2"].boardId == "board1";
    assert "task4" in ts && ts["task4"].columnId == "column2" && ts["task4"].boardId == "board1";
    assert "task5" in ts && ts["task5"].columnId == "column2" && ts["task5"].boardId == "board1";
  }

  lemma FixtureColumn3Resolves(past: int, now: int, due: int -> int)
    ensures var cs := FixtureColumns(past).entities;
      "column3" in cs && NoDup(cs["column3"].taskIds)
      && forall i | 0 <= i < |cs["column3"].taskIds| :: TaskOfColumn(FixtureStore(past, now, due), cs["column3"].taskIds[i], "column3")
  {
    var cs := FixtureColumns(past).entities;
    var ts := FixtureTasks(past, now, due).entities;
    assert cs["column3"].taskIds == ["task6"] && cs["column3"].boardId == "board1";
    assert "task6" in ts && ts["task6"].columnId == "column3" && ts["task6"].boardId == "board1";
  }

  lemma FixtureColumn4Resolves(past: int, now: int, due: int -> int)
    ensures var cs := FixtureColumns(past).entities;
      "column4" in cs && NoDup(cs["column4"].taskIds)
      && forall i | 0 <= i < |cs["column4"].taskIds| :: TaskOfColumn(FixtureStore(past, now, due), cs["column4"].taskIds[i], "column4")
  {
    var cs := FixtureColumns(past).entities;
    var ts := FixtureTasks(past, now, due).entities;
    assert cs["column4"].taskIds == ["task7", "task8"] && cs["column4"].boardId == "board2";
    assert "task7" in ts && ts["task7"].columnId == "column4" && ts["task7"].boardId == "board2";
    assert "task8" in ts && ts["task8"].columnId == "column4" && ts["task8"].boardId == "board2";
  }

  lemma FixtureColumn5Resolves(past: int, now: int, due: int -> int)
    ensures var cs := FixtureColumns(past).entities;
      "column5" in cs && NoDup(cs["column5"].taskIds)
      && forall i | 0 <= i < |cs["column5"].taskIds| :: TaskOfColumn(FixtureStore(past, now, due), cs["column5"].taskIds[i], "column5")
  {
    var cs := FixtureColumns(past).entities;
    var ts := FixtureTasks(past, now, due).entities;
    assert cs["column5"].taskIds == ["task9"] && cs["column5"].boardId == "board2";
    assert "task9" in ts && ts["task9"].columnId == "column5" && ts["task9"].boardId == "board2";
  }

  lemma FixtureColumn6Resolves(past: int, now: int, due: int -> int)
    ensures var cs := FixtureColumns(past).entities;
      "column6" in cs && NoDup(cs["column6"].taskIds)
      && forall i | 0 <= i < |cs["column6"].taskIds| :: TaskOfColumn(FixtureStore(past, now, due), cs["column6"].taskIds[i], "column6")
  {
    var cs := FixtureColumns(past).entities;
    var ts := FixtureTasks(past, now, due).entities;
    assert cs["column6"].taskIds == ["task10"] && cs["column6"].boardId == "board2";
    assert "task10" in ts && ts["task10"].columnId == "column6" && ts["task10"].boardId == "board2";
  }

  lemma FixtureColumnsPlaced(past: int, now: int, due: int -> int)
    ensures ColumnsPlaced(FixtureStore(past, now, due))
  {
  }

  lemma FixtureTasksPlaced(past: int, now: int, due: int -> int)
    ensures TasksPlaced(FixtureStore(past, now, due))
  {
  }

  /** Every fixture task is listed in exactly one column. */
  lemma FixtureTaskInOneColumn(past: int, now: int, due: int -> int, t: Id, c: Id)
    requires t in FixtureTasks(past, now, due).entities && c in FixtureColumns(past).entities
    ensures t in FixtureColumns(past).entities[c].taskIds <==> FixtureTasks(past, now, due).entities[t].columnId == c
  {
    FixturesConsistent(past, now, due);
    ListedInExactlyOneColumn(FixtureStore(past, now, due), t, c);
  }

  /** Every fixture column has a non-negative WIP limit. */
  lemma FixtureWipNonNegative(past: int)
    ensures forall c | c in FixtureColumns(past).entities ::
      FixtureColumns(past).entities[c].wip.Some? && FixtureColumns(past).entities[c].wip.value >= 0
  {
  }

  // ---------------------------------------------------------------------------
  // Entity generators. `id` is the fresh uuid and `now` the clock reading.

  /** The form data `generateTask` reads; `None` stands for a missing or
      falsy field. */
  datatype TaskInput = TaskInput(
    title: string, description: Option<string>, priority: Option<Priority>,
    columnId: Id, boardId: Id, assignedTo: Option<Id>, dueDate: Option<int>)

  /** `generateTask`: defaults `''`, `'medium'` and `null`, both timestamps `now`. */
  function GenerateTask(id: Id, now: int, data: TaskInput): (r: Task)
    ensures r.id == id && r.title == data.title
    ensures r.columnId == data.columnId && r.boardId == data.boardId
    ensures r.description == (if Truthy(data.description) then data.description.value else "")
    ensures r.priority == (if data.priority.Some? then data.priority.value else Medium)
    ensures Truthy(data.assignedTo) <==> r.assignedTo.Some?
    ensures r.assignedTo.Some? ==> r.assignedTo == data.assignedTo
    ensures r.dueDate == data.dueDate
    ensures r.createdAt == now && r.updatedAt == Some(now)
  {
    Task(id, data.title, OrElse(data.description, ""), data.priority.GetOr(Medium),
         data.dueDate, if Truthy(data.assignedTo) then data.assignedTo else None,
         data.columnId, data.boardId, now, Some(now))
  }

  datatype ColumnInput = ColumnInput(title: string, boardId: Id, wip: Option<int>)

  /** `generateColumn`: no tasks yet, and a WIP limit of 0 unless one is given. */
  function GenerateColumn(id: Id, now: int, data: ColumnInput): (r: Column)
    ensures r.id == id && r.title == data.title && r.boardId == data.boardId
    ensures r.taskIds == []
    ensures r.wip.Some? && (data.wip.Some? ==> r.wip == data.wip) && (data.wip.None? ==> r.wip == Some(0))
    ensures r.createdAt == now
  {
    Column(id, data.title, data.boardId, [], Some(data.wip.GetOr(0)), now)
  }

  datatype BoardInput = BoardInput(title: string, description: Option<string>)

  /** `generateBoard`: no columns yet, description defaulting to `''`. */
  function GenerateBoard(id: Id, now: int, data: BoardInput): (r: Board)
    ensures r.id == id && r.title == data.title
    ensures r.description == (if Truthy(data.description) then data.description.value else "")
    ensures r.columnOrder == []
    ensures r.createdAt == now && r.updatedAt == Some(now)
  {
    Board(id, data.title, OrElse(data.description, ""), [], now, Some(now))
  }

  /** A generated board starts empty, so adding it keeps the store consistent
      whether or not its id is taken. */
  lemma CreateGeneratedBoardInv(st: BoardState, id: Id, now: int, data: BoardInput)
    requires Inv(st)
    ensures Inv(CreateBoard(st, GenerateBoard(id, now, data)))
  {
    CreateBoardInv(st, GenerateBoard(id, now, data));
  }

  /** A generated column with a fresh id on an existing board keeps the store
      consistent. */
  lemma CreateGeneratedColumnInv(st: BoardState, id: Id, now: int, data: ColumnInput)
    requires Inv(st)
    requires id !in st.columns.entities && data.boardId in st.boards.entities
    ensures Inv(CreateColumn(st, GenerateColumn(id, now, data)))
  {
    CreateColumnInv(st, GenerateColumn(id, now, data));
  }

  /** A generated task with a fresh id, placed in an existing column of the
      board it names, keeps the store consistent. */
  lemma CreateGeneratedTaskInv(st: BoardState, id: Id, now: int, data: TaskInput)
    requires Inv(st)
    requires id !in st.tasks.entities && data.columnId in st.columns.entities
    requires data.boardId == st.columns.entities[data.columnId].boardId
    ensures Inv(CreateTask(st, GenerateTask(id, now, data)))
  {
    CreateTaskInv(st, GenerateTask(id, now, data));
  }
}
