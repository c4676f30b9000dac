/** The kanban board's task filter and sort, and the per-column pipeline the
    board view builds from them: resolve a column's `taskIds`, keep the tasks
    that pass the filters, sort what is left. The due-date buckets read the
    clock, so they arrive as a parameter `inBucket(bucket, dueDate)`. */
module KanbanTasks {
  import opened Wrappers
  import opened Seqs
  import opened Text
  import opened Sorting
  import opened EntityAdapter
  import opened KanbanStore

  /** The `filters` record of the UI slice; `null` and `''` are both "off". */
  datatype Filters = Filters(
    priority: Option<string>, assignee: Option<string>,
    dueDate: Option<string>, searchTerm: Option<string>)

  /** Whether a task's due date falls in the named bucket relative to today. */
  type Buckets = (string, Option<int>) -> bool

  /** The four bucket names the filter recognises; any other name is ignored. */
  predicate KnownBucket(name: string) {
    name == "overdue" || name == "today" || name == "week" || name == "month"
  }

  predicate PriorityOk(t: Task, f: Filters) {
    !Truthy(f.priority) || PriorityName(t.priority) == f.priority.value
  }

  predicate AssigneeOk(t: Task, f: Filters) {
    !Truthy(f.assignee) || t.assignedTo == Some(f.assignee.value)
  }

  predicate DueOk(t: Task, f: Filters, inBucket: Buckets) {
    !Truthy(f.dueDate) || !KnownBucket(f.dueDate.value) || inBucket(f.dueDate.value, t.dueDate)
  }

  predicate SearchOk(t: Task, f: Filters) {
    !Truthy(f.searchTerm)
    || ContainsIgnoreCase(t.title, f.searchTerm.value)
    || ContainsIgnoreCase(t.description, f.searchTerm.value)
  }

  /** `filterTask`: a chain of early rejections, one per active criterion. */
  function FilterTask(t: Task, f: Filters, inBucket: Buckets): (r: bool)
    ensures r <==> PriorityOk(t, f) && AssigneeOk(t, f) && DueOk(t, f, inBucket) && SearchOk(t, f)
  {
    if Truthy(f.priority) && PriorityName(t.priority) != f.priority.value then false
    else if Truthy(f.assignee) && t.assignedTo != Some(f.assignee.value) then false
    else if Truthy(f.dueDate) && (
      || (f.dueDate.value == "overdue" && !inBucket("overdue", t.dueDate))
      || (f.dueDate.value == "today" && !inBucket("today", t.dueDate))
      || (f.dueDate.value == "week" && !inBucket("week", t.dueDate))
      || (f.dueDate.value == "month" && !inBucket("month", t.dueDate))) then false
    else if Truthy(f.searchTerm)
      && !Contains(Lower(t.title), Lower(f.searchTerm.value))
      && !Contains(Lower(t.description), Lower(f.searchTerm.value)) then false
    else true
  }

  /** With every criterion off, every task passes. */
  lemma NoFiltersKeepsAll(t: Task, inBucket: Buckets, f: Filters)
    requires !Truthy(f.priority) && !Truthy(f.assignee) && !Truthy(f.dueDate) && !Truthy(f.searchTerm)
    ensures FilterTask(t, f, inBucket)
  {
  }

  /** `g` has every criterion of `f`, and possibly more. */
  predicate Stricter(g: Filters, f: Filters) {
    && (Truthy(f.priority) ==> g.priority == f.priority)
    && (Truthy(f.assignee) ==> g.assignee == f.assignee)
    && (Truthy(f.dueDate) ==> g.dueDate == f.dueDate)
    && (Truthy(f.searchTerm) ==> g.searchTerm == f.searchTerm)
  }

  /** The filter is a conjunction, so switching criteria on only removes tasks. */
  lemma StricterFiltersKeepFewer(t: Task, f: Filters, g: Filters, inBucket: Buckets)
    requires Stricter(g, f)
    ensures FilterTask(t, g, inBucket) ==> FilterTask(t, f, inBucket)
  {
  }

  /** The sort key `sortTasks` compares: a timestamp, a due date (`null`
      converts to 0), a priority rank, or 0 for any other `sortBy`. */
  function SortKey(sortBy: string): Task -> int {
    (t: Task) =>
      if sortBy == "createdAt" then t.createdAt
      else if sortBy == "dueDate" then t.dueDate.GetOr(0)
      else if sortBy == "priority" then PriorityRank(t.priority)
      else 0
  }

  /** `{ low: 1, medium: 2, high: 3 }`. */
  function PriorityRank(p: Priority): (r: int)
    ensures 1 <= r <= 3
    ensures p == Low <==> r == 1
    ensures p == High <==> r == 3
  {
    match p
    case Low => 1
    case Medium => 2
    case High => 3
  }

  /** `sortTasks`: a stable sort of a copy; `'asc'` ascends, anything else
      descends. */
  function SortTasks(tasks: seq<Task>, sortBy: string, direction: string): (r: seq<Task>)
    ensures |r| == |tasks| && multiset(r) == multiset(tasks)
    ensures direction == "asc" ==> forall i, j | 0 <= i < j < |r| :: SortKey(sortBy)(r[i]) <= SortKey(sortBy)(r[j])
    ensures direction != "asc" ==> forall i, j | 0 <= i < j < |r| :: SortKey(sortBy)(r[i]) >= SortKey(sortBy)(r[j])
  {
    var r := SortByKey(tasks, Directed(SortKey(sortBy), direction == "asc"));
    assert direction != "asc" ==> forall i, j | 0 <= i < j < |r| :: SortKey(sortBy)(r[i]) >= SortKey(sortBy)(r[j]) by {
      if direction != "asc" {
        DescendingOrder(tasks, SortKey(sortBy));
      }
    }
    r
  }

  /** `sortTasks` is stable: tasks that compare equal keep their relative
      order, in either direction. */
  lemma SortTasksStable(tasks: seq<Task>, sortBy: string, direction: string, v: int)
    ensures WithKey(SortTasks(tasks, sortBy, direction), SortKey(sortBy), v) == WithKey(tasks, SortKey(sortBy), v)
  {
    var key := Directed(SortKey(sortBy), direction == "asc");
    var w := if direction == "asc" then v else -v;
    var r := SortTasks(tasks, sortBy, direction);
    SortStable(tasks, key, w);
    WithKeyExt(r, key, w, SortKey(sortBy), v);
    WithKeyExt(tasks, key, w, SortKey(sortBy), v);
  }

  /** Sorting by priority orders the ranks low < medium < high, or the reverse. */
  lemma SortByPriority(tasks: seq<Task>, direction: string)
    ensures var r := SortTasks(tasks, "priority", direction);
      forall i, j | 0 <= i < j < |r| ::
        if direction == "asc" then PriorityRank(r[i].priority) <= PriorityRank(r[j].priority)
        else PriorityRank(r[i].priority) >= PriorityRank(r[j].priority)
  {
    var r := SortTasks(tasks, "priority", direction);
    forall i | 0 <= i < |r| ensures SortKey("priority")(r[i]) == PriorityRank(r[i].priority) {
    }
  }

  /** An unrecognised `sortBy` compares every pair as equal, and the stable
      sort keeps the input order in either direction. */
  lemma UnknownSortKeepsOrder(tasks: seq<Task>, sortBy: string, direction: string)
    requires sortBy != "createdAt" && sortBy != "dueDate" && sortBy != "priority"
    ensures SortTasks(tasks, sortBy, direction) == tasks
  {
    ConstantKeyKeepsOrder(tasks, Directed(SortKey(sortBy), direction == "asc"), 0);
  }

  /** A column together with the tasks shown in it (`{ ...column, tasks }`). */
  datatype ShownColumn = ShownColumn(column: Column, tasks: seq<Task>)

  /** The tasks one column shows. */
  function ColumnTasks(c: Column, tasks: map<Id, Task>, f: Filters, inBucket: Buckets,
                       sortBy: string, direction: string): (r: seq<Task>)
    ensures forall i | 0 <= i < |r| :: FilterTask(r[i], f, inBucket)
    ensures forall i | 0 <= i < |r| :: exists id | id in c.taskIds && id in tasks :: tasks[id] == r[i]
    ensures |r| <= |c.taskIds|
  {
    var resolved := Resolve(c.taskIds, tasks);
    var kept := Filter(resolved, t => FilterTask(t, f, inBucket));
    var r := SortTasks(kept, sortBy, direction);
    forall i | 0 <= i < |r| ensures FilterTask(r[i], f, inBucket) && exists id | id in c.taskIds && id in tasks :: tasks[id] == r[i] {
      assert r[i] in multiset(kept);
      assert r[i] in kept;
      var j :| 0 <= j < |resolved| && resolved[j] == r[i];
      var id := KeepKeys(c.taskIds, tasks.Keys)[j];
      assert id in c.taskIds && id in tasks && tasks[id] == r[i];
    }
    r
  }

  /** `processedColumns`: one shown column per input column, in order. */
  function ProcessColumns(columns: seq<Column>, tasks: map<Id, Task>, f: Filters, inBucket: Buckets,
                          sortBy: string, direction: string): (r: seq<ShownColumn>)
    ensures |r| == |columns|
    ensures forall i | 0 <= i < |r| ::
      r[i].column == columns[i] && r[i].tasks == ColumnTasks(columns[i], tasks, f, inBucket, sortBy, direction)
  {
    seq(|columns|, i requires 0 <= i < |columns| =>
      ShownColumn(columns[i], ColumnTasks(columns[i], tasks, f, inBucket, sortBy, direction)))
  }

  /** A column shows exactly a permutation of its resolved tasks that pass the filter. */
  lemma ShownIsPermutationOfKept(c: Column, tasks: map<Id, Task>, f: Filters, inBucket: Buckets,
                                 sortBy: string, direction: string)
    ensures multiset(ColumnTasks(c, tasks, f, inBucket, sortBy, direction))
         == multiset(Filter(Resolve(c.taskIds, tasks), t => FilterTask(t, f, inBucket)))
  {
  }
}
