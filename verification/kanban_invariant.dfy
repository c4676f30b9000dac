/** The referential invariant of the kanban store and its preservation by
    every reducer. Each board's `columnOrder` names columns of that board, each
    column's `taskIds` names tasks of that column (and of the column's board),
    every column is listed by its board and every task by its column, and the
    three adapters are themselves consistent. The reducers check almost none
    of this, so each preservation lemma states what the caller must supply:
    fresh ids, an existing parent, and payload ids that agree with the store. */
module KanbanInvariant {
  import opened Wrappers
  import opened Seqs
  import opened EntityAdapter
  import opened KanbanStore

  predicate AdaptersValid(st: BoardState) {
    Valid(st.boards, BoardKey) && Valid(st.columns, ColumnKey) && Valid(st.tasks, TaskKey)
  }

  /** Column `c` exists and belongs to board `b`. */
  predicate ColumnOfBoard(st: BoardState, c: Id, b: Id) {
    c in st.columns.entities && st.columns.entities[c].boardId == b
  }

  /** Task `t` exists, sits in column `c`, and shares that column's board. */
  predicate TaskOfColumn(st: BoardState, t: Id, c: Id) {
    && t in st.tasks.entities && c in st.columns.entities
    && st.tasks.entities[t].columnId == c
    && st.tasks.entities[t].boardId == st.columns.entities[c].boardId
  }

  predicate BoardsResolve(st: BoardState) {
    forall b | b in st.boards.entities ::
      && NoDup(st.boards.entities[b].columnOrder)
      && forall i | 0 <= i < |st.boards.entities[b].columnOrder| ::
           ColumnOfBoard(st, st.boards.entities[b].columnOrder[i], b)
  }

  predicate ColumnsResolve(st: BoardState) {
    forall c | c in st.columns.entities ::
      && NoDup(st.columns.entities[c].taskIds)
      && forall i | 0 <= i < |st.columns.entities[c].taskIds| ::
           TaskOfColumn(st, st.columns.entities[c].taskIds[i], c)
  }

  /** Every column's board exists and lists it. */
  predicate ColumnsPlaced(st: BoardState) {
    forall c | c in st.columns.entities ::
      && st.columns.entities[c].boardId in st.boards.entities
      && c in st.boards.entities[st.columns.entities[c].boardId].columnOrder
  }

  /** Every task's column exists and lists it. */
  predicate TasksPlaced(st: BoardState) {
    forall t | t in st.tasks.entities ::
      && st.tasks.entities[t].columnId in st.columns.entities
      && t in st.columns.entities[st.tasks.entities[t].columnId].taskIds
  }

  predicate Inv(st: BoardState) {
    AdaptersValid(st) && BoardsResolve(st) && ColumnsResolve(st) && ColumnsPlaced(st) && TasksPlaced(st)
  }

  /** A column lists a task iff the task's `columnId` names that column, so
      each task is listed in exactly one column. */
  lemma ListedInExactlyOneColumn(st: BoardState, t: Id, c: Id)
    requires Inv(st) && t in st.tasks.entities && c in st.columns.entities
    ensures t in st.columns.entities[c].taskIds <==> st.tasks.entities[t].columnId == c
  {
    if t in st.columns.entities[c].taskIds {
      var i :| 0 <= i < |st.columns.entities[c].taskIds| && st.columns.entities[c].taskIds[i] == t;
      assert TaskOfColumn(st, st.columns.entities[c].taskIds[i], c);
    }
  }

  /** Likewise a board lists a column iff the column's `boardId` names it. */
  lemma ListedOnExactlyOneBoard(st: BoardState, c: Id, b: Id)
    requires Inv(st) && c in st.columns.entities && b in st.boards.entities
    ensures c in st.boards.entities[b].columnOrder <==> st.columns.entities[c].boardId == b
  {
    if c in st.boards.entities[b].columnOrder {
      var i :| 0 <= i < |st.boards.entities[b].columnOrder| && st.boards.entities[b].columnOrder[i] == c;
      assert ColumnOfBoard(st, st.boards.entities[b].columnOrder[i], b);
    }
  }

  /** Everything a board's `columnOrder` lists is a column of that board. */
  lemma OrderHasColumns(st: BoardState, b: Id)
    requires BoardsResolve(st) && b in st.boards.entities
    ensures forall c | c in st.boards.entities[b].columnOrder :: ColumnOfBoard(st, c, b)
  {
    var order := st.boards.entities[b].columnOrder;
    forall c | c in order ensures ColumnOfBoard(st, c, b) {
      var i :| 0 <= i < |order| && order[i] == c;
      assert ColumnOfBoard(st, order[i], b);
    }
  }

  /** Everything a column's `taskIds` lists is a task of that column. */
  lemma TaskIdsHaveTasks(st: BoardState, c: Id)
    requires ColumnsResolve(st) && c in st.columns.entities
    ensures forall t | t in st.columns.entities[c].taskIds :: TaskOfColumn(st, t, c)
  {
    var ids := st.columns.entities[c].taskIds;
    forall t | t in ids ensures TaskOfColumn(st, t, c) {
      var i :| 0 <= i < |ids| && ids[i] == t;
      assert TaskOfColumn(st, ids[i], c);
    }
  }

  /** The empty initial state satisfies the invariant. */
  lemma InitialInv()
    ensures Inv(Initial())
  {
  }

  // ---------------------------------------------------------------------------
  // moveTask

  /** `moveTask` within one column, or between two columns of the same board,
      preserves the invariant. */
  lemma MoveTaskInv(st: BoardState, src: Id, dst: Id, sourceIndex: int, destinationIndex: int)
    requires Inv(st)
    requires src in st.columns.entities && dst in st.columns.entities ==>
      && SpliceRemoves(|st.columns.entities[src].taskIds|, sourceIndex)
      && st.columns.entities[src].boardId == st.columns.entities[dst].boardId
    ensures Inv(MoveTask(st, src, dst, sourceIndex, destinationIndex))
  {
    if src in st.columns.entities && dst in st.columns.entities {
      if src == dst {
        MoveWithinInv(st, src, sourceIndex, destinationIndex);
      } else {
        MoveAcrossInv(st, src, dst, sourceIndex, destinationIndex);
      }
    }
  }

  lemma MoveWithinInv(st: BoardState, c: Id, sourceIndex: int, destinationIndex: int)
    requires Inv(st) && c in st.columns.entities
    requires SpliceRemoves(|st.columns.entities[c].taskIds|, sourceIndex)
    ensures Inv(MoveTask(st, c, c, sourceIndex, destinationIndex))
  {
    var r := MoveTask(st, c, c, sourceIndex, destinationIndex);
    var ids' := r.columns.entities[c].taskIds;
    assert r == PutColumn(st, c, st.columns.entities[c].(taskIds := ids'));
    PermuteTaskIdsInv(st, c, ids');
  }

  /** Replacing a column's `taskIds` by a permutation of them keeps the invariant. */
  lemma PermuteTaskIdsInv(st: BoardState, c: Id, ids': seq<Id>)
    requires Inv(st) && c in st.columns.entities
    requires multiset(ids') == multiset(st.columns.entities[c].taskIds)
    ensures Inv(PutColumn(st, c, st.columns.entities[c].(taskIds := ids')))
  {
    var r := PutColumn(st, c, st.columns.entities[c].(taskIds := ids'));
    var ids := st.columns.entities[c].taskIds;
    PermutationNoDup(ids, ids');
    forall x ensures x in ids' <==> x in ids {
      MultisetMembership(ids', ids, x);
    }
    assert ColumnsResolve(r) by {
      forall i | 0 <= i < |ids'| ensures TaskOfColumn(r, ids'[i], c) {
        assert ids'[i] in ids';
        var j :| 0 <= j < |ids| && ids[j] == ids'[i];
        assert TaskOfColumn(st, ids[j], c);
      }
    }
  }

  /** The store after a task moved between two columns, described by what
      changed: the two lists and the moved task, which now names the
      destination column and carries that column's board. */
  ghost predicate MovedAcross(st: BoardState, r: BoardState, src: Id, dst: Id, moved: Id, ids': seq<Id>, dids': seq<Id>)
    requires src in st.columns.entities && dst in st.columns.entities && moved in st.tasks.entities
  {
    && r.boards == st.boards
    && r.columns.ids == st.columns.ids && r.columns.entities.Keys == st.columns.entities.Keys
    && r.tasks.ids == st.tasks.ids && r.tasks.entities.Keys == st.tasks.entities.Keys
    && (forall c | c in st.columns.entities && c != src && c != dst :: r.columns.entities[c] == st.columns.entities[c])
    && r.columns.entities[src] == st.columns.entities[src].(taskIds := ids')
    && r.columns.entities[dst] == st.columns.entities[dst].(taskIds := dids')
    && r.tasks.entities[moved].id == moved && r.tasks.entities[moved].columnId == dst
    && r.tasks.entities[moved].boardId == st.columns.entities[dst].boardId
    && (forall t | t in st.tasks.entities && t != moved :: r.tasks.entities[t] == st.tasks.entities[t])
  }

  lemma MoveAcrossInv(st: BoardState, src: Id, dst: Id, sourceIndex: int, destinationIndex: int)
    requires Inv(st) && src in st.columns.entities && dst in st.columns.entities && src != dst
    requires SpliceRemoves(|st.columns.entities[src].taskIds|, sourceIndex)
    requires st.columns.entities[src].boardId == st.columns.entities[dst].boardId
    ensures Inv(MoveTask(st, src, dst, sourceIndex, destinationIndex))
  {
    var ids := st.columns.entities[src].taskIds;
    var dids := st.columns.entities[dst].taskIds;
    var k := RelIndex(|ids|, sourceIndex);
    var moved := ids[k];
    assert TaskOfColumn(st, ids[k], src);
    MoveTaskAcross(st, src, dst, sourceIndex, destinationIndex);
    var r := MoveTask(st, src, dst, sourceIndex, destinationIndex);
    var j := RelIndex(|dids|, destinationIndex);
    var ids' := RemoveAt(ids, k);
    var dids' := InsertAt(dids, j, moved);
    assert MovedAcross(st, r, src, dst, moved, ids', dids');
    ListedInExactlyOneColumn(st, moved, dst);
    forall y ensures y in ids' <==> y in ids && y != moved {
      RemoveAtMembership(ids, k, y);
    }
    forall y ensures y in dids' <==> y in dids || y == moved {
      InsertAtMembership(dids, j, moved, y);
    }
    RemoveAtNoDup(ids, k);
    InsertAtNoDup(dids, j, moved);
    MovedAcrossInv(st, r, src, dst, moved, ids', dids');
  }

  lemma MovedAcrossInv(st: BoardState, r: BoardState, src: Id, dst: Id, moved: Id, ids': seq<Id>, dids': seq<Id>)
    requires Inv(st) && src in st.columns.entities && dst in st.columns.entities && src != dst
    requires TaskOfColumn(st, moved, src)
    requires MovedAcross(st, r, src, dst, moved, ids', dids')
    requires NoDup(ids') && NoDup(dids')
    requires forall y :: y in ids' <==> y in st.columns.entities[src].taskIds && y != moved
    requires forall y :: y in dids' <==> y in st.columns.entities[dst].taskIds || y == moved
    ensures Inv(r)
  {
    MovedAcrossAdapters(st, r, src, dst, moved, ids', dids');
    MovedAcrossBoards(st, r, src, dst, moved, ids', dids');
    forall c | c in r.columns.entities
      ensures NoDup(r.columns.entities[c].taskIds)
      ensures forall i | 0 <= i < |r.columns.entities[c].taskIds| ::
        TaskOfColumn(r, r.columns.entities[c].taskIds[i], c)
    {
      MovedAcrossColumn(st, r, src, dst, moved, ids', dids', c);
    }
    MovedAcrossPlaced(st, r, src, dst, moved, ids', dids');
  }

  lemma MovedAcrossAdapters(st: BoardState, r: BoardState, src: Id, dst: Id, moved: Id, ids': seq<Id>, dids': seq<Id>)
    requires AdaptersValid(st) && src in st.columns.entities && dst in st.columns.entities && moved in st.tasks.entities
    requires MovedAcross(st, r, src, dst, moved, ids', dids')
    ensures AdaptersValid(r)
  {
  }

  lemma MovedAcrossBoards(st: BoardState, r: BoardState, src: Id, dst: Id, moved: Id, ids': seq<Id>, dids': seq<Id>)
    requires BoardsResolve(st) && src in st.columns.entities && dst in st.columns.entities && moved in st.tasks.entities
    requires MovedAcross(st, r, src, dst, moved, ids', dids')
    ensures BoardsResolve(r)
  {
    forall b, i | b in r.boards.entities && 0 <= i < |r.boards.entities[b].columnOrder|
      ensures ColumnOfBoard(r, r.boards.entities[b].columnOrder[i], b)
    {
      assert ColumnOfBoard(st, st.boards.entities[b].columnOrder[i], b);
    }
  }

  lemma MovedAcrossColumn(st: BoardState, r: BoardState, src: Id, dst: Id, moved: Id, ids': seq<Id>, dids': seq<Id>, c: Id)
    requires ColumnsResolve(st) && src in st.columns.entities && dst in st.columns.entities && src != dst
    requires TaskOfColumn(st, moved, src)
    requires MovedAcross(st, r, src, dst, moved, ids', dids')
    requires NoDup(ids') && NoDup(dids')
    requires forall y :: y in ids' <==> y in st.columns.entities[src].taskIds && y != moved
    requires forall y :: y in dids' <==> y in st.columns.entities[dst].taskIds || y == moved
    requires c in r.columns.entities
    ensures NoDup(r.columns.entities[c].taskIds)
    ensures forall i | 0 <= i < |r.columns.entities[c].taskIds| :: TaskOfColumn(r, r.columns.entities[c].taskIds[i], c)
  {
    var cur := st.columns.entities[c].taskIds;
    forall i | 0 <= i < |r.columns.entities[c].taskIds|
      ensures TaskOfColumn(r, r.columns.entities[c].taskIds[i], c)
    {
      var t := r.columns.entities[c].taskIds[i];
      if c != src && c != dst {
        assert TaskOfColumn(st, cur[i], c);
      } else if c == src || t != moved {
        assert t in cur by {
          if c == src {
            assert t in ids';
          } else {
            assert t in dids';
          }
        }
        var i0 :| 0 <= i0 < |cur| && cur[i0] == t;
        assert TaskOfColumn(st, cur[i0], c);
      }
    }
  }

  lemma MovedAcrossPlaced(st: BoardState, r: BoardState, src: Id, dst: Id, moved: Id, ids': seq<Id>, dids': seq<Id>)
    requires ColumnsPlaced(st) && TasksPlaced(st) && src in st.columns.entities && dst in st.columns.entities && src != dst
    requires moved in st.tasks.entities
    requires MovedAcross(st, r, src, dst, moved, ids', dids')
    requires forall y :: y in ids' <==> y in st.columns.entities[src].taskIds && y != moved
    requires forall y :: y in dids' <==> y in st.columns.entities[dst].taskIds || y == moved
    ensures ColumnsPlaced(r) && TasksPlaced(r)
  {
    forall c | c in r.columns.entities
      ensures r.columns.entities[c].boardId in r.boards.entities
      ensures c in r.boards.entities[r.columns.entities[c].boardId].columnOrder
    {
      assert r.columns.entities[c].boardId == st.columns.entities[c].boardId;
    }
    forall t | t in r.tasks.entities
      ensures r.tasks.entities[t].columnId in r.columns.entities
      ensures t in r.columns.entities[r.tasks.entities[t].columnId].taskIds
    {
      if t != moved {
        var c := st.tasks.entities[t].columnId;
        assert t in st.columns.entities[c].taskIds;
        if c == src {
          assert t in ids';
        } else if c == dst {
          assert t in dids';
        }
      } else {
        assert moved in dids';
      }
    }
  }

  // ---------------------------------------------------------------------------
  // moveColumn

  /** `moveColumn` only permutes the active board's `columnOrder`, so it keeps
      the invariant. */
  lemma MoveColumnInv(st: BoardState, sourceIndex: int, destinationIndex: int)
    requires Inv(st)
    requires Truthy(st.activeBoard) && st.activeBoard.value in st.boards.entities ==>
      SpliceRemoves(|st.boards.entities[st.activeBoard.value].columnOrder|, sourceIndex)
    ensures Inv(MoveColumn(st, sourceIndex, destinationIndex))
  {
    if Truthy(st.activeBoard) && st.activeBoard.value in st.boards.entities {
      var b := st.activeBoard.value;
      var r := MoveColumn(st, sourceIndex, destinationIndex);
      var order' := r.boards.entities[b].columnOrder;
      assert r == PutBoard(st, b, st.boards.entities[b].(columnOrder := order'));
      PermuteColumnOrderInv(st, b, order');
    }
  }

  /** Replacing a board's `columnOrder` by a permutation of it keeps the invariant. */
  lemma PermuteColumnOrderInv(st: BoardState, b: Id, order': seq<Id>)
    requires Inv(st) && b in st.boards.entities
    requires multiset(order') == multiset(st.boards.entities[b].columnOrder)
    ensures Inv(PutBoard(st, b, st.boards.entities[b].(columnOrder := order')))
  {
    var r := PutBoard(st, b, st.boards.entities[b].(columnOrder := order'));
    var order := st.boards.entities[b].columnOrder;
    PermutationNoDup(order, order');
    forall x ensures x in order' <==> x in order {
      MultisetMembership(order', order, x);
    }
    assert BoardsResolve(r) by {
      forall i | 0 <= i < |order'| ensures ColumnOfBoard(r, order'[i], b) {
        assert order'[i] in order';
        var j :| 0 <= j < |order| && order[j] == order'[i];
        assert ColumnOfBoard(st, order[j], b);
      }
    }
  }

  // ---------------------------------------------------------------------------
  // Reducers that touch only the status fields

  /** The invariant is about the three adapters only, so `setActiveBoard` and
      the `fetchBoards` pending and rejected reducers keep it. */
  lemma StatusReducersInv(st: BoardState, id: Option<Id>, payload: Option<string>)
    requires Inv(st)
    ensures Inv(SetActiveBoard(st, id))
    ensures Inv(FetchBoardsPending(st))
    ensures Inv(FetchBoardsRejected(st, payload))
  {
    SameAdaptersInv(st, SetActiveBoard(st, id));
    SameAdaptersInv(st, FetchBoardsPending(st));
    SameAdaptersInv(st, FetchBoardsRejected(st, payload));
  }

  lemma SameAdaptersInv(st: BoardState, r: BoardState)
    requires r.boards == st.boards && r.columns == st.columns && r.tasks == st.tasks
    ensures Inv(r) <==> Inv(st)
  {
    assert r.(activeBoard := st.activeBoard, status := st.status, error := st.error) == st;
  }

  // ---------------------------------------------------------------------------
  // Boards

  /** Creating a board with a fresh id and an empty `columnOrder` (as the
      `createBoard` thunk builds it) keeps the invariant; an existing id is
      ignored by `addOne`. */
  lemma CreateBoardInv(st: BoardState, b: Board)
    requires Inv(st)
    requires b.id !in st.boards.entities ==> b.columnOrder == []
    ensures Inv(CreateBoard(st, b))
  {
    var r := CreateBoard(st, b);
    assert BoardsResolve(r) by {
      forall x, i | x in r.boards.entities && 0 <= i < |r.boards.entities[x].columnOrder|
        ensures ColumnOfBoard(r, r.boards.entities[x].columnOrder[i], x)
      {
        assert ColumnOfBoard(st, st.boards.entities[x].columnOrder[i], x);
      }
    }
  }

  /** Updating a stored board keeps the invariant provided its `columnOrder`
      is unchanged; a new id behaves as `createBoard`. */
  lemma UpdateBoardInv(st: BoardState, b: Board)
    requires Inv(st)
    requires b.id in st.boards.entities ==> b.columnOrder == st.boards.entities[b.id].columnOrder
    requires b.id !in st.boards.entities ==> b.columnOrder == []
    ensures Inv(UpdateBoard(st, b))
  {
    var r := UpdateBoard(st, b);
    assert BoardsResolve(r) by {
      forall x, i | x in r.boards.entities && 0 <= i < |r.boards.entities[x].columnOrder|
        ensures ColumnOfBoard(r, r.boards.entities[x].columnOrder[i], x)
      {
        assert ColumnOfBoard(st, st.boards.entities[x].columnOrder[i], x);
      }
    }
    assert ColumnsPlaced(r) by {
      forall c | c in r.columns.entities
        ensures r.columns.entities[c].boardId in r.boards.entities
        ensures c in r.boards.entities[r.columns.entities[c].boardId].columnOrder
      {
        assert st.columns.entities[c].boardId in st.boards.entities;
      }
    }
  }

  /** With a valid column adapter, `ColumnsOfBoard` is exactly the set of
      stored keys whose column names the board. */
  lemma ColumnsOfBoardKeys(st: BoardState, b: Id)
    requires Valid(st.columns, ColumnKey)
    ensures forall c | c in st.columns.entities :: c in ColumnsOfBoard(st, b) <==> st.columns.entities[c].boardId == b
  {
  }

  lemma TasksOfBoardKeys(st: BoardState, b: Id)
    requires Valid(st.tasks, TaskKey)
    ensures forall t | t in st.tasks.entities :: t in TasksOfBoard(st, b) <==> st.tasks.entities[t].boardId == b
  {
  }

  lemma TasksOfColumnKeys(st: BoardState, c: Id)
    requires Valid(st.tasks, TaskKey)
    ensures forall t | t in st.tasks.entities :: t in TasksOfColumn(st, c) <==> st.tasks.entities[t].columnId == c
  {
  }

  /** Deleting a board deletes exactly what hangs off it, so the rest of the
      store stays consistent. */
  lemma DeleteBoardInv(st: BoardState, b: Id)
    requires Inv(st)
    ensures Inv(DeleteBoard(st, b))
  {
    var r := DeleteBoard(st, b);
    DeleteBoardShape(st, b);
    DeleteBoardResolve(st, r, b);
    DeleteBoardPlaced(st, r, b);
  }

  lemma DeleteBoardShape(st: BoardState, b: Id)
    requires AdaptersValid(st)
    ensures var r := DeleteBoard(st, b);
      && AdaptersValid(r)
      && (forall x | x in r.boards.entities :: x != b && x in st.boards.entities && r.boards.entities[x] == st.boards.entities[x])
      && (forall x | x in st.boards.entities && x != b :: x in r.boards.entities)
      && (forall c | c in st.columns.entities :: c in r.columns.entities <==> st.columns.entities[c].boardId != b)
      && (forall c | c in r.columns.entities :: c in st.columns.entities && r.columns.entities[c] == st.columns.entities[c])
      && (forall t | t in st.tasks.entities :: t in r.tasks.entities <==> st.tasks.entities[t].boardId != b)
      && (forall t | t in r.tasks.entities :: t in st.tasks.entities && r.tasks.entities[t] == st.tasks.entities[t])
  {
    ColumnsOfBoardKeys(st, b);
    TasksOfBoardKeys(st, b);
  }

  lemma DeleteBoardResolve(st: BoardState, r: BoardState, b: Id)
    requires BoardsResolve(st) && ColumnsResolve(st)
    requires forall x | x in r.boards.entities :: x != b && x in st.boards.entities && r.boards.entities[x] == st.boards.entities[x]
    requires forall c | c in st.columns.entities :: c in r.columns.entities <==> st.columns.entities[c].boardId != b
    requires forall c | c in r.columns.entities :: c in st.columns.entities && r.columns.entities[c] == st.columns.entities[c]
    requires forall t | t in st.tasks.entities :: t in r.tasks.entities <==> st.tasks.entities[t].boardId != b
    requires forall t | t in r.tasks.entities :: t in st.tasks.entities && r.tasks.entities[t] == st.tasks.entities[t]
    ensures BoardsResolve(r) && ColumnsResolve(r)
  {
    forall x, i | x in r.boards.entities && 0 <= i < |r.boards.entities[x].columnOrder|
      ensures ColumnOfBoard(r, r.boards.entities[x].columnOrder[i], x)
    {
      assert ColumnOfBoard(st, st.boards.entities[x].columnOrder[i], x);
    }
    forall c, i | c in r.columns.entities && 0 <= i < |r.columns.entities[c].taskIds|
      ensures TaskOfColumn(r, r.columns.entities[c].taskIds[i], c)
    {
      assert TaskOfColumn(st, st.columns.entities[c].taskIds[i], c);
    }
  }

  lemma DeleteBoardPlaced(st: BoardState, r: BoardState, b: Id)
    requires ColumnsResolve(st) && ColumnsPlaced(st) && TasksPlaced(st)
    requires forall x | x in st.boards.entities && x != b :: x in r.boards.entities && r.boards.entities[x] == st.boards.entities[x]
    requires forall c | c in st.columns.entities :: c in r.columns.entities <==> st.columns.entities[c].boardId != b
    requires forall c | c in r.columns.entities :: c in st.columns.entities && r.columns.entities[c] == st.columns.entities[c]
    requires forall t | t in r.tasks.entities :: t in st.tasks.entities && r.tasks.entities[t] == st.tasks.entities[t]
    requires forall t | t in r.tasks.entities :: st.tasks.entities[t].boardId != b
    ensures ColumnsPlaced(r) && TasksPlaced(r)
  {
    forall t | t in r.tasks.entities
      ensures r.tasks.entities[t].columnId in r.columns.entities
      ensures t in r.columns.entities[r.tasks.entities[t].columnId].taskIds
    {
      var c := st.tasks.entities[t].columnId;
      var ids := st.columns.entities[c].taskIds;
      assert t in ids;
      var i :| 0 <= i < |ids| && ids[i] == t;
      assert TaskOfColumn(st, ids[i], c);
    }
  }

  // ---------------------------------------------------------------------------
  // Columns

  /** Creating a column with a fresh id, an empty `taskIds` and an existing
      board (as the `createColumn` thunk builds it) keeps the invariant. */
  lemma CreateColumnInv(st: BoardState, c: Column)
    requires Inv(st)
    requires c.id !in st.columns.entities && c.boardId in st.boards.entities && c.taskIds == []
    ensures Inv(CreateColumn(st, c))
  {
    var r := CreateColumn(st, c);
    OrderHasColumns(st, c.boardId);
    CreateColumnShape(st, c);
    CreateColumnResolve(st, r, c);
    CreateColumnPlaced(st, r, c);
  }

  lemma CreateColumnShape(st: BoardState, c: Column)
    requires AdaptersValid(st) && c.id !in st.columns.entities
    ensures var r := CreateColumn(st, c);
      && AdaptersValid(r)
      && r.columns.entities == st.columns.entities[c.id := c]
  {
  }

  lemma CreateColumnPlaced(st: BoardState, r: BoardState, c: Column)
    requires ColumnsPlaced(st) && TasksPlaced(st)
    requires c.id !in st.columns.entities && c.boardId in st.boards.entities
    requires r == CreateColumn(st, c)
    requires r.columns.entities == st.columns.entities[c.id := c]
    ensures ColumnsPlaced(r) && TasksPlaced(r)
  {
    forall x | x in r.columns.entities
      ensures r.columns.entities[x].boardId in r.boards.entities
      ensures x in r.boards.entities[r.columns.entities[x].boardId].columnOrder
    {
      if x != c.id {
        assert x in st.boards.entities[st.columns.entities[x].boardId].columnOrder;
      }
    }
  }

  lemma CreateColumnResolve(st: BoardState, r: BoardState, c: Column)
    requires BoardsResolve(st) && ColumnsResolve(st)
    requires c.id !in st.columns.entities && c.boardId in st.boards.entities && c.taskIds == []
    requires c.id !in st.boards.entities[c.boardId].columnOrder
    requires r == CreateColumn(st, c)
    requires r.columns.entities == st.columns.entities[c.id := c]
    ensures BoardsResolve(r) && ColumnsResolve(r)
  {
    forall x | x in r.boards.entities
      ensures NoDup(r.boards.entities[x].columnOrder)
      ensures forall i | 0 <= i < |r.boards.entities[x].columnOrder| ::
        ColumnOfBoard(r, r.boards.entities[x].columnOrder[i], x)
    {
      var order := st.boards.entities[x].columnOrder;
      forall i | 0 <= i < |order| ensures ColumnOfBoard(r, order[i], x) {
        assert ColumnOfBoard(st, order[i], x);
      }
    }
    forall x, i | x in r.columns.entities && 0 <= i < |r.columns.entities[x].taskIds|
      ensures TaskOfColumn(r, r.columns.entities[x].taskIds[i], x)
    {
      assert TaskOfColumn(st, st.columns.entities[x].taskIds[i], x);
    }
  }

  /** Updating a stored column keeps the invariant provided its board and its
      `taskIds` are unchanged. */
  lemma UpdateColumnInv(st: BoardState, c: Column)
    requires Inv(st)
    requires c.id in st.columns.entities
    requires c.boardId == st.columns.entities[c.id].boardId && c.taskIds == st.columns.entities[c.id].taskIds
    ensures Inv(UpdateColumn(st, c))
  {
    var r := UpdateColumn(st, c);
    assert r.columns.entities == st.columns.entities[c.id := c];
    assert forall x | x in st.columns.entities ::
      r.columns.entities[x].boardId == st.columns.entities[x].boardId && r.columns.entities[x].taskIds == st.columns.entities[x].taskIds;
    assert BoardsResolve(r) by {
      forall x, i | x in r.boards.entities && 0 <= i < |r.boards.entities[x].columnOrder|
        ensures ColumnOfBoard(r, r.boards.entities[x].columnOrder[i], x)
      {
        assert ColumnOfBoard(st, st.boards.entities[x].columnOrder[i], x);
      }
    }
    assert ColumnsResolve(r) by {
      forall x, i | x in r.columns.entities && 0 <= i < |r.columns.entities[x].taskIds|
        ensures TaskOfColumn(r, r.columns.entities[x].taskIds[i], x)
      {
        assert TaskOfColumn(st, st.columns.entities[x].taskIds[i], x);
      }
    }
  }

  /** Deleting a column, with the payload's `boardId` naming the column's
      board, removes the column, its tasks and its place in the board's
      `columnOrder`, and nothing dangles afterwards. */
  lemma DeleteColumnInv(st: BoardState, columnId: Id, boardId: Id)
    requires Inv(st)
    requires columnId in st.columns.entities ==> st.columns.entities[columnId].boardId == boardId
    ensures Inv(DeleteColumn(st, columnId, boardId))
  {
    var r := DeleteColumn(st, columnId, boardId);
    DeleteColumnShape(st, columnId, boardId);
    DeleteColumnBoards(st, r, columnId, boardId);
    DeleteColumnColumns(st, r, columnId, boardId);
  }

  lemma DeleteColumnShape(st: BoardState, columnId: Id, boardId: Id)
    requires AdaptersValid(st)
    ensures var r := DeleteColumn(st, columnId, boardId);
      && AdaptersValid(r)
      && r.boards.entities.Keys == st.boards.entities.Keys
      && (forall x | x in st.boards.entities && x != boardId :: r.boards.entities[x] == st.boards.entities[x])
      && (boardId in st.boards.entities ==>
           r.boards.entities[boardId].columnOrder == Without(st.boards.entities[boardId].columnOrder, {columnId}))
      && r.columns.entities == st.columns.entities - {columnId}
      && (forall t | t in st.tasks.entities :: t in r.tasks.entities <==> st.tasks.entities[t].columnId != columnId)
      && (forall t | t in r.tasks.entities :: t in st.tasks.entities && r.tasks.entities[t] == st.tasks.entities[t])
  {
    TasksOfColumnKeys(st, columnId);
    var r := DeleteColumn(st, columnId, boardId);
    assert r.boards.ids == st.boards.ids;
  }

  lemma DeleteColumnBoards(st: BoardState, r: BoardState, columnId: Id, boardId: Id)
    requires BoardsResolve(st)
    requires columnId in st.columns.entities ==> st.columns.entities[columnId].boardId == boardId
    requires r.boards.entities.Keys == st.boards.entities.Keys
    requires forall x | x in st.boards.entities && x != boardId :: r.boards.entities[x] == st.boards.entities[x]
    requires boardId in st.boards.entities ==>
      r.boards.entities[boardId].columnOrder == Without(st.boards.entities[boardId].columnOrder, {columnId})
    requires r.columns.entities == st.columns.entities - {columnId}
    ensures BoardsResolve(r)
  {
    forall x | x in r.boards.entities
      ensures NoDup(r.boards.entities[x].columnOrder)
      ensures forall i | 0 <= i < |r.boards.entities[x].columnOrder| ::
        ColumnOfBoard(r, r.boards.entities[x].columnOrder[i], x)
    {
      OrderHasColumns(st, x);
      var order := st.boards.entities[x].columnOrder;
      var order' := r.boards.entities[x].columnOrder;
      forall i | 0 <= i < |order'| ensures ColumnOfBoard(r, order'[i], x) {
        assert order'[i] in order';
        assert order'[i] in order && order'[i] != columnId;
      }
    }
  }

  lemma DeleteColumnColumns(st: BoardState, r: BoardState, columnId: Id, boardId: Id)
    requires ColumnsResolve(st) && ColumnsPlaced(st) && TasksPlaced(st)
    requires r.boards.entities.Keys == st.boards.entities.Keys
    requires forall x | x in st.boards.entities && x != boardId :: r.boards.entities[x] == st.boards.entities[x]
    requires boardId in st.boards.entities ==>
      r.boards.entities[boardId].columnOrder == Without(st.boards.entities[boardId].columnOrder, {columnId})
    requires r.columns.entities == st.columns.entities - {columnId}
    requires forall t | t in st.tasks.entities :: t in r.tasks.entities <==> st.tasks.entities[t].columnId != columnId
    requires forall t | t in r.tasks.entities :: t in st.tasks.entities && r.tasks.entities[t] == st.tasks.entities[t]
    ensures ColumnsResolve(r) && ColumnsPlaced(r) && TasksPlaced(r)
  {
    forall x, i | x in r.columns.entities && 0 <= i < |r.columns.entities[x].taskIds|
      ensures TaskOfColumn(r, r.columns.entities[x].taskIds[i], x)
    {
      assert TaskOfColumn(st, st.columns.entities[x].taskIds[i], x);
    }
    forall x | x in r.columns.entities
      ensures r.columns.entities[x].boardId in r.boards.entities
      ensures x in r.boards.entities[r.columns.entities[x].boardId].columnOrder
    {
      assert x in st.boards.entities[st.columns.entities[x].boardId].columnOrder;
    }
  }

  // ---------------------------------------------------------------------------
  // Tasks

  /** Creating a task with a fresh id in an existing column, on that column's
      board (as the `createTask` thunk builds it), keeps the invariant. */
  lemma CreateTaskInv(st: BoardState, t: Task)
    requires Inv(st)
    requires t.id !in st.tasks.entities && t.columnId in st.columns.entities
    requires t.boardId == st.columns.entities[t.columnId].boardId
    ensures Inv(CreateTask(st, t))
  {
    var r := CreateTask(st, t);
    TaskIdsHaveTasks(st, t.columnId);
    CreateTaskShape(st, t);
    CreateTaskResolve(st, r, t);
  }

  lemma CreateTaskShape(st: BoardState, t: Task)
    requires AdaptersValid(st) && t.id !in st.tasks.entities && t.columnId in st.columns.entities
    ensures var r := CreateTask(st, t);
      && AdaptersValid(r)
      && r.tasks.entities == st.tasks.entities[t.id := t]
      && r.columns.entities == st.columns.entities[t.columnId :=
           st.columns.entities[t.columnId].(taskIds := st.columns.entities[t.columnId].taskIds + [t.id])]
  {
  }

  lemma CreateTaskResolve(st: BoardState, r: BoardState, t: Task)
    requires BoardsResolve(st) && ColumnsResolve(st) && ColumnsPlaced(st) && TasksPlaced(st)
    requires t.id !in st.tasks.entities && t.columnId in st.columns.entities
    requires t.boardId == st.columns.entities[t.columnId].boardId
    requires forall x | x in st.columns.entities[t.columnId].taskIds :: TaskOfColumn(st, x, t.columnId)
    requires r.boards == st.boards
    requires r.tasks.entities == st.tasks.entities[t.id := t]
    requires r.columns.entities == st.columns.entities[t.columnId :=
      st.columns.entities[t.columnId].(taskIds := st.columns.entities[t.columnId].taskIds + [t.id])]
    ensures BoardsResolve(r) && ColumnsResolve(r) && ColumnsPlaced(r) && TasksPlaced(r)
  {
    CreateTaskBoards(st, r, t);
    CreateTaskColumns(st, r, t);
    CreateTaskTasks(st, r, t);
  }

  lemma CreateTaskBoards(st: BoardState, r: BoardState, t: Task)
    requires BoardsResolve(st) && ColumnsResolve(st) && ColumnsPlaced(st) && TasksPlaced(st)
    requires t.id !in st.tasks.entities && t.columnId in st.columns.entities
    requires t.boardId == st.columns.entities[t.columnId].boardId
    requires forall x | x in st.columns.entities[t.columnId].taskIds :: TaskOfColumn(st, x, t.columnId)
    requires r.boards == st.boards
    requires r.tasks.entities == st.tasks.entities[t.id := t]
    requires r.columns.entities == st.columns.entities[t.columnId :=
      st.columns.entities[t.columnId].(taskIds := st.columns.entities[t.columnId].taskIds + [t.id])]
    ensures BoardsResolve(r) && ColumnsPlaced(r)
  {
    forall x, i | x in r.boards.entities && 0 <= i < |r.boards.entities[x].columnOrder|
      ensures ColumnOfBoard(r, r.boards.entities[x].columnOrder[i], x)
    {
      assert ColumnOfBoard(st, st.boards.entities[x].columnOrder[i], x);
    }
  }

  lemma CreateTaskColumns(st: BoardState, r: BoardState, t: Task)
    requires BoardsResolve(st) && ColumnsResolve(st) && ColumnsPlaced(st) && TasksPlaced(st)
    requires t.id !in st.tasks.entities && t.columnId in st.columns.entities
    requires t.boardId == st.columns.entities[t.columnId].boardId
    requires forall x | x in st.columns.entities[t.columnId].taskIds :: TaskOfColumn(st, x, t.columnId)
    requires r.boards == st.boards
    requires r.tasks.entities == st.tasks.entities[t.id := t]
    requires r.columns.entities == st.columns.entities[t.columnId :=
      st.columns.entities[t.columnId].(taskIds := st.columns.entities[t.columnId].taskIds + [t.id])]
    ensures ColumnsResolve(r)
  {
    forall x, i | x in r.columns.entities && 0 <= i < |r.columns.entities[x].taskIds|
      ensures TaskOfColumn(r, r.columns.entities[x].taskIds[i], x)
    {
      if x != t.columnId || i < |st.columns.entities[x].taskIds| {
        assert TaskOfColumn(st, st.columns.entities[x].taskIds[i], x);
      }
    }
  }

  lemma CreateTaskTasks(st: BoardState, r: BoardState, t: Task)
    requires BoardsResolve(st) && ColumnsResolve(st) && ColumnsPlaced(st) && TasksPlaced(st)
    requires t.id !in st.tasks.entities && t.columnId in st.columns.entities
    requires t.boardId == st.columns.entities[t.columnId].boardId
    requires forall x | x in st.columns.entities[t.columnId].taskIds :: TaskOfColumn(st, x, t.columnId)
    requires r.boards == st.boards
    requires r.tasks.entities == st.tasks.entities[t.id := t]
    requires r.columns.entities == st.columns.entities[t.columnId :=
      st.columns.entities[t.columnId].(taskIds := st.columns.entities[t.columnId].taskIds + [t.id])]
    ensures TasksPlaced(r)
  {
    forall x | x in r.tasks.entities
      ensures r.tasks.entities[x].columnId in r.columns.entities
      ensures x in r.columns.entities[r.tasks.entities[x].columnId].taskIds
    {
      if x != t.id {
        assert x in st.columns.entities[st.tasks.entities[x].columnId].taskIds;
      }
    }
  }

  /** Updating a stored task keeps the invariant when its new column exists
      and belongs to the task's board: a changed `columnId` takes the id out
      of the old column and appends it to the new one. */
  lemma UpdateTaskInv(st: BoardState, t: Task)
    requires Inv(st)
    requires t.id in st.tasks.entities && t.columnId in st.columns.entities
    requires t.boardId == st.columns.entities[t.columnId].boardId
    ensures Inv(UpdateTask(st, t))
  {
    var r := UpdateTask(st, t);
    var prev := st.tasks.entities[t.id].columnId;
    if prev == t.columnId {
      UpdateTaskInPlace(st, r, t);
    } else {
      UpdateTaskShape(st, t);
      UpdateTaskMoved(st, r, t);
    }
  }

  lemma UpdateTaskMoved(st: BoardState, r: BoardState, t: Task)
    requires Inv(st)
    requires t.id in st.tasks.entities && t.columnId in st.columns.entities
    requires t.boardId == st.columns.entities[t.columnId].boardId
    requires st.tasks.entities[t.id].columnId != t.columnId
    requires st.tasks.entities[t.id].columnId in st.columns.entities
    requires var prev := st.tasks.entities[t.id].columnId;
      MovedAcross(st, r, prev, t.columnId, t.id,
        Without(st.columns.entities[prev].taskIds, {t.id}), st.columns.entities[t.columnId].taskIds + [t.id])
    ensures Inv(r)
  {
    var prev := st.tasks.entities[t.id].columnId;
    var ids := st.columns.entities[prev].taskIds;
    var dids := st.columns.entities[t.columnId].taskIds;
    ListedInExactlyOneColumn(st, t.id, prev);
    ListedInExactlyOneColumn(st, t.id, t.columnId);
    var ids' := Without(ids, {t.id});
    var dids' := dids + [t.id];
    assert TaskOfColumn(st, t.id, prev) by {
      TaskIdsHaveTasks(st, prev);
    }
    assert NoDup(dids') by {
      assert forall i | 0 <= i < |dids| :: dids[i] in dids;
    }
    MovedAcrossInv(st, r, prev, t.columnId, t.id, ids', dids');
  }

  lemma UpdateTaskShape(st: BoardState, t: Task)
    requires AdaptersValid(st) && TasksPlaced(st)
    requires t.id in st.tasks.entities && t.columnId in st.columns.entities
    requires t.boardId == st.columns.entities[t.columnId].boardId
    requires st.tasks.entities[t.id].columnId != t.columnId
    ensures var prev := st.tasks.entities[t.id].columnId;
      && prev in st.columns.entities
      && MovedAcross(st, UpdateTask(st, t), prev, t.columnId, t.id,
           Without(st.columns.entities[prev].taskIds, {t.id}), st.columns.entities[t.columnId].taskIds + [t.id])
  {
  }

  lemma UpdateTaskInPlace(st: BoardState, r: BoardState, t: Task)
    requires Inv(st)
    requires t.id in st.tasks.entities && t.columnId == st.tasks.entities[t.id].columnId
    requires t.columnId in st.columns.entities
    requires t.boardId == st.columns.entities[t.columnId].boardId
    requires r == UpdateTask(st, t)
    ensures Inv(r)
  {
    assert r.tasks.entities == st.tasks.entities[t.id := t];
    assert r.columns == st.columns && r.boards == st.boards;
    assert ColumnsResolve(r) by {
      forall x, i | x in r.columns.entities && 0 <= i < |r.columns.entities[x].taskIds|
        ensures TaskOfColumn(r, r.columns.entities[x].taskIds[i], x)
      {
        assert TaskOfColumn(st, st.columns.entities[x].taskIds[i], x);
      }
    }
  }

  /** Deleting a task, with the payload's `columnId` naming the task's column,
      keeps the invariant. */
  lemma DeleteTaskInv(st: BoardState, taskId: Id, columnId: Id)
    requires Inv(st)
    requires taskId in st.tasks.entities ==> st.tasks.entities[taskId].columnId == columnId
    ensures Inv(DeleteTask(st, taskId, columnId))
  {
    var r := DeleteTask(st, taskId, columnId);
    DeleteTaskShape(st, taskId, columnId);
    DeleteTaskResolve(st, r, taskId, columnId);
  }

  lemma DeleteTaskShape(st: BoardState, taskId: Id, columnId: Id)
    requires AdaptersValid(st)
    ensures var r := DeleteTask(st, taskId, columnId);
      && AdaptersValid(r)
      && r.boards == st.boards
      && r.tasks.entities == st.tasks.entities - {taskId}
      && r.columns.entities.Keys == st.columns.entities.Keys
      && (forall c | c in st.columns.entities && c != columnId :: r.columns.entities[c] == st.columns.entities[c])
      && (columnId in st.columns.entities ==>
           r.columns.entities[columnId] == st.columns.entities[columnId].(taskIds := Without(st.columns.entities[columnId].taskIds, {taskId})))
  {
  }

  lemma DeleteTaskResolve(st: BoardState, r: BoardState, taskId: Id, columnId: Id)
    requires BoardsResolve(st) && ColumnsResolve(st) && ColumnsPlaced(st) && TasksPlaced(st)
    requires taskId in st.tasks.entities ==> st.tasks.entities[taskId].columnId == columnId
    requires r.boards == st.boards
    requires r.tasks.entities == st.tasks.entities - {taskId}
    requires r.columns.entities.Keys == st.columns.entities.Keys
    requires forall c | c in st.columns.entities && c != columnId :: r.columns.entities[c] == st.columns.entities[c]
    requires columnId in st.columns.entities ==>
      r.columns.entities[columnId] == st.columns.entities[columnId].(taskIds := Without(st.columns.entities[columnId].taskIds, {taskId}))
    ensures BoardsResolve(r) && ColumnsResolve(r) && ColumnsPlaced(r) && TasksPlaced(r)
  {
    forall x, i | x in r.boards.entities && 0 <= i < |r.boards.entities[x].columnOrder|
      ensures ColumnOfBoard(r, r.boards.entities[x].columnOrder[i], x)
    {
      assert ColumnOfBoard(st, st.boards.entities[x].columnOrder[i], x);
    }
    forall c | c in r.columns.entities
      ensures NoDup(r.columns.entities[c].taskIds)
      ensures forall i | 0 <= i < |r.columns.entities[c].taskIds| ::
        TaskOfColumn(r, r.columns.entities[c].taskIds[i], c)
    {
      TaskIdsHaveTasks(st, c);
      var ids' := r.columns.entities[c].taskIds;
      forall i | 0 <= i < |ids'| ensures TaskOfColumn(r, ids'[i], c) {
        assert ids'[i] in ids';
        assert ids'[i] in st.columns.entities[c].taskIds && ids'[i] != taskId;
      }
    }
    forall t | t in r.tasks.entities
      ensures r.tasks.entities[t].columnId in r.columns.entities
      ensures t in r.columns.entities[r.tasks.entities[t].columnId].taskIds
    {
      assert t in st.columns.entities[st.tasks.entities[t].columnId].taskIds;
    }
  }

  // ---------------------------------------------------------------------------
  // Selectors

  /** Under the invariant `selectActiveBoardColumns` drops nothing: it returns
      one column per id of the active board's `columnOrder`, in that order,
      each belonging to the active board. */
  lemma SelectActiveBoardColumnsInv(st: BoardState)
    requires Inv(st) && SelectActiveBoard(st).Some?
    ensures var order := SelectActiveBoard(st).value.columnOrder;
      var r := SelectActiveBoardColumns(st);
      && |r| == |order|
      && forall i | 0 <= i < |r| :: r[i].id == order[i] && r[i].boardId == st.activeBoard.value
  {
    var b := st.activeBoard.value;
    var order := st.boards.entities[b].columnOrder;
    OrderHasColumns(st, b);
    ResolveAll(order, st.columns.entities);
    forall i | 0 <= i < |order| ensures st.columns.entities[order[i]].id == order[i] {
      assert order[i] in order;
    }
  }
}
