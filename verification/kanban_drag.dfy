/** The drag-end handler of the kanban app: it turns a drop result into at
    most one `moveColumn` or `moveTask` dispatch. */
module KanbanDrag {
  import opened Wrappers
  import opened Seqs
  import opened EntityAdapter
  import opened KanbanStore
  import opened KanbanInvariant

  datatype Location = Location(droppableId: Id, index: int)

  /** `type` is `'column'` for a column drag; anything else is a task drag. */
  datatype DropResult = DropResult(source: Location, destination: Option<Location>, kind: string)

  datatype BoardAction =
    | MoveColumnAction(sourceIndex: int, destinationIndex: int)
    | MoveTaskAction(sourceColumnId: Id, destinationColumnId: Id, sourceIndex: int, destinationIndex: int)

  /** The action `handleDragEnd` dispatches, if any. */
  function HandleDragEnd(d: DropResult): (a: Option<BoardAction>)
    ensures d.destination.None? ==> a.None?
    ensures d.destination == Some(d.source) ==> a.None?
    ensures d.destination.Some? && d.destination != Some(d.source) && d.kind == "column" ==>
      a == Some(MoveColumnAction(d.source.index, d.destination.value.index))
    ensures d.destination.Some? && d.destination != Some(d.source) && d.kind != "column" ==>
      a == Some(MoveTaskAction(d.source.droppableId, d.destination.value.droppableId,
                               d.source.index, d.destination.value.index))
  {
    match d.destination
    case None => None
    case Some(dst) =>
      if d.source.droppableId == dst.droppableId && d.source.index == dst.index then None
      else if d.kind == "column" then Some(MoveColumnAction(d.source.index, dst.index))
      else Some(MoveTaskAction(d.source.droppableId, dst.droppableId, d.source.index, dst.index))
  }

  /** What the store demands of a dispatched move: the source index names an
      element, and a task stays on its board. */
  predicate Admissible(st: BoardState, a: BoardAction) {
    match a
    case MoveColumnAction(si, _) =>
      Truthy(st.activeBoard) && st.activeBoard.value in st.boards.entities ==>
        SpliceRemoves(|st.boards.entities[st.activeBoard.value].columnOrder|, si)
    case MoveTaskAction(src, dst, si, _) =>
      src in st.columns.entities && dst in st.columns.entities ==>
        && SpliceRemoves(|st.columns.entities[src].taskIds|, si)
        && st.columns.entities[src].boardId == st.columns.entities[dst].boardId
  }

  /** The store after the dispatch (unchanged when nothing is dispatched). */
  function Dispatch(st: BoardState, a: Option<BoardAction>): BoardState
    requires a.Some? ==> Admissible(st, a.value)
  {
    match a
    case None => st
    case Some(MoveColumnAction(si, di)) => MoveColumn(st, si, di)
    case Some(MoveTaskAction(src, dst, si, di)) => MoveTask(st, src, dst, si, di)
  }

  /** A drop keeps a consistent store consistent. */
  lemma DropKeepsInv(st: BoardState, d: DropResult)
    requires Inv(st)
    requires HandleDragEnd(d).Some? ==> Admissible(st, HandleDragEnd(d).value)
    ensures Inv(Dispatch(st, HandleDragEnd(d)))
  {
    match HandleDragEnd(d)
    case None =>
    case Some(MoveColumnAction(si, di)) => MoveColumnInv(st, si, di);
    case Some(MoveTaskAction(src, dst, si, di)) => MoveTaskInv(st, src, dst, si, di);
  }

  /** A drop back onto its own place, or outside any list, changes nothing. */
  lemma IdleDropChangesNothing(st: BoardState, d: DropResult)
    requires d.destination.None? || d.destination == Some(d.source)
    ensures Dispatch(st, HandleDragEnd(d)) == st
  {
  }
}
