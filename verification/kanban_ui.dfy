/** The kanban board's `ui` slice: the sidebar flag, the modal flags and the
    data passed to the open modal, the task filters, and the sort options.
    `modalData` is whatever the opener passes, so its type is a parameter. */
module KanbanUi {
  import opened Wrappers
  import opened KanbanStore
  import opened KanbanTasks

  /** The seven modal names of the initial state. */
  const ModalNames: set<string> :=
    {"createBoard", "editBoard", "createColumn", "editColumn", "createTask", "editTask", "deleteConfirmation"}

  /** `filters` holds the four fields `filterTask` reads; `setFilter` with any
      other name adds a property nobody reads, so only its name is kept. */
  datatype UiState<D> = UiState(
    sidebarOpen: bool, modals: map<string, bool>, modalData: Option<D>,
    filters: Filters, otherFilters: set<string>,
    sortBy: string, sortDirection: string)

  /** No modal flag is set. */
  predicate AllClosed(modals: map<string, bool>) {
    forall k | k in modals :: !modals[k]
  }

  /** The filter record of the initial state, and of `clearFilters`. */
  function NoFilters(): (f: Filters)
    ensures !Truthy(f.priority) && !Truthy(f.assignee) && !Truthy(f.dueDate) && !Truthy(f.searchTerm)
  {
    Filters(None, None, None, Some(""))
  }

  function InitialUi<D>(): (r: UiState<D>)
    ensures r.sidebarOpen && r.modals.Keys == ModalNames && AllClosed(r.modals) && r.modalData == None
    ensures r.filters == NoFilters() && r.otherFilters == {}
    ensures r.sortBy == "createdAt" && r.sortDirection == "asc"
  {
    UiState(true, map k | k in ModalNames :: false, None, NoFilters(), {}, "createdAt", "asc")
  }

  /** `toggleSidebar`. */
  function ToggleSidebar<D>(st: UiState<D>): (r: UiState<D>)
    ensures r.sidebarOpen != st.sidebarOpen
    ensures r.(sidebarOpen := st.sidebarOpen) == st
  {
    st.(sidebarOpen := !st.sidebarOpen)
  }

  lemma ToggleSidebarTwice<D>(st: UiState<D>)
    ensures ToggleSidebar(ToggleSidebar(st)) == st
  {
  }

  /** `openModal`: raise one flag (adding it if the name is new) and replace
      `modalData` with the payload's `data`. */
  function OpenModal<D>(st: UiState<D>, modalType: string, data: Option<D>): (r: UiState<D>)
    ensures modalType in r.modals && r.modals[modalType]
    ensures r.modals.Keys == st.modals.Keys + {modalType}
    ensures forall k | k in st.modals && k != modalType :: r.modals[k] == st.modals[k]
    ensures r.modalData == data
    ensures r.(modals := st.modals, modalData := st.modalData) == st
  {
    st.(modals := st.modals[modalType := true], modalData := data)
  }

  /** `closeModal`: lower one flag; `modalData` is cleared exactly when no
      flag is left raised. */
  function CloseModal<D>(st: UiState<D>, modalType: string): (r: UiState<D>)
    ensures modalType in r.modals && !r.modals[modalType]
    ensures r.modals.Keys == st.modals.Keys + {modalType}
    ensures forall k | k in st.modals && k != modalType :: r.modals[k] == st.modals[k]
    ensures AllClosed(r.modals) ==> r.modalData == None
    ensures !AllClosed(r.modals) ==> r.modalData == st.modalData
    ensures r.(modals := st.modals, modalData := st.modalData) == st
  {
    var modals := st.modals[modalType := false];
    st.(modals := modals, modalData := if AllClosed(modals) then None else st.modalData)
  }

  /** `closeAllModals`: every known flag lowered and `modalData` cleared. */
  function CloseAllModals<D>(st: UiState<D>): (r: UiState<D>)
    ensures r.modals.Keys == st.modals.Keys && AllClosed(r.modals)
    ensures r.modalData == None
    ensures r.(modals := st.modals, modalData := st.modalData) == st
  {
    st.(modals := map k | k in st.modals :: false, modalData := None)
  }

  /** Opening a modal while none is open and closing it again closes
      everything and drops the data. */
  lemma OpenThenCloseClearsData<D>(st: UiState<D>, modalType: string, data: Option<D>)
    requires AllClosed(st.modals)
    ensures var r := CloseModal(OpenModal(st, modalType, data), modalType);
      AllClosed(r.modals) && r.modalData == None
  {
    var o := OpenModal(st, modalType, data);
    var r := CloseModal(o, modalType);
    forall k | k in r.modals ensures !r.modals[k] {
      if k != modalType {
        assert r.modals[k] == o.modals[k] == st.modals[k];
      }
    }
  }

  /** Closing the last open modal has the same effect as `closeAllModals`. */
  lemma CloseLastIsCloseAll<D>(st: UiState<D>, modalType: string)
    requires modalType in st.modals
    requires forall k | k in st.modals && k != modalType :: !st.modals[k]
    ensures CloseModal(st, modalType) == CloseAllModals(st)
  {
    var r := CloseModal(st, modalType);
    var a := CloseAllModals(st);
    assert AllClosed(r.modals) by {
      forall k | k in r.modals ensures !r.modals[k] {
        if k != modalType {
          assert r.modals[k] == st.modals[k];
        }
      }
    }
    assert r.modals == a.modals;
  }

  /** `setFilter`: one named field of `filters` replaced. */
  function SetFilter<D>(st: UiState<D>, filterType: string, value: Option<string>): (r: UiState<D>)
    ensures filterType == "priority" ==> r.filters == st.filters.(priority := value)
    ensures filterType == "assignee" ==> r.filters == st.filters.(assignee := value)
    ensures filterType == "dueDate" ==> r.filters == st.filters.(dueDate := value)
    ensures filterType == "searchTerm" ==> r.filters == st.filters.(searchTerm := value)
    ensures !IsFilterField(filterType) ==> r.filters == st.filters && r.otherFilters == st.otherFilters + {filterType}
    ensures IsFilterField(filterType) ==> r.otherFilters == st.otherFilters
    ensures r.(filters := st.filters, otherFilters := st.otherFilters) == st
  {
    match filterType
    case "priority" => st.(filters := st.filters.(priority := value))
    case "assignee" => st.(filters := st.filters.(assignee := value))
    case "dueDate" => st.(filters := st.filters.(dueDate := value))
    case "searchTerm" => st.(filters := st.filters.(searchTerm := value))
    case _ => st.(otherFilters := st.otherFilters + {filterType})
  }

  /** The four filter names `filterTask` reads. */
  predicate IsFilterField(name: string) {
    name == "priority" || name == "assignee" || name == "dueDate" || name == "searchTerm"
  }

  /** `clearFilters`: the whole filter record replaced by the initial one. */
  function ClearFilters<D>(st: UiState<D>): (r: UiState<D>)
    ensures r.filters == InitialUi<D>().filters && r.otherFilters == {}
    ensures r.(filters := st.filters, otherFilters := st.otherFilters) == st
  {
    st.(filters := NoFilters(), otherFilters := {})
  }

  /** After `clearFilters`, every task passes the filter. */
  lemma ClearedFiltersKeepEveryTask<D>(st: UiState<D>, t: Task, inBucket: Buckets)
    ensures FilterTask(t, ClearFilters(st).filters, inBucket)
  {
    NoFiltersKeepsAll(t, inBucket, ClearFilters(st).filters);
  }

  /** `clearFilters` undoes any `setFilter`. */
  lemma ClearAfterSetFilter<D>(st: UiState<D>, filterType: string, value: Option<string>)
    ensures ClearFilters(SetFilter(st, filterType, value)) == ClearFilters(st)
  {
  }

  /** `setSortBy`. */
  function SetSortBy<D>(st: UiState<D>, sortBy: string): (r: UiState<D>)
    ensures r.sortBy == sortBy
    ensures r.(sortBy := st.sortBy) == st
  {
    st.(sortBy := sortBy)
  }

  /** `toggleSortDirection`: `'asc'` becomes `'desc'`, anything else `'asc'`. */
  function ToggleSortDirection<D>(st: UiState<D>): (r: UiState<D>)
    ensures r.sortDirection == "asc" || r.sortDirection == "desc"
    ensures r.sortDirection == "asc" <==> st.sortDirection != "asc"
    ensures r.(sortDirection := st.sortDirection) == st
  {
    st.(sortDirection := if st.sortDirection == "asc" then "desc" else "asc")
  }

  /** On a well-formed direction the toggle is an involution. */
  lemma ToggleSortDirectionTwice<D>(st: UiState<D>)
    requires st.sortDirection == "asc" || st.sortDirection == "desc"
    ensures ToggleSortDirection(ToggleSortDirection(st)) == st
  {
  }
}
