/** The filters dialog of the kanban app keeps a local draft of the filters:
    lists of chosen priorities and assignees, toggled one value at a time,
    and a due-date range. */
module KanbanFiltersModal {
  import opened Seqs

  datatype DateRange = DateRange(start: string, end: string)

  datatype LocalFilters = LocalFilters(priority: seq<string>, assignedTo: seq<string>, dueDateRange: DateRange)

  /** The checkbox value that stands for "no assignee". */
  const Unassigned: string := "unassigned"

  /** A checkbox toggle: drop every occurrence of a chosen value, or append an
      unchosen one. */
  function Toggle(s: seq<string>, x: string): (r: seq<string>)
    ensures x in r <==> x !in s
    ensures forall y | y != x :: y in r <==> y in s
    ensures x in s ==> r == Without(s, {x})
    ensures x !in s ==> r == s + [x]
    ensures NoDup(s) ==> NoDup(r)
  {
    if x in s then Without(s, {x})
    else
      assert NoDup(s) ==> NoDup(s + [x]) by {
        if NoDup(s) {
          forall i, j | 0 <= i < j < |s + [x]| ensures (s + [x])[i] != (s + [x])[j] {
            if j == |s| {
              assert (s + [x])[i] == s[i] && s[i] in s;
            } else {
              assert (s + [x])[i] == s[i] && (s + [x])[j] == s[j];
            }
          }
        }
      }
      s + [x]
  }

  /** Toggling an unchosen value twice gives back the list; toggling a chosen
      value twice moves it to the end, so a duplicate-free list keeps its
      members and stays duplicate-free. */
  lemma ToggleTwice(s: seq<string>, x: string)
    ensures x !in s ==> Toggle(Toggle(s, x), x) == s
    ensures forall y :: y in Toggle(Toggle(s, x), x) <==> y in s
    ensures NoDup(s) ==> NoDup(Toggle(Toggle(s, x), x))
  {
    if x !in s {
      WithoutSnoc(s, x, {x});
    }
  }

  /** `handlePriorityChange`. */
  function HandlePriorityChange(f: LocalFilters, priority: string): (r: LocalFilters)
    ensures priority in r.priority <==> priority !in f.priority
    ensures forall p | p != priority :: p in r.priority <==> p in f.priority
    ensures r.(priority := f.priority) == f
  {
    f.(priority := Toggle(f.priority, priority))
  }

  /** `handleAssigneeChange`, with the same toggle over `assignedTo`. */
  function HandleAssigneeChange(f: LocalFilters, userId: string): (r: LocalFilters)
    ensures userId in r.assignedTo <==> userId !in f.assignedTo
    ensures forall u | u != userId :: u in r.assignedTo <==> u in f.assignedTo
    ensures r.(assignedTo := f.assignedTo) == f
  {
    f.(assignedTo := Toggle(f.assignedTo, userId))
  }

  /** The "Unassigned" checkbox is checked exactly when the sentinel is in the
      list, so clicking it flips the box and leaves every user's box alone. */
  lemma UnassignedCheckboxFlips(f: LocalFilters)
    ensures var r := HandleAssigneeChange(f, Unassigned);
      && (Unassigned in r.assignedTo <==> Unassigned !in f.assignedTo)
      && forall u | u != Unassigned :: u in r.assignedTo <==> u in f.assignedTo
  {
  }

  /** `handleDateChange`: set the named bound of the range. A name other than
      `start` or `end` adds a property nothing reads, so the two bounds stay. */
  function HandleDateChange(f: LocalFilters, field: string, value: string): (r: LocalFilters)
    ensures field == "start" ==> r.dueDateRange.start == value && r.dueDateRange.end == f.dueDateRange.end
    ensures field == "end" ==> r.dueDateRange.end == value && r.dueDateRange.start == f.dueDateRange.start
    ensures field != "start" && field != "end" ==> r == f
    ensures r.(dueDateRange := f.dueDateRange) == f
  {
    if field == "start" then f.(dueDateRange := f.dueDateRange.(start := value))
    else if field == "end" then f.(dueDateRange := f.dueDateRange.(end := value))
    else f
  }
}
