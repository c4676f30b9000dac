/** The e-commerce dashboard's `ui` slice: sidebar and dark-mode flags, an
    oldest-first notification list, and the open modal. The stored dark-mode
    preference and the system preference are parameters. */
module ShopUi {
  import opened Wrappers
  import opened Seqs

  /** A notification; `content` stands for the payload's other fields. */
  datatype Notification<C> = Notification(id: int, read: bool, timestamp: int, content: C)

  /** An `addNotification` payload: its own `id` wins over the clock value,
      but `read` and `timestamp` are always overwritten. */
  datatype NotificationPayload<C> = NotificationPayload(id: Option<int>, content: C)

  datatype UiState<C, D> = UiState(
    sidebarOpen: bool, darkMode: bool, notifications: seq<Notification<C>>,
    currentModal: Option<string>, modalData: Option<D>)

  /** The dark-mode start value: a stored `'true'`/other value wins,
      otherwise the system preference. */
  function InitialDarkMode(saved: Option<string>, prefersDark: bool): (r: bool)
    ensures saved.Some? ==> (r <==> saved.value == "true")
    ensures saved.None? ==> r == prefersDark
  {
    match saved
    case Some(v) => v == "true"
    case None => prefersDark
  }

  function InitialUi<C(!new), D>(saved: Option<string>, prefersDark: bool): (r: UiState<C, D>)
    ensures r.sidebarOpen && r.notifications == [] && r.currentModal == None && r.modalData == None
    ensures r.darkMode == InitialDarkMode(saved, prefersDark)
  {
    UiState(true, InitialDarkMode(saved, prefersDark), [], None, None)
  }

  /** `toggleSidebar`. */
  function ToggleSidebar<C(!new), D>(st: UiState<C, D>): (r: UiState<C, D>)
    ensures r.sidebarOpen == !st.sidebarOpen && r.(sidebarOpen := st.sidebarOpen) == st
  {
    st.(sidebarOpen := !st.sidebarOpen)
  }

  /** `setSidebarOpen`. */
  function SetSidebarOpen<C(!new), D>(st: UiState<C, D>, open: bool): (r: UiState<C, D>)
    ensures r.sidebarOpen == open && r.(sidebarOpen := st.sidebarOpen) == st
  {
    st.(sidebarOpen := open)
  }

  /** `toggleDarkMode` (the value is also written to local storage). */
  function ToggleDarkMode<C(!new), D>(st: UiState<C, D>): (r: UiState<C, D>)
    ensures r.darkMode == !st.darkMode && r.(darkMode := st.darkMode) == st
  {
    st.(darkMode := !st.darkMode)
  }

  /** `setDarkMode`. */
  function SetDarkMode<C(!new), D>(st: UiState<C, D>, on: bool): (r: UiState<C, D>)
    ensures r.darkMode == on && r.(darkMode := st.darkMode) == st
  {
    st.(darkMode := on)
  }

  /** Both toggles undo themselves, and a toggle is a set to the opposite. */
  lemma TogglesAreInvolutions<C(!new), D>(st: UiState<C, D>)
    ensures ToggleSidebar(ToggleSidebar(st)) == st && ToggleDarkMode(ToggleDarkMode(st)) == st
    ensures ToggleSidebar(st) == SetSidebarOpen(st, !st.sidebarOpen)
    ensures ToggleDarkMode(st) == SetDarkMode(st, !st.darkMode)
  {
  }

  /** `selectUnreadNotificationsCount`. */
  function UnreadCount<C(!new)>(ns: seq<Notification<C>>): (n: nat)
    ensures n <= |ns|
  {
    Count(ns, (x: Notification<C>) => !x.read)
  }

  /** `addNotification`: append an unread entry; `now` is the clock reading
      used for both the default id and the timestamp. */
  function AddNotification<C(!new), D>(st: UiState<C, D>, p: NotificationPayload<C>, now: int): (r: UiState<C, D>)
    ensures |r.notifications| == |st.notifications| + 1
    ensures r.notifications[..|st.notifications|] == st.notifications
    ensures r.notifications[|st.notifications|] == Notification(p.id.GetOr(now), false, now, p.content)
    ensures UnreadCount(r.notifications) == UnreadCount(st.notifications) + 1
    ensures r.(notifications := st.notifications) == st
  {
    var n := Notification(p.id.GetOr(now), false, now, p.content);
    FilterSnoc(st.notifications, n, (x: Notification<C>) => !x.read);
    assert (st.notifications + [n])[..|st.notifications|] == st.notifications;
    st.(notifications := st.notifications + [n])
  }

  function WithId<C(!new)>(id: int): Notification<C> -> bool {
    (n: Notification<C>) => n.id == id
  }

  /** `markNotificationAsRead`: the first entry with that id is marked read;
      an unknown id changes nothing. */
  function MarkAsRead<C(!new), D>(st: UiState<C, D>, id: int): (r: UiState<C, D>)
    ensures FindIndex(st.notifications, WithId(id)).None? ==> r == st
    ensures FindIndex(st.notifications, WithId(id)).Some? ==>
      var i := FindIndex(st.notifications, WithId(id)).value;
      && r.notifications == st.notifications[i := st.notifications[i].(read := true)]
      && r.(notifications := st.notifications) == st
    ensures UnreadCount(r.notifications) <= UnreadCount(st.notifications)
  {
    var r := st.(notifications := UpdateFirst(st.notifications, WithId(id), (n: Notification<C>) => n.(read := true)));
    match FindIndex(st.notifications, WithId(id))
    case None => r
    case Some(i) =>
      MarkLowersUnread(st.notifications, i);
      r
  }

  lemma MarkLowersUnread<C(!new)>(s: seq<Notification<C>>, i: nat)
    requires i < |s|
    ensures UnreadCount(s[i := s[i].(read := true)]) <= UnreadCount(s)
  {
    var t := s[i := s[i].(read := true)];
    var unread := (x: Notification<C>) => !x.read;
    assert s == s[..i] + [s[i]] + s[i + 1..];
    assert t == s[..i] + [t[i]] + s[i + 1..];
    FilterAppend(s[..i] + [s[i]], s[i + 1..], unread);
    FilterAppend(s[..i], [s[i]], unread);
    FilterAppend(s[..i] + [t[i]], s[i + 1..], unread);
    FilterAppend(s[..i], [t[i]], unread);
  }

  /** Marking the same id twice is marking it once. */
  lemma MarkAsReadIdempotent<C(!new), D>(st: UiState<C, D>, id: int)
    ensures MarkAsRead(MarkAsRead(st, id), id) == MarkAsRead(st, id)
  {
    var r := MarkAsRead(st, id);
    match FindIndex(st.notifications, WithId(id))
    case None =>
    case Some(i) =>
      assert FindIndex(r.notifications, WithId(id)) == Some(i) by {
        assert WithId(id)(r.notifications[i]);
        assert forall j | 0 <= j < i :: r.notifications[j] == st.notifications[j];
      }
  }

  /** `clearNotifications`. */
  function ClearNotifications<C(!new), D>(st: UiState<C, D>): (r: UiState<C, D>)
    ensures r.notifications == [] && UnreadCount(r.notifications) == 0
    ensures r.(notifications := st.notifications) == st
  {
    st.(notifications := [])
  }

  /** `openModal`: the modal type, and its data. The reducer stores
      `modalData || null`, so any falsy payload (missing, `0`, `""`, `false`)
      becomes `null`; callers pass `None` for every such payload. */
  function OpenModal<C(!new), D>(st: UiState<C, D>, modalType: string, data: Option<D>): (r: UiState<C, D>)
    ensures r.currentModal == Some(modalType) && r.modalData == data
    ensures r.(currentModal := st.currentModal, modalData := st.modalData) == st
  {
    st.(currentModal := Some(modalType), modalData := data)
  }

  /** `closeModal`. */
  function CloseModal<C(!new), D>(st: UiState<C, D>): (r: UiState<C, D>)
    ensures r.currentModal == None && r.modalData == None
    ensures r.(currentModal := st.currentModal, modalData := st.modalData) == st
  {
    st.(currentModal := None, modalData := None)
  }

  /** Opening and then closing a modal leaves no modal state behind, whatever
      was open before. */
  lemma OpenThenCloseModal<C(!new), D>(st: UiState<C, D>, modalType: string, data: Option<D>)
    ensures CloseModal(OpenModal(st, modalType, data)) == CloseModal(st)
  {
  }
}
