/** The chat app's `notifications` slice: a newest-first list of
    notifications and a separately maintained `unreadCount`. The fresh id and
    the clock reading `addNotification` takes are parameters. */
module ChatNotifications {
  import opened Wrappers
  import opened Seqs
  import opened EntityAdapter

  /** The fields `createNotification` copies from its argument. */
  datatype Content = Content(
    kind: Option<string>, title: Option<string>, message: Option<string>,
    sender: Option<string>, roomId: Option<Id>)

  datatype Notification = Notification(id: Id, read: bool, timestamp: int, content: Content)

  /** An `addNotification` payload. Its own `id`, `read` or `timestamp`, when
      present, override the defaults because the payload is spread last. */
  datatype Payload = Payload(id: Option<Id>, read: Option<bool>, timestamp: Option<int>, content: Content)

  datatype NotificationsState = NotificationsState(notifications: seq<Notification>, unreadCount: int)

  function InitialNotifications(): (r: NotificationsState)
    ensures r.notifications == [] && r.unreadCount == 0
  {
    NotificationsState([], 0)
  }

  predicate Unread(n: Notification) { !n.read }

  /** The number of unread entries. */
  function CountUnread(s: seq<Notification>): (c: nat)
    ensures c <= |s|
  {
    if |s| == 0 then 0 else (if s[0].read then 0 else 1) + CountUnread(s[1..])
  }

  lemma {:induction false} CountUnreadAppend(a: seq<Notification>, b: seq<Notification>)
    ensures CountUnread(a + b) == CountUnread(a) + CountUnread(b)
  {
    if |a| > 0 {
      assert (a + b)[1..] == a[1..] + b;
      CountUnreadAppend(a[1..], b);
    } else {
      assert a + b == b;
    }
  }

  /** Marking entry `i` read lowers the count by one exactly when it was unread. */
  lemma CountUnreadMark(s: seq<Notification>, i: nat)
    requires i < |s|
    ensures CountUnread(s[i := s[i].(read := true)]) == CountUnread(s) - (if s[i].read then 0 else 1)
  {
    var t := s[i := s[i].(read := true)];
    assert s == s[..i] + [s[i]] + s[i + 1..];
    assert t == s[..i] + [t[i]] + s[i + 1..];
    CountUnreadAppend(s[..i] + [s[i]], s[i + 1..]);
    CountUnreadAppend(s[..i], [s[i]]);
    CountUnreadAppend(s[..i] + [t[i]], s[i + 1..]);
    CountUnreadAppend(s[..i], [t[i]]);
  }

  /** Removing entry `i` lowers the count by one exactly when it was unread. */
  lemma CountUnreadRemove(s: seq<Notification>, i: nat)
    requires i < |s|
    ensures CountUnread(RemoveAt(s, i)) == CountUnread(s) - (if s[i].read then 0 else 1)
  {
    var a, b := s[..i], s[i + 1..];
    assert s == (a + [s[i]]) + b;
    assert RemoveAt(s, i) == a + b;
    CountUnreadAppend(a + [s[i]], b);
    CountUnreadAppend(a, [s[i]]);
    CountUnreadAppend(a, b);
  }

  /** The counter agrees with the list. */
  predicate CountExact(st: NotificationsState) {
    st.unreadCount == CountUnread(st.notifications)
  }

  /** `createNotification`: only the five content fields, never `id`,
      `read` or `timestamp`. */
  function CreateNotification(content: Content): (p: Payload)
    ensures p.id.None? && p.read.None? && p.timestamp.None? && p.content == content
  {
    Payload(None, None, None, content)
  }

  /** `addNotification`: put the new entry first and count it as unread. */
  function AddNotification(st: NotificationsState, p: Payload, freshId: Id, now: int): (r: NotificationsState)
    ensures |r.notifications| == |st.notifications| + 1 && r.notifications[1..] == st.notifications
    ensures r.notifications[0] == Notification(p.id.GetOr(freshId), p.read.GetOr(false), p.timestamp.GetOr(now), p.content)
    ensures r.unreadCount == st.unreadCount + 1
  {
    var n := Notification(p.id.GetOr(freshId), p.read.GetOr(false), p.timestamp.GetOr(now), p.content);
    NotificationsState([n] + st.notifications, st.unreadCount + 1)
  }

  /** An added entry is unread unless its payload says otherwise, so the
      counter stays exact exactly for payloads that do not carry `read: true`. */
  lemma AddNotificationExact(st: NotificationsState, p: Payload, freshId: Id, now: int)
    requires CountExact(st)
    ensures CountExact(AddNotification(st, p, freshId, now)) <==> p.read != Some(true)
  {
    var r := AddNotification(st, p, freshId, now);
    assert r.notifications == [r.notifications[0]] + st.notifications;
    CountUnreadAppend([r.notifications[0]], st.notifications);
  }

  /** What `createNotification` builds is always counted correctly. */
  lemma AddCreatedNotificationExact(st: NotificationsState, c: Content, freshId: Id, now: int)
    requires CountExact(st)
    ensures CountExact(AddNotification(st, CreateNotification(c), freshId, now))
    ensures !AddNotification(st, CreateNotification(c), freshId, now).notifications[0].read
  {
    AddNotificationExact(st, CreateNotification(c), freshId, now);
  }

  function HasId(id: Id): Notification -> bool {
    (n: Notification) => n.id == id
  }

  /** `markNotificationAsRead`: mark the first entry with that id, and count
      it down (not below 0) only if it was unread. */
  function MarkAsRead(st: NotificationsState, id: Id): (r: NotificationsState)
    ensures FindIndex(st.notifications, HasId(id)).None? ==> r == st
    ensures FindIndex(st.notifications, HasId(id)).Some? ==>
      var i := FindIndex(st.notifications, HasId(id)).value;
      && r.notifications == st.notifications[i := st.notifications[i].(read := true)]
      && r.unreadCount == (if st.notifications[i].read then st.unreadCount else MaxZero(st.unreadCount - 1))
    ensures st.unreadCount >= 0 ==> r.unreadCount >= 0
  {
    match FindIndex(st.notifications, HasId(id))
    case None => st
    case Some(i) =>
      if !st.notifications[i].read then
        NotificationsState(st.notifications[i := st.notifications[i].(read := true)], MaxZero(st.unreadCount - 1))
      else st
  }

  lemma MarkAsReadExact(st: NotificationsState, id: Id)
    requires CountExact(st)
    ensures CountExact(MarkAsRead(st, id))
  {
    match FindIndex(st.notifications, HasId(id))
    case None =>
    case Some(i) => CountUnreadMark(st.notifications, i);
  }

  /** Marking the same notification twice is marking it once. */
  lemma MarkAsReadIdempotent(st: NotificationsState, id: Id)
    ensures MarkAsRead(MarkAsRead(st, id), id) == MarkAsRead(st, id)
  {
    var r := MarkAsRead(st, id);
    match FindIndex(st.notifications, HasId(id))
    case None =>
    case Some(i) =>
      assert FindIndex(r.notifications, HasId(id)) == Some(i) by {
        assert HasId(id)(r.notifications[i]);
        assert forall j | 0 <= j < i :: r.notifications[j] == st.notifications[j];
      }
  }

  /** `markAllNotificationsAsRead`. */
  function MarkAllAsRead(st: NotificationsState): (r: NotificationsState)
    ensures |r.notifications| == |st.notifications|
    ensures forall i | 0 <= i < |r.notifications| :: r.notifications[i] == st.notifications[i].(read := true)
    ensures r.unreadCount == 0 && CountExact(r)
  {
    var s := Map(st.notifications, (n: Notification) => n.(read := true));
    AllReadCount(s);
    NotificationsState(s, 0)
  }

  lemma {:induction false} AllReadCount(s: seq<Notification>)
    requires forall i | 0 <= i < |s| :: s[i].read
    ensures CountUnread(s) == 0
  {
    if |s| > 0 {
      AllReadCount(s[1..]);
    }
  }

  /** `removeNotification`: drop the first entry with that id, counting down
      (not below 0) only if it was unread; an unknown id changes nothing. */
  function RemoveNotification(st: NotificationsState, id: Id): (r: NotificationsState)
    ensures FindIndex(st.notifications, HasId(id)).None? ==> r == st
    ensures FindIndex(st.notifications, HasId(id)).Some? ==>
      var i := FindIndex(st.notifications, HasId(id)).value;
      && r.notifications == RemoveAt(st.notifications, i)
      && r.unreadCount == (if st.notifications[i].read then st.unreadCount else MaxZero(st.unreadCount - 1))
  {
    match FindIndex(st.notifications, HasId(id))
    case None => st
    case Some(i) =>
      var wasUnread := !st.notifications[i].read;
      NotificationsState(RemoveAt(st.notifications, i),
                         if wasUnread then MaxZero(st.unreadCount - 1) else st.unreadCount)
  }

  lemma RemoveNotificationExact(st: NotificationsState, id: Id)
    requires CountExact(st)
    ensures CountExact(RemoveNotification(st, id))
  {
    match FindIndex(st.notifications, HasId(id))
    case None =>
    case Some(i) => CountUnreadRemove(st.notifications, i);
  }

  /** `clearAllNotifications`. */
  function ClearAll(st: NotificationsState): (r: NotificationsState)
    ensures r == InitialNotifications() && CountExact(r)
  {
    NotificationsState([], 0)
  }
}
