/** The chat app's `users` slice: users by id, the id list, and the list of
    ids currently online. */
module ChatUsers {
  import opened Wrappers
  import opened Seqs
  import opened EntityAdapter

  datatype ChatUser = ChatUser(id: Id, username: string, avatar: string, status: string, lastActive: int)

  datatype UsersState = UsersState(
    byId: map<Id, ChatUser>, allIds: seq<Id>, online: seq<Id>, loading: bool, error: Option<string>)

  const Online: string := "online"

  function UserKey(u: ChatUser): Id { u.id }

  predicate IsOnline(u: ChatUser) { u.status == Online }

  function InitialUsers(): (r: UsersState)
    ensures r.byId == map[] && r.allIds == [] && r.online == [] && !r.loading && r.error == None
  {
    UsersState(map[], [], [], false, None)
  }

  /** Every online id is a known user. */
  predicate OnlineKnown(st: UsersState) {
    forall i | 0 <= i < |st.online| :: st.online[i] in st.byId
  }

  /** `online` lists, once each, exactly the known users whose status is
      `'online'`. */
  predicate OnlineExact(st: UsersState) {
    && OnlineKnown(st)
    && NoDup(st.online)
    && forall k | k in st.byId :: k in st.online <==> IsOnline(st.byId[k])
  }

  /** `fetchUsersStart`. */
  function FetchUsersStart(st: UsersState): (r: UsersState)
    ensures r.loading && r.error == None
    ensures r.(loading := st.loading, error := st.error) == st
  {
    st.(loading := true, error := None)
  }

  /** `fetchUsersFailure`. */
  function FetchUsersFailure(st: UsersState, message: Option<string>): (r: UsersState)
    ensures !r.loading && r.error == message
    ensures r.(loading := st.loading, error := st.error) == st
  {
    st.(loading := false, error := message)
  }

  /** `fetchUsersSuccess`: everything rebuilt from the payload, in payload
      order. */
  function FetchUsersSuccess(st: UsersState, users: seq<ChatUser>): (r: UsersState)
    ensures r.allIds == Map(users, UserKey)
    ensures r.online == Map(Filter(users, IsOnline), UserKey)
    ensures forall k :: k in r.byId <==> k in r.allIds
    ensures forall i | 0 <= i < |users| && (forall j | i < j < |users| :: users[j].id != users[i].id) ::
      r.byId[users[i].id] == users[i]
    ensures OnlineKnown(r)
    ensures !r.loading && r.error == None
  {
    var byId := IndexBy(map[], users, UserKey);
    var ids := Map(users, UserKey);
    var online := Map(Filter(users, IsOnline), UserKey);
    assert forall k :: k in byId <==> k in ids by {
      forall k ensures k in byId <==> k in ids {
        if k in byId {
          var i :| 0 <= i < |users| && UserKey(users[i]) == k;
          assert ids[i] == k;
        }
      }
    }
    assert forall i | 0 <= i < |online| :: online[i] in byId by {
      forall i | 0 <= i < |online| ensures online[i] in byId {
        var u := Filter(users, IsOnline)[i];
        assert u in users;
        var j :| 0 <= j < |users| && users[j] == u;
        assert ids[j] == online[i];
      }
    }
    UsersState(byId, ids, online, false, None)
  }

  /** With distinct ids in the payload, `online` lists exactly the online
      users, once each. */
  lemma FetchUsersSuccessExact(st: UsersState, users: seq<ChatUser>)
    requires NoDup(Map(users, UserKey))
    ensures OnlineExact(FetchUsersSuccess(st, users))
  {
    var r := FetchUsersSuccess(st, users);
    var ids := Map(users, UserKey);
    assert forall i, j | 0 <= i < j < |users| :: users[i].id != users[j].id by {
      forall i, j | 0 <= i < j < |users| ensures users[i].id != users[j].id {
        assert ids[i] == users[i].id && ids[j] == users[j].id;
      }
    }
    FilterKeysNoDup(users, IsOnline, UserKey);
    forall k | k in r.byId ensures k in r.online <==> IsOnline(r.byId[k]) {
      var i :| 0 <= i < |users| && users[i].id == k;
      assert r.byId[k] == users[i];
      if k in r.online {
        var n :| 0 <= n < |r.online| && r.online[n] == k;
        var u := Filter(users, IsOnline)[n];
        assert u in users && IsOnline(u) && u.id == k;
        var j :| 0 <= j < |users| && users[j] == u;
        assert ids[j] == ids[i];
      }
      if IsOnline(users[i]) {
        assert users[i] in Filter(users, IsOnline);
        var n :| 0 <= n < |Filter(users, IsOnline)| && Filter(users, IsOnline)[n] == users[i];
        assert r.online[n] == k;
      }
    }
  }

  /** `updateUserStatus`: for a known user, set the status and bring
      `online` up to date; an unknown id changes nothing. */
  function UpdateUserStatus(st: UsersState, userId: Id, status: string): (r: UsersState)
    ensures userId !in st.byId ==> r == st
    ensures userId in st.byId ==>
      && r.byId == st.byId[userId := st.byId[userId].(status := status)]
      && (status == Online ==> userId in r.online)
      && (status != Online ==> userId !in r.online)
      && (forall k | k != userId :: k in r.online <==> k in st.online)
      && (NoDup(st.online) ==> NoDup(r.online))
    ensures r.allIds == st.allIds && r.loading == st.loading && r.error == st.error
  {
    if userId in st.byId then
      var byId := st.byId[userId := st.byId[userId].(status := status)];
      if status == Online && userId !in st.online then st.(byId := byId, online := PushNew(st.online, userId))
      else if status != Online then st.(byId := byId, online := Without(st.online, {userId}))
      else st.(byId := byId)
    else st
  }

  /** `addUser` as written: store the user, list its id once, and list it as
      online once when its status is `'online'`. It never removes an id from
      `online`. */
  function AddUser(st: UsersState, u: ChatUser): (r: UsersState)
    ensures r.byId == st.byId[u.id := u]
    ensures forall k :: k in r.allIds <==> k in st.allIds || k == u.id
    ensures NoDup(st.allIds) ==> NoDup(r.allIds)
    ensures IsOnline(u) ==> u.id in r.online
    ensures forall k | k != u.id :: k in r.online <==> k in st.online
    ensures st.online <= r.online
    ensures NoDup(st.online) ==> NoDup(r.online)
    ensures r.loading == st.loading && r.error == st.error
  {
    st.(byId := st.byId[u.id := u],
        allIds := PushNew(st.allIds, u.id),
        online := if IsOnline(u) then PushNew(st.online, u.id) else st.online)
  }

  /** `addUser` with the stale entry removed: a user added with any other
      status is taken off `online`. */
  function AddUserFixed(st: UsersState, u: ChatUser): (r: UsersState)
    ensures r.byId == st.byId[u.id := u]
    ensures forall k :: k in r.allIds <==> k in st.allIds || k == u.id
    ensures u.id in r.online <==> IsOnline(u)
    ensures forall k | k != u.id :: k in r.online <==> k in st.online
    ensures r.loading == st.loading && r.error == st.error
  {
    var s := AddUser(st, u);
    if IsOnline(u) then s else s.(online := Without(st.online, {u.id}))
  }

  /** The reducers keep every online id a known user. */
  lemma OnlineStaysKnown(st: UsersState, userId: Id, status: string, u: ChatUser, message: Option<string>)
    requires OnlineKnown(st)
    ensures OnlineKnown(FetchUsersStart(st)) && OnlineKnown(FetchUsersFailure(st, message))
    ensures OnlineKnown(UpdateUserStatus(st, userId, status))
    ensures OnlineKnown(AddUser(st, u)) && OnlineKnown(AddUserFixed(st, u))
  {
    var r := UpdateUserStatus(st, userId, status);
    forall i | 0 <= i < |r.online| ensures r.online[i] in r.byId {
      assert r.online[i] in r.online;
    }
    var a := AddUser(st, u);
    forall i | 0 <= i < |a.online| ensures a.online[i] in a.byId {
      assert a.online[i] in a.online;
    }
    var f := AddUserFixed(st, u);
    forall i | 0 <= i < |f.online| ensures f.online[i] in f.byId {
      assert f.online[i] in f.online;
    }
  }

  /** `updateUserStatus` keeps `online` exact. */
  lemma UpdateUserStatusExact(st: UsersState, userId: Id, status: string)
    requires OnlineExact(st)
    ensures OnlineExact(UpdateUserStatus(st, userId, status))
  {
    OnlineStaysKnown(st, userId, status, ChatUser(userId, "", "", status, 0), None);
  }

  /** The corrected `addUser` keeps `online` exact. */
  lemma AddUserFixedExact(st: UsersState, u: ChatUser)
    requires OnlineExact(st)
    ensures OnlineExact(AddUserFixed(st, u))
  {
    OnlineStaysKnown(st, u.id, u.status, u, None);
    var r := AddUserFixed(st, u);
    assert NoDup(r.online) by {
      if IsOnline(u) {
        assert r.online == AddUser(st, u).online;
      }
    }
  }

  /** `addUser` as written leaves a stale entry: re-adding an online user as
      `'offline'` keeps the id in `online`. */
  lemma AddUserLeavesStaleOnline()
    ensures var st := AddUser(InitialUsers(), ChatUser("user1", "Alice", "", Online, 0));
      var r := AddUser(st, ChatUser("user1", "Alice", "", "offline", 0));
      OnlineExact(st) && !OnlineExact(r) && "user1" in r.online && !IsOnline(r.byId["user1"])
  {
    var st := AddUser(InitialUsers(), ChatUser("user1", "Alice", "", Online, 0));
    assert st.online == ["user1"];
    var r := AddUser(st, ChatUser("user1", "Alice", "", "offline", 0));
    assert r.online == ["user1"];
  }
}
