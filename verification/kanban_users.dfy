/** The kanban board's `users` slice: an entity adapter of users, the id of
    the current user, and the fetch status. */
module KanbanUsers {
  import opened Wrappers
  import opened Seqs
  import opened EntityAdapter
  import opened KanbanStore

  datatype User = User(id: Id, name: string, email: string, avatar: string, role: string)

  function UserKey(u: User): Id { u.id }

  datatype UsersState = UsersState(users: EntityState<User>, currentUser: Option<Id>, status: Status, error: Option<string>)

  /** The initial state: no users loaded, `user-1` current, idle. */
  function InitialUsers(): (r: UsersState)
    ensures r.currentUser == Some("user-1") && r.status == Idle && r.error == None
    ensures r.users.ids == [] && r.users.entities == map[]
  {
    UsersState(Empty(), Some("user-1"), Idle, None)
  }

  /** `setCurrentUser`. */
  function SetCurrentUser(st: UsersState, id: Option<Id>): (r: UsersState)
    ensures r.currentUser == id
    ensures r.(currentUser := st.currentUser) == st
  {
    st.(currentUser := id)
  }

  /** `fetchUsers.pending`. */
  function FetchUsersPending(st: UsersState): (r: UsersState)
    ensures r.status == Loading
    ensures r.(status := st.status) == st
  {
    st.(status := Loading)
  }

  /** `fetchUsers.fulfilled`: the adapter replaced by the payload. */
  function FetchUsersFulfilled(st: UsersState, payload: seq<User>): (r: UsersState)
    ensures r.status == Succeeded
    ensures Valid(r.users, UserKey)
    ensures r.users.entities.Keys == set i | 0 <= i < |payload| :: payload[i].id
    ensures r.users.ids == Dedup(Map(payload, UserKey))
    ensures r.currentUser == st.currentUser && r.error == st.error
  {
    AddManyIds(payload, UserKey);
    st.(users := SetAll(payload, UserKey), status := Succeeded)
  }

  /** `fetchUsers.rejected`: the payload, or the fixed fallback message. */
  function FetchUsersRejected(st: UsersState, payload: Option<string>): (r: UsersState)
    ensures r.status == Failed
    ensures Truthy(payload) ==> r.error == payload
    ensures !Truthy(payload) ==> r.error == Some("Failed to fetch users")
    ensures r.users == st.users && r.currentUser == st.currentUser
  {
    st.(status := Failed, error := Some(OrElse(payload, "Failed to fetch users")))
  }

  /** The key a JavaScript property lookup uses: `null` becomes `"null"`. */
  function PropertyKey(id: Option<Id>): Id {
    match id
    case None => "null"
    case Some(k) => k
  }

  /** `selectCurrentUser`: the user stored under the current id, if any. */
  function SelectCurrentUser(st: UsersState): (r: Option<User>)
    ensures r.Some? <==> PropertyKey(st.currentUser) in st.users.entities
    ensures r.Some? ==> r.value == st.users.entities[PropertyKey(st.currentUser)]
  {
    SelectById(st.users, PropertyKey(st.currentUser))
  }

  /** In a valid adapter the selected user carries the current id. */
  lemma SelectCurrentUserId(st: UsersState)
    requires Valid(st.users, UserKey) && st.currentUser.Some?
    ensures SelectCurrentUser(st).Some? ==> SelectCurrentUser(st).value.id == st.currentUser.value
    ensures SelectCurrentUser(st).Some? <==> st.currentUser.value in st.users.ids
  {
    SelectByIdCarriesId(st.users, st.currentUser.value, UserKey);
  }

  /** The payload the `fetchUsers` thunk resolves with. */
  function SampleUsers(): seq<User> {
    [ User("user-1", "John Doe", "john@example.com", "https://i.pravatar.cc/150?u=user-1", "admin"),
      User("user-2", "Jane Smith", "jane@example.com", "https://i.pravatar.cc/150?u=user-2", "member"),
      User("user-3", "Bob Johnson", "bob@example.com", "https://i.pravatar.cc/150?u=user-3", "member") ]
  }

  /** After the sample users load, the default current user resolves to the
      first of them. */
  lemma DefaultUserResolves()
    ensures SelectCurrentUser(FetchUsersFulfilled(InitialUsers(), SampleUsers())) == Some(SampleUsers()[0])
  {
    var us := SampleUsers();
    assert Map(us, UserKey) == ["user-1", "user-2", "user-3"];
    SetAllDistinct(us, UserKey);
    assert UserKey(us[0]) == "user-1";
  }
}
