/** The chat app's `auth` slice: whether someone is signed in, who, and the
    progress of the last login or registration. */
module ChatAuth {
  import opened Wrappers
  import opened EntityAdapter

  datatype AuthUser = AuthUser(id: Id, username: string, email: string, avatar: string, status: string)

  datatype AuthState = AuthState(isAuthenticated: bool, user: Option<AuthUser>, loading: bool, error: Option<string>)

  function InitialAuth(): (r: AuthState)
    ensures !r.isAuthenticated && r.user == None && !r.loading && r.error == None
  {
    AuthState(false, None, false, None)
  }

  /** Signed in exactly when a user is recorded. */
  predicate SignedInIffUser(st: AuthState) {
    st.isAuthenticated <==> st.user.Some?
  }

  /** `loginStart` and `registerStart`. */
  function AuthStart(st: AuthState): (r: AuthState)
    ensures r.loading && r.error == None
    ensures r.isAuthenticated == st.isAuthenticated && r.user == st.user
  {
    st.(loading := true, error := None)
  }

  /** `loginSuccess` and `registerSuccess`. */
  function AuthSuccess(st: AuthState, user: AuthUser): (r: AuthState)
    ensures r.isAuthenticated && r.user == Some(user) && !r.loading && r.error == None
  {
    AuthState(true, Some(user), false, None)
  }

  /** `loginFailure` and `registerFailure`. */
  function AuthFailure(st: AuthState, message: Option<string>): (r: AuthState)
    ensures !r.loading && r.error == message
    ensures r.isAuthenticated == st.isAuthenticated && r.user == st.user
  {
    st.(loading := false, error := message)
  }

  /** `logout`: loading and error are left as they were. */
  function Logout(st: AuthState): (r: AuthState)
    ensures !r.isAuthenticated && r.user == None
    ensures r.loading == st.loading && r.error == st.error
  {
    st.(isAuthenticated := false, user := None)
  }

  /** `updateUserStatus`: only the signed-in user's status changes. */
  function UpdateUserStatus(st: AuthState, status: string): (r: AuthState)
    ensures st.user.None? ==> r == st
    ensures st.user.Some? ==> r == st.(user := Some(st.user.value.(status := status)))
  {
    match st.user
    case None => st
    case Some(u) => st.(user := Some(u.(status := status)))
  }

  /** Every reducer keeps "signed in" and "has a user" in step. */
  lemma ReducersKeepSignedInIffUser(st: AuthState, user: AuthUser, message: Option<string>, status: string)
    requires SignedInIffUser(st)
    ensures SignedInIffUser(AuthStart(st)) && SignedInIffUser(AuthSuccess(st, user))
    ensures SignedInIffUser(AuthFailure(st, message)) && SignedInIffUser(Logout(st))
    ensures SignedInIffUser(UpdateUserStatus(st, status))
  {
  }

  /** A failed attempt after a successful one keeps the user signed in. */
  lemma FailureKeepsSession(st: AuthState, user: AuthUser, message: Option<string>)
    ensures var r := AuthFailure(AuthStart(AuthSuccess(st, user)), message);
      r.isAuthenticated && r.user == Some(user) && r.error == message
  {
  }
}
