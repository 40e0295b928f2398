/** The signed-in user (app/providers.tsx): login, logout and the start-up read of the
    remembered user. The "filmDbUser" storage slot is an optional user. */
module Session {
  import opened Wrappers

  /** Who is using the app. */
  datatype User = User(name: string, isLoggedIn: bool)

  /** Nobody signed in. */
  const SignedOut := User("", false)

  /** The visible user together with the remembered one. */
  datatype SessionState = SessionState(user: User, stored: Option<User>)

  /** `login`: the password is never checked; the user is remembered only when asked. */
  function Login(s: SessionState, name: string, password: string, remember: bool): (r: SessionState)
    ensures r.user.name == name && r.user.isLoggedIn
    ensures remember ==> r.stored == Some(r.user)
    ensures !remember ==> r.stored == s.stored
  {
    var newUser := User(name, true);
    SessionState(newUser, if remember then Some(newUser) else s.stored)
  }

  /** `logout`: nobody is signed in and nobody is remembered. */
  function Logout(s: SessionState): (r: SessionState)
    ensures r.user == SignedOut && !r.user.isLoggedIn
    ensures r.stored.None?
  {
    SessionState(SignedOut, None)
  }

  /** The start-up effect: the remembered user when there is one, else nobody. */
  function Initialised(stored: Option<User>): (r: SessionState)
    ensures stored.Some? ==> r.user == stored.value
    ensures stored.None? ==> r.user == SignedOut
    ensures r.stored == stored
  {
    SessionState(stored.GetOr(SignedOut), stored)
  }

  /** Two passwords give the same login. */
  lemma LoginIgnoresPassword(s: SessionState, name: string, p: string, q: string, remember: bool)
    ensures Login(s, name, p, remember) == Login(s, name, q, remember)
  {
  }

  /** Logging out twice is logging out once, whatever came before. */
  lemma LogoutIdempotent(s: SessionState, t: SessionState)
    ensures Logout(Logout(s)) == Logout(s)
    ensures Logout(s) == Logout(t)
  {
  }

  /** A remembered login comes back after a reload; after a logout it does not, even when
      it was remembered; a login that was not remembered leaves the reload to the earlier
      remembered user. */
  lemma ReloadScenarios(s: SessionState, name: string, password: string)
    ensures Initialised(Login(s, name, password, true).stored).user == User(name, true)
    ensures Initialised(Logout(Login(s, name, password, true)).stored).user == SignedOut
    ensures Initialised(Login(s, name, password, false).stored) == Initialised(s.stored)
  {
  }

  /** The provider's state and the storage slot it writes. */
  class Provider {
    var user: User
    var stored: Option<User>

    /** Mounting the provider with whatever the slot holds; the start-up effect adopts a
        remembered user. */
    constructor(remembered: Option<User>)
      ensures SessionState(user, stored) == Initialised(remembered)
    {
      user := remembered.GetOr(SignedOut);
      stored := remembered;
    }

    /** `login(name, password, remember)`. */
    method LogIn(name: string, password: string, remember: bool)
      modifies this
      ensures SessionState(user, stored) == Login(old(SessionState(user, stored)), name, password, remember)
    {
      var newUser := User(name, true);
      user := newUser;
      if remember {
        stored := Some(newUser);
      }
    }

    /** `logout()`. */
    method LogOut()
      modifies this
      ensures SessionState(user, stored) == Logout(old(SessionState(user, stored)))
    {
      user := SignedOut;
      stored := None;
    }
  }
}
