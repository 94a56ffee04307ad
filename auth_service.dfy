/**
 * Login, logout, registration and the resolution of the current user from
 * the session cookie. bcrypt is seen through a Hasher, the uuid of a new
 * session is a parameter, and the request's cookie is the value of
 * "sessCookie" when the browser sent one.
 */
module Auth {
  import opened Wrappers
  import opened Text
  import opened States
  import opened Web
  import opened Db

  /** bcrypt from outside: GenerateFromPassword may fail; CompareHashAndPassword says yes or no. */
  datatype Hasher = Hasher(hash: string -> Option<Bytes>, verify: (Bytes, string) -> bool)

  /**
   * What the code relies on bcrypt for: a produced hash is non-empty and
   * verifies against its own password, and an empty stored password
   * verifies against nothing (bcrypt reports the hash as too short).
   */
  ghost predicate Sound(h: Hasher) {
    && (forall p :: h.hash(p).Some? ==> |h.hash(p).value| > 0 && h.verify(h.hash(p).value, p))
    && (forall p :: !h.verify([], p))
  }

  const LoginMismatch := "Login ID and/or password do not match"
  const AlreadyRegistered := "Login ID already registered, try signing in instead."
  const NotRecognized := "Login ID not recognized."
  const InternalServerError := "Internal Server Error"

  /** createSessCookie: a site-wide session cookie (no MaxAge) carrying the new token. */
  function SessionCookie(token: string): (c: Cookie)
    ensures c.name == SessCookieName && c.value == token && c.path == "/" && c.maxAge == 0
  {
    Cookie(SessCookieName, token, "/", 0)
  }

  /** The cookie Logout sets: empty, expired at once, site-wide. */
  const ClearedCookie: Cookie := Cookie(SessCookieName, "", "/", -1)

  /**
   * GetUser: cookie -> session -> user; the zero User when there is no
   * cookie, the token has no session, or the session's login ID has no user.
   */
  function GetUser(store: Store, cookie: Option<string>): (user: User)
    reads store`users, store`sessions
    ensures user != EmptyUser ==>
      cookie.Some? && cookie.value in store.sessions && store.sessions[cookie.value] in store.users
      && user == store.users[store.sessions[cookie.value]]
    ensures cookie.Some? && cookie.value in store.sessions && store.sessions[cookie.value] in store.users ==>
      user == store.users[store.sessions[cookie.value]]
  {
    match cookie
    case None => EmptyUser
    case Some(token) =>
      if token in store.sessions && store.sessions[token] in store.users
      then store.users[store.sessions[token]]
      else EmptyUser
  }

  /** The admin record the package's init seeds; a failed hash is ignored and leaves the password empty. */
  function AdminUser(hasher: Hasher, adminPassword: string): (admin: User)
    ensures admin.id == "admin" && admin.first == "admin" && admin.last == "admin"
    ensures Sound(hasher) && hasher.hash(adminPassword).Some? ==> hasher.verify(admin.password, adminPassword)
    ensures hasher.hash(adminPassword).None? ==> admin.password == []
  {
    var hashed := match hasher.hash(adminPassword) case Some(h) => h case None => [];
    User("admin", hashed, "admin", "admin")
  }

  /** init: seeds "admin" with the hash of ADMIN_PASSWORD, replacing any "admin" loaded from disk. */
  method SeedAdmin(store: Store, hasher: Hasher, adminPassword: string)
    modifies store`users
    ensures store.users == old(store.users)["admin" := AdminUser(hasher, adminPassword)]
  {
    store.SetMapUser("admin", AdminUser(hasher, adminPassword));
  }

  /**
   * The tab of the registration page: the last '/'-separated piece of the
   * path, i.e. the text after its last '/' (the whole path when it has none).
   */
  function RegisterTab(path: string): (tab: string)
    ensures '/' !in tab && HasSuffix(path, tab)
    ensures tab == path || (|tab| < |path| && path[|path| - |tab| - 1] == '/')
  {
    var parts := Split(path, '/');
    SplitLast(path, '/');
    parts[|parts| - 1]
  }

  /** True when the registration guard lets `loginID` through: on the roster and without a password. */
  predicate CanRegister(users: map<string, User>, loginID: string) {
    loginID in users && |users[loginID].password| == 0
  }

  class AuthService {
    /** The registration page's shared Variables. */
    var variables: PageVariables

    constructor ()
      ensures variables == PageVariables(EmptyUser, "")
    {
      variables := PageVariables(EmptyUser, "");
    }

    /**
     * Login: 401 for an unknown login ID, 403 for a password the stored hash
     * rejects, otherwise a new session for `token`, the session cookie and
     * a 303 to "/".
     */
    method Login(store: Store, hasher: Hasher, loginID: string, password: string, token: string) returns (reply: Reply)
      modifies store`sessions
      ensures loginID !in store.users ==>
        reply == Reply(None, Error(StatusUnauthorized, LoginMismatch)) && store.sessions == old(store.sessions)
      ensures loginID in store.users && !hasher.verify(store.users[loginID].password, password) ==>
        reply == Reply(None, Error(StatusForbidden, LoginMismatch)) && store.sessions == old(store.sessions)
      ensures loginID in store.users && hasher.verify(store.users[loginID].password, password) ==>
        && store.sessions == old(store.sessions)[token := loginID]
        && reply == Reply(Some(SessionCookie(token)), Redirect(StatusSeeOther, "/"))
        && GetUser(store, Some(token)) == store.users[loginID]
      ensures Sound(hasher) && loginID in store.users && store.users[loginID].password == [] ==>
        reply.response == Error(StatusForbidden, LoginMismatch)
    {
      var myUser, ok := store.GetMapUser(loginID);
      if !ok {
        return Reply(None, Error(StatusUnauthorized, LoginMismatch));
      }
      if !hasher.verify(myUser.password, password) {
        return Reply(None, Error(StatusForbidden, LoginMismatch));
      }
      var c := SessionCookie(token);
      store.SetMapSession(c.value, loginID);
      reply := Reply(Some(c), Redirect(StatusSeeOther, "/"));
    }

    /**
     * Logout: forgets the presented token's session (and nothing else),
     * clears the cookie and answers 303 to "/".
     */
    method Logout(store: Store, cookie: Option<string>) returns (reply: Reply)
      modifies store`sessions
      ensures cookie.None? ==> store.sessions == old(store.sessions)
      ensures cookie.Some? ==> store.sessions == old(store.sessions) - {cookie.value}
      ensures GetUser(store, cookie) == EmptyUser
      ensures reply == Reply(Some(ClearedCookie), Redirect(StatusSeeOther, "/"))
    {
      if cookie.Some? {
        store.sessions := store.sessions - {cookie.value};
      }
      reply := Reply(Some(ClearedCookie), Redirect(StatusSeeOther, "/"));
    }

    /** RegisterPage: renders "registrationPage" with the current user and the path's last piece. */
    method RegisterPage(store: Store, cookie: Option<string>, path: string) returns (response: Response)
      modifies this`variables
      ensures variables == PageVariables(GetUser(store, cookie), RegisterTab(path))
      ensures response == Render("registrationPage", variables)
    {
      var currUser := GetUser(store, cookie);
      variables := PageVariables(currUser, RegisterTab(path));
      response := Render("registrationPage", variables);
    }

    /**
     * Register: 401 for a login ID not on the roster or already holding a
     * password; 500 when hashing fails; otherwise only the password of that
     * user becomes the hash, and the answer is 303 to "/auth/success" (or
     * 302 to "/" when writing users.json panics, the update staying in memory).
     */
    method Register(store: Store, hasher: Hasher, loginID: string, password: string, persist: WriteOutcome)
      returns (response: Response)
      modifies store`users
      ensures loginID !in old(store.users) ==>
        response == Error(StatusUnauthorized, NotRecognized) && store.users == old(store.users)
      ensures loginID in old(store.users) && |old(store.users)[loginID].password| > 0 ==>
        response == Error(StatusUnauthorized, AlreadyRegistered) && store.users == old(store.users)
      ensures CanRegister(old(store.users), loginID) && hasher.hash(password).None? ==>
        response == Error(StatusInternalServerError, InternalServerError) && store.users == old(store.users)
      ensures CanRegister(old(store.users), loginID) && hasher.hash(password).Some? ==>
        && store.users == old(store.users)[loginID := old(store.users)[loginID].(password := hasher.hash(password).value)]
        && response == (if persist == Panicked then Redirect(StatusFound, "/") else Redirect(StatusSeeOther, "/auth/success"))
      ensures Sound(hasher) && CanRegister(old(store.users), loginID) && hasher.hash(password).Some? ==>
        hasher.verify(store.users[loginID].password, password) && !CanRegister(store.users, loginID)
    {
      var user, ok := store.GetMapUser(loginID);
      if ok {
        if |user.password| > 0 {
          return Error(StatusUnauthorized, AlreadyRegistered);
        }
      } else {
        return Error(StatusUnauthorized, NotRecognized);
      }
      var bPassword := hasher.hash(password);
      if bPassword.None? {
        return Error(StatusInternalServerError, InternalServerError);
      }
      user := user.(password := bPassword.value);
      store.SetMapUser(loginID, user);
      var snapshot := store.GetAllMapUsers();
      if persist == Panicked {
        return Redirect(StatusFound, "/");
      }
      response := Redirect(StatusSeeOther, "/auth/success");
    }
  }

  /** Registering and then logging in with the same password gives a session that resolves to that user. */
  method RegisterThenLogin(auth: AuthService, store: Store, hasher: Hasher, loginID: string, password: string,
                           token: string, persist: WriteOutcome) returns (registered: Response, loggedIn: Reply)
    requires Sound(hasher) && CanRegister(store.users, loginID) && hasher.hash(password).Some?
    modifies store`users, store`sessions
    ensures registered == (if persist == Panicked then Redirect(StatusFound, "/") else Redirect(StatusSeeOther, "/auth/success"))
    ensures loggedIn == Reply(Some(SessionCookie(token)), Redirect(StatusSeeOther, "/"))
    ensures loginID in store.users && GetUser(store, Some(token)) == store.users[loginID]
    ensures store.users[loginID] == old(store.users)[loginID].(password := hasher.hash(password).value)
  {
    registered := auth.Register(store, hasher, loginID, password, persist);
    loggedIn := auth.Login(store, hasher, loginID, password, token);
  }

  /** Logging out with the cookie a login set makes that cookie resolve to the anonymous user again. */
  method LoginThenLogout(auth: AuthService, store: Store, hasher: Hasher, loginID: string, password: string, token: string)
    returns (loggedIn: Reply, loggedOut: Reply)
    modifies store`sessions
    ensures loggedIn.response == Redirect(StatusSeeOther, "/") ==> loggedIn.cookie == Some(SessionCookie(token))
    ensures GetUser(store, Some(token)) == EmptyUser
    ensures token !in store.sessions
  {
    loggedIn := auth.Login(store, hasher, loginID, password, token);
    loggedOut := auth.Logout(store, Some(token));
  }
}
