/**
 * Top-level dispatch of a request path: the exact root, then the /auth,
 * /admin and /user prefixes (the last two behind checkAuth), then the
 * static-file suffixes, then 404.
 */
module Router {
  import opened Text
  import opened States
  import UserController
  import AdminController

  /** checkAuth's answer and how many redirects to "/" it wrote on the way. */
  datatype AuthCheck = AuthCheck(passed: bool, redirects: nat)

  /**
   * checkAuth(adminCheck): passes a logged-in user, or only "admin" when
   * adminCheck; an anonymous user always gets a redirect, and a second one
   * when adminCheck.
   */
  function CheckAuth(user: User, adminCheck: bool): (c: AuthCheck)
    ensures !adminCheck ==> (c.passed <==> user.id != "")
    ensures adminCheck ==> (c.passed <==> user.id == "admin")
    ensures c.redirects == 0 <==> c.passed
    ensures c.redirects == 2 <==> adminCheck && user.id == ""
    ensures c.redirects <= 2
  {
    var redirects := if user.id == "" then 1 else 0;
    if !adminCheck then AuthCheck(user.id != "", redirects)
    else AuthCheck(user.id == "admin", redirects + (if user.id != "admin" then 1 else 0))
  }

  /** Where a request goes. */
  datatype Action =
    | MainIndex
    | AuthController
    | ToAdmin(admin: AdminController.Handler)
    | ToUser(user: UserController.Handler)
    | RedirectHome
    | ServeStylesheet
    | ServeScript
    | NotFound

  /** Routes, for the request's method and path and the user GetUser resolves from its cookie. */
  function Routes(httpMethod: string, path: string, user: User): (a: Action)
    ensures a == MainIndex <==> path == "/"
    ensures a == AuthController <==> path != "/" && HasPrefix(path, "/auth")
    ensures a.ToAdmin? ==> HasPrefix(path, "/admin") && user.id == "admin"
    ensures a.ToUser? ==> HasPrefix(path, "/user") && user.id != ""
    ensures a == ServeStylesheet || a == ServeScript || a == NotFound ==>
      path != "/" && !HasPrefix(path, "/auth") && !HasPrefix(path, "/admin") && !HasPrefix(path, "/user")
    ensures a == ServeStylesheet ==> HasSuffix(path, ".css")
    ensures a == ServeScript ==> HasSuffix(path, ".js") && !HasSuffix(path, ".css")
    ensures a == RedirectHome ==>
      (HasPrefix(path, "/admin") && user.id != "admin") || (HasPrefix(path, "/user") && user.id == "")
    ensures path != "/" && !HasPrefix(path, "/auth") && !HasPrefix(path, "/admin") && !HasPrefix(path, "/user") ==>
      a == (if HasSuffix(path, ".css") then ServeStylesheet else if HasSuffix(path, ".js") then ServeScript else NotFound)
  {
    if path == "/" then MainIndex
    else if HasPrefix(path, "/auth") then AuthController
    else if HasPrefix(path, "/admin") then
      if CheckAuth(user, true).passed then ToAdmin(AdminController.Controller(httpMethod, path)) else RedirectHome
    else if HasPrefix(path, "/user") then
      if CheckAuth(user, false).passed then ToUser(UserController.Controller(httpMethod, path)) else RedirectHome
    else if HasSuffix(path, ".css") then ServeStylesheet
    else if HasSuffix(path, ".js") then ServeScript
    else NotFound
  }

  /** A path under /admin is an admin route whatever it ends with: it reaches the admin controller or is redirected home. */
  lemma AdminPrefixBeatsSuffix(httpMethod: string, path: string, user: User)
    requires HasPrefix(path, "/admin")
    ensures Routes(httpMethod, path, user) == (if user.id == "admin" then ToAdmin(AdminController.Controller(httpMethod, path)) else RedirectHome)
  {
    assert path != "/";
    assert !HasPrefix(path, "/auth") by {
      assert path[..5] == "/admi";
    }
  }

  /** A path under /user reaches the user controller exactly for a logged-in user, and is otherwise redirected home. */
  lemma UserPrefixNeedsLogin(httpMethod: string, path: string, user: User)
    requires HasPrefix(path, "/user")
    ensures Routes(httpMethod, path, user) == (if user.id != "" then ToUser(UserController.Controller(httpMethod, path)) else RedirectHome)
  {
    assert path != "/";
    assert !HasPrefix(path, "/auth") && !HasPrefix(path, "/admin") by {
      assert path[1] == 'u';
    }
  }

  /** The check-in handler is reached by exactly one request shape: POST /user/attendance from a logged-in user. */
  lemma CheckInRoute(httpMethod: string, path: string, user: User)
    ensures Routes(httpMethod, path, user) == ToUser(UserController.CheckIn) <==>
      httpMethod == "POST" && path == "/user/attendance" && user.id != ""
  {
    if Routes(httpMethod, path, user) == ToUser(UserController.CheckIn) {
      assert "/user" + TrimPrefix(path, "/user") == path;
    }
    if httpMethod == "POST" && path == "/user/attendance" && user.id != "" {
      assert HasPrefix(path, "/user");
      UserPrefixNeedsLogin(httpMethod, path, user);
      assert TrimPrefix(path, "/user") == "/attendance";
    }
  }

  /** The export handler is reached by exactly one request shape: POST /admin/export from "admin". */
  lemma ExportRoute(httpMethod: string, path: string, user: User)
    ensures Routes(httpMethod, path, user) == ToAdmin(AdminController.ExportAttendanceCSV) <==>
      httpMethod == "POST" && path == "/admin/export" && user.id == "admin"
  {
    if Routes(httpMethod, path, user) == ToAdmin(AdminController.ExportAttendanceCSV) {
      assert "/admin" + TrimPrefix(path, "/admin") == path;
    }
    if httpMethod == "POST" && path == "/admin/export" && user.id == "admin" {
      assert HasPrefix(path, "/admin");
      AdminPrefixBeatsSuffix(httpMethod, path, user);
      assert TrimPrefix(path, "/admin") == "/export";
    }
  }

  /** "/admin/x.css" is an admin route, not the stylesheet. */
  lemma AdminStylesheetPath(httpMethod: string, user: User)
    ensures Routes(httpMethod, "/admin/x.css", user) != ServeStylesheet
  {
    AdminPrefixBeatsSuffix(httpMethod, "/admin/x.css", user);
  }
}
