# Attendance server: state, authentication, check-in, reporting and routing

This project models the request logic of a small attendance web server. Students log in, then check in once a day from the school network. An administrator reviews who checked in over a range of dates.

The model covers these parts of the server:

- **The in-memory state** (`States.Store`). It holds three maps: users (login ID to user record), sessions (session token to login ID) and attendance (day to login ID to check-in time). It has one method per accessor.
- **Authentication** (`Auth`). This covers login, logout, registration, resolving the current user from the `sessCookie` cookie, the admin seed, the shape of the session cookie and the registration page's tab.
- **The check-in state machine** (`UserService.CheckIn`). Its guards run in a fixed order: anonymous user, already checked in today, wrong network. Only after all three pass is today's entry written.
- **The two reporting helpers** (`Templates`). One tells whether a user has checked in today. The other builds the day-by-day report over an inclusive date range.
- **The landing page decision** (`MainPage.MainService.Index`).
- **Routing and dispatch** (`Router`, `UserController`, `AdminController`). These are pure functions from (method, path, current user) to an action.
- **The address matcher** of `ValidateIP` (`Util`).

External services are parameters of the model:

- **bcrypt** is a `Hasher`, a pair of functions. The predicate `Sound` states what the code relies on: a produced hash verifies against its own password, and an empty stored hash verifies against nothing.
- **The session uuid** is a `token` parameter.
- **The clock.** Each `time.Now()` reading is a `Time` parameter. A `Time` is a whole number of seconds on the server's local wall clock, and `Clock.Midnight` is the start of the day that holds it.
- **`Time.Format`** of the long layout is a `format` parameter that never yields "" (`Clock.NonEmptyFormat`).
- **The network check** (the client-IP verdict) is an `IpResult` input.
- **Writing a JSON file** is a `Db.WriteOutcome`: it either returns or panics.

The request's session cookie is an `Option<string>`, and each response is a `Web.Reply` or `Web.Response` value.

## Model

| member | source | states |
|---|---|---|
| States.Store.constructor | src/states/states.go:22-62 | users and attendance start as loaded from disk; sessions start empty |
| States.Store.GetMapUser | src/states/states.go:65-70 | ok holds exactly when the ID is a key; the stored user when it is, the zero User otherwise |
| States.Store.GetAllMapUsers | src/states/states.go:73-77 | returns the users map as stored |
| States.Store.SetMapUser | src/states/states.go:80-84 | the ID now maps to the given user; every other user key, the sessions and the attendance are unchanged |
| States.Store.GetMapSession | src/states/states.go:87-92 | ok exactly when the token is a key; the stored login ID, or "" |
| States.Store.GetAllMapSessions | src/states/states.go:95-99 | returns the sessions map as stored |
| States.Store.SetMapSession | src/states/states.go:102-106 | the token now maps to the login ID, overwriting any earlier one; other tokens, users and attendance are unchanged |
| States.Store.GetMapAttendanceOuter | src/states/states.go:109-125 | for a present day, a copy with the same keys and values, built entry by entry; for an absent day, an empty map and false; the store does not change |
| States.Store.GetAllMapAttendanceOuter | src/states/states.go:128-132 | returns the attendance map as stored |
| States.Store.GetMapAttendanceInner | src/states/states.go:135-145 | (stored time, true) exactly when the day and the user's entry on it exist, else (ZeroTime, false), ZeroTime standing for Go's zero time.Time |
| States.Store.SetMapAttendanceInner | src/states/states.go:148-157 | creates the day's map when missing; afterwards the entry is the given time, and other users that day and all other days are unchanged |
| States.Store.SetMapAttendanceOuter | src/states/states.go:160-165 | replaces the whole map of that day, dropping its earlier entries; other days are untouched |
| Auth.AdminUser | src/services/authService.go:47-58 | the seeded admin has ID, first and last name "admin"; when hashing succeeds its password verifies against ADMIN_PASSWORD under a sound hasher; when hashing fails the password is empty, because init ignores the error, so the admin cannot log in |
| Auth.SeedAdmin | src/services/authService.go:47-58 | the users map gains (or replaces) "admin" with that record and nothing else |
| Auth.AuthService.constructor | src/services/authService.go:42-45 | the service starts with zero Variables |
| Auth.AuthService.Login | src/services/authService.go:63-89 | unknown ID: 401 and no session; failed verification: 403 and no session; otherwise exactly one new session from the token to the ID, the session cookie, and a 303 to "/"; the new cookie resolves to that user; under a sound hasher, an unregistered (empty) password is always refused |
| Auth.AuthService.Logout | src/services/authService.go:93-115 | removes only the presented token's session and leaves the sessions map as it was without a cookie; the cookie then resolves to nobody; always clears `sessCookie` (value "", MaxAge -1, Path "/") and answers 303 to "/" |
| Auth.GetUser | src/services/authService.go:119-137 | the stored user exactly when the cookie's token has a session whose ID is on the roster; the zero User in every other case |
| Auth.AuthService.RegisterPage | src/services/authService.go:139-154 | Variables become the current user and the path's last '/'-piece, and the registration page is rendered with them |
| Auth.RegisterTab | src/services/authService.go:146 | the tab contains no '/', ends the path, and is either the whole path or preceded by a '/' in it |
| Auth.AuthService.Register | src/services/authService.go:160-205 | unknown ID: 401 "not recognized"; ID with a password: 401 "already registered"; failed hash: 500; all three leave users unchanged; otherwise only that user's password changes, to the hash, with a 303 to "/auth/success", or a 302 to "/" when the write panics and the update stays in memory; under a sound hasher the new password verifies and the ID cannot register again |
| Auth.RegisterThenLogin | src/services/authService.go:63-205 | registering and then logging in with the same password succeeds, and the new session resolves to the registered user |
| Auth.LoginThenLogout | src/services/authService.go:63-115 | after logout, the token a login issued has no session and resolves to nobody |
| Auth.SessionCookie | src/services/authService.go:207-223 | the session cookie is named "sessCookie", carries the token, has path "/" and no MaxAge |
| UserService.CheckIn | src/services/userService.go:36-82 | anonymous: 302 to "/"; already checked in today: 403; a false or erroring network verdict: 403; each leaves attendance unchanged, in that order of precedence; otherwise attendance becomes the old map with (midnight of now, user) set to now, answering 302 to "/user/attendance/success", or 302 to "/" when persisting panics |
| UserService.CheckInSuccess | src/services/userService.go:86-88 | always a 302 to "/?attendanceSuccess=success" |
| UserService.Recorded | src/services/userService.go:67-72 | the write of a check-in: the days are the old days plus today; today's users are the old ones plus this user, whose entry is `now`; other users today and other days keep their entries |
| UserService.RecordedKeepsOthers | src/services/userService.go:67-72 | a check-in keeps every other user's entry that day and every other day's entries |
| UserService.RecordedIsCheckedIn | src/services/userService.go:67-72 | after a check-in the user is checked in, at `now`, for every instant of the same day |
| UserService.CheckInTwice | src/services/userService.go:52-72 | of two check-ins by one user on one day, the second gets 403 and the entry keeps the first time |
| Templates.IsCheckedIn | src/templates/templates.go:34-46 | "" exactly when there is no entry for (today, user); otherwise the formatted check-in time |
| Templates.DayEntry | src/templates/templates.go:64-79 | nil exactly for a day with no map; "admin" is never listed; a user is listed exactly when on the roster and checked in that day |
| Templates.DayDetails | src/templates/templates.go:66-75 | the roster loop keeps exactly the non-admin users checked in that day, with the formatted time and "First Last" |
| Templates.WalkDays | src/templates/templates.go:62-80 | the day loop yields one entry for each day from the first to the last inclusive (none when first is after last), each as DayEntry gives it |
| Templates.GetCheckedInUsers | src/templates/templates.go:48-84 | empty when a bound is "" or does not parse as YYYY-MM-DD; otherwise keys exactly the days of the range, each valued as DayEntry gives it |
| Templates.ReportMembership | src/templates/templates.go:66-75 | a report entry lists a user iff they are on the roster, are not "admin" and checked in that day, with Name = First + " " + Last and CheckInTime = the formatted stored time |
| Clock.Midnight | src/services/userService.go:68 | the day start is at most `t`, less than a day before it, and aligned to a day boundary |
| Clock.ParseDate | src/templates/templates.go:53-60 | an accepted string is 10 characters with '-' at positions 4 and 7, and the result is a day boundary |
| Clock.ParseDateSound | src/templates/templates.go:53-60 | whatever ParseDate accepts is exactly FormatDate of a valid date with a four-digit year, and the result is DaysFromCivil of that date times 86400; with ParseFormatDate, the accepted strings are exactly the formatted valid dates |
| Clock.FormatDate | src/templates/templates.go:63 | "2006-01-02" formatting gives 10 characters: four digits, '-', two digits, '-', two digits |
| Clock.DaysIn | src/templates/templates.go:53-57 | the month lengths ParseInLocation checks the day against: 28 to 31, 29 only in a leap February, 30 in April, June, September and November, 31 in the other seven months |
| Clock.NextDate | src/templates/templates.go:80 | the calendar day after a valid date is valid, and stays in the same year unless it is January 1 of the next |
| Clock.DaysFromCivilNext | src/templates/templates.go:80 | the day count of the next calendar date is one more, across month ends, Februaries of leap and common years, and year ends |
| Clock.NextDateMidnight | src/templates/templates.go:53-80 | one step of 86400 seconds from the midnight of a parsed date is the midnight of the next calendar date, so the report's walk visits the dates AddDate(0, 0, 1) visits |
| Clock.ParseFormatDate | src/templates/templates.go:53-63 | parsing a formatted valid date gives back that date's midnight |
| MainPage.MainService.constructor | src/services/main.go:24-27 | the service starts with zero Variables |
| MainPage.MainService.Index | src/services/main.go:33-62 | admin: 302 to "/admin/overview", Variables untouched; a "success" tab without a check-in today: 302 to "/", Variables untouched; otherwise Variables become (user, tab) and "index" is rendered; the admin test comes first, and any other tab skips the attendance lookup |
| Router.CheckAuth | src/router/router.go:67-83 | without the admin flag it passes exactly a logged-in user, with it exactly "admin"; it redirects when it fails, at most twice, and twice exactly for an anonymous user under the admin check |
| Router.Routes | src/router/router.go:38-64 | "/" is the index and /auth the auth controller, with no check; /admin and /user are reached only past checkAuth, and a redirect home happens only for a /admin path from a non-admin or a /user path from an anonymous user; any other path is the stylesheet if it ends in ".css", else the script if it ends in ".js", else 404 |
| Router.AdminPrefixBeatsSuffix | src/router/router.go:46-50 | any /admin path reaches the admin controller for "admin" and redirects home for anyone else, whatever it ends with |
| Router.UserPrefixNeedsLogin | src/router/router.go:51-55 | any /user path reaches the user controller exactly for a logged-in user, else redirects home |
| Router.CheckInRoute | src/router/router.go:38-64 | the check-in handler is reached iff POST /user/attendance from a logged-in user |
| Router.ExportRoute | src/router/router.go:38-64 | the export handler is reached iff POST /admin/export from "admin" |
| Router.AdminStylesheetPath | src/router/router.go:41-58 | "/admin/x.css" is never served as the stylesheet |
| UserController.Post | src/controllers/userController.go:34-43 | CheckIn iff the path less one leading "/user" is "/attendance"; else 404 |
| UserController.Get | src/controllers/userController.go:45-54 | CheckInSuccess iff the trimmed path is "/attendance/success"; else 404 |
| UserController.Controller | src/controllers/userController.go:19-32 | each handler is reached iff the method is POST or GET and the path matches; every other method is 404 |
| UserController.CrossedRoutesNotFound | src/controllers/userController.go:34-54 | GET /attendance and POST /attendance/success are 404 |
| AdminController.Post | src/controllers/adminController.go:34-45 | UploadStudentsList iff the trimmed path is "/upload", ExportAttendanceCSV iff "/export"; else 404 |
| AdminController.Get | src/controllers/adminController.go:47-60 | Index iff the trimmed path is "/upload", "/success" or "/overview"; else 404 |
| AdminController.Controller | src/controllers/adminController.go:19-32 | each handler is reached iff the method and the path match it; every other method is 404 |
| AdminController.UnservedCombinationsNotFound | src/controllers/adminController.go:34-60 | POST /overview, POST /success and GET /export are 404 |
| Util.FirstQuadIn | src/util/util.go:54-65 | the address search over one interface: a deciding address always has exactly four '.'-parts, so its first two parts exist |
| Util.FirstQuad | src/util/util.go:42-68 | the search over the interfaces named "en0", in order: a deciding address always has exactly four parts |
| Util.Verdict | src/util/util.go:58-69 | never an error; valid only when some four-part address decides, and then exactly when its first two parts are the configured prefixes |
| Util.ValidateIP | src/util/util.go:35-70 | an enumeration error gives (false, err); otherwise true exactly when the deciding address's first two parts are the configured prefixes, with no error |
| Util.OnlyWifiConsulted | src/util/util.go:42-43 | inserting an interface not named "en0" never changes the verdict |
| Util.LaterAddressesIgnored | src/util/util.go:54-65 | once a four-part address occurs, addresses after it are never consulted |
| Util.DecidingAddress | src/util/util.go:55-58 | an address decides iff it has exactly three dots |
| Util.NoQuadRejects | src/util/util.go:69 | with no four-part address on "en0", the verdict is (false, nil) |
| Text.HasPrefix | src/router/router.go:44-51 | a string has a prefix only when it is that prefix followed by the rest of the string; Text.PrefixOfConcat gives the converse |
| Text.PrefixOfConcat | src/router/router.go:44-51 | a prefix followed by anything has that prefix |
| Text.HasSuffix | src/router/router.go:57-59 | a string has a suffix only when it is its front followed by that suffix; Text.SuffixOfConcat gives the converse |
| Text.SuffixOfConcat | src/router/router.go:57-59 | anything followed by a suffix has that suffix |
| Text.Split | src/util/util.go:55 | strings.Split on one character: always at least one piece; with SplitJoin, SplitPiecesAvoidSeparator and SplitCount, the pieces are the separator-free runs between the separators |
| Text.TrimPrefix | src/controllers/userController.go:35 | removes one leading copy of the prefix when present, and otherwise returns the path unchanged |
| Text.SplitCount | src/util/util.go:55-58 | splitting on a character yields one piece more than its occurrences, so four parts means three dots |
| Text.SplitPiecesAvoidSeparator | src/util/util.go:55 | no piece of a split contains the separator |
| Text.SplitJoin | src/util/util.go:55 | joining the pieces with the separator rebuilds the input |
| Text.SplitLast | src/services/authService.go:146 | the last piece is the text after the last separator: a separator-free suffix, and the whole input when there is no separator |

## Left out

- Mutexes and goroutines: each state accessor is one atomic step. The goroutine and channel in `createSessCookie` become a `token` parameter. The unlocked `delete` in Logout and the unlocked reads in the templates are plain sequential accesses. Because CheckIn is one step here, UserService.CheckInTwice covers two check-ins that run one after the other; in the source, two simultaneous check-ins by one user can both pass the unlocked IsCheckedIn guard, and the later write then replaces the first time.
- Aliasing: `GetAllMapUsers`, `GetAllMapSessions` and `GetAllMapAttendanceOuter` hand out Go maps by reference, but here they return map values. The inner maps that `GetAllMapAttendanceOuter` shares are therefore not modelled.
- bcrypt is the abstract `Hasher`, and its cost parameter and byte-level format are not modelled.
- uuid generation is not modelled: the token is a parameter.
- godotenv and environment variables are not modelled. ADMIN_PASSWORD and the two configured IP prefixes are parameters.
- Clock.Midnight: time zones and daylight-saving shifts are not modelled. A day is always 86400 seconds of local wall-clock time, and the location returned by `time.Now()` is taken to be fixed.
- States.Store.constructor: day keys loaded from attendance.json are taken to equal the midnights computed at run time. In Go this holds only when the local offset at that midnight is non-zero: a zero offset is written as "Z" and read back in UTC, and `==` on time.Time also compares the location. So on a UTC host (or London in winter), after a restart a check-in recorded earlier that day does not block a second one, and the report shows nil for every reloaded day. The model does not capture this.
- States.Store.GetMapAttendanceInner: Go's zero time.Time (January 1 of year 1) is the constant ZeroTime, which is 0 on this model's clock. No caller reads it when the lookup fails.
- Clock.ParseDate: the year field is four unsigned digits. Go also accepts a leading sign in some layouts; that is not modelled, and neither are its exact error values.
- Templates.GetCheckedInUsers: the report is keyed by each day's midnight `Time` rather than by its "2006-01-02" text. Clock.ParseFormatDate relates the two. The CheckInTime text is `format` of the stored time, as in `IsCheckedIn`.
- Templates.WalkDays: Go's `AddDate(0, 0, 1)` is modelled as adding 86400 seconds. Clock.NextDateMidnight shows this is the next calendar date when there are no daylight-saving shifts, for years below 9999.
- UserService.CheckIn: the Go code reads the clock twice, once inside `IsCheckedIn` and once for the entry. The model takes two times, so the guard and the write may fall on different days around midnight, as in the source.
- The JSON database (`db.Write`, `db.Read`) is not modelled beyond its outcome. A returned error is only logged, so it behaves like `Written`. A panic is `Panicked`. Start-up loading is the `States.Store` constructor's arguments.
- Auth.AuthService.Register: `log.Fatal` after a hashing failure ends the process. The model stops at the 500 answer.
- Auth.AuthService.RegisterPage and MainPage.MainService.Index: html/template rendering is not modelled. A render is the `Render(template, variables)` value, and the `log.Fatal` on a template error is left out.
- The client-IP verdict is not part of this model and is an input. `net.Interfaces`, `InterfaceByName` and `Addrs` are replaced by an `Enumeration` of interface names and address strings. Errors from the per-interface calls are only logged in the source and are not modelled.
- The handlers the controllers select (upload, CSV export, admin index) and the auth controller reached through `Auth.Controller` are not modelled; they are not in the code this model follows. The model records only which one a request reaches.
- The CSV reader and writer, the logger, the entry point's server wiring and the browser script are not modelled.
- Duplicate or stale definitions (a second `User` type with its own admin seed, an older index service, an older auth controller) are not modelled.
- Router.Routes: serving the fixed stylesheet and script files is the `ServeStylesheet` and `ServeScript` action, not the file contents.
