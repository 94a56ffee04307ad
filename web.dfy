/** What a handler writes back: status codes, the session cookie and the response kinds. */
module Web {
  import opened Wrappers
  import opened States

  const StatusFound := 302
  const StatusSeeOther := 303
  const StatusUnauthorized := 401
  const StatusForbidden := 403
  const StatusNotFound := 404
  const StatusInternalServerError := 500

  const SessCookieName := "sessCookie"

  /** An http.Cookie; maxAge 0 means "not set" (a session cookie), a negative one deletes it. */
  datatype Cookie = Cookie(name: string, value: string, path: string, maxAge: int)

  /** The {User, Tab} variables every page template receives. */
  datatype PageVariables = PageVariables(user: User, tab: string)

  datatype Response =
    | Redirect(code: int, location: string)
    | Error(code: int, message: string)
    | Render(template: string, vars: PageVariables)

  /** http.NotFound: the response the NotFound route and handler actions stand for. */
  const NotFound: Response := Error(StatusNotFound, "404 page not found")

  /** A response together with the cookie set on it, if any. */
  datatype Reply = Reply(cookie: Option<Cookie>, response: Response)
}
