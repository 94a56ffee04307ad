/** Method and path dispatch under /user. */
module UserController {
  import opened Text

  datatype Handler = CheckIn | CheckInSuccess | NotFound

  /** POST: only "/attendance" (after one leading "/user" is cut) checks in. */
  function Post(path: string): (h: Handler)
    ensures h == CheckIn <==> TrimPrefix(path, "/user") == "/attendance"
    ensures h != CheckInSuccess
  {
    match TrimPrefix(path, "/user")
    case "/attendance" => CheckIn
    case _ => NotFound
  }

  /** GET: only "/attendance/success" reaches CheckInSuccess. */
  function Get(path: string): (h: Handler)
    ensures h == CheckInSuccess <==> TrimPrefix(path, "/user") == "/attendance/success"
    ensures h != CheckIn
  {
    match TrimPrefix(path, "/user")
    case "/attendance/success" => CheckInSuccess
    case _ => NotFound
  }

  /** Controller: POST and GET dispatch on the path; PUT, DELETE and every other method are 404. */
  function Controller(httpMethod: string, path: string): (h: Handler)
    ensures h == CheckIn <==> httpMethod == "POST" && TrimPrefix(path, "/user") == "/attendance"
    ensures h == CheckInSuccess <==> httpMethod == "GET" && TrimPrefix(path, "/user") == "/attendance/success"
  {
    match httpMethod
    case "POST" => Post(path)
    case "GET" => Get(path)
    case "PUT" => NotFound
    case "DELETE" => NotFound
    case _ => NotFound
  }

  /** The two routes are not interchangeable: GET "/attendance" and POST "/attendance/success" are 404. */
  lemma CrossedRoutesNotFound()
    ensures Controller("GET", "/user/attendance") == NotFound
    ensures Controller("POST", "/user/attendance/success") == NotFound
  {
    assert TrimPrefix("/user/attendance", "/user") == "/attendance";
    assert TrimPrefix("/user/attendance/success", "/user") == "/attendance/success";
  }
}
