/** Method and path dispatch under /admin. */
module AdminController {
  import opened Text

  datatype Handler = UploadStudentsList | ExportAttendanceCSV | Index | NotFound

  /** POST: "/upload" uploads the roster, "/export" exports attendance, anything else is 404. */
  function Post(path: string): (h: Handler)
    ensures h == UploadStudentsList <==> TrimPrefix(path, "/admin") == "/upload"
    ensures h == ExportAttendanceCSV <==> TrimPrefix(path, "/admin") == "/export"
    ensures h != Index
  {
    match TrimPrefix(path, "/admin")
    case "/upload" => UploadStudentsList
    case "/export" => ExportAttendanceCSV
    case _ => NotFound
  }

  /** GET: "/upload", "/success" and "/overview" all fall through to Index, anything else is 404. */
  function Get(path: string): (h: Handler)
    ensures h == Index <==> TrimPrefix(path, "/admin") in {"/upload", "/success", "/overview"}
    ensures h == Index || h == NotFound
  {
    match TrimPrefix(path, "/admin")
    case "/upload" => Index
    case "/success" => Index
    case "/overview" => Index
    case _ => NotFound
  }

  /** Controller: POST and GET dispatch on the path; PUT, DELETE and every other method are 404. */
  function Controller(httpMethod: string, path: string): (h: Handler)
    ensures h == UploadStudentsList <==> httpMethod == "POST" && TrimPrefix(path, "/admin") == "/upload"
    ensures h == ExportAttendanceCSV <==> httpMethod == "POST" && TrimPrefix(path, "/admin") == "/export"
    ensures h == Index <==> httpMethod == "GET" && TrimPrefix(path, "/admin") in {"/upload", "/success", "/overview"}
  {
    match httpMethod
    case "POST" => Post(path)
    case "GET" => Get(path)
    case "PUT" => NotFound
    case "DELETE" => NotFound
    case _ => NotFound
  }

  /** POST "/overview", POST "/success" and GET "/export" are 404. */
  lemma UnservedCombinationsNotFound()
    ensures Controller("POST", "/admin/overview") == NotFound
    ensures Controller("POST", "/admin/success") == NotFound
    ensures Controller("GET", "/admin/export") == NotFound
  {
    assert TrimPrefix("/admin/overview", "/admin") == "/overview";
    assert TrimPrefix("/admin/success", "/admin") == "/success";
    assert TrimPrefix("/admin/export", "/admin") == "/export";
  }
}
