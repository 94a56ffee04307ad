/** The landing page GET /: admin goes to the overview, a forged success tab goes home, everyone else sees the page. */
module MainPage {
  import opened Wrappers
  import opened Clock
  import opened States
  import opened Web
  import opened Auth
  import opened Templates

  class MainService {
    /** The landing page's shared Variables. */
    var variables: PageVariables

    constructor ()
      ensures variables == PageVariables(EmptyUser, "")
    {
      variables := PageVariables(EmptyUser, "");
    }

    /**
     * Index, with `attendanceSuccess` the form value of that name and `now`
     * the clock IsCheckedIn reads.
     */
    method Index(store: Store, cookie: Option<string>, attendanceSuccess: string, now: Time, format: Time -> string)
      returns (response: Response)
      requires NonEmptyFormat(format)
      modifies this`variables
      ensures GetUser(store, cookie).id == "admin" ==>
        response == Redirect(StatusFound, "/admin/overview") && variables == old(variables)
      ensures var user := GetUser(store, cookie);
        (user.id != "admin" && attendanceSuccess == "success" && !CheckedIn(store.attendance, Midnight(now), user.id)) ==>
          response == Redirect(StatusFound, "/") && variables == old(variables)
      ensures var user := GetUser(store, cookie);
        (user.id != "admin" && (attendanceSuccess != "success" || CheckedIn(store.attendance, Midnight(now), user.id))) ==>
          variables == PageVariables(user, attendanceSuccess) && response == Render("index", variables)
    {
      var currUser := GetUser(store, cookie);
      if currUser.id == "admin" {
        return Redirect(StatusFound, "/admin/overview");
      }
      var successTab := attendanceSuccess;
      if successTab == "success" {
        if IsCheckedIn(store, now, currUser.id, format) == "" {
          return Redirect(StatusFound, "/");
        }
      }
      variables := PageVariables(currUser, successTab);
      response := Render("index", variables);
    }
  }
}
