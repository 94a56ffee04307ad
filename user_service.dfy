/**
 * The check-in state machine behind POST /user/attendance: the guards run
 * in order (anonymous, already checked in today, wrong network), and only
 * then is today's entry for the user written.
 */
module UserService {
  import opened Wrappers
  import opened Clock
  import opened States
  import opened Web
  import opened Db
  import opened Util
  import opened Auth
  import opened Templates

  const AlreadyCheckedIn := "You are already checked in"
  const WrongNetwork := "Unable to check-in. You are not on the appropriate WIFI."

  /** The attendance map after `id` checks in at `now`: today's map gains (or keeps) the entry, nothing else moves. */
  function Recorded(attendance: map<Time, map<string, Time>>, id: string, now: Time): (after: map<Time, map<string, Time>>)
    ensures after.Keys == attendance.Keys + {Midnight(now)}
    ensures after[Midnight(now)].Keys ==
      (if Midnight(now) in attendance then attendance[Midnight(now)].Keys else {}) + {id}
    ensures after[Midnight(now)][id] == now
    ensures forall day | day in attendance && day != Midnight(now) :: after[day] == attendance[day]
    ensures forall other | Midnight(now) in attendance && other in attendance[Midnight(now)] && other != id ::
      after[Midnight(now)][other] == attendance[Midnight(now)][other]
  {
    var today := Midnight(now);
    attendance[today := (if today in attendance then attendance[today] else map[])[id := now]]
  }

  /** Whether the network verdict lets the check-in through: valid and no error. */
  predicate OnNetwork(verdict: IpResult) {
    verdict.valid && verdict.err.None?
  }

  /**
   * CheckIn. `guardClock` is the time IsCheckedIn reads, `now` the time
   * read for the entry; `verdict` is ValidateClientIPHandler's answer and
   * `persist` what writing attendance.json does. A panic while persisting
   * is recovered into a 302 to "/", the in-memory entry staying.
   */
  method CheckIn(store: Store, cookie: Option<string>, format: Time -> string, guardClock: Time,
                 verdict: IpResult, now: Time, persist: WriteOutcome) returns (response: Response)
    requires NonEmptyFormat(format)
    modifies store`attendance
    ensures var id := GetUser(store, cookie).id;
      id == "" ==> response == Redirect(StatusFound, "/") && store.attendance == old(store.attendance)
    ensures var id := GetUser(store, cookie).id;
      id != "" && CheckedIn(old(store.attendance), Midnight(guardClock), id) ==>
        response == Error(StatusForbidden, AlreadyCheckedIn) && store.attendance == old(store.attendance)
    ensures var id := GetUser(store, cookie).id;
      (id != "" && !CheckedIn(old(store.attendance), Midnight(guardClock), id) && !OnNetwork(verdict)) ==>
        response == Error(StatusForbidden, WrongNetwork) && store.attendance == old(store.attendance)
    ensures var id := GetUser(store, cookie).id;
      (id != "" && !CheckedIn(old(store.attendance), Midnight(guardClock), id) && OnNetwork(verdict)) ==>
        && store.attendance == Recorded(old(store.attendance), id, now)
        && response == (if persist == Panicked then Redirect(StatusFound, "/") else Redirect(StatusFound, "/user/attendance/success"))
  {
    var currUser := GetUser(store, cookie);
    if currUser.id == "" {
      return Redirect(StatusFound, "/");
    }
    if IsCheckedIn(store, guardClock, currUser.id, format) != "" {
      return Error(StatusForbidden, AlreadyCheckedIn);
    }
    if !verdict.valid || verdict.err.Some? {
      return Error(StatusForbidden, WrongNetwork);
    }
    var today := Midnight(now);
    var existing, ok := store.GetMapAttendanceOuter(today);
    if !ok {
      store.SetMapAttendanceOuter(today, map[]);
    }
    store.SetMapAttendanceInner(today, currUser.id, now);
    var snapshot := store.GetAllMapAttendanceOuter();
    if persist == Panicked {
      return Redirect(StatusFound, "/");
    }
    response := Redirect(StatusFound, "/user/attendance/success");
  }

  /** CheckInSuccess: always a 302 to the landing page's success tab. */
  function CheckInSuccess(): (response: Response)
    ensures response.Redirect? && response.code == StatusFound && response.location == "/?attendanceSuccess=success"
  {
    Redirect(StatusFound, "/?attendanceSuccess=success")
  }

  /** A check-in keeps every other entry: other users today and every other day. */
  lemma RecordedKeepsOthers(attendance: map<Time, map<string, Time>>, id: string, now: Time, day: Time, other: string)
    requires CheckedIn(attendance, day, other)
    requires day != Midnight(now) || other != id
    ensures CheckedIn(Recorded(attendance, id, now), day, other)
    ensures Recorded(attendance, id, now)[day][other] == attendance[day][other]
  {
  }

  /** After a check-in the user counts as checked in for the day of `now`, at `now`. */
  lemma RecordedIsCheckedIn(attendance: map<Time, map<string, Time>>, id: string, now: Time, later: Time)
    requires Midnight(later) == Midnight(now)
    ensures CheckedIn(Recorded(attendance, id, now), Midnight(later), id)
    ensures Recorded(attendance, id, now)[Midnight(later)][id] == now
  {
  }

  /**
   * Two check-ins by one logged-in user on one day, on the right network:
   * when the first goes through, the second is refused and the entry keeps
   * the first time.
   */
  method CheckInTwice(store: Store, cookie: Option<string>, format: Time -> string, verdict: IpResult,
                      first: Time, second: Time, persist: WriteOutcome) returns (r1: Response, r2: Response)
    requires NonEmptyFormat(format)
    requires GetUser(store, cookie).id != "" && OnNetwork(verdict)
    requires !CheckedIn(store.attendance, Midnight(first), GetUser(store, cookie).id)
    requires Midnight(first) == Midnight(second)
    modifies store`attendance
    ensures r1 == (if persist == Panicked then Redirect(StatusFound, "/") else Redirect(StatusFound, "/user/attendance/success"))
    ensures r2 == Error(StatusForbidden, AlreadyCheckedIn)
    ensures store.attendance == Recorded(old(store.attendance), GetUser(store, cookie).id, first)
    ensures store.attendance[Midnight(second)][GetUser(store, cookie).id] == first
  {
    r1 := CheckIn(store, cookie, format, first, verdict, first, persist);
    RecordedIsCheckedIn(old(store.attendance), GetUser(store, cookie).id, first, second);
    r2 := CheckIn(store, cookie, format, second, verdict, second, persist);
  }
}
