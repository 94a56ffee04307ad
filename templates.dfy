/**
 * The two template helpers that read attendance: whether a user has
 * checked in today, and the per-day report over a date range.
 */
module Templates {
  import opened Wrappers
  import opened Clock
  import opened States

  /** What the report shows for one user on one day. */
  datatype AttendanceDetails = AttendanceDetails(checkInTime: string, name: string)

  /**
   * The report: for each day of the range (keyed by its midnight rather
   * than its "2006-01-02" text), None for a nil entry or the users seen.
   */
  type CheckedInUsers = map<Time, Option<map<string, AttendanceDetails>>>

  /** Whether `id` has a check-in recorded for the day starting at `day`. */
  predicate CheckedIn(attendance: map<Time, map<string, Time>>, day: Time, id: string) {
    day in attendance && id in attendance[day]
  }

  lemma FormatNonEmpty(format: Time -> string, t: Time)
    requires NonEmptyFormat(format)
    ensures format(t) != ""
  {
  }

  /**
   * IsCheckedIn: the formatted check-in time of the user for the day of
   * `now`, or "" when there is none. `format` is Time.Format with the
   * layout "Monday, 2 Jan 2006, 3:04:05 PM".
   */
  function IsCheckedIn(store: Store, now: Time, id: string, format: Time -> string): (shown: string)
    reads store`attendance
    requires NonEmptyFormat(format)
    ensures shown == "" <==> !CheckedIn(store.attendance, Midnight(now), id)
    ensures shown != "" ==> shown == format(store.attendance[Midnight(now)][id])
  {
    var today := Midnight(now);
    if today in store.attendance then
      var loggedInUsers := store.attendance[today];
      if id in loggedInUsers then
        FormatNonEmpty(format, loggedInUsers[id]);
        format(loggedInUsers[id])
      else ""
    else ""
  }

  /** The days the walk from `first` to `last` visits: every day start between them, both ends included. */
  predicate InRange(first: Time, last: Time, day: Time) {
    first <= day <= last && (day - first) % SecondsPerDay == 0
  }

  /**
   * The reference for one day's entry: nil when the day has no map,
   * otherwise every user of the roster other than "admin" who checked in
   * that day, with the formatted time and "First Last".
   */
  function DayEntry(users: map<string, User>, attendance: map<Time, map<string, Time>>, day: Time, format: Time -> string)
    : (entry: Option<map<string, AttendanceDetails>>)
    ensures entry.None? <==> day !in attendance
    ensures entry.Some? ==> "admin" !in entry.value
    ensures entry.Some? ==> forall id :: id in entry.value <==> id in users && id != "admin" && id in attendance[day]
  {
    if day in attendance then
      Some(map id | id in users && id != "admin" && id in attendance[day] ::
        AttendanceDetails(format(attendance[day][id]), users[id].first + " " + users[id].last))
    else None
  }

  /** The inner loop of GetCheckedInUsers: walks the roster, skipping "admin", keeping those checked in. */
  method DayDetails(store: Store, loggedInUsers: map<string, Time>, format: Time -> string)
    returns (entry: map<string, AttendanceDetails>)
    ensures forall id :: id in entry <==> id in store.users && id != "admin" && id in loggedInUsers
    ensures forall id | id in entry ::
      entry[id] == AttendanceDetails(format(loggedInUsers[id]), store.users[id].first + " " + store.users[id].last)
  {
    entry := map[];
    var remaining := store.users.Keys;
    while remaining != {}
      invariant remaining <= store.users.Keys
      invariant forall id :: id in entry <==> id in store.users && id !in remaining && id != "admin" && id in loggedInUsers
      invariant forall id | id in entry ::
        entry[id] == AttendanceDetails(format(loggedInUsers[id]), store.users[id].first + " " + store.users[id].last)
      decreases remaining
    {
      var id :| id in remaining;
      remaining := remaining - {id};
      if id == "admin" {
        continue;
      }
      if id in loggedInUsers {
        entry := entry[id := AttendanceDetails(format(loggedInUsers[id]), store.users[id].first + " " + store.users[id].last)];
      }
    }
  }

  /** What DayDetails computes for a day with a map is that day's DayEntry. */
  lemma DayDetailsMatch(details: map<string, AttendanceDetails>, users: map<string, User>,
                        attendance: map<Time, map<string, Time>>, day: Time, format: Time -> string)
    requires day in attendance
    requires forall id :: id in details <==> id in users && id != "admin" && id in attendance[day]
    requires forall id | id in details ::
      details[id] == AttendanceDetails(format(attendance[day][id]), users[id].first + " " + users[id].last)
    ensures DayEntry(users, attendance, day, format) == Some(details)
  {
    var expected := DayEntry(users, attendance, day, format).value;
    assert expected.Keys == details.Keys;
    assert forall id | id in expected :: expected[id] == details[id];
    assert expected == details;
  }

  /** The report holds exactly the days from `first` up to `last`, each as DayEntry gives it. */
  ghost predicate ReportUpTo(report: CheckedInUsers, store: Store, format: Time -> string, first: Time, last: Time)
    reads store
  {
    && (forall day :: day in report <==> InRange(first, last, day))
    && (forall day | day in report :: report[day] == DayEntry(store.users, store.attendance, day, format))
  }

  lemma NextDay(first: Time, cur: Time, day: Time)
    requires (cur - first) % SecondsPerDay == 0 && (day - first) % SecondsPerDay == 0
    requires day < cur
    ensures day <= cur - SecondsPerDay
  {
    assert (cur - day) % SecondsPerDay == 0;
  }

  /** Adding the entry for day `cur` extends a report that stops one day earlier. */
  lemma ExtendReport(report: CheckedInUsers, store: Store, format: Time -> string, first: Time, cur: Time)
    requires first <= cur && (cur - first) % SecondsPerDay == 0
    requires ReportUpTo(report, store, format, first, cur - SecondsPerDay)
    ensures ReportUpTo(report[cur := DayEntry(store.users, store.attendance, cur, format)], store, format, first, cur)
  {
    forall day
      ensures InRange(first, cur - SecondsPerDay, day) || day == cur <==> InRange(first, cur, day)
    {
      if InRange(first, cur, day) && day != cur {
        NextDay(first, cur, day);
      }
    }
  }

  /** A range walked past its end covers exactly the range. */
  lemma ReportDone(report: CheckedInUsers, store: Store, format: Time -> string, first: Time, last: Time, cur: Time)
    requires first <= cur && (cur - first) % SecondsPerDay == 0 && last < cur && cur - SecondsPerDay <= last
    requires ReportUpTo(report, store, format, first, cur - SecondsPerDay)
    ensures ReportUpTo(report, store, format, first, last)
  {
    forall day
      ensures InRange(first, cur - SecondsPerDay, day) <==> InRange(first, last, day)
    {
      if InRange(first, last, day) {
        NextDay(first, cur, day);
      }
    }
  }

  /** The outer loop of GetCheckedInUsers: one entry per day from `first` while not after `last`. */
  method WalkDays(store: Store, first: Time, last: Time, format: Time -> string) returns (report: CheckedInUsers)
    ensures forall day :: day in report <==> InRange(first, last, day)
    ensures forall day | day in report :: report[day] == DayEntry(store.users, store.attendance, day, format)
  {
    report := map[];
    if first > last {
      return;
    }
    var cur := first;
    while cur <= last
      invariant first <= cur && (cur - first) % SecondsPerDay == 0
      invariant cur - SecondsPerDay <= last
      invariant ReportUpTo(report, store, format, first, cur - SecondsPerDay)
      decreases last - cur
    {
      ExtendReport(report, store, format, first, cur);
      if cur in store.attendance {
        var details := DayDetails(store, store.attendance[cur], format);
        DayDetailsMatch(details, store.users, store.attendance, cur, format);
        report := report[cur := Some(details)];
      } else {
        report := report[cur := None];
      }
      cur := cur + SecondsPerDay;
    }
    ReportDone(report, store, format, first, last, cur);
  }

  /**
   * GetCheckedInUsers: empty for a missing or unparsable bound or a
   * reversed range; otherwise one entry per day of the range, each as
   * DayEntry gives it.
   */
  method GetCheckedInUsers(store: Store, dateFrom: string, dateTo: string, format: Time -> string)
    returns (report: CheckedInUsers)
    ensures dateFrom == "" || dateTo == "" ==> report == map[]
    ensures ParseDate(dateFrom).None? || ParseDate(dateTo).None? ==> report == map[]
    ensures ParseDate(dateFrom).Some? && ParseDate(dateTo).Some? ==>
      forall day :: day in report <==> InRange(ParseDate(dateFrom).value, ParseDate(dateTo).value, day)
    ensures forall day | day in report :: report[day] == DayEntry(store.users, store.attendance, day, format)
  {
    if dateFrom == "" || dateTo == "" {
      return map[];
    }
    var fromParsed := ParseDate(dateFrom);
    if fromParsed.None? {
      return map[];
    }
    var toParsed := ParseDate(dateTo);
    if toParsed.None? {
      return map[];
    }
    report := WalkDays(store, fromParsed.value, toParsed.value, format);
  }

  /** A report entry never lists "admin", lists a user exactly when they are on the roster and checked in that day, and shows their name and formatted check-in time. */
  lemma ReportMembership(report: CheckedInUsers, users: map<string, User>, attendance: map<Time, map<string, Time>>,
                         format: Time -> string, day: Time, id: string)
    requires forall d | d in report :: report[d] == DayEntry(users, attendance, d, format)
    requires day in report && report[day].Some?
    ensures id in report[day].value <==> id in users && id != "admin" && CheckedIn(attendance, day, id)
    ensures id in report[day].value ==> report[day].value[id].name == users[id].first + " " + users[id].last
    ensures id in report[day].value ==> report[day].value[id].checkInTime == format(attendance[day][id])
  {
  }
}
