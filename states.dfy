/**
 * The in-memory state of the server: registered users, live sessions and
 * per-day check-ins. Each accessor runs under its map's mutex in the Go
 * code, so each is one atomic step here.
 */
module States {
  import opened Clock

  type Bytes = seq<bv8>

  /** A roster entry; an empty password means "not yet registered". */
  datatype User = User(id: string, password: Bytes, first: string, last: string)

  /**
   * What a missing check-in reads as: it stands for Go's zero time.Time
   * (January 1 of year 1), which no caller reads when the lookup fails.
   */
  const ZeroTime: Time := 0

  /** The zero User{} that lookups fall back to (the anonymous user). */
  const EmptyUser: User := User("", [], "", "")

  class Store {
    /** MapUsers: login ID -> user. */
    var users: map<string, User>
    /** MapSessions: session token -> login ID. */
    var sessions: map<string, string>
    /** MapAttendance: day (its midnight) -> login ID -> check-in time. */
    var attendance: map<Time, map<string, Time>>

    /**
     * Start-up: the users and attendance snapshots read from users.json and
     * attendance.json (empty when the document is empty); sessions are
     * never persisted and start empty.
     */
    constructor (loadedUsers: map<string, User>, loadedAttendance: map<Time, map<string, Time>>)
      ensures users == loadedUsers && sessions == map[] && attendance == loadedAttendance
    {
      users := loadedUsers;
      sessions := map[];
      attendance := loadedAttendance;
    }

    /** GetMapUser: the stored user and true, or the zero User and false. */
    method GetMapUser(userID: string) returns (user: User, ok: bool)
      ensures ok <==> userID in users
      ensures ok ==> user == users[userID]
      ensures !ok ==> user == EmptyUser
    {
      ok := userID in users;
      user := if ok then users[userID] else EmptyUser;
    }

    /** GetAllMapUsers hands out the map itself. */
    method GetAllMapUsers() returns (all: map<string, User>)
      ensures all == users
    {
      all := users;
    }

    /** SetMapUser: stores `user` under `userID`, replacing any earlier entry. */
    method SetMapUser(userID: string, user: User)
      modifies this`users
      ensures users == old(users)[userID := user]
      ensures userID in users && users[userID] == user
      ensures forall id | id != userID :: (id in users <==> id in old(users)) && (id in users ==> users[id] == old(users)[id])
    {
      users := users[userID := user];
    }

    /** GetMapSession: the login ID a token maps to, or "" and false. */
    method GetMapSession(sessionID: string) returns (userID: string, ok: bool)
      ensures ok <==> sessionID in sessions
      ensures ok ==> userID == sessions[sessionID]
      ensures !ok ==> userID == ""
    {
      ok := sessionID in sessions;
      userID := if ok then sessions[sessionID] else "";
    }

    /** GetAllMapSessions hands out the map itself. */
    method GetAllMapSessions() returns (all: map<string, string>)
      ensures all == sessions
    {
      all := sessions;
    }

    /** SetMapSession: maps the token to the login ID, replacing an earlier mapping of that token. */
    method SetMapSession(sessionID: string, userID: string)
      modifies this`sessions
      ensures sessions == old(sessions)[sessionID := userID]
      ensures sessionID in sessions && sessions[sessionID] == userID
      ensures forall s | s != sessionID :: (s in sessions <==> s in old(sessions)) && (s in sessions ==> sessions[s] == old(sessions)[s])
    {
      sessions := sessions[sessionID := userID];
    }

    /**
     * GetMapAttendanceOuter: a fresh copy of the day's check-ins, filled
     * entry by entry, and true; or nil (here the empty map) and false when
     * the day has no map.
     */
    method GetMapAttendanceOuter(day: Time) returns (copy: map<string, Time>, ok: bool)
      ensures ok <==> day in attendance
      ensures ok ==> copy == attendance[day]
      ensures !ok ==> copy == map[]
    {
      if day !in attendance {
        return map[], false;
      }
      var inner := attendance[day];
      copy := map[];
      var remaining := inner.Keys;
      while remaining != {}
        invariant remaining <= inner.Keys
        invariant copy.Keys == inner.Keys - remaining
        invariant forall id | id in copy :: copy[id] == inner[id]
        decreases remaining
      {
        var id :| id in remaining;
        copy := copy[id := inner[id]];
        remaining := remaining - {id};
      }
      ok := true;
    }

    /** GetAllMapAttendanceOuter hands out the map itself. */
    method GetAllMapAttendanceOuter() returns (all: map<Time, map<string, Time>>)
      ensures all == attendance
    {
      all := attendance;
    }

    /** GetMapAttendanceInner: the user's check-in time on the day and true, or the zero time and false. */
    method GetMapAttendanceInner(day: Time, userID: string) returns (value: Time, ok: bool)
      ensures ok <==> day in attendance && userID in attendance[day]
      ensures ok ==> value == attendance[day][userID]
      ensures !ok ==> value == ZeroTime
    {
      if day in attendance {
        var userAttendance := attendance[day];
        ok := userID in userAttendance;
        value := if ok then userAttendance[userID] else ZeroTime;
      } else {
        value, ok := ZeroTime, false;
      }
    }

    /**
     * SetMapAttendanceInner: creates the day's map when missing, then
     * records the time for the user; other users of that day and other
     * days keep their entries.
     */
    method SetMapAttendanceInner(day: Time, userID: string, value: Time)
      modifies this`attendance
      ensures attendance == old(attendance)[day := (if day in old(attendance) then old(attendance)[day] else map[])[userID := value]]
      ensures day in attendance && userID in attendance[day] && attendance[day][userID] == value
      ensures forall id | id != userID && day in old(attendance) && id in old(attendance)[day] ::
        id in attendance[day] && attendance[day][id] == old(attendance)[day][id]
      ensures forall d | d != day :: (d in attendance <==> d in old(attendance)) && (d in attendance ==> attendance[d] == old(attendance)[d])
    {
      if day !in attendance {
        attendance := attendance[day := map[]];
      }
      attendance := attendance[day := attendance[day][userID := value]];
    }

    /** SetMapAttendanceOuter: replaces the day's whole map; other days are untouched. */
    method SetMapAttendanceOuter(day: Time, values: map<string, Time>)
      modifies this`attendance
      ensures attendance == old(attendance)[day := values]
      ensures forall d | d != day :: (d in attendance <==> d in old(attendance)) && (d in attendance ==> attendance[d] == old(attendance)[d])
    {
      attendance := attendance[day := values];
    }
  }
}
