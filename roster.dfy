/**
 * The user controller's roster views and profile edits: the users who have not
 * marked attendance today, the engineers of a state with their attendance counted
 * per date, the list of days of the month, and the update and delete of a user
 * found by email.
 */
module Roster {
  import opened Common
  import opened Users
  import opened Attendance

  // ---------------------------------------------------------------------------------------------
  // Users without attendance today

  /**
   * The state exclusion `{ $nin: [/^delhi$/i, /^denmark$/i] }`: a missing state is kept; a
   * present one is excluded when it is one of the two names in any letter case, optionally
   * followed by one newline (`$` also matches before a final newline).
   */
  predicate ExcludedState(state: Option<string>)
  {
    state.Some? && Lower(state.value) in {"delhi", "denmark", "delhi\n", "denmark\n"}
  }

  /** The users with at least one record whose stored date is `today` (the `distinct('user')` query). */
  function UsersWithAttendance(records: seq<Record>, today: int): (ids: set<UserId>)
    ensures forall id :: id in ids <==> exists k :: 0 <= k < |records| && records[k].date == today && records[k].user == id
  {
    set k | 0 <= k < |records| && records[k].date == today :: records[k].user
  }

  /** Whether a user is listed: role 'user', no record today, a state that is not excluded. */
  predicate Listed(u: User, present: set<UserId>)
  {
    u.role == "user" && u.id !in present && !ExcludedState(u.state)
  }

  function FilterListed(users: seq<User>, present: set<UserId>): (r: seq<User>)
    ensures forall u :: u in r <==> u in users && Listed(u, present)
    ensures |r| <= |users|
  {
    if users == [] then []
    else
      var rest := FilterListed(users[1..], present);
      assert forall u :: u in users <==> u == users[0] || u in users[1..];
      if Listed(users[0], present) then [users[0]] + rest else rest
  }

  /** The filter keeps the users in collection order: it distributes over concatenation. */
  lemma {:induction false} FilterListedAppend(a: seq<User>, b: seq<User>, present: set<UserId>)
    ensures FilterListed(a + b, present) == FilterListed(a, present) + FilterListed(b, present)
  {
    if a != [] {
      assert (a + b)[1..] == a[1..] + b;
      FilterListedAppend(a[1..], b, present);
    } else {
      assert a + b == b;
    }
  }

  /**
   * getUsersWithoutAttendanceForToday at instant `now`: exactly the users with role 'user',
   * no record dated today and a state other than Delhi or Denmark, in collection order.
   */
  function WithoutAttendanceToday(users: seq<User>, records: seq<Record>, now: int): (r: seq<User>)
    ensures forall u :: u in r <==>
              && u in users && u.role == "user" && !ExcludedState(u.state)
              && forall k :: 0 <= k < |records| && records[k].date == DayOf(now) ==> records[k].user != u.id
    ensures forall u, k :: u in r && 0 <= k < |records| && records[k].user == u.id ==> records[k].date != DayOf(now)
  {
    FilterListed(users, UsersWithAttendance(records, DayOf(now)))
  }

  // ---------------------------------------------------------------------------------------------
  // Engineers by state

  /**
   * The `dates` loop: from the first day to the last day of the month, one day at a time.
   * `start` and `end` are the two instants the handler computes; both carry the same time of day.
   */
  method DateList(start: int, end: int) returns (dates: seq<int>)
    ensures |dates| == if start <= end then (end - start) / DayMs + 1 else 0
    ensures forall i :: 0 <= i < |dates| ==> dates[i] == DayOf(start) + i
    ensures forall i :: 0 <= i < |dates| ==> start + i * DayMs <= end
  {
    dates := [];
    var d := start;
    while d <= end
      invariant d == start + |dates| * DayMs
      invariant start <= end ==> d <= end + DayMs
      invariant start > end ==> dates == []
      invariant forall i :: 0 <= i < |dates| ==> dates[i] == DayOf(start) + i && start + i * DayMs <= end
      decreases end - d
    {
      assert DayOf(d) == DayOf(start) + |dates| by { DayShift(start, |dates|); }
      dates := dates + [DayOf(d)];
      d := d + DayMs;
    }
    assert |dates| == (end - start) / DayMs + 1 || start > end by {
      if start <= end { CountSteps(start, end, |dates|); }
    }
  }

  /** Moving `n` whole days moves the day number by `n`. */
  lemma DayShift(t: int, n: int)
    ensures DayOf(t + n * DayMs) == DayOf(t) + n
  {
    var q := DayOf(t);
    assert q * DayMs <= t < q * DayMs + DayMs;
    assert (q + n) * DayMs <= t + n * DayMs < (q + n) * DayMs + DayMs;
  }

  /** The loop leaves after `n` steps exactly when `n` is one more than the whole days in [start, end]. */
  lemma CountSteps(start: int, end: int, n: int)
    requires start <= end
    requires start + (n - 1) * DayMs <= end < start + n * DayMs
    ensures n == (end - start) / DayMs + 1
  {
    var q := (end - start) / DayMs;
    assert q * DayMs <= end - start < q * DayMs + DayMs;
    if n - 1 < q {
      assert false;
    } else if n - 1 > q {
      assert false;
    }
  }

  /** One element of `attendanceByDate`; `date` is None for the single entry of an engineer without records. */
  datatype DateCount = DateCount(date: Option<int>, count: nat)

  /** One element of `engineers`. */
  datatype Engineer = Engineer(id: UserId, fullName: string, email: string, attendanceByDate: seq<DateCount>)

  /** The number of records with stored date `d`. */
  function CountOn(rs: seq<Record>, d: int): nat
  {
    if rs == [] then 0 else CountOn(rs[..|rs| - 1], d) + (if rs[|rs| - 1].date == d then 1 else 0)
  }

  function SumCounts(groups: seq<DateCount>): nat
  {
    if groups == [] then 0 else SumCounts(groups[..|groups| - 1]) + groups[|groups| - 1].count
  }

  /** The index of the group for date `d`, or -1. */
  function GroupIndex(groups: seq<DateCount>, d: int): (k: int)
    ensures -1 <= k < |groups|
    ensures k >= 0 ==> groups[k].date == Some(d)
    ensures k == -1 ==> forall i :: 0 <= i < |groups| ==> groups[i].date != Some(d)
  {
    if groups == [] then -1
    else if groups[|groups| - 1].date == Some(d) then |groups| - 1
    else GroupIndex(groups[..|groups| - 1], d)
  }

  /** The two `$group` stages for one engineer's records: a (date, count) pair per distinct date. */
  function Groups(rs: seq<Record>): seq<DateCount>
  {
    if rs == [] then []
    else
      var prior := Groups(rs[..|rs| - 1]);
      var d := rs[|rs| - 1].date;
      var k := GroupIndex(prior, d);
      if k == -1 then prior + [DateCount(Some(d), 1)]
      else prior[k := DateCount(Some(d), prior[k].count + 1)]
  }

  /** The sum of a list after one count is raised by one. */
  lemma {:induction false} SumCountsBump(groups: seq<DateCount>, k: int, g: DateCount)
    requires 0 <= k < |groups| && g.count == groups[k].count + 1
    ensures SumCounts(groups[k := g]) == SumCounts(groups) + 1
  {
    var n := |groups| - 1;
    var r := groups[k := g];
    assert r[..n] == if k == n then groups[..n] else groups[..n][k := g];
    if k < n {
      SumCountsBump(groups[..n], k, g);
    }
  }

  /** The counts add up to the number of records. */
  lemma {:induction false} GroupsSum(rs: seq<Record>)
    ensures SumCounts(Groups(rs)) == |rs|
  {
    if rs != [] {
      var n := |rs| - 1;
      var prior := Groups(rs[..n]);
      GroupsSum(rs[..n]);
      var d := rs[n].date;
      var k := GroupIndex(prior, d);
      if k == -1 {
        assert (prior + [DateCount(Some(d), 1)])[..|prior|] == prior;
      } else {
        SumCountsBump(prior, k, DateCount(Some(d), prior[k].count + 1));
      }
    }
  }

  /** Some group carries date `d`. */
  predicate HasGroup(groups: seq<DateCount>, d: int)
  {
    exists i :: 0 <= i < |groups| && groups[i].date == Some(d)
  }

  /** The date of record `k` has a group. */
  lemma {:induction false} GroupsCoverAt(rs: seq<Record>, k: int)
    requires 0 <= k < |rs|
    ensures HasGroup(Groups(rs), rs[k].date)
  {
    var n := |rs| - 1;
    var prior := Groups(rs[..n]);
    var d := rs[n].date;
    var g := GroupIndex(prior, d);
    var groups := Groups(rs);
    if k < n {
      GroupsCoverAt(rs[..n], k);
      assert rs[..n][k] == rs[k];
      var i :| 0 <= i < |prior| && prior[i].date == Some(rs[k].date);
      assert groups[i].date == prior[i].date;
    } else if g == -1 {
      assert groups[|prior|].date == Some(d);
    } else {
      assert groups[g].date == Some(d);
    }
  }

  /** Every record's date has a group. */
  lemma GroupsCover(rs: seq<Record>)
    ensures forall k :: 0 <= k < |rs| ==> HasGroup(Groups(rs), rs[k].date)
  {
    forall k | 0 <= k < |rs| ensures HasGroup(Groups(rs), rs[k].date) {
      GroupsCoverAt(rs, k);
    }
  }

  /** No date has two groups, and every group carries a date. */
  lemma {:induction false} GroupsDistinct(rs: seq<Record>)
    ensures forall i :: 0 <= i < |Groups(rs)| ==> Groups(rs)[i].date.Some?
    ensures forall i, j :: 0 <= i < j < |Groups(rs)| ==> Groups(rs)[i].date != Groups(rs)[j].date
  {
    if rs != [] {
      var n := |rs| - 1;
      var prior := Groups(rs[..n]);
      GroupsDistinct(rs[..n]);
      var groups := Groups(rs);
      assert forall i :: 0 <= i < |prior| ==> groups[i].date == prior[i].date;
    }
  }

  /** Each group's count is the number of records on its date. */
  lemma {:induction false} GroupsCount(rs: seq<Record>)
    ensures forall i :: 0 <= i < |Groups(rs)| ==>
              Groups(rs)[i].date.Some? && Groups(rs)[i].count == CountOn(rs, Groups(rs)[i].date.value)
  {
    if rs != [] {
      var n := |rs| - 1;
      var prior := Groups(rs[..n]);
      GroupsCount(rs[..n]);
      GroupsDistinct(rs[..n]);
      var d := rs[n].date;
      var k := GroupIndex(prior, d);
      if k == -1 {
        assert CountOn(rs[..n], d) == 0 by {
          GroupsCover(rs[..n]);
          forall k' | 0 <= k' < n ensures rs[..n][k'].date != d {
            var i :| 0 <= i < |prior| && prior[i].date == Some(rs[..n][k'].date);
          }
          CountOnZero(rs[..n], d);
        }
      }
    }
  }

  /**
   * What the grouping computes: every group carries a date, no date appears twice, each
   * group's count is the number of records on its date, every record's date has a group,
   * and the counts add up to the number of records.
   */
  lemma GroupsMeaning(rs: seq<Record>)
    ensures var groups := Groups(rs);
      && (forall i :: 0 <= i < |groups| ==> groups[i].date.Some? && groups[i].count == CountOn(rs, groups[i].date.value))
      && (forall i, j :: 0 <= i < j < |groups| ==> groups[i].date != groups[j].date)
      && (forall k :: 0 <= k < |rs| ==> exists i :: 0 <= i < |groups| && groups[i].date == Some(rs[k].date))
      && SumCounts(groups) == |rs|
  {
    GroupsCount(rs);
    GroupsDistinct(rs);
    GroupsCover(rs);
    GroupsSum(rs);
  }

  /** A date no record carries counts zero. */
  lemma {:induction false} CountOnZero(rs: seq<Record>, d: int)
    requires forall k :: 0 <= k < |rs| ==> rs[k].date != d
    ensures CountOn(rs, d) == 0
  {
    if rs != [] {
      CountOnZero(rs[..|rs| - 1], d);
    }
  }

  /** `attendanceByDate` of one engineer: the groups, or a single zero entry without a date when there are no records. */
  function AttendanceByDate(rs: seq<Record>): (r: seq<DateCount>)
    ensures rs == [] ==> r == [DateCount(None, 0)]
    ensures rs != [] ==> r == Groups(rs)
  {
    if rs == [] then [DateCount(None, 0)] else Groups(rs)
  }

  /** The records of one user, in collection order (the `$lookup`). */
  function RecordsOf(records: seq<Record>, id: UserId): (r: seq<Record>)
    ensures forall x :: x in r <==> x in records && x.user == id
  {
    if records == [] then []
    else
      var rest := RecordsOf(records[1..], id);
      assert forall x :: x in records <==> x == records[0] || x in records[1..];
      if records[0].user == id then [records[0]] + rest else rest
  }

  /** The lookup keeps the records in collection order: it distributes over concatenation. */
  lemma {:induction false} RecordsOfAppend(a: seq<Record>, b: seq<Record>, id: UserId)
    ensures RecordsOf(a + b, id) == RecordsOf(a, id) + RecordsOf(b, id)
  {
    if a != [] {
      assert (a + b)[1..] == a[1..] + b;
      RecordsOfAppend(a[1..], b, id);
    } else {
      assert a + b == b;
    }
  }

  /** The `$match` stage: the users with role 'user' whose state equals the parameter, in collection order. */
  function StateEngineers(users: seq<User>, state: Option<string>): (r: seq<User>)
    ensures forall u :: u in r <==> u in users && u.role == "user" && u.state == state
    ensures |r| <= |users|
  {
    if users == [] then []
    else
      var rest := StateEngineers(users[1..], state);
      assert forall u :: u in users <==> u == users[0] || u in users[1..];
      if users[0].role == "user" && users[0].state == state then [users[0]] + rest else rest
  }

  /** The match keeps the users in collection order: it distributes over concatenation. */
  lemma {:induction false} StateEngineersAppend(a: seq<User>, b: seq<User>, state: Option<string>)
    ensures StateEngineers(a + b, state) == StateEngineers(a, state) + StateEngineers(b, state)
  {
    if a != [] {
      assert (a + b)[1..] == a[1..] + b;
      StateEngineersAppend(a[1..], b, state);
    } else {
      assert a + b == b;
    }
  }

  /** The entry of one matched user: name and email projected, and the counts of its own records. */
  function EngineerOf(u: User, records: seq<Record>): Engineer
  {
    Engineer(u.id, u.fullName, u.email, AttendanceByDate(RecordsOf(records, u.id)))
  }

  /**
   * getEngineersByState: exactly one entry per matched user (role 'user' and the state of the
   * query parameter; None: the parameter was absent, which matches users without a state).
   */
  function EngineersByState(users: seq<User>, records: seq<Record>, state: Option<string>): (r: seq<Engineer>)
    ensures |r| == |StateEngineers(users, state)| <= |users|
    ensures forall i :: 0 <= i < |r| ==>
              var u := StateEngineers(users, state)[i];
              && u in users && u.role == "user" && u.state == state
              && r[i].id == u.id && r[i].fullName == u.fullName && r[i].email == u.email
              && r[i].attendanceByDate == AttendanceByDate(RecordsOf(records, u.id))
    ensures forall u :: u in users && u.role == "user" && u.state == state ==> exists e :: e in r && e.id == u.id
  {
    var matched := StateEngineers(users, state);
    var r := seq(|matched|, i requires 0 <= i < |matched| => EngineerOf(matched[i], records));
    assert forall u :: u in users && u.role == "user" && u.state == state ==> exists e :: e in r && e.id == u.id by {
      forall u | u in users && u.role == "user" && u.state == state ensures exists e :: e in r && e.id == u.id {
        var i :| 0 <= i < |matched| && matched[i] == u;
        assert r[i] in r;
      }
    }
    r
  }

  // ---------------------------------------------------------------------------------------------
  // Update and delete by email

  /** The index of the first user with the email, or -1 (`findOneAndUpdate` / `findOneAndDelete`). */
  function IndexOfEmail(users: seq<User>, email: JsValue): (k: int)
    ensures -1 <= k < |users|
    ensures k >= 0 ==> email.Str? && users[k].email == email.s && forall j :: 0 <= j < k ==> users[j].email != email.s
    ensures k == -1 ==> forall j :: 0 <= j < |users| ==> !(email.Str? && users[j].email == email.s)
  {
    if !email.Str? || users == [] then -1
    else if users[0].email == email.s then 0
    else
      var k := IndexOfEmail(users[1..], email);
      if k == -1 then -1 else k + 1
  }

  /** The user an index finds is the user `findOne` finds. */
  lemma IndexOfEmailFinds(users: seq<User>, email: JsValue)
    ensures IndexOfEmail(users, email) == -1 <==> FindByEmail(users, email).None?
    ensures IndexOfEmail(users, email) >= 0 ==> FindByEmail(users, email) == Some(users[IndexOfEmail(users, email)])
  {
    var k := IndexOfEmail(users, email);
    var r := FindByEmail(users, email);
    if r.Some? {
      var m :| 0 <= m < |users| && users[m] == r.value && forall j :: 0 <= j < m ==> users[j].email != email.s;
      assert k == m;
    }
  }

  /** `$set` of the fields given a truthy value; the empty string stands for an absent field. */
  function Merged(u: User, fullName: string, phoneNumber: string, reportingManager: string, state: string): (r: User)
    ensures r.id == u.id && r.email == u.email && r.role == u.role
    ensures r.fullName == (if fullName != "" then fullName else u.fullName)
    ensures r.phoneNumber == (if phoneNumber != "" then phoneNumber else u.phoneNumber)
    ensures r.reportingManager == (if reportingManager != "" then reportingManager else u.reportingManager)
    ensures r.state == (if state != "" then Some(state) else u.state)
  {
    u.(fullName := if fullName != "" then fullName else u.fullName,
       phoneNumber := if phoneNumber != "" then phoneNumber else u.phoneNumber,
       reportingManager := if reportingManager != "" then reportingManager else u.reportingManager,
       state := if state != "" then Some(state) else u.state)
  }

  /** Applying the same update twice is applying it once, and an update without fields changes nothing. */
  lemma MergedIdempotent(u: User, fullName: string, phoneNumber: string, reportingManager: string, state: string)
    ensures Merged(Merged(u, fullName, phoneNumber, reportingManager, state), fullName, phoneNumber, reportingManager, state)
            == Merged(u, fullName, phoneNumber, reportingManager, state)
    ensures Merged(u, "", "", "", "") == u
  {
  }

  /** The `User` collection, in its natural order. */
  class UserCollection {
    var users: seq<User>

    constructor(users: seq<User>)
      ensures this.users == users
    {
      this.users := users;
    }

    /** updateUserByEmail: the first user with the email gets the truthy fields; the answer is the updated user. */
    method UpdateByEmail(email: JsValue, fullName: string, phoneNumber: string, reportingManager: string, state: string)
      returns (r: Response<User>)
      modifies this
      ensures r.Failure? ==> users == old(users)
      ensures !Truthy(email) ==> r == Failure(400, "Email is required")
      ensures Truthy(email) && FindByEmail(old(users), email).None? ==> r == Failure(404, "User not found")
      ensures Truthy(email) && FindByEmail(old(users), email).Some? ==>
                var k := IndexOfEmail(old(users), email);
                && r == Success(200, Merged(old(users)[k], fullName, phoneNumber, reportingManager, state))
                && users == old(users)[k := r.body]
    {
      if !Truthy(email) {
        return Failure(400, "Email is required");
      }
      IndexOfEmailFinds(users, email);
      var k := IndexOfEmail(users, email);
      if k == -1 {
        return Failure(404, "User not found");
      }
      var updated := users[k];
      if fullName != "" { updated := updated.(fullName := fullName); }
      if phoneNumber != "" { updated := updated.(phoneNumber := phoneNumber); }
      if reportingManager != "" { updated := updated.(reportingManager := reportingManager); }
      if state != "" { updated := updated.(state := Some(state)); }
      users := users[k := updated];
      return Success(200, updated);
    }

    /** deleteUserByEmail: remove the first user with the email and answer with it. */
    method DeleteByEmail(email: JsValue) returns (r: Response<User>)
      modifies this
      ensures r.Failure? ==> users == old(users)
      ensures !Truthy(email) ==> r == Failure(400, "Email is required")
      ensures Truthy(email) && FindByEmail(old(users), email).None? ==> r == Failure(404, "User not found")
      ensures Truthy(email) && FindByEmail(old(users), email).Some? ==>
                var k := IndexOfEmail(old(users), email);
                && r == Success(200, old(users)[k])
                && users == old(users)[..k] + old(users)[k + 1..]
    {
      if !Truthy(email) {
        return Failure(400, "Email is required");
      }
      IndexOfEmailFinds(users, email);
      var k := IndexOfEmail(users, email);
      if k == -1 {
        return Failure(404, "User not found");
      }
      r := Success(200, users[k]);
      users := users[..k] + users[k + 1..];
    }
  }
}
