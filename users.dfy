/**
 * The user routes of the backend: the daily streak updated when the profile
 * is read, the progress upsert keyed by (user, page), the progress map of a
 * user, and the deletion of a user with all their progress rows. The
 * database session is a class holding the two tables as sequences of rows;
 * the clock is a parameter.
 */
module Users {
  import opened Wrappers

  /** A timestamp: the calendar day (days since an epoch) and the time within it. */
  datatype Moment = Moment(day: int, secondOfDay: nat)

  /** The two streak fields of a user after a visit at now. */
  datatype Streak = Streak(dailyStreak: int, lastActiveDate: Option<Moment>)

  /**
   * The streak rule: a first visit starts a streak of 1, a visit the next day
   * extends it, a visit after a longer gap restarts it at 1, and a visit on the
   * same day (or with the clock set back) changes nothing.
   */
  function StreakAfter(s: Streak, now: Moment): (r: Streak)
    ensures s.lastActiveDate.None? ==> r == Streak(1, Some(now))
    ensures s.lastActiveDate.Some? && now.day - s.lastActiveDate.value.day == 1 ==> r == Streak(s.dailyStreak + 1, Some(now))
    ensures s.lastActiveDate.Some? && now.day - s.lastActiveDate.value.day > 1 ==> r == Streak(1, Some(now))
    ensures s.lastActiveDate.Some? && now.day - s.lastActiveDate.value.day <= 0 ==> r == s
  {
    match s.lastActiveDate
    case None => Streak(1, Some(now))
    case Some(last) =>
      var diff := now.day - last.day;
      if diff == 1 then Streak(s.dailyStreak + 1, Some(now))
      else if diff > 1 then Streak(1, Some(now))
      else s
  }

  /** A second visit on the same day changes nothing. */
  lemma SameDayIdempotent(s: Streak, now: Moment, later: Moment)
    requires later.day == now.day
    ensures StreakAfter(StreakAfter(s, now), later) == StreakAfter(s, now)
  {
  }

  /** The visits of a run of days, one per day starting at day first. */
  function VisitDays(s: Streak, first: int, n: nat): Streak
    decreases n
  {
    if n == 0 then s else StreakAfter(VisitDays(s, first, n - 1), Moment(first + n - 1, 0))
  }

  /** Visiting on n consecutive days from a fresh account gives a streak of n, dated on the last day. */
  lemma {:induction false} ConsecutiveDays(s: Streak, first: int, n: nat)
    requires s.lastActiveDate.None?
    requires n > 0
    ensures VisitDays(s, first, n) == Streak(n, Some(Moment(first + n - 1, 0)))
  {
    if n > 1 {
      ConsecutiveDays(s, first, n - 1);
    }
  }

  /** The fields of the user row that read_users_me and update_settings update in place. */
  class Account {
    var dailyStreak: int
    var lastActiveDate: Option<Moment>
    var mushafType: seq<char>
    var difficultyLevel: int

    constructor (dailyStreak: int, lastActiveDate: Option<Moment>, mushafType: seq<char>, difficultyLevel: int)
      ensures this.dailyStreak == dailyStreak && this.lastActiveDate == lastActiveDate
      ensures this.mushafType == mushafType && this.difficultyLevel == difficultyLevel
    {
      this.dailyStreak := dailyStreak;
      this.lastActiveDate := lastActiveDate;
      this.mushafType := mushafType;
      this.difficultyLevel := difficultyLevel;
    }

    function Current(): Streak
      reads this
    {
      Streak(dailyStreak, lastActiveDate)
    }

    /** read_users_me: the streak update at now; the settings are untouched. */
    method ReadUsersMe(now: Moment)
      modifies this
      ensures Current() == StreakAfter(old(Current()), now)
      ensures mushafType == old(mushafType) && difficultyLevel == old(difficultyLevel)
    {
      if lastActiveDate.Some? {
        var diff := now.day - lastActiveDate.value.day;
        if diff == 1 {
          dailyStreak := dailyStreak + 1;
          lastActiveDate := Some(now);
        } else if diff > 1 {
          dailyStreak := 1;
          lastActiveDate := Some(now);
        }
      } else {
        dailyStreak := 1;
        lastActiveDate := Some(now);
      }
    }

    /** update_settings: both settings are overwritten and echoed back; the streak is untouched. */
    method UpdateSettings(newMushafType: seq<char>, newDifficultyLevel: int) returns (echo: (seq<char>, int))
      modifies this
      ensures mushafType == newMushafType && difficultyLevel == newDifficultyLevel
      ensures echo == (newMushafType, newDifficultyLevel)
      ensures Current() == old(Current())
    {
      mushafType := newMushafType;
      difficultyLevel := newDifficultyLevel;
      echo := (mushafType, difficultyLevel);
    }
  }

  /** A row of the users table. */
  datatype UserRow = UserRow(id: int, username: seq<char>)

  /** A row of the progress table; lastUpdated is stamped on every write (the column's default on insert). */
  datatype ProgressRow = ProgressRow(userId: int, pageNumber: int, status: seq<char>, lastUpdated: Moment)

  /** At most one progress row per (user, page). */
  predicate UniqueKeys(rows: seq<ProgressRow>) {
    forall i, j :: 0 <= i < j < |rows| ==> (rows[i].userId, rows[i].pageNumber) != (rows[j].userId, rows[j].pageNumber)
  }

  /** Whether row i has key (user, page). */
  predicate HasKey(rows: seq<ProgressRow>, i: int, user: int, page: int)
    requires 0 <= i < |rows|
  {
    rows[i].userId == user && rows[i].pageNumber == page
  }

  /** The index of the first row with key (user, page), or |rows| when there is none. */
  function FirstWithKey(rows: seq<ProgressRow>, user: int, page: int): (i: nat)
    ensures i <= |rows|
    ensures i < |rows| ==> HasKey(rows, i, user, page)
    ensures forall k :: 0 <= k < i ==> !HasKey(rows, k, user, page)
    decreases |rows|
  {
    if rows == [] then 0
    else if HasKey(rows, 0, user, page) then 0
    else
      var i := FirstWithKey(rows[1..], user, page);
      assert forall k :: 1 <= k < i + 1 ==> !HasKey(rows, k, user, page) by {
        forall k | 1 <= k < i + 1 ensures !HasKey(rows, k, user, page) {
          assert !HasKey(rows[1..], k - 1, user, page);
          assert rows[k] == rows[1..][k - 1];
        }
      }
      1 + i
  }

  /**
   * The table after the upsert: the first row with the key gets the status
   * and the time updatedAt, or a new row stamped createdAt is appended (the
   * callers read two different clocks for the two cases).
   */
  function Upserted(rows: seq<ProgressRow>, user: int, page: int, status: seq<char>, updatedAt: Moment, createdAt: Moment): seq<ProgressRow> {
    var i := FirstWithKey(rows, user, page);
    if i < |rows| then rows[i := ProgressRow(user, page, status, updatedAt)] else rows + [ProgressRow(user, page, status, createdAt)]
  }

  /**
   * The upsert keeps one row per key, records the status under the key,
   * stamped updatedAt when the key had a row and createdAt when it had none,
   * and leaves every other row as it was.
   */
  lemma UpsertFacts(rows: seq<ProgressRow>, user: int, page: int, status: seq<char>, updatedAt: Moment, createdAt: Moment)
    ensures var r := Upserted(rows, user, page, status, updatedAt, createdAt);
      var existed := exists k :: 0 <= k < |rows| && HasKey(rows, k, user, page);
      && (UniqueKeys(rows) ==> UniqueKeys(r))
      && (existed ==> exists i :: 0 <= i < |r| && r[i] == ProgressRow(user, page, status, updatedAt))
      && (!existed ==> r == rows + [ProgressRow(user, page, status, createdAt)])
      && (forall row :: row in rows && (row.userId, row.pageNumber) != (user, page) ==> row in r)
      && (forall row :: row in r && (row.userId, row.pageNumber) != (user, page) ==> row in rows)
  {
    var r := Upserted(rows, user, page, status, updatedAt, createdAt);
    var i := FirstWithKey(rows, user, page);
    if i < |rows| {
      assert HasKey(rows, i, user, page);
      assert r[i] == ProgressRow(user, page, status, updatedAt);
      forall row | row in rows && (row.userId, row.pageNumber) != (user, page) ensures row in r {
        var k :| 0 <= k < |rows| && rows[k] == row;
        assert r[k] == row;
      }
      forall row | row in r && (row.userId, row.pageNumber) != (user, page) ensures row in rows {
        var k :| 0 <= k < |r| && r[k] == row;
        assert rows[k] == row;
      }
    } else {
      assert r[|rows|] == ProgressRow(user, page, status, createdAt);
      assert forall k :: 0 <= k < |rows| ==> (rows[k].userId, rows[k].pageNumber) != (user, page) by {
        forall k | 0 <= k < |rows| ensures (rows[k].userId, rows[k].pageNumber) != (user, page) {
          assert !HasKey(rows, k, user, page);
        }
      }
    }
  }

  /** The rows of every user but one. */
  function WithoutUser(rows: seq<ProgressRow>, user: int): (r: seq<ProgressRow>)
    ensures forall row :: row in r <==> row in rows && row.userId != user
    ensures |r| <= |rows|
  {
    if rows == [] then []
    else (if rows[0].userId == user then [] else [rows[0]]) + WithoutUser(rows[1..], user)
  }

  /** The users table without a given id. */
  function WithoutAccount(users: seq<UserRow>, id: int): (r: seq<UserRow>)
    ensures forall u :: u in r <==> u in users && u.id != id
  {
    if users == [] then []
    else (if users[0].id == id then [] else [users[0]]) + WithoutAccount(users[1..], id)
  }

  /** get_user_progress: page -> status over the user's rows, a later row for the same page overwriting an earlier one. */
  function ProgressMap(rows: seq<ProgressRow>, user: int): map<int, seq<char>> {
    if rows == [] then map[]
    else
      var last := rows[|rows| - 1];
      var m := ProgressMap(rows[..|rows| - 1], user);
      if last.userId == user then m[last.pageNumber := last.status] else m
  }

  /** The map has a page only for the user's rows. */
  lemma {:induction false} ProgressMapPages(rows: seq<ProgressRow>, user: int, page: int)
    requires page in ProgressMap(rows, user)
    ensures exists i :: 0 <= i < |rows| && HasKey(rows, i, user, page)
  {
    var init := rows[..|rows| - 1];
    if rows[|rows| - 1].userId == user && rows[|rows| - 1].pageNumber == page {
      assert HasKey(rows, |rows| - 1, user, page);
    } else {
      ProgressMapPages(init, user, page);
      var i :| 0 <= i < |init| && HasKey(init, i, user, page);
      assert HasKey(rows, i, user, page);
    }
  }

  /** With one row per key, each of the user's rows is in the map with its status. */
  lemma {:induction false} ProgressMapOfRow(rows: seq<ProgressRow>, user: int, i: nat)
    requires UniqueKeys(rows)
    requires i < |rows| && rows[i].userId == user
    ensures rows[i].pageNumber in ProgressMap(rows, user)
    ensures ProgressMap(rows, user)[rows[i].pageNumber] == rows[i].status
  {
    var init := rows[..|rows| - 1];
    assert UniqueKeys(init) by {
      forall a, b | 0 <= a < b < |init| ensures (init[a].userId, init[a].pageNumber) != (init[b].userId, init[b].pageNumber) {
        assert init[a] == rows[a] && init[b] == rows[b];
      }
    }
    if i < |rows| - 1 {
      assert init[i] == rows[i];
      ProgressMapOfRow(init, user, i);
      assert (rows[i].userId, rows[i].pageNumber) != (rows[|rows| - 1].userId, rows[|rows| - 1].pageNumber);
    }
  }

  /** The outcome of a route: done, or an HTTP error status. */
  datatype Outcome = Done | HttpError(status: int)

  /** The database session: the users and progress tables. */
  class Database {
    var users: seq<UserRow>
    var progress: seq<ProgressRow>

    constructor (users: seq<UserRow>, progress: seq<ProgressRow>)
      ensures this.users == users && this.progress == progress
    {
      this.users := users;
      this.progress := progress;
    }

    /** update_user_progress at utcNow: 400 without a page or a status, otherwise the upsert stamped utcNow. */
    method UpdateUserProgress(user: int, page: Option<int>, status: Option<seq<char>>, utcNow: Moment) returns (r: Outcome)
      modifies this
      ensures page.None? || status.None? <==> r == HttpError(400)
      ensures r == HttpError(400) ==> progress == old(progress)
      ensures r == Done ==> progress == Upserted(old(progress), user, page.value, status.value, utcNow, utcNow)
      ensures users == old(users)
    {
      if page.None? || status.None? {
        return HttpError(400);
      }
      var i := FindRecord(user, page.value);
      if i < |progress| {
        progress := progress[i := ProgressRow(user, page.value, status.value, utcNow)];
      } else {
        progress := progress + [ProgressRow(user, page.value, status.value, utcNow)];
      }
      r := Done;
    }

    /** The query for the first progress row of (user, page); |progress| when there is none. */
    method FindRecord(user: int, page: int) returns (i: nat)
      ensures i == FirstWithKey(progress, user, page)
    {
      i := 0;
      while i < |progress| && !HasKey(progress, i, user, page)
        invariant i <= |progress|
        invariant forall k :: 0 <= k < i ==> !HasKey(progress, k, user, page)
      {
        i := i + 1;
      }
      FirstWithKeyIs(progress, user, page, i);
    }

    /** delete_user: the user's progress rows first, then the user. */
    method DeleteUser(id: int)
      modifies this
      ensures progress == WithoutUser(old(progress), id)
      ensures users == WithoutAccount(old(users), id)
    {
      progress := WithoutUser(progress, id);
      users := WithoutAccount(users, id);
    }

    /** admin_delete_user: 404 for an unknown id, otherwise as delete_user. */
    method AdminDeleteUser(id: int) returns (r: Outcome)
      modifies this
      ensures (forall u :: u in old(users) ==> u.id != id) <==> r == HttpError(404)
      ensures r == HttpError(404) ==> progress == old(progress) && users == old(users)
      ensures r == Done ==> progress == WithoutUser(old(progress), id) && users == WithoutAccount(old(users), id)
    {
      var k := 0;
      while k < |users| && users[k].id != id
        invariant k <= |users|
        invariant forall j :: 0 <= j < k ==> users[j].id != id
      {
        k := k + 1;
      }
      if k == |users| {
        return HttpError(404);
      }
      DeleteUser(id);
      r := Done;
    }
  }

  /** Any index with the key and none before it is the first one. */
  lemma FirstWithKeyIs(rows: seq<ProgressRow>, user: int, page: int, i: nat)
    requires i <= |rows|
    requires i < |rows| ==> HasKey(rows, i, user, page)
    requires forall k :: 0 <= k < i ==> !HasKey(rows, k, user, page)
    ensures i == FirstWithKey(rows, user, page)
  {
  }
}
