/**
 * The analytics controller (src/controllers/AnalyticsController.ts): five
 * headline figures, of which the active-user count is derived from the user
 * controller's cache.
 */
module Analytics {
  import opened Wrappers
  import UserActivity
  import Users
  import Scheduling

  datatype AnalyticsStats = AnalyticsStats(
    totalUsers: int,
    activeUsers: int,
    averageAttendance: int,
    todaysBookings: int,
    peakHours: int)

  const UPDATE_KEY := "analytics-stats"
  const UPDATE_TASK := Scheduling.Task("updateStats")

  /** The placeholder figures the fetch writes. */
  const AVERAGE_ATTENDANCE := 78
  const TODAYS_BOOKINGS := 48
  const PEAK_HOURS := 24

  const INITIAL_STATS := AnalyticsStats(0, 0, 0, 0, 0)

  /** `currentUsers.filter(user => user.status === 'Active')`. */
  function ActiveUsers(users: seq<Users.UserWithStatus>): (active: seq<Users.UserWithStatus>)
    ensures |active| <= |users|
    ensures forall u :: u in active ==> u.status == UserActivity.ACTIVE
    ensures forall u :: u in users && u.status == UserActivity.ACTIVE ==> u in active
    ensures multiset(active) <= multiset(users)
  {
    if users == [] then []
    else
      var rest := ActiveUsers(users[1..]);
      assert users == [users[0]] + users[1..];
      if users[0].status == UserActivity.ACTIVE then [users[0]] + rest else rest
  }

  /** The filter keeps every 'Active' row as often as it occurs, and no other row. */
  lemma {:induction false} ActiveUsersExact(users: seq<Users.UserWithStatus>)
    ensures forall u :: multiset(ActiveUsers(users))[u] == if u.status == UserActivity.ACTIVE then multiset(users)[u] else 0
  {
    if users != [] {
      ActiveUsersExact(users[1..]);
      assert users == [users[0]] + users[1..];
    }
  }

  /** The rows' statuses, in order. */
  function Statuses(users: seq<Users.UserWithStatus>): seq<string> {
    seq(|users|, i requires 0 <= i < |users| => users[i].status)
  }

  /** The length of the filtered list is the number of 'Active' statuses. */
  lemma {:induction false} ActiveCountIsStatusCount(users: seq<Users.UserWithStatus>)
    ensures |ActiveUsers(users)| == multiset(Statuses(users))[UserActivity.ACTIVE]
  {
    if users != [] {
      var tail := users[1..];
      ActiveCountIsStatusCount(tail);
      assert Statuses(users) == [users[0].status] + Statuses(tail);
      assert multiset(Statuses(users)) == multiset{users[0].status} + multiset(Statuses(tail));
      if users[0].status == UserActivity.ACTIVE {
        assert |ActiveUsers(users)| == 1 + |ActiveUsers(tail)|;
      } else {
        assert ActiveUsers(users) == ActiveUsers(tail);
      }
    }
  }

  /** The stats written by a successful fetch. */
  function FreshStats(totalUsers: int, currentUsers: seq<Users.UserWithStatus>): (stats: AnalyticsStats)
    ensures stats.totalUsers == totalUsers
    ensures stats.activeUsers == multiset(Statuses(currentUsers))[UserActivity.ACTIVE]
    ensures 0 <= stats.activeUsers <= |currentUsers|
    ensures stats.averageAttendance == AVERAGE_ATTENDANCE
    ensures stats.todaysBookings == TODAYS_BOOKINGS && stats.peakHours == PEAK_HOURS
  {
    ActiveCountIsStatusCount(currentUsers);
    AnalyticsStats(totalUsers, |ActiveUsers(currentUsers)|, AVERAGE_ATTENDANCE, TODAYS_BOOKINGS, PEAK_HOURS)
  }

  /** The active count equals the cache size exactly when every cached row is active. */
  lemma {:induction false} ActiveCountIsFullIffAllActive(users: seq<Users.UserWithStatus>)
    ensures |ActiveUsers(users)| == |users| <==>
              forall i :: 0 <= i < |users| ==> users[i].status == UserActivity.ACTIVE
  {
    if users != [] {
      ActiveCountIsFullIffAllActive(users[1..]);
      assert forall i :: 1 <= i < |users| ==> users[i] == users[1..][i - 1];
    }
  }

  class AnalyticsController {
    /** `stats`: the last computed figures. */
    var stats: AnalyticsStats
    const registry: Scheduling.RealtimeUpdate
    /** The user controller whose cache `getCurrentUsers()` returns. */
    const userController: Users.UserController

    constructor (registry: Scheduling.RealtimeUpdate, userController: Users.UserController)
      ensures this.registry == registry && this.userController == userController
      ensures stats == INITIAL_STATS
    {
      this.registry := registry;
      this.userController := userController;
      stats := INITIAL_STATS;
    }

    /**
     * `fetchAnalyticsStats()`: `response` is what `UserModel.getTotalUsers()`
     * resolved or rejected with. Success recomputes all five figures from the
     * total and the user cache; a failure keeps them. The stats are returned.
     */
    method FetchAnalyticsStats(response: Result<int>) returns (result: AnalyticsStats)
      modifies this`stats
      ensures stats == (if response.Success? then FreshStats(response.value, userController.users) else old(stats))
      ensures result == stats
    {
      match response
      case Success(totalUsers) =>
        var currentUsers := userController.GetCurrentUsers();
        var activeUsers := |ActiveUsers(currentUsers)|;
        stats := AnalyticsStats(totalUsers, activeUsers, AVERAGE_ATTENDANCE, TODAYS_BOOKINGS, PEAK_HOURS);
        result := stats;
      case Failure(_) =>
        result := stats;
    }

    /** One tick of the feed (`updateStats`): fetch, then call back with the stats. */
    method UpdateStats(response: Result<int>) returns (delivered: AnalyticsStats)
      modifies this`stats
      ensures stats == (if response.Success? then FreshStats(response.value, userController.users) else old(stats))
      ensures delivered == stats
    {
      var _ := FetchAnalyticsStats(response);
      delivered := stats;
    }

    /** `startAnalyticsUpdate(callback, intervalMs)`: registers the tick under 'analytics-stats' and runs it once. */
    method StartAnalyticsUpdate(intervalMs: Option<int>, response: Result<int>) returns (delivered: AnalyticsStats)
      requires registry.Valid()
      modifies this`stats, registry, registry.timers
      ensures registry.Valid()
      ensures UPDATE_KEY in registry.intervals
      ensures registry.intervals == old(registry.intervals)[UPDATE_KEY := registry.intervals[UPDATE_KEY]]
      ensures registry.intervals[UPDATE_KEY] !in old(registry.timers.issued)
      ensures registry.timers.issued == old(registry.timers.issued) + {registry.intervals[UPDATE_KEY]}
      ensures registry.timers.scheduled ==
                Scheduling.WithoutFeed(old(registry.timers.scheduled), old(registry.intervals), UPDATE_KEY)
                [registry.intervals[UPDATE_KEY] := Scheduling.Schedule(UPDATE_TASK, intervalMs.GetOr(Scheduling.DEFAULT_INTERVAL))]
      ensures registry.initialRuns == old(registry.initialRuns) + [UPDATE_TASK]
      ensures stats == (if response.Success? then FreshStats(response.value, userController.users) else old(stats))
      ensures delivered == stats
    {
      var _ := registry.StartUpdate(UPDATE_KEY, UPDATE_TASK, intervalMs);
      delivered := UpdateStats(response);
    }

    /** `stopAnalyticsUpdate()`: removes the 'analytics-stats' feed only. */
    method StopAnalyticsUpdate()
      requires registry.Valid()
      modifies registry, registry.timers
      ensures registry.Valid()
      ensures registry.intervals == old(registry.intervals) - {UPDATE_KEY}
      ensures registry.timers.scheduled ==
                Scheduling.WithoutFeed(old(registry.timers.scheduled), old(registry.intervals), UPDATE_KEY)
      ensures registry.timers.issued == old(registry.timers.issued) && registry.initialRuns == old(registry.initialRuns)
    {
      registry.StopUpdate(UPDATE_KEY);
    }

    /** `getCurrentStats()`. */
    function GetCurrentStats(): AnalyticsStats
      reads this
    {
      stats
    }
  }
}
