/**
 * The dashboard controller (src/controllers/DashboardController.ts): the
 * total user count, cached as a decimal string.
 */
module Dashboard {
  import opened Wrappers
  import NumberFormat
  import Scheduling

  const UPDATE_KEY := "dashboard-stats"
  const UPDATE_TASK := Scheduling.Task("updateCount")

  class DashboardController {
    /** `userCount`: the last fetched count, as text. */
    var userCount: string
    const registry: Scheduling.RealtimeUpdate

    constructor (registry: Scheduling.RealtimeUpdate)
      ensures this.registry == registry && userCount == "0"
    {
      this.registry := registry;
      userCount := "0";
    }

    /**
     * `fetchUserCount()`: `response` is what `UserModel.getTotalUsers()`
     * resolved or rejected with. Success stores `count.toString()`; either
     * way the (possibly previous) cached text is returned.
     */
    method FetchUserCount(response: Result<int>) returns (result: string)
      modifies this`userCount
      ensures userCount == (if response.Success? then NumberFormat.IntToString(response.value) else old(userCount))
      ensures result == userCount
    {
      match response
      case Success(count) =>
        userCount := NumberFormat.IntToString(count);
        result := userCount;
      case Failure(_) =>
        result := userCount;
    }

    /** One tick of the feed (`updateCount`): fetch, then call back with the cache. */
    method UpdateCount(response: Result<int>) returns (delivered: string)
      modifies this`userCount
      ensures userCount == (if response.Success? then NumberFormat.IntToString(response.value) else old(userCount))
      ensures delivered == userCount
    {
      var _ := FetchUserCount(response);
      delivered := userCount;
    }

    /**
     * `startUserCountUpdate(callback, intervalMs)`: registers the tick under
     * 'dashboard-stats' and runs it once. An omitted interval is the
     * registry's 10 s default.
     */
    method StartUserCountUpdate(intervalMs: Option<int>, response: Result<int>) returns (delivered: string)
      requires registry.Valid()
      modifies this`userCount, registry, registry.timers
      ensures registry.Valid()
      ensures UPDATE_KEY in registry.intervals
      ensures registry.intervals == old(registry.intervals)[UPDATE_KEY := registry.intervals[UPDATE_KEY]]
      ensures registry.intervals[UPDATE_KEY] !in old(registry.timers.issued)
      ensures registry.timers.issued == old(registry.timers.issued) + {registry.intervals[UPDATE_KEY]}
      ensures registry.timers.scheduled ==
                Scheduling.WithoutFeed(old(registry.timers.scheduled), old(registry.intervals), UPDATE_KEY)
                [registry.intervals[UPDATE_KEY] := Scheduling.Schedule(UPDATE_TASK, intervalMs.GetOr(Scheduling.DEFAULT_INTERVAL))]
      ensures registry.initialRuns == old(registry.initialRuns) + [UPDATE_TASK]
      ensures userCount == (if response.Success? then NumberFormat.IntToString(response.value) else old(userCount))
      ensures delivered == userCount
    {
      var _ := registry.StartUpdate(UPDATE_KEY, UPDATE_TASK, intervalMs);
      delivered := UpdateCount(response);
    }

    /** `stopUserCountUpdate()`: removes the 'dashboard-stats' feed only. */
    method StopUserCountUpdate()
      requires registry.Valid()
      modifies registry, registry.timers
      ensures registry.Valid()
      ensures registry.intervals == old(registry.intervals) - {UPDATE_KEY}
      ensures registry.timers.scheduled ==
                Scheduling.WithoutFeed(old(registry.timers.scheduled), old(registry.intervals), UPDATE_KEY)
      ensures registry.timers.issued == old(registry.timers.issued) && registry.initialRuns == old(registry.initialRuns)
    {
      registry.StopUpdate(UPDATE_KEY);
    }

    /** `getCurrentUserCount()`. */
    function GetCurrentUserCount(): string
      reads this
    {
      userCount
    }
  }

  /** The cached text always reads back as the count it was rendered from. */
  lemma CachedCountReadsBack(count: int)
    requires count >= 0
    ensures NumberFormat.AllDigits(NumberFormat.IntToString(count))
    ensures NumberFormat.ParseNat(NumberFormat.IntToString(count)) == count
  {
    NumberFormat.ParseNatToString(count);
  }
}
