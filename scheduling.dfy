/**
 * The keyed poll registry of src/utils/RealtimeUpdate.ts and the browser's
 * interval-timer capability it relies on.
 */
module Scheduling {
  import opened Wrappers

  /** An interval id as `window.setInterval` returns it. */
  type Handle = int

  /** The refresh function (`updateFn`) a feed runs, named by a label. */
  datatype Task = Task(name: string)

  /** What a live interval timer does: which task, every how many milliseconds. */
  datatype Schedule = Schedule(task: Task, periodMs: int)

  /** `DEFAULT_INTERVAL`: 10 seconds. */
  const DEFAULT_INTERVAL := 10000

  /**
   * The live timers once the feed `key` has been stopped: its stored timer,
   * if any, is gone and every other timer is as it was.
   */
  function WithoutFeed(scheduled: map<Handle, Schedule>, intervals: map<string, Handle>, key: string): map<Handle, Schedule> {
    if key in intervals then scheduled - {intervals[key]} else scheduled
  }

  /**
   * `window.setInterval` / `clearInterval`, restricted to the timers the
   * registry itself creates: the timers currently scheduled.
   */
  class Timers {
    var scheduled: map<Handle, Schedule>
    var lastHandle: nat
    /** Every handle ever returned; the browser never hands out one twice. */
    ghost var issued: set<Handle>

    ghost predicate Valid()
      reads this
    {
      && scheduled.Keys <= issued
      && (forall h :: h in issued ==> 0 < h <= lastHandle)
    }

    constructor ()
      ensures Valid() && scheduled == map[] && issued == {}
    {
      scheduled := map[];
      lastHandle := 0;
      issued := {};
    }

    /** Schedules `task` every `periodMs` and returns a fresh, positive handle. */
    method SetInterval(task: Task, periodMs: int) returns (h: Handle)
      requires Valid()
      modifies this
      ensures Valid()
      ensures h > 0 && h !in old(issued) && issued == old(issued) + {h}
      ensures scheduled == old(scheduled)[h := Schedule(task, periodMs)]
    {
      lastHandle := lastHandle + 1;
      h := lastHandle;
      scheduled := scheduled[h := Schedule(task, periodMs)];
      issued := issued + {h};
    }

    /** Cancels the timer `h`; an unknown handle is ignored. */
    method ClearInterval(h: Handle)
      requires Valid()
      modifies this
      ensures Valid() && issued == old(issued)
      ensures scheduled == old(scheduled) - {h}
    {
      scheduled := scheduled - {h};
    }
  }

  /** `RealtimeUpdate`: one interval timer per feed key. */
  class RealtimeUpdate {
    /** `intervals`: the handle of the timer running each feed. */
    var intervals: map<string, Handle>
    /** The kick-off call `updateFn()` that each `startUpdate` makes, in order. */
    var initialRuns: seq<Task>
    const timers: Timers
    /** Inverse of `intervals`: the key that owns each live timer. */
    ghost var owner: map<Handle, string>

    /**
     * The live timers are exactly the handles stored in `intervals`, each
     * stored under one key only: no timer is orphaned and no key holds two.
     */
    ghost predicate Valid()
      reads this, timers
    {
      && timers.Valid()
      && owner.Keys == timers.scheduled.Keys
      && (forall k :: k in intervals ==> intervals[k] > 0 && intervals[k] in owner && owner[intervals[k]] == k)
      && (forall h :: h in owner ==> owner[h] in intervals && intervals[owner[h]] == h)
    }

    /** The handles stored in the map. */
    ghost function StoredHandles(): set<Handle>
      reads this
    {
      set k | k in intervals :: intervals[k]
    }

    constructor (timers: Timers)
      requires timers.Valid() && timers.scheduled == map[]
      ensures Valid() && this.timers == timers
      ensures intervals == map[] && initialRuns == []
    {
      this.timers := timers;
      intervals := map[];
      initialRuns := [];
      owner := map[];
    }

    /** The headline invariant, stated on sets. */
    lemma LiveTimersAreStoredHandles()
      requires Valid()
      ensures timers.scheduled.Keys == StoredHandles()
      ensures forall k1, k2 :: k1 in intervals && k2 in intervals && k1 != k2 ==> intervals[k1] != intervals[k2]
    {
      forall h | h in timers.scheduled.Keys ensures h in StoredHandles() {
        assert intervals[owner[h]] == h;
      }
    }

    /**
     * `startUpdate(key, updateFn, intervalMs)`: stops the feed's old timer,
     * runs `updateFn` once, then schedules it; `None` stands for an omitted
     * `intervalMs`, which defaults to DEFAULT_INTERVAL.
     */
    method StartUpdate(key: string, task: Task, intervalMs: Option<int>) returns (h: Handle)
      requires Valid()
      modifies this, timers
      ensures Valid()
      ensures h > 0 && h !in old(timers.issued) && timers.issued == old(timers.issued) + {h}
      ensures intervals == old(intervals)[key := h]
      ensures timers.scheduled ==
                WithoutFeed(old(timers.scheduled), old(intervals), key)[h := Schedule(task, intervalMs.GetOr(DEFAULT_INTERVAL))]
      ensures initialRuns == old(initialRuns) + [task]
    {
      StopUpdate(key);
      initialRuns := initialRuns + [task];
      h := timers.SetInterval(task, intervalMs.GetOr(DEFAULT_INTERVAL));
      intervals := intervals[key := h];
      owner := owner[h := key];
    }

    /**
     * `stopUpdate(key)`: clears and forgets the feed's timer. The guard is
     * JavaScript truthiness: a missing entry (and a handle of 0) is skipped.
     */
    method StopUpdate(key: string)
      requires Valid()
      modifies this, timers
      ensures Valid()
      ensures intervals == old(intervals) - {key}
      ensures timers.scheduled == WithoutFeed(old(timers.scheduled), old(intervals), key)
      ensures timers.issued == old(timers.issued) && initialRuns == old(initialRuns)
      ensures key !in old(intervals) ==> unchanged(this, timers)
    {
      var intervalId := if key in intervals then Some(intervals[key]) else None;
      if intervalId.Some? && intervalId.value != 0 {
        timers.ClearInterval(intervalId.value);
        owner := owner - {intervalId.value};
        intervals := intervals - {key};
      }
    }

    /** `stopAllUpdates()`: clears every stored timer, deleting each entry as it goes. */
    method StopAllUpdates()
      requires Valid()
      modifies this, timers
      ensures Valid()
      ensures intervals == map[] && timers.scheduled == map[]
      ensures forall k :: k in old(intervals) ==> old(intervals)[k] !in timers.scheduled
      ensures timers.issued == old(timers.issued) && initialRuns == old(initialRuns)
    {
      while intervals != map[]
        invariant Valid()
        invariant intervals.Keys <= old(intervals).Keys
        invariant forall k :: k in intervals ==> intervals[k] == old(intervals)[k]
        invariant timers.issued == old(timers.issued) && initialRuns == old(initialRuns)
        decreases |intervals|
      {
        var key :| key in intervals;
        var intervalId := intervals[key];
        timers.ClearInterval(intervalId);
        owner := owner - {intervalId};
        intervals := intervals - {key};
      }
      LiveTimersAreStoredHandles();
    }

    /** `isUpdateRunning(key)`: the feed has an entry, hence a live timer. */
    function IsUpdateRunning(key: string): (running: bool)
      requires Valid()
      reads this, timers
      ensures running <==> key in intervals && intervals[key] in timers.scheduled
    {
      key in intervals
    }

    /** `getDefaultInterval()`. */
    function GetDefaultInterval(): (ms: int)
      ensures ms == 10000
    {
      DEFAULT_INTERVAL
    }
  }
}
