/**
 * The three polling controllers sharing one poll registry, as the admin
 * pages use them: the feeds have distinct keys, restarting a feed keeps one
 * timer per feed, and stopping everything leaves no timer behind.
 */
module Wiring {
  import opened Wrappers
  import Scheduling
  import Users
  import Dashboard
  import Analytics
  import UserActivity

  /** The three feed keys are distinct. */
  lemma FeedKeysDistinct()
    ensures Users.UPDATE_KEY != Dashboard.UPDATE_KEY
    ensures Users.UPDATE_KEY != Analytics.UPDATE_KEY
    ensures Dashboard.UPDATE_KEY != Analytics.UPDATE_KEY
  {
  }

  /**
   * Starts all three feeds, restarts the user list, then stops everything,
   * reporting how many timers are live after each phase.
   */
  method RunFeeds(users: Result<seq<Users.User>>, count: Result<int>, total: Result<int>,
                  parse: UserActivity.DateParser, now: int)
    returns (afterStart: nat, afterRestart: nat, afterStop: nat)
    ensures afterStart == 3 && afterRestart == 3 && afterStop == 0
  {
    var timers := new Scheduling.Timers();
    var registry := new Scheduling.RealtimeUpdate(timers);
    var userController := new Users.UserController(registry);
    var dashboard := new Dashboard.DashboardController(registry);
    var analytics := new Analytics.AnalyticsController(registry, userController);

    StartAll(userController, dashboard, analytics, users, count, total, parse, now);
    LiveTimerCount(registry);
    afterStart := |timers.scheduled|;

    var _ := userController.StartUserListUpdate(Some(5000), users, parse, now);
    assert registry.intervals.Keys == {Users.UPDATE_KEY, Dashboard.UPDATE_KEY, Analytics.UPDATE_KEY};
    LiveTimerCount(registry);
    afterRestart := |timers.scheduled|;

    registry.StopAllUpdates();
    afterStop := |timers.scheduled|;
  }

  /** Starts the three feeds on a registry that has none running. */
  method StartAll(userController: Users.UserController, dashboard: Dashboard.DashboardController,
                  analytics: Analytics.AnalyticsController,
                  users: Result<seq<Users.User>>, count: Result<int>, total: Result<int>,
                  parse: UserActivity.DateParser, now: int)
    requires dashboard.registry == userController.registry && analytics.registry == userController.registry
    requires userController.registry.Valid() && userController.registry.intervals == map[]
    modifies userController, dashboard, analytics, userController.registry, userController.registry.timers
    ensures userController.registry.Valid()
    ensures userController.registry.intervals.Keys == {Users.UPDATE_KEY, Dashboard.UPDATE_KEY, Analytics.UPDATE_KEY}
    ensures |userController.registry.intervals.Keys| == 3
  {
    FeedKeysDistinct();
    var _ := userController.StartUserListUpdate(None, users, parse, now);
    var _ := dashboard.StartUserCountUpdate(None, count);
    var _ := analytics.StartAnalyticsUpdate(None, total);
  }

  /** Under the registry invariant there are as many live timers as running feeds. */
  lemma LiveTimerCount(registry: Scheduling.RealtimeUpdate)
    requires registry.Valid()
    ensures |registry.timers.scheduled| == |registry.intervals|
  {
    registry.LiveTimersAreStoredHandles();
    InjectiveImageSize(registry.intervals);
  }

  /** A map that never sends two keys to one value has as many values as keys. */
  lemma {:induction false} InjectiveImageSize(m: map<string, Scheduling.Handle>)
    requires forall k1, k2 :: k1 in m && k2 in m && k1 != k2 ==> m[k1] != m[k2]
    ensures |set k | k in m :: m[k]| == |m.Keys|
    decreases |m.Keys|
  {
    if m.Keys != {} {
      var k :| k in m;
      var rest := m - {k};
      InjectiveImageSize(rest);
      var image, restImage := set x | x in m :: m[x], set x | x in rest :: rest[x];
      forall v | v in image ensures v in restImage + {m[k]} {
        var x :| x in m && m[x] == v;
        if x != k {
          assert x in rest && rest[x] == v;
        }
      }
      forall v | v in restImage + {m[k]} ensures v in image {
        if v != m[k] {
          var x :| x in rest && rest[x] == v;
          assert x in m && m[x] == v;
        }
      }
      assert image == restImage + {m[k]};
      assert m[k] !in restImage;
      assert m.Keys == rest.Keys + {k};
    }
  }
}
