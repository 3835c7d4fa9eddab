/**
 * The user-list controller (src/controllers/UserController.ts): a cached,
 * status-annotated copy of the user table, refreshed by the poll registry.
 */
module Users {
  import opened Wrappers
  import UserActivity
  import Scheduling

  /** A user row as the data source returns it. */
  datatype User = User(id: string, name: string, email: string, role: string, testLastActive: Option<string>)

  /** `{ ...user, status }`: the row plus its computed activity status. */
  datatype UserWithStatus = UserWithStatus(user: User, status: string)

  const UPDATE_KEY := "user-list"
  const UPDATE_TASK := Scheduling.Task("updateUserList")

  /** `fetchedUsers.map(user => ({ ...user, status: calculateStatus(user.test_last_active) }))`. */
  function WithStatus(users: seq<User>, parse: UserActivity.DateParser, now: int): (annotated: seq<UserWithStatus>)
    ensures |annotated| == |users|
    ensures forall i :: 0 <= i < |users| ==>
              annotated[i].user == users[i] &&
              annotated[i].status == UserActivity.CalculateStatus(users[i].testLastActive, parse, now)
  {
    if users == [] then []
    else [UserWithStatus(users[0], UserActivity.CalculateStatus(users[0].testLastActive, parse, now))]
         + WithStatus(users[1..], parse, now)
  }

  /** Every annotated row is either 'Active' or 'Inactive'. */
  lemma StatusesAreBinary(users: seq<User>, parse: UserActivity.DateParser, now: int)
    ensures forall u :: u in WithStatus(users, parse, now) ==>
              u.status == UserActivity.ACTIVE || u.status == UserActivity.INACTIVE
  {
  }

  class UserController {
    /** `users`: the last successfully fetched list. */
    var users: seq<UserWithStatus>
    const registry: Scheduling.RealtimeUpdate

    constructor (registry: Scheduling.RealtimeUpdate)
      ensures this.registry == registry && users == []
    {
      this.registry := registry;
      users := [];
    }

    /**
     * `fetchUsers()`: `response` is what `UserModel.getAllUsers()` resolved or
     * rejected with. Success replaces the cache wholesale and returns it; a
     * failure returns [] and keeps the cache.
     */
    method FetchUsers(response: Result<seq<User>>, parse: UserActivity.DateParser, now: int)
      returns (result: seq<UserWithStatus>)
      modifies this`users
      ensures response.Success? ==> users == WithStatus(response.value, parse, now) && result == users
      ensures response.Failure? ==> users == old(users) && result == []
    {
      match response
      case Success(fetchedUsers) =>
        users := WithStatus(fetchedUsers, parse, now);
        result := users;
      case Failure(_) =>
        result := [];
    }

    /**
     * One tick of the feed (`updateUserList`): fetch, then hand the cache to
     * the callback; `delivered` is what the callback receives, which after a
     * failed fetch is the stale list, not [].
     */
    method UpdateUserList(response: Result<seq<User>>, parse: UserActivity.DateParser, now: int)
      returns (delivered: seq<UserWithStatus>)
      modifies this`users
      ensures users == (if response.Success? then WithStatus(response.value, parse, now) else old(users))
      ensures delivered == users
    {
      var _ := FetchUsers(response, parse, now);
      delivered := users;
    }

    /**
     * `startUserListUpdate(callback, intervalMs)`: registers the tick under
     * 'user-list' (replacing any timer there) and runs it once.
     */
    method StartUserListUpdate(intervalMs: Option<int>, response: Result<seq<User>>,
                               parse: UserActivity.DateParser, now: int)
      returns (delivered: seq<UserWithStatus>)
      requires registry.Valid()
      modifies this`users, registry, registry.timers
      ensures registry.Valid()
      ensures UPDATE_KEY in registry.intervals
      ensures registry.intervals == old(registry.intervals)[UPDATE_KEY := registry.intervals[UPDATE_KEY]]
      ensures registry.intervals[UPDATE_KEY] !in old(registry.timers.issued)
      ensures registry.timers.issued == old(registry.timers.issued) + {registry.intervals[UPDATE_KEY]}
      ensures registry.timers.scheduled ==
                Scheduling.WithoutFeed(old(registry.timers.scheduled), old(registry.intervals), UPDATE_KEY)
                [registry.intervals[UPDATE_KEY] := Scheduling.Schedule(UPDATE_TASK, intervalMs.GetOr(Scheduling.DEFAULT_INTERVAL))]
      ensures registry.initialRuns == old(registry.initialRuns) + [UPDATE_TASK]
      ensures users == (if response.Success? then WithStatus(response.value, parse, now) else old(users))
      ensures delivered == users
    {
      var _ := registry.StartUpdate(UPDATE_KEY, UPDATE_TASK, intervalMs);
      delivered := UpdateUserList(response, parse, now);
    }

    /** `stopUserListUpdate()`: removes the 'user-list' feed only. */
    method StopUserListUpdate()
      requires registry.Valid()
      modifies registry, registry.timers
      ensures registry.Valid()
      ensures registry.intervals == old(registry.intervals) - {UPDATE_KEY}
      ensures registry.timers.scheduled ==
                Scheduling.WithoutFeed(old(registry.timers.scheduled), old(registry.intervals), UPDATE_KEY)
      ensures registry.timers.issued == old(registry.timers.issued) && registry.initialRuns == old(registry.initialRuns)
    {
      registry.StopUpdate(UPDATE_KEY);
    }

    /** `getCurrentUsers()`: the cache. */
    function GetCurrentUsers(): seq<UserWithStatus>
      reads this
    {
      users
    }
  }
}
