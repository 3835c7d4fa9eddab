/**
 * The authentication store of src/stores/auth.ts: whether the admin is
 * signed in, when they were last active, and the persisted sign-in flag.
 */
module Session {
  import opened Wrappers

  /** `inactivityTimeout`: 30 minutes, in milliseconds. */
  const INACTIVITY_TIMEOUT_MS := 30 * 60 * 1000

  /** The storage key of the persisted flag. */
  const STORAGE_KEY := "isAuthenticated"

  /** `now - lastActivity > inactivityTimeout`: strictly more than 30 minutes idle. */
  predicate IdleTooLong(lastActivity: int, now: int) {
    now - lastActivity > INACTIVITY_TIMEOUT_MS
  }

  class AuthStore {
    var isAuthenticated: bool
    var lastActivity: int
    /** `localStorage.getItem('isAuthenticated')`. */
    var storedFlag: Option<string>

    /** Store creation at time `now`, reading the persisted flag `stored`. */
    constructor (stored: Option<string>, now: int)
      ensures isAuthenticated <==> stored == Some("true")
      ensures lastActivity == now && storedFlag == stored
    {
      isAuthenticated := stored == Some("true");
      lastActivity := now;
      storedFlag := stored;
    }

    /** `login()` at time `now`. */
    method Login(now: int)
      modifies this
      ensures isAuthenticated && lastActivity == now
      ensures storedFlag == old(storedFlag)
    {
      isAuthenticated := true;
      lastActivity := now;
    }

    /** `logout()`: signs out and removes the persisted flag. */
    method Logout()
      modifies this
      ensures !isAuthenticated && storedFlag == None
      ensures lastActivity == old(lastActivity)
    {
      isAuthenticated := false;
      storedFlag := None;
    }

    /** `updateActivity()` at time `now`. */
    method UpdateActivity(now: int)
      modifies this
      ensures lastActivity == now
      ensures isAuthenticated == old(isAuthenticated) && storedFlag == old(storedFlag)
    {
      lastActivity := now;
    }

    /**
     * `checkInactivity()` at time `now`: logs out when the last activity is
     * more than 30 minutes old, and otherwise changes nothing.
     */
    method CheckInactivity(now: int) returns (loggedOut: bool)
      modifies this
      ensures loggedOut <==> IdleTooLong(old(lastActivity), now)
      ensures loggedOut ==> !isAuthenticated && storedFlag == None && lastActivity == old(lastActivity)
      ensures !loggedOut ==> unchanged(this)
    {
      loggedOut := now - lastActivity > INACTIVITY_TIMEOUT_MS;
      if loggedOut {
        Logout();
      }
    }
  }

  /** At exactly 30 minutes of inactivity the session stays; one millisecond later it ends. */
  lemma ThirtyMinuteBoundary(lastActivity: int)
    ensures !IdleTooLong(lastActivity, lastActivity + 1_800_000)
    ensures IdleTooLong(lastActivity, lastActivity + 1_800_001)
  {
  }

  /** Once idle too long, the session stays idle too long as time passes. */
  lemma IdleTooLongPersists(lastActivity: int, now: int, later: int)
    requires IdleTooLong(lastActivity, now) && now <= later
    ensures IdleTooLong(lastActivity, later)
  {
  }

  /** Logging out twice leaves the same state as logging out once. */
  method LogoutTwice(store: AuthStore)
    modifies store
    ensures !store.isAuthenticated && store.storedFlag == None
    ensures store.lastActivity == old(store.lastActivity)
  {
    store.Logout();
    store.Logout();
  }

  /** Recorded activity keeps a signed-in session alive for the next 30 minutes. */
  method ActivityThenCheck(store: AuthStore, now: int, later: int)
    requires store.isAuthenticated && now <= later <= now + INACTIVITY_TIMEOUT_MS
    modifies store
    ensures store.isAuthenticated && store.lastActivity == now
  {
    store.UpdateActivity(now);
    var loggedOut := store.CheckInactivity(later);
    assert !loggedOut;
  }
}
