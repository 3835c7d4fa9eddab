# HeronFit admin client: live-data polling, activity status, form validation and session timeout

This project is a Dafny model of the client-side logic of the HeronFit gym
administration dashboard (a Vue/TypeScript single-page application):

- **Poll registry** (`Scheduling`, from `src/utils/RealtimeUpdate.ts`): a map
  from a feed key to a browser interval timer. Starting a feed cancels the
  timer already stored under the key, runs the refresh once, then stores a
  fresh timer; stopping removes the key. The object invariant
  `RealtimeUpdate.Valid()` says that the live timers are exactly the handles
  stored in the map, each under one key: no timer is orphaned and no key
  holds two. The class `Timers` stands for the browser's interval timers
  restricted to those the registry itself creates, and it hands out fresh
  positive handles. Timers that other code starts, such as the session
  store's per-minute check, are not part of it.
- **Polling controllers** (`Users`, `Dashboard`, `Analytics`): three objects
  that share one registry. Each caches one value (the status-annotated user
  list, the user count as text, the five analytics figures) and refreshes it
  from a data source that may fail. On failure the user list fetch returns
  `[]` but keeps its cache. The count and the analytics figures return the
  previous value. Each registers its own tick under its own key. `Wiring`
  runs all three on one registry and shows that restarting a feed keeps one
  timer per feed and that stopping all leaves none.
- **Activity policy** (`UserActivity`, `UserActivitySettings`): a user is
  'Active' when the last activity is strictly later than one hour ago. The
  separate settings constant is 24 hours. A duration is rendered as whole
  hours with "hour"/"hours".
- **Form validation** (`FormValidation`, `AuthController`, `AuthService`):
  the login and registration validators are ordered early-return checks. The
  first failing check's message wins. `FormValidation` states that rule once,
  as the first failure of an ordered check list (`FirstFailure`). Each of the
  two source files keeps its own guard chains, proved equal to that reference.
  The e-mail test is a structural predicate proved to accept exactly the
  language of `^[^\s@]+@[^\s@]+\.[^\s@]+$`. Both files also let the
  development credentials past the provider when logging in.
- **Session store** (`Session`, from `src/stores/auth.ts`): sign-in flag,
  last activity time, and the persisted flag. The session logs out when more
  than 30 minutes (strictly) have passed since the last activity.

Calls to the database and the authentication provider's sign-in, the wall
clock and date parsing are parameters: an operation receives the `Result` the
call resolved or rejected with, the time `now` in milliseconds, or the runtime's date
parser (`string -> Option<int>`, `None` for an Invalid Date). A callback is
modelled by an out-parameter, `delivered`, holding what the callback receives.

Static class fields of the source (the registry's `intervals`, the
controllers' caches) are fields of explicitly constructed objects. The one
registry object is passed to every controller.

Behaviour worth knowing, modelled as the code has it:

- `fetchUsers` returns `[]` when the fetch fails, not the previous list. The
  tick still hands the callback the cached (stale) list.
- The documentation comment of `startUserCountUpdate` promises a 30-second
  default. The interval is in fact omitted, so the registry's 10-second
  default applies.
- The comments on `INACTIVITY_TIMEOUT_MS` say 2 hours; the value is 24 hours.
  `calculateStatus` does not use it: it has its own one-hour window.
- The user controller has only fetch, start, stop and read. There is no
  search, sorting, debouncing, update or delete of the list to model.

## Model

| member | source | states |
|---|---|---|
| `NumberFormat.NatToString` | src/controllers/DashboardController.ts:14 | a rendered natural number is a non-empty string of digits with no leading zero |
| `NumberFormat.IntToString` | src/controllers/DashboardController.ts:14 | the printed text is the canonical decimal numeral of the integer: digits without a leading zero (except "0") that read back as its magnitude, after a '-' exactly when it is negative |
| `NumberFormat.ParseNatToString` | src/controllers/DashboardController.ts:14 | reading a rendered number back gives the number (round trip) |
| `NumberFormat.IntToStringInjective` | src/utils/UserActivitySettings.ts:18 | two integers print the same exactly when they are equal |
| `NumberFormat.IntToStringHasNoSpace` | src/utils/UserActivitySettings.ts:18 | a printed integer has no space, so it is the part of the readable duration before the space |
| `UserActivity.CalculateStatus` | src/models/UserActivity.ts:10-18 | the status is 'Active' or 'Inactive'. It is 'Active' iff the timestamp is present, non-empty, parses, and is strictly later than now minus one hour |
| `UserActivity.GetStatusClasses` | src/models/UserActivity.ts:25-29 | green classes iff the status is exactly 'Active'; red classes for every other string |
| `UserActivity.MissingTimestampIsInactive` | src/models/UserActivity.ts:11 | null and empty timestamps are 'Inactive' for any time and parser |
| `UserActivity.UnparseableIsInactive` | src/models/UserActivity.ts:13-17 | a timestamp that parses to an Invalid Date is 'Inactive' |
| `UserActivity.OneHourBoundary` | src/models/UserActivity.ts:15-17 | exactly one hour old is 'Inactive'; one millisecond younger is 'Active'; a future timestamp is 'Active' |
| `UserActivity.StatusMonotoneInLastActivity` | src/models/UserActivity.ts:17 | a later last activity never turns 'Active' into 'Inactive' |
| `UserActivity.BadgeOfComputedStatus` | src/models/UserActivity.ts:25-29 | a user row's badge is green exactly when its timestamp is present, non-empty, parses, and lies within the last hour; otherwise it is red |
| `UserActivitySettings.Hours` | src/utils/UserActivitySettings.ts:17 | the hour count is the floor: hours·3600000 ≤ ms < (hours+1)·3600000, negative durations included |
| `UserActivitySettings.HourUnit` | src/utils/UserActivitySettings.ts:18 | the unit is "hour" exactly when the count is 1, and "hours" otherwise, including 0 |
| `UserActivitySettings.GetReadableDuration` | src/utils/UserActivitySettings.ts:16-19 | the text is the canonical numeral (no leading zero) of the whole hours (floor), a space, then "hour" for exactly one hour and "hours" otherwise |
| `UserActivitySettings.InactivityTimeoutIs24Hours` | src/utils/UserActivitySettings.ts:9 | the timeout is 86,400,000 ms, which is 24 whole hours |
| `UserActivitySettings.ReadableTimeout` | src/utils/UserActivitySettings.ts:16-19 | the timeout reads "24 hours" |
| `UserActivitySettings.SameHourSameText` | src/utils/UserActivitySettings.ts:17-18 | every duration in [h·3600000, (h+1)·3600000) reads the same |
| `UserActivitySettings.HoursMonotone` | src/utils/UserActivitySettings.ts:17 | the hour count is non-decreasing in the duration |
| `UserActivitySettings.ReadableDurationDeterminesHours` | src/utils/UserActivitySettings.ts:16-19 | two durations read the same iff they have the same hour count |
| `UserActivitySettings.PrefixBeforeSpace` | src/utils/UserActivitySettings.ts:18 | the number before the first space of a "<n> <unit>" text is determined by the text |
| `Scheduling.Timers.SetInterval` | src/utils/RealtimeUpdate.ts:26 | returns a positive handle never issued before and schedules the task at the given period; other timers unchanged |
| `Scheduling.Timers.ClearInterval` | src/utils/RealtimeUpdate.ts:37 | removes exactly that timer |
| `Scheduling.RealtimeUpdate.constructor` | src/utils/RealtimeUpdate.ts:5 | the registry starts empty over a timer host with no live timers |
| `Scheduling.RealtimeUpdate.LiveTimersAreStoredHandles` | src/utils/RealtimeUpdate.ts:20-39 | under the invariant, the set of live timers equals the set of stored handles, and no two keys share a handle |
| `Scheduling.RealtimeUpdate.StartUpdate` | src/utils/RealtimeUpdate.ts:14-28 | keeps the invariant. The key now maps to a fresh handle and other keys are unchanged. The old handle under the key is cleared and the new timer runs the task at intervalMs, or 10000 ms when omitted. The refresh runs exactly once right away |
| `Scheduling.RealtimeUpdate.StopUpdate` | src/utils/RealtimeUpdate.ts:34-40 | removes only the key and clears only its timer; an absent key changes nothing |
| `Scheduling.RealtimeUpdate.StopAllUpdates` | src/utils/RealtimeUpdate.ts:45-50 | afterwards no key is stored, no timer is live, and every previously stored handle is cleared |
| `Scheduling.RealtimeUpdate.IsUpdateRunning` | src/utils/RealtimeUpdate.ts:57-59 | true iff the key is stored and its timer is live |
| `Scheduling.RealtimeUpdate.GetDefaultInterval` | src/utils/RealtimeUpdate.ts:64-66 | 10000 ms |
| `Users.WithStatus` | src/controllers/UserController.ts:20-23 | same length and order as the fetched list; each row is its fetched record plus `calculateStatus` of its `test_last_active` |
| `Users.StatusesAreBinary` | src/controllers/UserController.ts:20-23 | every cached status is 'Active' or 'Inactive' |
| `Users.UserController.constructor` | src/controllers/UserController.ts:10 | the cache starts empty |
| `Users.UserController.FetchUsers` | src/controllers/UserController.ts:16-30 | on success the cache is replaced wholesale by the annotated list and returned; on failure [] is returned and the cache is kept |
| `Users.UserController.UpdateUserList` | src/controllers/UserController.ts:38-41 | the tick fetches, then the callback receives the current cache (the stale list after a failure) |
| `Users.UserController.StartUserListUpdate` | src/controllers/UserController.ts:37-44 | registers a fresh timer for the tick under 'user-list' only (default 10000 ms), clearing that key's old timer and leaving every other timer as it was; runs the tick once |
| `Users.UserController.StopUserListUpdate` | src/controllers/UserController.ts:49-51 | removes only 'user-list' and clears only its timer; the other timers, the issued handles and the kick-off log are unchanged |
| `Dashboard.DashboardController.constructor` | src/controllers/DashboardController.ts:9 | the count starts as "0" |
| `Dashboard.DashboardController.FetchUserCount` | src/controllers/DashboardController.ts:11-20 | on success the count becomes the decimal text of the fetched number; on failure it is kept; either way it is returned |
| `Dashboard.DashboardController.UpdateCount` | src/controllers/DashboardController.ts:28-31 | the tick fetches, then the callback receives the cached count |
| `Dashboard.DashboardController.StartUserCountUpdate` | src/controllers/DashboardController.ts:27-34 | registers the tick under 'dashboard-stats' only, clearing that key's old timer and leaving every other timer as it was. An omitted interval gives 10000 ms, not the documented 30000. The tick runs once |
| `Dashboard.DashboardController.StopUserCountUpdate` | src/controllers/DashboardController.ts:39-41 | removes only 'dashboard-stats' and clears only its timer; the other timers, the issued handles and the kick-off log are unchanged |
| `Dashboard.CachedCountReadsBack` | src/controllers/DashboardController.ts:14 | the cached text of a non-negative count is all digits and reads back as that count |
| `Analytics.ActiveUsers` | src/controllers/AnalyticsController.ts:30 | the filter's rows are all 'Active', every 'Active' row of the cache appears, and the result is a sub-multiset of the cache |
| `Analytics.ActiveUsersExact` | src/controllers/AnalyticsController.ts:30 | the filter keeps each 'Active' row exactly as often as it occurs in the cache, and no other row |
| `Analytics.ActiveCountIsStatusCount` | src/controllers/AnalyticsController.ts:29-30 | the filtered length is the number of 'Active' statuses among the cached rows |
| `Analytics.ActiveCountIsFullIffAllActive` | src/controllers/AnalyticsController.ts:30 | the active count equals the cache size iff every cached row is 'Active' |
| `Analytics.FreshStats` | src/controllers/AnalyticsController.ts:26-47 | the total is the fetched total, the active count is the number of 'Active' statuses in the cache (so between 0 and its size), and the other figures are 78, 48 and 24 |
| `Analytics.AnalyticsController.constructor` | src/controllers/AnalyticsController.ts:15-21 | all five figures start at 0 |
| `Analytics.AnalyticsController.FetchAnalyticsStats` | src/controllers/AnalyticsController.ts:23-54 | on success: the fetched total, the number of 'Active' rows in the user controller's cache, and 78/48/24. On failure the stats are kept. Either way they are returned |
| `Analytics.AnalyticsController.UpdateStats` | src/controllers/AnalyticsController.ts:57-60 | the tick fetches, then the callback receives the stats |
| `Analytics.AnalyticsController.StartAnalyticsUpdate` | src/controllers/AnalyticsController.ts:56-63 | registers the tick under 'analytics-stats' only, clearing that key's old timer and leaving every other timer as it was; runs the tick once |
| `Analytics.AnalyticsController.StopAnalyticsUpdate` | src/controllers/AnalyticsController.ts:65-67 | removes only 'analytics-stats' and clears only its timer; the other timers, the issued handles and the kick-off log are unchanged |
| `Wiring.FeedKeysDistinct` | src/controllers/UserController.ts:9 | the three feed keys differ, so one feed never replaces another's timer |
| `Wiring.StartAll` | src/controllers/AnalyticsController.ts:56-63 | starting the three feeds on an empty registry leaves exactly the three keys running |
| `Wiring.LiveTimerCount` | src/utils/RealtimeUpdate.ts:5 | under the registry invariant the number of live timers equals the number of running feeds |
| `Wiring.InjectiveImageSize` | src/utils/RealtimeUpdate.ts:20-27 | a key-to-handle map without shared handles has as many handles as keys |
| `Wiring.RunFeeds` | src/utils/RealtimeUpdate.ts:20-50 | three feeds give three timers; restarting one still gives three; stopping all gives none |
| `FormValidation.TrimStart` | src/controllers/AuthController.ts:31 | removes exactly the leading white space: the result is a suffix, what was cut is white space, and the result starts with a non-white character |
| `FormValidation.TrimEnd` | src/controllers/AuthController.ts:31 | removes exactly the trailing white space |
| `FormValidation.Trim` | src/controllers/AuthController.ts:31 | the result is a run of the text with only white space before and after it, and it neither starts nor ends with white space |
| `FormValidation.BlankIffAllWhitespace` | src/controllers/AuthController.ts:31 | a text trims to "" iff every character is white space |
| `FormValidation.IsBlank` | src/controllers/AuthController.ts:31 | `!s.trim()` holds iff every character is white space |
| `FormValidation.ValidEmailIffMatchesPattern` | src/controllers/AuthController.ts:59-61 | the structural test accepts exactly the pattern's language. That means: no white space; one '@' with a character before it; a '.' after the '@' that is neither first nor last |
| `FormValidation.ValidEmailMatchesPattern` | src/controllers/AuthController.ts:60 | a structurally valid address splits into the pattern's three runs |
| `FormValidation.PatternMatchIsValidEmail` | src/controllers/AuthController.ts:60 | a match of the pattern passes the structural test |
| `FormValidation.FirstFailure` | src/controllers/AuthController.ts:30-35 | None iff no check fails; otherwise the message of a failing check that no earlier check precedes |
| `FormValidation.FirstFailureOfThree` | src/controllers/AuthController.ts:31-34 | first-failure over three checks is the three-step early-return chain |
| `FormValidation.FirstFailureOfEight` | src/controllers/AuthController.ts:43-51 | first-failure over eight checks is the eight-step early-return chain |
| `FormValidation.LoginOutcome` | src/controllers/AuthController.ts:30-35 | the login checks yield, in order, email-required, password-required, format, else null |
| `FormValidation.RegisterOutcome` | src/controllers/AuthController.ts:42-52 | the registration checks yield the eight messages in order, else null |
| `FormValidation.LoginAcceptedIff` | src/controllers/AuthController.ts:30-35 | login data is accepted iff neither field is all white space and the address matches the pattern |
| `FormValidation.RegisterAcceptedImplies` | src/controllers/AuthController.ts:48-51 | accepted registration data has password == confirmation, at least 6 characters, a well-formed address and non-blank names |
| `FormValidation.MismatchReportedBeforeLength` | src/controllers/AuthController.ts:49-50 | short, unequal passwords report 'Passwords do not match' |
| `FormValidation.PaddedEmailIsMalformed` | src/controllers/AuthController.ts:31-33 | a valid address with a leading space passes the blank check but fails the format check |
| `FormValidation.WhitespacePasswordIsMissing` | src/services/auth.service.ts:16-17 | with a filled-in e-mail, an all-white-space password yields 'Password is required' |
| `AuthController.IsValidEmail` | src/controllers/AuthController.ts:59-62 | true iff the address is in the language of `^[^\s@]+@[^\s@]+\.[^\s@]+$` |
| `AuthController.ValidateLoginFields` | src/controllers/AuthController.ts:30-35 | this file's login chain returns the first failure of the ordered login checks, and None (`null`) when all pass |
| `AuthController.ValidateRegisterFields` | src/controllers/AuthController.ts:42-52 | this file's registration chain returns the first failure of the eight ordered checks, and None when all pass |
| `AuthController.Login` | src/controllers/AuthController.ts:69-83 | the exact dev credentials give `{data: true, error: null}` and never reach the provider. Other credentials go to the provider unchanged. A rejected call or a provider error is thrown; otherwise the provider's data comes back with a null error |
| `AuthController.ResolvedLoginHasNoError` | src/controllers/AuthController.ts:80-82 | a login that resolves never carries an error |
| `AuthService.IsValidEmail` | src/services/auth.service.ts:34-37 | true iff the address is in the language of `^[^\s@]+@[^\s@]+\.[^\s@]+$` |
| `AuthService.ValidateLoginFields` | src/services/auth.service.ts:15-20 | this file's login chain returns the first failure of the ordered login checks, and None when all pass |
| `AuthService.ValidateRegisterFields` | src/services/auth.service.ts:22-32 | this file's registration chain returns the first failure of the eight ordered checks, and None when all pass |
| `AuthService.Login` | src/services/auth.service.ts:39-49 | the exact dev credentials give `{data: true, error: null}` without the provider. Other credentials are forwarded; a rejected call is passed on, and otherwise the provider's data and error come back as they are |
| `AuthService.PaddedDevEmailIsForwarded` | src/services/auth.service.ts:41 | the dev check compares exactly: a space-padded dev address goes to the provider |
| `Session.AuthStore.constructor` | src/stores/auth.ts:7-8 | signed in iff the stored flag is exactly 'true'; last activity is the creation time |
| `Session.AuthStore.Login` | src/stores/auth.ts:15-19 | signed in, last activity = now |
| `Session.AuthStore.Logout` | src/stores/auth.ts:21-25 | signed out, stored flag removed, last activity kept |
| `Session.AuthStore.UpdateActivity` | src/stores/auth.ts:27-29 | last activity = now; sign-in state and stored flag unchanged |
| `Session.AuthStore.CheckInactivity` | src/stores/auth.ts:31-36 | logs out iff now − lastActivity > 1,800,000 ms, and otherwise changes nothing |
| `Session.ThirtyMinuteBoundary` | src/stores/auth.ts:33 | exactly 30 minutes idle keeps the session; 30 minutes and 1 ms ends it |
| `Session.IdleTooLongPersists` | src/stores/auth.ts:33 | once idle too long, later checks also find it idle too long |
| `Session.LogoutTwice` | src/stores/auth.ts:21-25 | logging out twice leaves the state one logout leaves |
| `Session.ActivityThenCheck` | src/stores/auth.ts:27-36 | right after recorded activity, a check within 30 minutes keeps the session |

## Left out

- Supabase and model calls (`UserModel.getAllUsers`, `UserModel.getTotalUsers`, `signInWithPassword`): network I/O. Their resolved or rejected result is a parameter.
- `register` in src/controllers/AuthController.ts and src/services/auth.service.ts is not part of this model. The controller's version rethrows a sign-up error, creates the profile row only when the provider returns a user, and then resolves `{ data, error: null }`. The service's version only forwards to the provider.
- Timers firing repeatedly, and ticks that overlap because the async refresh is not awaited: concurrency. The model covers registration, cancellation, the synchronous kick-off and one run of each tick. The kick-off's fetch resolves after the interval is registered, and the Start methods apply its effect in that order.
- The per-minute `setInterval(checkInactivity, 60000)`, the DOM activity listeners and `router.push` in src/stores/auth.ts: framework glue. `checkInactivity` and `updateActivity` are modelled as operations taking the time.
- The Vue `watch` that writes `isAuthenticated` to localStorage after each change: reactivity. Because of it, after a logout the browser eventually stores 'false' again; the model only records the removal done by `logout`.
- `new Date(string)` and `Date.now()`: runtime library and clock. They are a parser parameter and a `now` parameter.
- Users.WithStatus: `calculateStatus` reads the clock (`new Date()`) once per row, so rows of one fetch may be judged against slightly different times; the model judges a whole fetch against one `now`.
- JavaScript numbers are doubles. Times and counts are unbounded integers here: non-integral milliseconds and the exponent notation `toString` uses from 1e21 upward are not modelled.
- JavaScript string length counts UTF-16 code units; here a string is a sequence of Unicode scalar values. A password with characters outside the Basic Multilingual Plane is therefore shorter here than for the 6-character check in the source.
- The regular-expression engine: `isValidEmail` is modelled by the pattern's language and a structural test proved equal to it.
- `console.error` logging.
- `getCurrentUsers`, `getCurrentUserCount` and `getCurrentStats` are plain reads, modelled as functions without contracts; the constructors state their initial values.
- src/controllers/BookingController.ts, src/services/user.service.ts, src/router/index.ts, the interfaces in src/models/User.ts and src/models/Booking.ts, and the PHP backend: demo data, a thin count wrapper, route tables and database queries, with no logic of this core.
