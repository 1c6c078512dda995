# steam-hour-farmer session controller, in Dafny

steam-hour-farmer keeps a Steam account logged in and tells Steam that the
account is playing a configured list of games. Its logic is a session
controller in `index.js`. A few module-level variables (authenticated, another
session playing, last notification, last login time, last refresh time, login
deadline) are updated by two timers and by the events of the Steam client.
This project models that controller and proves its timing, pausing,
deduplication and exit rules.

Files, leaves first:

- `wrappers.dfy` (module `Wrappers`): `Option`, for JavaScript values that may be `undefined`.
- `session.dfy` (module `Session`): the controller as a pure state machine.
  `State` holds the variables plus an `exited` flag. Each handler is a function
  from the old state to a `Step`: the new state, the remote requests it issued
  (`logOn`, `gamesPlayed`, `setPersona`, each stamped with its time) and the
  console lines it printed. The same module has the Steam Guard prompt and
  answer.
- `properties.dfy` (module `SessionRun`): an `Event` per timer tick or client
  event, `Run` over a sequence of events, the run invariant `Inv`, and the
  whole-run theorems.
- `controller.dfy` (module `Farmer`): class `Controller`, the variables as
  fields the handlers update in place, with ghost logs `requests` and
  `printed`. Each method's contract says its new fields and logs are what the
  `Session` function of the same name gives for the old fields. `Valid()` is
  `Inv`, and every method keeps it.

The time is a parameter `now` (milliseconds; `Date.now()` in the program), and
each handler reads it once. The two-factor code that steam-totp would produce
at that time is a parameter `code`. The Steam id that the client reports on
login is a parameter `steamId`.

Two facts about `index.js` that shape the model:

- There is no "authenticating" state. A login attempt changes only
  `lastLogOnTime`, and `authenticated` becomes true only on `loggedOn`.
- The interval test is strict (`<= MIN_REQUEST_TIME` returns early), so more
  than 60000 ms must pass between two logins or two refreshes.

## Model

| member | source | states |
|---|---|---|
| `Session.TwoFactorCode` | index.js:74-76 | a login carries a two-factor code exactly when the shared secret is set (non-empty), and then it is the code generated at that time |
| `Session.LogOn` | index.js:64-80 | a login request is issued iff not exited, not authenticated, now − lastLogOnTime > 60000 and now ≥ onlyLogInAfter; otherwise nothing changes and nothing is printed; when issued, the only state change is lastLogOnTime := now, "Logging in..." is printed, and the request carries account, password and the two-factor code |
| `Session.LogOnIdempotent` | index.js:64-80 | a second `logOn` at the same moment does nothing |
| `Session.Panic` | index.js:82-85 | the message is printed on stderr, the process is exited, no request is issued |
| `Session.Notify` | index.js:98-101 | the status line is printed only if it differs from the current notification, and afterwards the current notification is that line |
| `Session.RefreshGames` | index.js:87-102 | no-op when not authenticated; while another session plays: no request, refresh time unchanged, status "Farming is paused."; otherwise a `gamesPlayed(SHOULD_PLAY)` request iff more than 60000 ms since the last refresh, which then sets lastGameRefreshTime := now and the status "Farming..."; a throttled call changes and prints nothing; only the refresh time and notification change; a line is printed exactly when the notification changes |
| `Session.RefreshIdempotent` | index.js:87-102 | a second `refreshGames` at the same moment does nothing |
| `Session.PlayingState` | index.js:114-117 | the flag becomes `blocked`, then `refreshGames` runs; with `blocked` no request is issued; with `blocked` false and the interval passed, farming resumes with one `gamesPlayed` request |
| `Session.LoggedOn` | index.js:119-124 | authenticated becomes true; `setPersona` is always issued first (PERSONA is a number or NaN, never `undefined`, see index.js:14); then `refreshGames` runs on the authenticated state; farming starts at once (persona, then one `gamesPlayed` request) unless another session plays or the last refresh was within 60000 ms |
| `Session.Error` | index.js:126-148 | LoggedInElsewhere: authenticated := false, a notice, then `logOn` subject to its guards; RateLimitExceeded: authenticated := false, onlyLogInAfter := now + 1860000, a notice and no request; any other result: the error text on stderr and exit; only a login can ever be issued |
| `Session.PromptText` | index.js:107-109 | the prompt starts with "Enter Steam Guard code", ends with ": ", and has " for email at " + domain in between exactly when the domain is truthy (non-empty) |
| `Session.PromptRecoversDomain` | index.js:107-109 | two prompts that name a domain are equal only for the same domain |
| `Session.SteamGuard` | index.js:104-112 | with a shared secret the handler answers with the generated code and prompts nobody; otherwise it prompts with `PromptText(domain)` |
| `SessionRun.Handle` | index.js:114-148 | after exit no event changes anything; a `gamesPlayed` request is never issued while another session plays; the "other session" flag changes only on `playingState`, the login deadline only on a rate-limit error (to now + 1860000), exit only on an unrecognised error, and authentication is gained only on `loggedOn` |
| `SessionRun.LoginKeepsRequestsInv` | index.js:66-79 | a login more than 60000 ms after the recorded last one, recorded as the new last one, keeps every pair of logins more than 60000 ms apart |
| `SessionRun.RefreshKeepsRequestsInv` | index.js:93-96 | the same for `gamesPlayed` requests and the last refresh time |
| `SessionRun.RunKeepsInv` | index.js:64-148 | every run of handlers keeps the invariant: recorded times bound earlier requests, logins and games-played requests are spaced, the status lines have no adjacent repeats, and the last one is the current notification |
| `SessionRun.ProgramSafety` | index.js:150 | for the program (start-up login, then any events): any two logins are more than 60000 ms apart, any two `gamesPlayed` requests are more than 60000 ms apart, no status line is printed twice in a row, and the last status line printed is the current notification |
| `SessionRun.ExitIsFinal` | index.js:82-85 | once exited, any sequence of events issues nothing, prints nothing and changes nothing |
| `SessionRun.FatalErrorStops` | index.js:144-146 | an unrecognised error followed by any events: the process is exited, no request at all is issued, and the only line is the error text |
| `SessionRun.DeadlineHolds` | index.js:67 | while every event's time plus 1860000 reaches the deadline `d`, no login before `d` is issued and the deadline stays at least `d` |
| `SessionRun.NoLoginDuringCooldown` | index.js:136-142 | after a rate-limit error at time t, and with no later event timed before t, no login is issued before t + 1860000 |
| `SessionRun.IdleThenLogin` | index.js:64-80 | on a logged-out controller, refresh ticks, playing-state changes and login ticks that fail the interval or deadline guard issue and print nothing and change at most the "other session" flag; the first login tick that clears both guards then issues the one login request and prints "Logging in..." |
| `SessionRun.RetryAfterCooldown` | index.js:136-142 | a rate-limit error at t, then any refresh ticks, playing-state changes and blocked login ticks, then a login tick at or after t + 1860000 that clears the interval guard: the run issues exactly that one login and prints the rate-limit notice and "Logging in..." |
| `SessionRun.ReloginAfterDisplacement` | index.js:128-134 | displacement by another session, then any idle events, then the first login tick that clears the interval and deadline guards: the run issues what the immediate retry issued followed by that login, with no operator action, and the controller is still not authenticated |
| `SessionRun.DedupExample` | index.js:98-101 | the status sequence Farming, Farming, Paused, Paused, Farming prints exactly three status lines: Farming, Paused, Farming |
| `Farmer.Controller.constructor` | index.js:54-62 | the variables start at their initial values (timestamps 0, no notification), then the `logOn()` of index.js:150 runs; `Valid()` holds |
| `Farmer.Controller.LogOn` | index.js:64-80 | new fields and logs are `Session.LogOn` of the old ones; keeps `Valid()` |
| `Farmer.Controller.Panic` | index.js:82-85 | new fields and logs are `Session.Panic` of the old ones; keeps `Valid()` |
| `Farmer.Controller.RefreshGames` | index.js:87-102 | new fields and logs are `Session.RefreshGames` of the old ones; keeps `Valid()` |
| `Farmer.Controller.OnPlayingState` | index.js:114-117 | new fields and logs are `Session.PlayingState` of the old ones; keeps `Valid()` |
| `Farmer.Controller.OnLoggedOn` | index.js:119-124 | new fields and logs are `Session.LoggedOn` of the old ones; keeps `Valid()` |
| `Farmer.Controller.OnError` | index.js:126-148 | new fields and logs are `Session.Error` of the old ones; keeps `Valid()` |
| `Farmer.Controller.OnLoggedInElsewhere` | index.js:128-134 | the displacement case of `Session.Error`; keeps `Valid()` |
| `Farmer.Controller.OnRateLimitExceeded` | index.js:136-142 | the rate-limit case of `Session.Error`; keeps `Valid()` |

## Left out

- The steam-user client (index.js:48-52) is a foreign library. Its operations are recorded as `Request` entries, and its events are method calls or `Event` values.
- The options `logOn` always sends (machine name, client OS, `autoRelogin`) are constants. They are not recorded on `LogOnRequest`. With `autoRelogin: true` (index.js:77) steam-user logs in again by itself after a disconnect; those logins never pass through `logOn`, so `LoginsSpaced` and `SessionRun.ProgramSafety` speak only of the logins the controller itself issues.
- steam-totp code generation (index.js:46, index.js:75) depends on the clock and on crypto. The code is the parameter `code`.
- The readline prompt and the `await` in `steamGuard` (index.js:38-44, index.js:106) are console I/O. Only the choice between answering and prompting, and the prompt text, are modelled.
- dotenv, environment reading and the `shouldExist` checks (index.js:11-27) are configuration plumbing. `Config` holds the values they produce.
- `parseInt` on GAMES and PERSONA (index.js:14, index.js:29-34) is a JavaScript built-in. `Config.shouldPlay` (a list of `AppId`/`Title`) and `Config.persona` (a number or NaN) are given values.
- The start-up notices at index.js:9 and index.js:35-36 are output outside the controller.
- `setInterval` (index.js:151-152) is a scheduler. Each timer tick is a call of `LogOn` or `RefreshGames` with its own `now`; `LOG_ON_INTERVAL` and `REFRESH_GAMES_INTERVAL` are declared but play no part in the proofs.
- `process.exit` is modelled as the `exited` flag: once it is set, every handler is a no-op, standing for a process that runs no more handlers.
- The default message "Exiting..." of `panic` is never used by the core, because the only caller passes a message.
- The `app` argument of the `playingState` event is ignored, as in the source.
- The program calls `Date.now()` several times inside one handler (index.js:66, 67, 79 and 93, 96). The model reads one `now` per handler run, so it assumes a handler takes no time.
- SessionRun.NoLoginDuringCooldown: assumes no later event is timed before the rate-limit error. A clock that runs backwards could lower the deadline through a second rate-limit error.
