/**
 * The session controller of steam-hour-farmer as a pure state machine.
 *
 * The program keeps a handful of module-level variables and updates them from
 * timer ticks and from events of the Steam client. Here those variables form a
 * `State` value, and every handler is a function from the old state (and the
 * event's arguments) to a `Step`: the new state, the remote requests the
 * handler issued, and the console lines it printed, in order. `Date.now()` is
 * the parameter `now` (milliseconds); the two-factor code that steam-totp would
 * generate at that moment is the parameter `code`.
 */
module Session {
  import opened Wrappers

  /** Minimum spacing between two login attempts and between two refreshes. */
  const MIN_REQUEST_TIME: int := 60 * 1000
  /** Period of the login timer. */
  const LOG_ON_INTERVAL: int := 10 * 60 * 1000
  /** Period of the refresh timer. */
  const REFRESH_GAMES_INTERVAL: int := 5 * 60 * 1000
  /** How long logins are held back after a rate-limit error. */
  const RATE_LIMIT_COOLDOWN: int := 31 * 60 * 1000

  const FARMING := "Farming..."
  const PAUSED := "Farming is paused."
  const LOGGING_IN := "Logging in..."
  const KICKED := "Got kicked by other Steam session. Will log in shortly..."
  const RATE_LIMITED := "Got rate limited by Steam. Will try logging in again in 30 minutes."
  const PROMPT_HEAD := "Enter Steam Guard code"
  const EMAIL_AT := " for email at "
  const PROMPT_TAIL := ": "

  /** An entry of the games list: a numeric application id or a free-text title. */
  datatype Game = AppId(id: int) | Title(name: string)

  /** The persona after `parseInt`: a number, or NaN; never `undefined`. */
  datatype Persona = PersonaNumber(n: int) | PersonaNaN

  /** Configuration read once at start-up. An empty shared secret means "not set". */
  datatype Config = Config(
    accountName: string,
    password: string,
    sharedSecret: string,
    persona: Persona,
    shouldPlay: seq<Game>)

  /** JavaScript truthiness of the shared-secret string. */
  predicate HasSecret(c: Config) {
    |c.sharedSecret| > 0
  }

  /** The two-factor code a login request carries. */
  function TwoFactorCode(c: Config, code: string): (r: Option<string>)
    ensures r.Some? <==> HasSecret(c)
    ensures r.Some? ==> r.value == code
  {
    if HasSecret(c) then Some(code) else None
  }

  /** A remote call issued through the Steam client, stamped with its time. */
  datatype Request =
    | LogOnRequest(at: int, accountName: string, password: string, twoFactorCode: Option<string>)
    | GamesPlayedRequest(at: int, games: seq<Game>)
    | SetPersonaRequest(at: int, persona: Persona)

  /** A console line: a plain notice, a deduplicated status line, or an error on stderr. */
  datatype Line = Notice(text: string) | Status(text: string) | Fatal(text: string)

  /** The `eresult` of an error event. */
  datatype EResult = LoggedInElsewhere | RateLimitExceeded | OtherResult(code: int)

  /** The module-level variables of the program, plus whether the process has exited. */
  datatype State = State(
    authenticated: bool,
    playingOnOtherSession: bool,
    currentNotification: Option<string>,
    lastLogOnTime: int,
    lastGameRefreshTime: int,
    onlyLogInAfter: int,
    exited: bool)

  /** The values the variables have when the program starts (`new Date(0)` is 0). */
  const Initial := State(false, false, None, 0, 0, 0, false)

  /** The outcome of one handler run. */
  datatype Step = Step(state: State, issued: seq<Request>, printed: seq<Line>)

  /** A handler that returns at once. */
  function Unchanged(s: State): Step {
    Step(s, [], [])
  }

  /**
   * `logOn`: the login guard. A request is issued only when the process is
   * running, the controller is not authenticated, strictly more than
   * MIN_REQUEST_TIME has passed since the last attempt and the rate-limit
   * deadline has been reached; the attempt records its time and nothing else.
   */
  function LogOn(c: Config, s: State, now: int, code: string): (r: Step)
    ensures s.authenticated ==> r == Unchanged(s)
    ensures now - s.lastLogOnTime <= MIN_REQUEST_TIME ==> r == Unchanged(s)
    ensures now < s.onlyLogInAfter ==> r == Unchanged(s)
    ensures r.issued != [] <==>
      !s.exited && !s.authenticated && now - s.lastLogOnTime > MIN_REQUEST_TIME && now >= s.onlyLogInAfter
    ensures r.issued == [] ==> r == Unchanged(s)
    ensures r.issued != [] ==>
      && r.issued == [LogOnRequest(now, c.accountName, c.password, TwoFactorCode(c, code))]
      && r.state == s.(lastLogOnTime := now)
      && r.printed == [Notice(LOGGING_IN)]
  {
    if s.exited || s.authenticated then Unchanged(s)
    else if now - s.lastLogOnTime <= MIN_REQUEST_TIME then Unchanged(s)
    else if now < s.onlyLogInAfter then Unchanged(s)
    else
      Step(s.(lastLogOnTime := now),
           [LogOnRequest(now, c.accountName, c.password, TwoFactorCode(c, code))],
           [Notice(LOGGING_IN)])
  }

  /** Calling `logOn` again at the same moment does nothing. */
  lemma LogOnIdempotent(c: Config, s: State, now: int, code: string, code': string)
    ensures var r := LogOn(c, s, now, code); LogOn(c, r.state, now, code') == Unchanged(r.state)
  {
  }

  /** `panic`: print the message on stderr and end the process. */
  function Panic(s: State, message: string): (r: Step)
    ensures r.state.exited && r.issued == []
    ensures r.state == s.(exited := true)
    ensures r.printed == [Fatal(message)]
  {
    Step(s.(exited := true), [], [Fatal(message)])
  }

  /** The status-line deduplication: print `n` only when it differs from the last one. */
  function Notify(s: State, n: string, issued: seq<Request>): (r: Step)
    ensures r.issued == issued && r.state.currentNotification == Some(n)
    ensures r.state == s.(currentNotification := Some(n))
    ensures r.printed == if s.currentNotification == Some(n) then [] else [Status(n)]
  {
    if s.currentNotification != Some(n) then Step(s.(currentNotification := Some(n)), issued, [Status(n)])
    else Step(s, issued, [])
  }

  /**
   * `refreshGames`: a no-op unless authenticated. While another session is
   * playing it issues nothing and the status is "paused"; otherwise it is
   * throttled by MIN_REQUEST_TIME and, when not throttled, re-asserts the
   * games list, records the time and the status becomes "farming".
   */
  function RefreshGames(c: Config, s: State, now: int): (r: Step)
    ensures !s.authenticated || s.exited ==> r == Unchanged(s)
    ensures r.issued != [] <==>
      !s.exited && s.authenticated && !s.playingOnOtherSession && now - s.lastGameRefreshTime > MIN_REQUEST_TIME
    ensures r.issued != [] ==>
      r.issued == [GamesPlayedRequest(now, c.shouldPlay)] && r.state.lastGameRefreshTime == now
    ensures r.issued == [] ==> r.state.lastGameRefreshTime == s.lastGameRefreshTime
    ensures s.playingOnOtherSession ==> r.issued == [] && r.state.lastGameRefreshTime == s.lastGameRefreshTime
    ensures !s.exited && s.authenticated && s.playingOnOtherSession ==> r.state.currentNotification == Some(PAUSED)
    ensures !s.playingOnOtherSession && now - s.lastGameRefreshTime <= MIN_REQUEST_TIME ==> r == Unchanged(s)
    ensures r.issued != [] ==> r.state.currentNotification == Some(FARMING)
    // only the refresh time and the notification can change
    ensures r.state == s.(lastGameRefreshTime := r.state.lastGameRefreshTime,
                          currentNotification := r.state.currentNotification)
    // a line is printed exactly when the notification changes, and it is the new notification
    ensures r.printed == [] <==> r.state.currentNotification == s.currentNotification
    ensures r.printed != [] ==>
      r.state.currentNotification.Some? && r.printed == [Status(r.state.currentNotification.value)]
  {
    if s.exited || !s.authenticated then Unchanged(s)
    else if s.playingOnOtherSession then Notify(s, PAUSED, [])
    else if now - s.lastGameRefreshTime <= MIN_REQUEST_TIME then Unchanged(s)
    else Notify(s.(lastGameRefreshTime := now), FARMING, [GamesPlayedRequest(now, c.shouldPlay)])
  }

  /** Calling `refreshGames` again at the same moment does nothing. */
  lemma RefreshIdempotent(c: Config, s: State, now: int)
    ensures var r := RefreshGames(c, s, now); RefreshGames(c, r.state, now) == Unchanged(r.state)
  {
  }

  /** The `playingState` handler: record whether another session plays, then refresh. */
  function PlayingState(c: Config, s: State, blocked: bool, now: int): (r: Step)
    ensures s.exited ==> r == Unchanged(s)
    ensures !s.exited ==> r.state.playingOnOtherSession == blocked
    ensures !s.exited ==> r == RefreshGames(c, s.(playingOnOtherSession := blocked), now)
    ensures blocked ==> r.issued == []
    ensures !blocked && !s.exited && s.authenticated && now - s.lastGameRefreshTime > MIN_REQUEST_TIME ==>
      r.issued == [GamesPlayedRequest(now, c.shouldPlay)]
  {
    if s.exited then Unchanged(s)
    else RefreshGames(c, s.(playingOnOtherSession := blocked), now)
  }

  /** The line printed on a successful login; the Steam id comes from the client. */
  function LoggedInText(steamId: string): string {
    "Successfully logged in to Steam with ID " + steamId
  }

  /**
   * The `loggedOn` handler: become authenticated, always set the persona
   * (it is a number or NaN, never `undefined`), then refresh.
   */
  function LoggedOn(c: Config, s: State, now: int, steamId: string): (r: Step)
    ensures s.exited ==> r == Unchanged(s)
    ensures !s.exited ==> r.state.authenticated
    ensures !s.exited ==> |r.issued| >= 1 && r.issued[0] == SetPersonaRequest(now, c.persona)
    ensures !s.exited ==>
      var rf := RefreshGames(c, s.(authenticated := true), now);
      r.state == rf.state && r.issued[1..] == rf.issued && r.printed == [Notice(LoggedInText(steamId))] + rf.printed
    ensures !s.exited && !s.playingOnOtherSession && now - s.lastGameRefreshTime > MIN_REQUEST_TIME ==>
      r.issued == [SetPersonaRequest(now, c.persona), GamesPlayedRequest(now, c.shouldPlay)]
    ensures !s.exited && s.playingOnOtherSession ==>
      r.issued == [SetPersonaRequest(now, c.persona)] && r.state.currentNotification == Some(PAUSED)
  {
    if s.exited then Unchanged(s)
    else
      var rf := RefreshGames(c, s.(authenticated := true), now);
      Step(rf.state, [SetPersonaRequest(now, c.persona)] + rf.issued, [Notice(LoggedInText(steamId))] + rf.printed)
  }

  /** The diagnostic printed for an unrecognised error. */
  function ErrorText(message: string): string {
    "Got an error from Steam: \"" + message + "\"."
  }

  /**
   * The `error` handler. Displacement by another session clears the
   * authentication and tries to log in again at once (still guarded);
   * rate limiting clears the authentication and sets the login deadline
   * RATE_LIMIT_COOLDOWN ahead without retrying; anything else is fatal.
   */
  function Error(c: Config, s: State, result: EResult, message: string, now: int, code: string): (r: Step)
    ensures s.exited ==> r == Unchanged(s)
    ensures !s.exited && result.LoggedInElsewhere? ==>
      var lo := LogOn(c, s.(authenticated := false), now, code);
      && !r.state.authenticated
      && r.state == lo.state && r.issued == lo.issued && r.printed == [Notice(KICKED)] + lo.printed
    ensures !s.exited && result.RateLimitExceeded? ==>
      && r.state == s.(authenticated := false, onlyLogInAfter := now + RATE_LIMIT_COOLDOWN)
      && r.issued == [] && r.printed == [Notice(RATE_LIMITED)]
    ensures !s.exited && result.OtherResult? ==>
      r.state == s.(exited := true) && r.issued == [] && r.printed == [Fatal(ErrorText(message))]
    // only a login can be issued by this handler
    ensures forall i :: 0 <= i < |r.issued| ==> r.issued[i].LogOnRequest?
  {
    if s.exited then Unchanged(s)
    else
      match result
      case LoggedInElsewhere =>
        var lo := LogOn(c, s.(authenticated := false), now, code);
        Step(lo.state, lo.issued, [Notice(KICKED)] + lo.printed)
      case RateLimitExceeded =>
        Step(s.(authenticated := false, onlyLogInAfter := now + RATE_LIMIT_COOLDOWN), [], [Notice(RATE_LIMITED)])
      case OtherResult(_) =>
        Panic(s, ErrorText(message))
  }

  /** JavaScript truthiness of the e-mail domain hint (`null` or a string). */
  predicate DomainTruthy(domain: Option<string>) {
    domain.Some? && |domain.value| > 0
  }

  /** The text of the interactive Steam Guard prompt. */
  function PromptText(domain: Option<string>): (r: string)
    ensures |r| >= |PROMPT_HEAD| + |PROMPT_TAIL|
    ensures r[..|PROMPT_HEAD|] == PROMPT_HEAD && r[|r| - |PROMPT_TAIL|..] == PROMPT_TAIL
    ensures !DomainTruthy(domain) ==> r == PROMPT_HEAD + PROMPT_TAIL
    ensures DomainTruthy(domain) ==> r[|PROMPT_HEAD|..|r| - |PROMPT_TAIL|] == EMAIL_AT + domain.value
  {
    var r := PROMPT_HEAD + (if DomainTruthy(domain) then EMAIL_AT + domain.value else "") + PROMPT_TAIL;
    assert r[..|PROMPT_HEAD|] == PROMPT_HEAD;
    assert r[|r| - |PROMPT_TAIL|..] == PROMPT_TAIL;
    assert r[|PROMPT_HEAD|..|r| - |PROMPT_TAIL|] == if DomainTruthy(domain) then EMAIL_AT + domain.value else "";
    r
  }

  /** Two prompts that mention a domain are equal only for the same domain. */
  lemma PromptRecoversDomain(d1: Option<string>, d2: Option<string>)
    requires DomainTruthy(d1) && DomainTruthy(d2) && PromptText(d1) == PromptText(d2)
    ensures d1 == d2
  {
    var p := PromptText(d1);
    assert EMAIL_AT + d1.value == EMAIL_AT + d2.value;
    assert d1.value == (EMAIL_AT + d1.value)[|EMAIL_AT|..];
    assert d2.value == (EMAIL_AT + d2.value)[|EMAIL_AT|..];
  }

  /** What the `steamGuard` handler does: answer the callback, or ask a human. */
  datatype GuardAction = Respond(code: string) | Prompt(text: string)

  /**
   * The `steamGuard` handler: with a shared secret it answers with the
   * generated code and prompts nobody; otherwise it prompts with PromptText.
   */
  function SteamGuard(c: Config, domain: Option<string>, code: string): (r: GuardAction)
    ensures r.Respond? <==> HasSecret(c)
    ensures r.Respond? ==> r.code == code
    ensures r.Prompt? ==> r.text == PromptText(domain)
  {
    if HasSecret(c) then Respond(code) else Prompt(PromptText(domain))
  }
}
