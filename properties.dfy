/**
 * Whole-run properties of the session controller. A run is the sequence of
 * events the program receives: timer ticks and Steam client events, each with
 * the time at which its handler runs. Handlers run to completion one at a time.
 */
module SessionRun {
  import opened Wrappers
  import opened Session

  /** One handler invocation. `code` is the two-factor code valid at that time. */
  datatype Event =
    | LogOnTick(now: int, code: string)
    | RefreshTick(now: int)
    | PlayingStateChanged(now: int, blocked: bool)
    | LoggedOnEvent(now: int, steamId: string)
    | ErrorEvent(now: int, result: EResult, message: string, code: string)

  /** Dispatch an event to its handler. */
  function Handle(c: Config, s: State, e: Event): (r: Step)
    ensures s.exited ==> r == Unchanged(s)
    // another session's play is never contended with
    ensures forall i :: 0 <= i < |r.issued| && r.issued[i].GamesPlayedRequest? ==> !r.state.playingOnOtherSession
    // each field changes only through the handlers that own it
    ensures r.state.playingOnOtherSession != s.playingOnOtherSession ==> e.PlayingStateChanged?
    ensures r.state.onlyLogInAfter != s.onlyLogInAfter ==>
      e.ErrorEvent? && e.result.RateLimitExceeded? && r.state.onlyLogInAfter == e.now + RATE_LIMIT_COOLDOWN
    ensures r.state.exited != s.exited ==> e.ErrorEvent? && e.result.OtherResult?
    ensures !s.authenticated && r.state.authenticated ==> e.LoggedOnEvent?
  {
    match e
    case LogOnTick(now, code) => LogOn(c, s, now, code)
    case RefreshTick(now) => RefreshGames(c, s, now)
    case PlayingStateChanged(now, blocked) => PlayingState(c, s, blocked, now)
    case LoggedOnEvent(now, steamId) => LoggedOn(c, s, now, steamId)
    case ErrorEvent(now, result, message, code) => Error(c, s, result, message, now, code)
  }

  /** Run the handlers of `events` in order from state `s`, collecting requests and lines. */
  function Run(c: Config, s: State, events: seq<Event>): Step
    decreases |events|
  {
    if events == [] then Unchanged(s)
    else
      var t := Handle(c, s, events[0]);
      var rest := Run(c, t.state, events[1..]);
      Step(rest.state, t.issued + rest.issued, t.printed + rest.printed)
  }

  /** The program: start-up followed by the `logOn()` call of its last lines, then the events. */
  function Program(c: Config, startedAt: int, code: string, events: seq<Event>): Step {
    Run(c, Initial, [LogOnTick(startedAt, code)] + events)
  }

  /** Any two login requests are more than MIN_REQUEST_TIME apart. */
  predicate LoginsSpaced(log: seq<Request>) {
    forall i, j :: 0 <= i < j < |log| && log[i].LogOnRequest? && log[j].LogOnRequest? ==>
      log[j].at > log[i].at + MIN_REQUEST_TIME
  }

  /** Any two games-played requests are more than MIN_REQUEST_TIME apart. */
  predicate RefreshesSpaced(log: seq<Request>) {
    forall i, j :: 0 <= i < j < |log| && log[i].GamesPlayedRequest? && log[j].GamesPlayedRequest? ==>
      log[j].at > log[i].at + MIN_REQUEST_TIME
  }

  /** The status lines among the printed lines, in order. */
  function StatusLines(printed: seq<Line>): seq<string>
    decreases |printed|
  {
    if printed == [] then []
    else
      var last := printed[|printed| - 1];
      StatusLines(printed[..|printed| - 1]) + (if last.Status? then [last.text] else [])
  }

  function LastOf(xs: seq<string>): Option<string> {
    if xs == [] then None else Some(xs[|xs| - 1])
  }

  predicate NoAdjacentRepeats(xs: seq<string>) {
    forall i :: 0 < i < |xs| ==> xs[i - 1] != xs[i]
  }

  /** The status lines never repeat, and the last one is the current notification. */
  predicate StatusDeduped(s: State, printed: seq<Line>) {
    NoAdjacentRepeats(StatusLines(printed)) && s.currentNotification == LastOf(StatusLines(printed))
  }

  /** Every login in `log` happened no later than `t`. */
  predicate LoginsBoundedBy(log: seq<Request>, t: int) {
    forall i :: 0 <= i < |log| && log[i].LogOnRequest? ==> log[i].at <= t
  }

  /** Every games-played request in `log` happened no later than `t`. */
  predicate RefreshesBoundedBy(log: seq<Request>, t: int) {
    forall i :: 0 <= i < |log| && log[i].GamesPlayedRequest? ==> log[i].at <= t
  }

  /**
   * What holds of the requests issued so far: the recorded times bound every
   * earlier request of their kind, and requests of a kind are spaced.
   */
  predicate RequestsInv(s: State, log: seq<Request>) {
    && LoginsBoundedBy(log, s.lastLogOnTime)
    && RefreshesBoundedBy(log, s.lastGameRefreshTime)
    && LoginsSpaced(log)
    && RefreshesSpaced(log)
  }

  /** What holds of the state after any run, with the requests and lines it produced. */
  predicate Inv(s: State, log: seq<Request>, printed: seq<Line>) {
    RequestsInv(s, log) && StatusDeduped(s, printed)
  }

  /** A state change that keeps both recorded times keeps the request invariant. */
  lemma SameTimesKeepRequestsInv(s: State, s': State, log: seq<Request>)
    requires RequestsInv(s, log)
    requires s'.lastLogOnTime == s.lastLogOnTime && s'.lastGameRefreshTime == s.lastGameRefreshTime
    ensures RequestsInv(s', log)
  {
  }

  /** A login far enough after the last one, recorded as the last one, keeps the invariant. */
  lemma LoginKeepsRequestsInv(s: State, log: seq<Request>, req: Request)
    requires RequestsInv(s, log)
    requires req.LogOnRequest? && req.at - s.lastLogOnTime > MIN_REQUEST_TIME
    ensures RequestsInv(s.(lastLogOnTime := req.at), log + [req])
  {
    var log' := log + [req];
    forall i, j | 0 <= i < j < |log'| && log'[i].LogOnRequest? && log'[j].LogOnRequest?
      ensures log'[j].at > log'[i].at + MIN_REQUEST_TIME
    {
      if j == |log| {
        assert log'[i] == log[i];
      }
    }
  }

  /** A refresh far enough after the last one, recorded as the last one, keeps the invariant. */
  lemma RefreshKeepsRequestsInv(s: State, log: seq<Request>, req: Request)
    requires RequestsInv(s, log)
    requires req.GamesPlayedRequest? && req.at - s.lastGameRefreshTime > MIN_REQUEST_TIME
    ensures RequestsInv(s.(lastGameRefreshTime := req.at), log + [req])
  {
    var log' := log + [req];
    forall i, j | 0 <= i < j < |log'| && log'[i].GamesPlayedRequest? && log'[j].GamesPlayedRequest?
      ensures log'[j].at > log'[i].at + MIN_REQUEST_TIME
    {
      if j == |log| {
        assert log'[i] == log[i];
      }
    }
  }

  /** A `setPersona` request keeps the invariant. */
  lemma PersonaKeepsRequestsInv(s: State, log: seq<Request>, req: Request)
    requires RequestsInv(s, log) && req.SetPersonaRequest?
    ensures RequestsInv(s, log + [req])
  {
    var log' := log + [req];
    assert forall i :: 0 <= i < |log| ==> log'[i] == log[i];
  }

  lemma {:induction false} StatusLinesAppend(a: seq<Line>, b: seq<Line>)
    ensures StatusLines(a + b) == StatusLines(a) + StatusLines(b)
    decreases |b|
  {
    if b == [] {
      assert a + b == a;
    } else {
      var b' := b[..|b| - 1];
      assert (a + b)[..|a + b| - 1] == a + b';
      StatusLinesAppend(a, b');
    }
  }

  /** How a handler may change the status: not at all, or by printing the new notification. */
  predicate StatusStep(s: State, s': State, p: seq<Line>) {
    || (StatusLines(p) == [] && s'.currentNotification == s.currentNotification)
    || (&& s'.currentNotification.Some?
        && s'.currentNotification != s.currentNotification
        && StatusLines(p) == [s'.currentNotification.value])
  }

  lemma StatusStepKeepsDedup(s: State, s': State, printed: seq<Line>, p: seq<Line>)
    requires StatusDeduped(s, printed) && StatusStep(s, s', p)
    ensures StatusDeduped(s', printed + p)
  {
    StatusLinesAppend(printed, p);
  }

  lemma StatusOfNotices(p: seq<Line>)
    requires forall i :: 0 <= i < |p| ==> p[i].Notice?
    ensures StatusLines(p) == []
    decreases |p|
  {
    if p != [] {
      StatusOfNotices(p[..|p| - 1]);
    }
  }

  /** A single status line. */
  lemma StatusLinesOne(text: string)
    ensures StatusLines([Status(text)]) == [text]
  {
    assert StatusLines([Status(text)]) == StatusLines([]) + [text];
  }

  /** Printing a notice keeps the dedup invariant, whatever else of the state changes. */
  lemma NoticeKeepsDedup(s: State, s': State, printed: seq<Line>, text: string)
    requires StatusDeduped(s, printed) && s'.currentNotification == s.currentNotification
    ensures StatusDeduped(s', printed + [Notice(text)])
  {
    StatusOfNotices([Notice(text)]);
    StatusStepKeepsDedup(s, s', printed, [Notice(text)]);
  }

  /** Printing a notice keeps the invariant when the recorded times do not change. */
  lemma NoticeKeepsInv(s: State, s': State, log: seq<Request>, printed: seq<Line>, text: string)
    requires Inv(s, log, printed)
    requires s'.lastLogOnTime == s.lastLogOnTime && s'.lastGameRefreshTime == s.lastGameRefreshTime
    requires s'.currentNotification == s.currentNotification
    ensures Inv(s', log, printed + [Notice(text)])
  {
    SameTimesKeepRequestsInv(s, s', log);
    NoticeKeepsDedup(s, s', printed, text);
  }

  /** Issuing `setPersona` keeps the invariant. */
  lemma PersonaKeepsInv(s: State, log: seq<Request>, printed: seq<Line>, now: int, persona: Persona)
    requires Inv(s, log, printed)
    ensures Inv(s, log + [SetPersonaRequest(now, persona)], printed)
  {
    PersonaKeepsRequestsInv(s, log, SetPersonaRequest(now, persona));
  }

  lemma LogOnKeepsInv(c: Config, s: State, log: seq<Request>, printed: seq<Line>, now: int, code: string)
    requires Inv(s, log, printed)
    ensures var r := LogOn(c, s, now, code); Inv(r.state, log + r.issued, printed + r.printed)
  {
    var r := LogOn(c, s, now, code);
    if r.issued == [] {
      assert log + [] == log && printed + [] == printed;  // proof helper: appending nothing
    } else {
      var req := LogOnRequest(now, c.accountName, c.password, TwoFactorCode(c, code));
      assert r == Step(s.(lastLogOnTime := now), [req], [Notice(LOGGING_IN)]);
      LoginKeepsRequestsInv(s, log, req);
      NoticeKeepsDedup(s, r.state, printed, LOGGING_IN);
    }
  }

  lemma RefreshKeepsInv(c: Config, s: State, log: seq<Request>, printed: seq<Line>, now: int)
    requires Inv(s, log, printed)
    ensures var r := RefreshGames(c, s, now); Inv(r.state, log + r.issued, printed + r.printed)
  {
    var r := RefreshGames(c, s, now);
    if r.issued == [] {
      SameTimesKeepRequestsInv(s, r.state, log);
    } else {
      var req := GamesPlayedRequest(now, c.shouldPlay);
      assert r.issued == [req];
      RefreshKeepsRequestsInv(s, log, req);
      SameTimesKeepRequestsInv(s.(lastGameRefreshTime := now), r.state, log + [req]);
    }
    if r.printed == [] {
      assert printed + [] == printed;  // proof helper: appending nothing
    } else {
      StatusLinesOne(r.state.currentNotification.value);
      StatusStepKeepsDedup(s, r.state, printed, r.printed);
    }
  }

  /** `panic` keeps the invariant. */
  lemma PanicKeepsInv(s: State, log: seq<Request>, printed: seq<Line>, message: string)
    requires Inv(s, log, printed)
    ensures var r := Panic(s, message); Inv(r.state, log + r.issued, printed + r.printed)
  {
    var r := Panic(s, message);
    SameTimesKeepRequestsInv(s, r.state, log);
    assert StatusLines(r.printed) == [] by {
      assert r.printed == [] + [Fatal(message)];
    }
    StatusStepKeepsDedup(s, r.state, printed, r.printed);
  }

  lemma LoggedOnKeepsInv(c: Config, s: State, log: seq<Request>, printed: seq<Line>, now: int, steamId: string)
    requires Inv(s, log, printed)
    ensures var r := LoggedOn(c, s, now, steamId); Inv(r.state, log + r.issued, printed + r.printed)
  {
    if s.exited {
      assert log + [] == log && printed + [] == printed;  // proof helper: appending nothing
    } else {
      var s1 := s.(authenticated := true);
      var rf := RefreshGames(c, s1, now);
      var persona := SetPersonaRequest(now, c.persona);
      var notice := Notice(LoggedInText(steamId));
      assert LoggedOn(c, s, now, steamId) == Step(rf.state, [persona] + rf.issued, [notice] + rf.printed);
      NoticeKeepsInv(s, s1, log, printed, LoggedInText(steamId));
      PersonaKeepsInv(s1, log, printed + [notice], now, c.persona);
      RefreshKeepsInv(c, s1, log + [persona], printed + [notice], now);
      InvRegroup(rf.state, log, [persona], rf.issued, printed, [notice], rf.printed);
    }
  }

  lemma KickKeepsInv(c: Config, s: State, log: seq<Request>, printed: seq<Line>,
                     message: string, now: int, code: string)
    requires Inv(s, log, printed) && !s.exited
    ensures var r := Error(c, s, LoggedInElsewhere, message, now, code); Inv(r.state, log + r.issued, printed + r.printed)
  {
    var s1 := s.(authenticated := false);
    var lo := LogOn(c, s1, now, code);
    assert Error(c, s, LoggedInElsewhere, message, now, code) == Step(lo.state, lo.issued, [Notice(KICKED)] + lo.printed);
    NoticeKeepsInv(s, s1, log, printed, KICKED);
    LogOnKeepsInv(c, s1, log, printed + [Notice(KICKED)], now, code);
    InvRegroup(lo.state, log, [], lo.issued, printed, [Notice(KICKED)], lo.printed);
  }

  lemma RateLimitKeepsInv(c: Config, s: State, log: seq<Request>, printed: seq<Line>,
                          message: string, now: int, code: string)
    requires Inv(s, log, printed) && !s.exited
    ensures var r := Error(c, s, RateLimitExceeded, message, now, code); Inv(r.state, log + r.issued, printed + r.printed)
  {
    var s1 := s.(authenticated := false, onlyLogInAfter := now + RATE_LIMIT_COOLDOWN);
    assert Error(c, s, RateLimitExceeded, message, now, code) == Step(s1, [], [Notice(RATE_LIMITED)]);
    NoticeKeepsInv(s, s1, log, printed, RATE_LIMITED);
  }

  lemma ErrorKeepsInv(c: Config, s: State, log: seq<Request>, printed: seq<Line>,
                      result: EResult, message: string, now: int, code: string)
    requires Inv(s, log, printed)
    ensures var r := Error(c, s, result, message, now, code); Inv(r.state, log + r.issued, printed + r.printed)
  {
    if s.exited {
      assert log + [] == log && printed + [] == printed;  // proof helper: appending nothing
    } else if result.LoggedInElsewhere? {
      KickKeepsInv(c, s, log, printed, message, now, code);
    } else if result.RateLimitExceeded? {
      RateLimitKeepsInv(c, s, log, printed, message, now, code);
    } else {
      assert Error(c, s, result, message, now, code) == Panic(s, ErrorText(message));
      PanicKeepsInv(s, log, printed, ErrorText(message));
    }
  }

  lemma HandleKeepsInv(c: Config, s: State, log: seq<Request>, printed: seq<Line>, e: Event)
    requires Inv(s, log, printed)
    ensures var r := Handle(c, s, e); Inv(r.state, log + r.issued, printed + r.printed)
  {
    match e
    case LogOnTick(now, code) => LogOnKeepsInv(c, s, log, printed, now, code);
    case RefreshTick(now) => RefreshKeepsInv(c, s, log, printed, now);
    case PlayingStateChanged(now, blocked) =>
      if s.exited {
        assert log + [] == log && printed + [] == printed;  // proof helper: appending nothing
      } else {
        SameTimesKeepRequestsInv(s, s.(playingOnOtherSession := blocked), log);
        RefreshKeepsInv(c, s.(playingOnOtherSession := blocked), log, printed, now);
      }
    case LoggedOnEvent(now, steamId) => LoggedOnKeepsInv(c, s, log, printed, now, steamId);
    case ErrorEvent(now, result, message, code) => ErrorKeepsInv(c, s, log, printed, result, message, now, code);
  }

  /** The program starts in a state that satisfies the invariant. */
  lemma InitialInv()
    ensures Inv(Initial, [], [])
  {
    assert StatusLines([]) == [];
  }

  /** Proof helper: the invariant does not depend on how the appended logs are grouped. */
  lemma InvRegroup(s: State, log: seq<Request>, issued: seq<Request>, more: seq<Request>,
                   printed: seq<Line>, lines: seq<Line>, moreLines: seq<Line>)
    requires Inv(s, log + issued + more, printed + lines + moreLines)
    ensures Inv(s, log + (issued + more), printed + (lines + moreLines))
  {
    assert log + issued + more == log + (issued + more);
    assert printed + lines + moreLines == printed + (lines + moreLines);
  }

  lemma {:induction false} RunKeepsInv(c: Config, s: State, log: seq<Request>, printed: seq<Line>, events: seq<Event>)
    requires Inv(s, log, printed)
    ensures var r := Run(c, s, events); Inv(r.state, log + r.issued, printed + r.printed)
    decreases |events|
  {
    if events == [] {
      assert log + [] == log && printed + [] == printed;  // proof helper: appending nothing
    } else {
      var t := Handle(c, s, events[0]);
      var rest := Run(c, t.state, events[1..]);
      var r := Run(c, s, events);
      assert r == Step(rest.state, t.issued + rest.issued, t.printed + rest.printed);
      HandleKeepsInv(c, s, log, printed, events[0]);
      RunKeepsInv(c, t.state, log + t.issued, printed + t.printed, events[1..]);
      InvRegroup(rest.state, log, t.issued, rest.issued, printed, t.printed, rest.printed);
    }
  }

  /**
   * Over every run of the program: logins are more than MIN_REQUEST_TIME
   * apart, so are games-played requests, and no status line is printed
   * twice in a row.
   */
  lemma ProgramSafety(c: Config, startedAt: int, code: string, events: seq<Event>)
    ensures var r := Program(c, startedAt, code, events);
      && LoginsSpaced(r.issued)
      && RefreshesSpaced(r.issued)
      && NoAdjacentRepeats(StatusLines(r.printed))
      && r.state.currentNotification == LastOf(StatusLines(r.printed))
  {
    InitialInv();
    RunKeepsInv(c, Initial, [], [], [LogOnTick(startedAt, code)] + events);
    var r := Program(c, startedAt, code, events);
    assert [] + r.issued == r.issued && [] + r.printed == r.printed;
  }

  /** Once the process has exited, no event causes a request, a line or a change. */
  lemma {:induction false} ExitIsFinal(c: Config, s: State, events: seq<Event>)
    requires s.exited
    ensures Run(c, s, events) == Unchanged(s)
    decreases |events|
  {
    if events != [] {
      ExitIsFinal(c, s, events[1..]);
    }
  }

  /** An unrecognised error ends the program: nothing at all happens afterwards. */
  lemma FatalErrorStops(c: Config, s: State, t: int, code: int, message: string, tcode: string, events: seq<Event>)
    requires !s.exited
    ensures var r := Run(c, s, [ErrorEvent(t, OtherResult(code), message, tcode)] + events);
      && r.state.exited
      && r.issued == []
      && r.printed == [Fatal(ErrorText(message))]
  {
    var all := [ErrorEvent(t, OtherResult(code), message, tcode)] + events;
    assert all[0] == ErrorEvent(t, OtherResult(code), message, tcode) && all[1..] == events;
    var s1 := Error(c, s, OtherResult(code), message, t, tcode).state;
    ExitIsFinal(c, s1, events);
  }

  /** Logins in `log` happen no earlier than `d`. */
  predicate NoLoginBefore(log: seq<Request>, d: int) {
    forall i :: 0 <= i < |log| && log[i].LogOnRequest? ==> log[i].at >= d
  }

  lemma {:induction false} DeadlineHolds(c: Config, s: State, events: seq<Event>, d: int)
    requires s.exited || s.onlyLogInAfter >= d
    requires forall i :: 0 <= i < |events| ==> events[i].now + RATE_LIMIT_COOLDOWN >= d
    ensures var r := Run(c, s, events); NoLoginBefore(r.issued, d) && (r.state.exited || r.state.onlyLogInAfter >= d)
    decreases |events|
  {
    if events != [] {
      var t := Handle(c, s, events[0]);
      assert NoLoginBefore(t.issued, d);
      DeadlineHolds(c, t.state, events[1..], d);
    }
  }

  /**
   * After a rate-limit error at time `t`, and as long as the clock does not
   * go back before `t`, no login is issued before `t + RATE_LIMIT_COOLDOWN`.
   */
  lemma NoLoginDuringCooldown(c: Config, s: State, t: int, message: string, code: string, events: seq<Event>)
    requires forall i :: 0 <= i < |events| ==> events[i].now >= t
    ensures NoLoginBefore(Run(c, s, [ErrorEvent(t, RateLimitExceeded, message, code)] + events).issued,
                          t + RATE_LIMIT_COOLDOWN)
  {
    var all := [ErrorEvent(t, RateLimitExceeded, message, code)] + events;
    assert all[0] == ErrorEvent(t, RateLimitExceeded, message, code) && all[1..] == events;
    DeadlineHolds(c, Error(c, s, RateLimitExceeded, message, t, code).state, events, t + RATE_LIMIT_COOLDOWN);
  }

  /**
   * An event that cannot log in a logged-out controller whose last login was
   * at `last` and whose login deadline is `d`: a refresh tick, a playing-state
   * change, or a login tick that fails the interval or the deadline guard.
   */
  predicate Idle(e: Event, last: int, d: int) {
    || e.RefreshTick?
    || e.PlayingStateChanged?
    || (e.LogOnTick? && (e.now - last <= MIN_REQUEST_TIME || e.now < d))
  }

  /**
   * A logged-out controller stays quiet through idle events (at most the
   * "other session" flag changes), and the first login tick that clears both
   * guards then logs in.
   */
  lemma {:induction false} IdleThenLogin(c: Config, s: State, idle: seq<Event>, now: int, code: string)
    requires !s.exited && !s.authenticated
    requires forall i :: 0 <= i < |idle| ==> Idle(idle[i], s.lastLogOnTime, s.onlyLogInAfter)
    requires now - s.lastLogOnTime > MIN_REQUEST_TIME && now >= s.onlyLogInAfter
    ensures var r := Run(c, s, idle + [LogOnTick(now, code)]);
      && r.issued == [LogOnRequest(now, c.accountName, c.password, TwoFactorCode(c, code))]
      && r.printed == [Notice(LOGGING_IN)]
      && r.state == s.(playingOnOtherSession := r.state.playingOnOtherSession, lastLogOnTime := now)
    decreases |idle|
  {
    var all := idle + [LogOnTick(now, code)];
    if idle == [] {
      assert all[0] == LogOnTick(now, code) && all[1..] == [];
    } else {
      assert all[0] == idle[0] && all[1..] == idle[1..] + [LogOnTick(now, code)];
      var t := Handle(c, s, idle[0]);
      assert t.issued == [] && t.printed == [] && t.state == s.(playingOnOtherSession := t.state.playingOnOtherSession);
      IdleThenLogin(c, t.state, idle[1..], now, code);
    }
  }

  /**
   * After a rate-limit error at time `t`, whatever refresh ticks,
   * playing-state changes and blocked login ticks follow, the first login
   * tick at or after `t + RATE_LIMIT_COOLDOWN` that clears the interval
   * guard logs in again, and it is the only request of the whole run.
   */
  lemma RetryAfterCooldown(c: Config, s: State, t: int, message: string, ecode: string,
                           idle: seq<Event>, now: int, code: string)
    requires !s.exited
    requires forall i :: 0 <= i < |idle| ==> Idle(idle[i], s.lastLogOnTime, t + RATE_LIMIT_COOLDOWN)
    requires now >= t + RATE_LIMIT_COOLDOWN && now - s.lastLogOnTime > MIN_REQUEST_TIME
    ensures var r := Run(c, s, [ErrorEvent(t, RateLimitExceeded, message, ecode)] + idle + [LogOnTick(now, code)]);
      && r.issued == [LogOnRequest(now, c.accountName, c.password, TwoFactorCode(c, code))]
      && r.printed == [Notice(RATE_LIMITED), Notice(LOGGING_IN)]
      && !r.state.authenticated && r.state.lastLogOnTime == now
      && r.state.onlyLogInAfter == t + RATE_LIMIT_COOLDOWN
  {
    var e := ErrorEvent(t, RateLimitExceeded, message, ecode);
    var rest := idle + [LogOnTick(now, code)];
    assert [e] + idle + [LogOnTick(now, code)] == [e] + rest;
    RunCons(c, s, e, rest);
    IdleThenLogin(c, Handle(c, s, e).state, idle, now, code);
  }

  /**
   * After being displaced by another session at time `t`, whether or not the
   * immediate retry got through, the controller is logged out through any
   * idle events, and the first login tick that clears the interval and
   * deadline guards logs in again with no operator action.
   */
  lemma ReloginAfterDisplacement(c: Config, s: State, t: int, message: string, tcode: string,
                                 idle: seq<Event>, now: int, code: string)
    requires !s.exited
    requires var s1 := Error(c, s, LoggedInElsewhere, message, t, tcode).state;
      forall i :: 0 <= i < |idle| ==> Idle(idle[i], s1.lastLogOnTime, s.onlyLogInAfter)
    requires var s1 := Error(c, s, LoggedInElsewhere, message, t, tcode).state;
      now - s1.lastLogOnTime > MIN_REQUEST_TIME && now >= s.onlyLogInAfter
    ensures var first := Error(c, s, LoggedInElsewhere, message, t, tcode);
      var r := Run(c, s, [ErrorEvent(t, LoggedInElsewhere, message, tcode)] + idle + [LogOnTick(now, code)]);
      && r.issued == first.issued + [LogOnRequest(now, c.accountName, c.password, TwoFactorCode(c, code))]
      && r.printed == first.printed + [Notice(LOGGING_IN)]
      && !r.state.authenticated && r.state.lastLogOnTime == now
  {
    var e := ErrorEvent(t, LoggedInElsewhere, message, tcode);
    var rest := idle + [LogOnTick(now, code)];
    var first := Error(c, s, LoggedInElsewhere, message, t, tcode);
    assert Handle(c, s, e) == first;
    assert !first.state.exited && !first.state.authenticated && first.state.onlyLogInAfter == s.onlyLogInAfter;
    assert [e] + idle + [LogOnTick(now, code)] == [e] + rest;
    RunCons(c, s, e, rest);
    IdleThenLogin(c, first.state, idle, now, code);
  }

  /** Running a non-empty sequence of events: the first handler, then the rest. */
  lemma RunCons(c: Config, s: State, e: Event, rest: seq<Event>)
    ensures var t := Handle(c, s, e); var q := Run(c, t.state, rest);
      Run(c, s, [e] + rest) == Step(q.state, t.issued + q.issued, t.printed + q.printed)
  {
    assert ([e] + rest)[0] == e && ([e] + rest)[1..] == rest;
  }

  /** The states the example run passes through, in order. */
  const ExampleS0 := Initial.(lastLogOnTime := 100_000)
  const ExampleS1 := ExampleS0.(authenticated := true, lastGameRefreshTime := 100_001, currentNotification := Some(FARMING))
  const ExampleS2 := ExampleS1.(lastGameRefreshTime := 200_000)
  const ExampleS3 := ExampleS2.(playingOnOtherSession := true, currentNotification := Some(PAUSED))
  const ExampleS5 := ExampleS3.(playingOnOtherSession := false, lastGameRefreshTime := 300_001, currentNotification := Some(FARMING))

  lemma ExampleFirstSteps(c: Config, code: string, steamId: string)
    ensures Handle(c, Initial, LogOnTick(100_000, code)).state == ExampleS0
    ensures StatusLines(Handle(c, Initial, LogOnTick(100_000, code)).printed) == []
    ensures Handle(c, ExampleS0, LoggedOnEvent(100_001, steamId)).state == ExampleS1
    ensures StatusLines(Handle(c, ExampleS0, LoggedOnEvent(100_001, steamId)).printed) == [FARMING]
  {
    StatusOfNotices([Notice(LOGGING_IN)]);
    var notice := Notice(LoggedInText(steamId));
    assert Handle(c, ExampleS0, LoggedOnEvent(100_001, steamId)).printed == [notice] + [Status(FARMING)];
    StatusLinesAppend([notice], [Status(FARMING)]);
    StatusOfNotices([notice]);
    StatusLinesOne(FARMING);
  }

  lemma ExampleLastSteps(c: Config)
    ensures Handle(c, ExampleS1, RefreshTick(200_000)) == Step(ExampleS2, [GamesPlayedRequest(200_000, c.shouldPlay)], [])
    ensures Handle(c, ExampleS2, PlayingStateChanged(200_001, true)) == Step(ExampleS3, [], [Status(PAUSED)])
    ensures Handle(c, ExampleS3, RefreshTick(300_000)) == Unchanged(ExampleS3)
    ensures Handle(c, ExampleS3, PlayingStateChanged(300_001, false)) ==
      Step(ExampleS5, [GamesPlayedRequest(300_001, c.shouldPlay)], [Status(FARMING)])
  {
  }

  const ExampleTailEvents: seq<Event> :=
    [PlayingStateChanged(200_001, true)] + ([RefreshTick(300_000)] + ([PlayingStateChanged(300_001, false)] + []))

  /** The last three events of the example: Paused (printed), Paused, Farming (printed). */
  lemma ExampleTail(c: Config)
    ensures StatusLines(Run(c, ExampleS2, ExampleTailEvents).printed) == [PAUSED, FARMING]
  {
    var e3, e4, e5 := PlayingStateChanged(200_001, true), RefreshTick(300_000), PlayingStateChanged(300_001, false);
    ExampleLastSteps(c);
    RunCons(c, ExampleS3, e5, []);
    assert Run(c, ExampleS5, []) == Unchanged(ExampleS5);
    var q5 := Run(c, ExampleS3, [e5] + []);
    assert q5.printed == [Status(FARMING)] + [];
    StatusLinesOne(FARMING);
    RunCons(c, ExampleS3, e4, [e5] + []);
    var q4 := Run(c, ExampleS3, [e4] + ([e5] + []));
    assert q4.printed == [] + q5.printed;
    RunCons(c, ExampleS2, e3, [e4] + ([e5] + []));
    var q3 := Run(c, ExampleS2, [e3] + ([e4] + ([e5] + [])));
    assert q3.printed == [Status(PAUSED)] + q4.printed;
    StatusLinesAppend([Status(PAUSED)], q4.printed);
    StatusLinesOne(PAUSED);
  }

  /** The example after the login: Farming (printed), Farming, then the tail. */
  lemma ExampleAfterLogin(c: Config, steamId: string)
    ensures StatusLines(Run(c, ExampleS0, [LoggedOnEvent(100_001, steamId)] + ([RefreshTick(200_000)]
              + ExampleTailEvents)).printed) == [FARMING, PAUSED, FARMING]
  {
    var e1, e2 := LoggedOnEvent(100_001, steamId), RefreshTick(200_000);
    ExampleFirstSteps(c, "", steamId);
    ExampleLastSteps(c);
    ExampleTail(c);
    var q3 := Run(c, ExampleS2, ExampleTailEvents);
    RunCons(c, ExampleS1, e2, ExampleTailEvents);
    var q2 := Run(c, ExampleS1, [e2] + ExampleTailEvents);
    assert q2.printed == [] + q3.printed == q3.printed;
    assert StatusLines(q2.printed) == [PAUSED, FARMING];
    RunCons(c, ExampleS0, e1, [e2] + ExampleTailEvents);
    var r1 := Handle(c, ExampleS0, e1);
    assert Run(c, ExampleS0, [e1] + ([e2] + ExampleTailEvents)).printed == r1.printed + q2.printed;
    StatusLinesAppend(r1.printed, q2.printed);
    assert StatusLines(r1.printed) == [FARMING];
  }

  /**
   * The status sequence Farming, Farming, Paused, Paused, Farming prints
   * exactly three lines.
   */
  lemma DedupExample(c: Config, code: string, steamId: string)
    ensures var events := [
        LoggedOnEvent(100_001, steamId),           // Farming (printed)
        RefreshTick(200_000),                      // Farming (not printed)
        PlayingStateChanged(200_001, true),        // Paused (printed)
        RefreshTick(300_000),                      // Paused (not printed)
        PlayingStateChanged(300_001, false)];      // Farming (printed)
      StatusLines(Program(c, 100_000, code, events).printed) == [FARMING, PAUSED, FARMING]
  {
    var e0 := LogOnTick(100_000, code);
    var rest := [LoggedOnEvent(100_001, steamId)] + ([RefreshTick(200_000)] + ExampleTailEvents);
    assert rest == [LoggedOnEvent(100_001, steamId), RefreshTick(200_000), PlayingStateChanged(200_001, true),
                    RefreshTick(300_000), PlayingStateChanged(300_001, false)];
    ExampleFirstSteps(c, code, steamId);
    ExampleAfterLogin(c, steamId);
    RunCons(c, Initial, e0, rest);
    StatusLinesAppend(Handle(c, Initial, e0).printed, Run(c, ExampleS0, rest).printed);
  }
}
