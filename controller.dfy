/**
 * The session controller as the program has it: module-level variables that
 * the handlers update in place. The variables are the fields of one
 * `Controller`; the remote calls and the console lines are recorded in the
 * ghost logs `requests` and `printed`. Each handler is a method that takes the
 * current time, and its contract ties the new fields and logs to the pure
 * handler of the same name in `Session`, so that every property proved there
 * and in `SessionRun` holds of the object. `Valid()` is the run invariant.
 */
module Farmer {
  import opened Wrappers
  import opened Session
  import SessionRun

  class Controller {
    const config: Config
    var playingOnOtherSession: bool
    var currentNotification: Option<string>
    var authenticated: bool
    var lastGameRefreshTime: int
    var lastLogOnTime: int
    var onlyLogInAfter: int
    /** Set by `panic`; the process runs no handler afterwards. */
    var exited: bool
    /** Every remote call issued so far, in order. */
    ghost var requests: seq<Request>
    /** Every console line printed so far, in order. */
    ghost var printed: seq<Line>

    /** The fields as a `Session.State` value. */
    function Snapshot(): State
      reads this
    {
      State(authenticated, playingOnOtherSession, currentNotification,
            lastLogOnTime, lastGameRefreshTime, onlyLogInAfter, exited)
    }

    ghost predicate Valid()
      reads this
    {
      SessionRun.Inv(Snapshot(), requests, printed)
    }

    /** Program start: the variables get their initial values, then `logOn()` runs once. */
    constructor (config: Config, now: int, code: string)
      ensures this.config == config && Valid()
      ensures var r := Session.LogOn(config, Initial, now, code);
        Snapshot() == r.state && requests == r.issued && printed == r.printed
    {
      this.config := config;
      playingOnOtherSession := false;
      currentNotification := None;
      authenticated := false;
      lastGameRefreshTime := 0;
      lastLogOnTime := 0;
      onlyLogInAfter := 0;
      exited := false;
      requests := [];
      printed := [];
      new;
      assert Snapshot() == Initial;
      SessionRun.InitialInv();
      LogOn(now, code);
      ghost var r := Session.LogOn(config, Initial, now, code);
      assert requests == [] + r.issued && printed == [] + r.printed;
      assert [] + r.issued == r.issued && [] + r.printed == r.printed;
    }

    /** `logOn`; also what the login timer runs. */
    method LogOn(now: int, code: string)
      requires Valid()
      modifies this
      ensures Valid()
      ensures var r := Session.LogOn(config, old(Snapshot()), now, code);
        Snapshot() == r.state && requests == old(requests) + r.issued && printed == old(printed) + r.printed
    {
      ghost var s0 := Snapshot();
      ghost var r := Session.LogOn(config, s0, now, code);
      SessionRun.LogOnKeepsInv(config, s0, requests, printed, now, code);
      if exited || authenticated || now - lastLogOnTime <= MIN_REQUEST_TIME {
        assert r == Unchanged(s0);
        return;
      }
      if now < onlyLogInAfter {
        assert r == Unchanged(s0);
        return;
      }
      ghost var req := LogOnRequest(now, config.accountName, config.password, TwoFactorCode(config, code));
      assert r == Step(s0.(lastLogOnTime := now), [req], [Notice(LOGGING_IN)]);
      printed := printed + [Notice(LOGGING_IN)];
      requests := requests + [LogOnRequest(now, config.accountName, config.password, TwoFactorCode(config, code))];
      lastLogOnTime := now;
    }

    /** `panic`. */
    method Panic(message: string)
      requires Valid()
      modifies this
      ensures Valid()
      ensures var r := Session.Panic(old(Snapshot()), message);
        Snapshot() == r.state && requests == old(requests) + r.issued && printed == old(printed) + r.printed
    {
      SessionRun.PanicKeepsInv(Snapshot(), requests, printed, message);
      printed := printed + [Fatal(message)];
      exited := true;
    }

    /** `refreshGames`; also what the refresh timer runs. */
    method RefreshGames(now: int)
      requires Valid()
      modifies this
      ensures Valid()
      ensures var r := Session.RefreshGames(config, old(Snapshot()), now);
        Snapshot() == r.state && requests == old(requests) + r.issued && printed == old(printed) + r.printed
    {
      ghost var s0 := Snapshot();
      ghost var r := Session.RefreshGames(config, s0, now);
      ghost var log0, out0 := requests, printed;
      if exited || !authenticated {
        assert r == Unchanged(s0);
        assert Valid() by { SessionRun.RefreshKeepsInv(config, s0, log0, out0, now); }
        return;
      }
      var notification: string;
      ghost var s1, issued := s0, [];
      if playingOnOtherSession {
        notification := PAUSED;
      } else {
        if now - lastGameRefreshTime <= MIN_REQUEST_TIME {
          assert r == Unchanged(s0);
          return;
        }
        issued := [GamesPlayedRequest(now, config.shouldPlay)];
        requests := requests + [GamesPlayedRequest(now, config.shouldPlay)];
        notification := FARMING;
        lastGameRefreshTime := now;
        s1 := s0.(lastGameRefreshTime := now);
      }
      assert r == Notify(s1, notification, issued) && requests == old(requests) + issued;
      if currentNotification != Some(notification) {
        currentNotification := Some(notification);
        printed := printed + [Status(notification)];
      } else {
      }
      assert Valid() by { SessionRun.RefreshKeepsInv(config, s0, log0, out0, now); }
    }

    /** The `playingState` event. */
    method OnPlayingState(blocked: bool, now: int)
      requires Valid()
      modifies this
      ensures Valid()
      ensures var r := Session.PlayingState(config, old(Snapshot()), blocked, now);
        Snapshot() == r.state && requests == old(requests) + r.issued && printed == old(printed) + r.printed
    {
      if exited { return; }
      playingOnOtherSession := blocked;
      RefreshGames(now);
    }

    /** The `loggedOn` event; `steamId` is the id the client reports. */
    method OnLoggedOn(now: int, steamId: string)
      requires Valid()
      modifies this
      ensures Valid()
      ensures var r := Session.LoggedOn(config, old(Snapshot()), now, steamId);
        Snapshot() == r.state && requests == old(requests) + r.issued && printed == old(printed) + r.printed
    {
      if exited { return; }
      ghost var s0 := Snapshot();
      authenticated := true;
      SessionRun.NoticeKeepsInv(s0, Snapshot(), requests, printed, LoggedInText(steamId));
      printed := printed + [Notice(LoggedInText(steamId))];
      SessionRun.PersonaKeepsInv(Snapshot(), requests, printed, now, config.persona);
      requests := requests + [SetPersonaRequest(now, config.persona)];
      ghost var log1, out1 := requests, printed;
      RefreshGames(now);
      ghost var rf := Session.RefreshGames(config, s0.(authenticated := true), now);
      assert requests == log1 + rf.issued && printed == out1 + rf.printed;
      assert Session.LoggedOn(config, s0, now, steamId) ==
        Step(rf.state, [SetPersonaRequest(now, config.persona)] + rf.issued, [Notice(LoggedInText(steamId))] + rf.printed);
    }

    /** The `error` event, classified by its `eresult`. */
    method OnError(result: EResult, message: string, now: int, code: string)
      requires Valid()
      modifies this
      ensures Valid()
      ensures var r := Session.Error(config, old(Snapshot()), result, message, now, code);
        Snapshot() == r.state && requests == old(requests) + r.issued && printed == old(printed) + r.printed
    {
      if exited { return; }
      match result
      case LoggedInElsewhere => OnLoggedInElsewhere(message, now, code);
      case RateLimitExceeded => OnRateLimitExceeded(message, now, code);
      case OtherResult(_) =>
        assert Session.Error(config, Snapshot(), result, message, now, code) == Session.Panic(Snapshot(), ErrorText(message));
        Panic(ErrorText(message));
    }

    /** The `LoggedInElsewhere` case of the `error` event. */
    method OnLoggedInElsewhere(message: string, now: int, code: string)
      requires Valid() && !exited
      modifies this
      ensures Valid()
      ensures var r := Session.Error(config, old(Snapshot()), LoggedInElsewhere, message, now, code);
        Snapshot() == r.state && requests == old(requests) + r.issued && printed == old(printed) + r.printed
    {
      ghost var s0 := Snapshot();
      ghost var lo := Session.LogOn(config, s0.(authenticated := false), now, code);
      assert Session.Error(config, s0, LoggedInElsewhere, message, now, code) == Step(lo.state, lo.issued, [Notice(KICKED)] + lo.printed);
      authenticated := false;
      SessionRun.NoticeKeepsInv(s0, Snapshot(), requests, printed, KICKED);
      printed := printed + [Notice(KICKED)];
      ghost var out1 := printed;
      LogOn(now, code);
      assert printed == out1 + lo.printed;
    }

    /** The `RateLimitExceeded` case of the `error` event. */
    method OnRateLimitExceeded(message: string, now: int, code: string)
      requires Valid() && !exited
      modifies this
      ensures Valid()
      ensures var r := Session.Error(config, old(Snapshot()), RateLimitExceeded, message, now, code);
        Snapshot() == r.state && requests == old(requests) + r.issued && printed == old(printed) + r.printed
    {
      ghost var s0 := Snapshot();
      ghost var s1 := s0.(authenticated := false, onlyLogInAfter := now + RATE_LIMIT_COOLDOWN);
      assert Session.Error(config, s0, RateLimitExceeded, message, now, code) == Step(s1, [], [Notice(RATE_LIMITED)]);
      authenticated := false;
      onlyLogInAfter := now + RATE_LIMIT_COOLDOWN;
      SessionRun.NoticeKeepsInv(s0, s1, requests, printed, RATE_LIMITED);
      printed := printed + [Notice(RATE_LIMITED)];
    }
  }
}
