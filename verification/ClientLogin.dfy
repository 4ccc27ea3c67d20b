/** When the Instagram client logs in: `do`, `request`, `login`, `reauthenticate` and `LoginOrRestore`,
    one call after the other. What Instagram and the clock do during a call is an argument of it. */
module ClientLogin {
  import opened Wrappers

  const SECOND := 1_000_000_000
  const MINUTE := 60 * SECOND
  /** defaultRequestTimeout: run has returned once this has passed. */
  const REQUEST_TIMEOUT := 2 * MINUTE
  /** minReloginInterval */
  const FLOOR := 15 * MINUTE

  /** The kinds of error the client tells apart; a timeout or a busy slot is among the others. */
  datatype Failure = RateLimited | Terminal | SessionExpired | Other

  /** How one bounded call went: how long it took and what it returned. */
  datatype Outcome = Outcome(took: int, result: Result<string, Failure>)

  predicate Bounded(o: Outcome)
  {
    0 <= o.took <= REQUEST_TIMEOUT
  }

  /** The outcomes one `do` may ask for, in the order it would ask for them. */
  datatype Answers = Answers(login1: Outcome, request1: Outcome, login2: Outcome, request2: Outcome)

  predicate AllBounded(a: Answers)
  {
    Bounded(a.login1) && Bounded(a.request1) && Bounded(a.login2) && Bounded(a.request2)
  }

  datatype DoError = ErrRateLimited | ErrReauthRequired | ErrOther

  /** What the client did, oldest first: logins with the account and how they went, sessions restored from
      disk, and requests. */
  datatype Event =
    | Login(at: int, account: string, startup: bool, ok: bool)
    | Restored(at: int)
    | Request(at: int, result: Result<string, Failure>)

  /** The client's state, the clock, and its history. No last login is Go's zero time, which lies
      further back than any floor. */
  datatype View = ClientState(username: string, hasSession: bool, lastLogin: Option<int>, now: int, log: seq<Event>)

  // ---------------------------------------------------------------- the calls as functions

  function LoginSpec(v: View, startup: bool, o: Outcome): View
  {
    v.(hasSession := o.result.Ok?, lastLogin := Some(v.now), now := v.now + o.took,
       log := v.log + [Login(v.now, v.username, startup, o.result.Ok?)])
  }

  predicate PastFloor(v: View)
  {
    v.lastLogin.None? || v.now - v.lastLogin.value >= FLOOR
  }

  /** The new state, and whether the client logged in. */
  function ReauthenticateSpec(v: View, o: Outcome): (View, bool)
  {
    if v.username == "" || !PastFloor(v) then (v, false)
    else (LoginSpec(v, false, o), o.result.Ok?)
  }

  function RequestSpec(v: View, o: Outcome): View
  {
    v.(now := v.now + o.took, log := v.log + [Request(v.now, o.result)])
  }

  /** The request after a re-login: a session that is stale again is not renewed again. */
  function RetrySpec(v: View, a: Answers): (View, Result<string, DoError>)
  {
    var (v1, ok) := ReauthenticateSpec(v, a.login2);
    if !ok then (v1, Err(ErrReauthRequired))
    else
      var reply := match a.request2.result
        case Ok(body) => Ok(body)
        case Err(RateLimited) => Err(ErrRateLimited)
        case Err(Other) => Err(ErrOther)
        case Err(_) => Err(ErrReauthRequired);
      (RequestSpec(v1, a.request2), reply)
  }

  function SendSpec(v: View, a: Answers): (View, Result<string, DoError>)
  {
    var v1 := RequestSpec(v, a.request1);
    match a.request1.result
    case Ok(body) => (v1, Ok(body))
    case Err(RateLimited) => (v1, Err(ErrRateLimited))
    case Err(Terminal) => (v1, Err(ErrReauthRequired))
    case Err(Other) => (v1, Err(ErrOther))
    case Err(SessionExpired) => RetrySpec(v1, a)
  }

  function DoSpec(v: View, a: Answers): (View, Result<string, DoError>)
  {
    if v.hasSession then SendSpec(v, a)
    else
      var (v1, ok) := ReauthenticateSpec(v, a.login1);
      if !ok then (v1, Err(ErrReauthRequired)) else SendSpec(v1, a)
  }

  function LoginOrRestoreSpec(v: View, username: string, restored: bool, o: Outcome): View
  {
    var v1 := v.(username := username);
    if restored then v1.(hasSession := true, log := v.log + [Restored(v.now)]) else LoginSpec(v1, true, o)
  }

  // ---------------------------------------------------------------- the client

  class Client {
    var username: string
    var hasSession: bool
    var lastLogin: Option<int>
    var now: int
    ghost var log: seq<Event>

    constructor (now: int)
      ensures View() == ClientState("", false, None, now, [])
    {
      username, hasSession, lastLogin, this.now, log := "", false, None, now, [];
    }

    ghost function View(): View
      reads this
    {
      ClientState(username, hasSession, lastLogin, now, log)
    }

    method LogIn(startup: bool, o: Outcome) returns (err: Option<Failure>)
      modifies this
      ensures View() == LoginSpec(old(View()), startup, o)
      ensures err.None? <==> o.result.Ok?
    {
      lastLogin := Some(now);
      log := log + [Login(now, username, startup, o.result.Ok?)];
      now := now + o.took;
      hasSession := o.result.Ok?;
      err := if o.result.Ok? then None else Some(o.result.error);
    }

    /** load says whether the saved session could be restored. */
    method LoginOrRestore(username: string, load: bool, o: Outcome) returns (err: Option<Failure>)
      modifies this
      ensures View() == LoginOrRestoreSpec(old(View()), username, load, o)
      ensures err.None? <==> load || o.result.Ok?
    {
      this.username := username;
      if load {
        hasSession := true;
        log := log + [Restored(now)];
        return None;
      }
      err := LogIn(true, o);
    }

    method Reauthenticate(o: Outcome) returns (ok: bool)
      modifies this
      ensures (View(), ok) == ReauthenticateSpec(old(View()), o)
    {
      if username == "" {
        return false;
      }
      if lastLogin.Some? && now - lastLogin.value < FLOOR {
        return false;
      }
      var err := LogIn(false, o);
      ok := err.None?;
    }

    method Send(o: Outcome) returns (result: Result<string, Failure>)
      modifies this
      ensures View() == RequestSpec(old(View()), o) && result == o.result
    {
      log := log + [Request(now, o.result)];
      now := now + o.took;
      result := o.result;
    }

    method Do(a: Answers) returns (reply: Result<string, DoError>)
      modifies this
      ensures (View(), reply) == DoSpec(old(View()), a)
    {
      if !hasSession {
        var ok := Reauthenticate(a.login1);
        if !ok {
          return Err(ErrReauthRequired);
        }
      }
      var result := Send(a.request1);
      match result {
        case Ok(body) => return Ok(body);
        case Err(RateLimited) => return Err(ErrRateLimited);
        case Err(Terminal) => return Err(ErrReauthRequired);
        case Err(Other) => return Err(ErrOther);
        case Err(SessionExpired) =>
      }
      var ok := Reauthenticate(a.login2);
      if !ok {
        return Err(ErrReauthRequired);
      }
      result := Send(a.request2);
      match result {
        case Ok(body) => return Ok(body);
        case Err(RateLimited) => return Err(ErrRateLimited);
        case Err(Other) => return Err(ErrOther);
        case Err(_) => return Err(ErrReauthRequired);
      }
    }
  }

  // ---------------------------------------------------------------- one call of do

  function Logins(log: seq<Event>): nat
  {
    if log == [] then 0 else (if log[|log| - 1].Login? then 1 else 0) + Logins(log[..|log| - 1])
  }

  /** What one do adds to the history. */
  function Added(v: View, a: Answers): seq<Event>
  {
    var log := DoSpec(v, a).0.log;
    if |v.log| <= |log| then log[|v.log|..] else []
  }

  lemma LoginsOfAtMostThree(log: seq<Event>)
    requires |log| <= 3
    ensures Logins(log) == (if |log| > 0 && log[0].Login? then 1 else 0)
                         + (if |log| > 1 && log[1].Login? then 1 else 0)
                         + (if |log| > 2 && log[2].Login? then 1 else 0)
  {
    if |log| > 0 {
      var l1 := log[..|log| - 1];
      assert |log| > 1 ==> l1[..|l1| - 1] == log[..|log| - 2];
      assert |log| > 2 ==> log[..1][..0] == [];
    }
  }

  /** The history of one do, case by case. */
  lemma DoHistory(v: View, a: Answers)
    ensures v.log <= DoSpec(v, a).0.log && |Added(v, a)| <= 4
    ensures var added := Added(v, a);
            && (v.hasSession ==> |added| <= 3 && |added| >= 1 && added[0] == Request(v.now, a.request1.result))
            && (!v.hasSession && |added| > 0 ==>
                  added[0] == Login(v.now, v.username, false, a.login1.result.Ok?) && PastFloor(v) && v.username != "")
  {}

  /** One do logs in at most once and sends at most two requests: a login and a request take at most
      two minutes each, so the floor still stands when the request comes back. */
  lemma OneLoginTwoRequests(v: View, a: Answers)
    requires AllBounded(a)
    ensures var added := Added(v, a);
            Logins(added) <= 1 && |added| - Logins(added) <= 2
  {
    var added := Added(v, a);
    DoHistory(v, a);
    NoSecondLogin(v, a);
    LoginsOfAtMostThree(added);
  }

  /** After a login within the same do, the retry finds the floor in the way. */
  lemma NoSecondLogin(v: View, a: Answers)
    requires AllBounded(a)
    ensures |Added(v, a)| <= 3
    ensures !v.hasSession ==> |Added(v, a)| <= 2
    ensures !v.hasSession && |Added(v, a)| == 2 ==> Added(v, a)[1].Request?
    ensures v.hasSession && |Added(v, a)| > 1 ==> Added(v, a)[1].Login?
    ensures v.hasSession && |Added(v, a)| > 2 ==> Added(v, a)[2].Request?
  {}

  /** Exactly when a do logs in: there is an account to log in with, and either no session is held or
      the one held turned out stale, and the last attempt lies a floor back by then. */
  lemma LogsInExactly(v: View, a: Answers)
    requires AllBounded(a)
    ensures Logins(Added(v, a)) == 1 <==>
              && v.username != ""
              && (v.hasSession ==> a.request1.result == Err(SessionExpired))
              && PastFloor(if v.hasSession then RequestSpec(v, a.request1) else v)
  {
    var added := Added(v, a);
    DoHistory(v, a);
    NoSecondLogin(v, a);
    LoginsOfAtMostThree(added);
  }

  /** A request answered by a rate limit, a challenge or anything but a stale session is the last thing
      a do does: it never causes a login, or another request. */
  lemma OnlyStaleSessionsGoOn(v: View, a: Answers, i: nat)
    requires AllBounded(a)
    requires var added := Added(v, a);
             i < |added| && added[i].Request? && added[i].result != Err(SessionExpired)
    ensures i == |Added(v, a)| - 1
  {
    var added := Added(v, a);
    NoSecondLogin(v, a);
    if v.hasSession && i == 0 {
      assert added[0].result == a.request1.result;
    }
  }

  /** What the caller of do is told, by the last thing that happened. */
  function Verdict(added: seq<Event>): Result<string, DoError>
  {
    if added == [] || !added[|added| - 1].Request? then Err(ErrReauthRequired)
    else match added[|added| - 1].result
      case Ok(body) => Ok(body)
      case Err(RateLimited) => Err(ErrRateLimited)
      case Err(Other) => Err(ErrOther)
      case Err(_) => Err(ErrReauthRequired)
  }

  lemma ReplyIsTheVerdict(v: View, a: Answers)
    ensures DoSpec(v, a).1 == Verdict(Added(v, a))
  {
    if v.hasSession {
      SendVerdict(v, a);
    } else {
      var v1 := ReauthenticateSpec(v, a.login1).0;
      SendVerdict(v1, a);
      var log := SendSpec(v1, a).0.log;
      assert |log| > |v1.log| >= |v.log|;
      assert log[|v.log|..] != [] && log[|v.log|..][|log| - |v.log| - 1] == log[|log| - 1];
    }
  }

  lemma SendVerdict(v: View, a: Answers)
    ensures var (v', reply) := SendSpec(v, a);
            && |v'.log| > |v.log| && v.log <= v'.log
            && reply == Verdict(v'.log[|v.log|..])
            && reply == Verdict([v'.log[|v'.log| - 1]])
  {}

  // ---------------------------------------------------------------- any sequence of calls

  datatype Op =
    | Pass(duration: nat)
    | Boot(username: string, restored: bool, login: Outcome)
    | Call(answers: Answers)

  predicate Possible(op: Op)
  {
    match op
    case Pass(_) => true
    case Boot(_, _, o) => Bounded(o)
    case Call(a) => AllBounded(a)
  }

  function Perform(v: View, op: Op): View
  {
    match op
    case Pass(d) => v.(now := v.now + d)
    case Boot(username, restored, o) => LoginOrRestoreSpec(v, username, restored, o)
    case Call(a) => DoSpec(v, a).0
  }

  function PerformAll(v: View, ops: seq<Op>): View
    decreases |ops|
  {
    if ops == [] then v else PerformAll(Perform(v, ops[0]), ops[1..])
  }

  /** When the last login attempt in a history was, if there was one. */
  function LastLogin(log: seq<Event>): Option<int>
  {
    if log == [] then None
    else if log[|log| - 1].Login? then Some(log[|log| - 1].at)
    else LastLogin(log[..|log| - 1])
  }

  /** Every login but those of LoginOrRestore starts at least a floor after the attempt before it, and
      time does not run backwards. */
  predicate Spaced(log: seq<Event>)
  {
    log == [] ||
    var e, before := log[|log| - 1], log[..|log| - 1];
    && Spaced(before)
    && (before != [] ==> before[|before| - 1].at <= e.at)
    && (e.Login? && !e.startup && LastLogin(before).Some? ==> e.at - LastLogin(before).value >= FLOOR)
  }

  ghost predicate Kept(v: View)
  {
    && Spaced(v.log)
    && v.lastLogin == LastLogin(v.log)
    && (v.log != [] ==> v.log[|v.log| - 1].at <= v.now)
  }

  lemma Appended(log: seq<Event>, e: Event)
    ensures (log + [e])[..|log + [e]| - 1] == log && (log + [e])[|log + [e]| - 1] == e
  {}

  lemma LoginKeeps(v: View, startup: bool, o: Outcome)
    requires Kept(v) && (startup || PastFloor(v)) && o.took >= 0
    ensures Kept(LoginSpec(v, startup, o))
  {
    Appended(v.log, Login(v.now, v.username, startup, o.result.Ok?));
  }

  lemma RequestKeeps(v: View, o: Outcome)
    requires Kept(v) && o.took >= 0
    ensures Kept(RequestSpec(v, o))
  {
    Appended(v.log, Request(v.now, o.result));
  }

  lemma SendKeeps(v: View, a: Answers)
    requires Kept(v) && AllBounded(a)
    ensures Kept(SendSpec(v, a).0)
  {
    RequestKeeps(v, a.request1);
    var v1 := RequestSpec(v, a.request1);
    var (v2, ok) := ReauthenticateSpec(v1, a.login2);
    if v1.username != "" && PastFloor(v1) {
      LoginKeeps(v1, false, a.login2);
    }
    RequestKeeps(v2, a.request2);
  }

  lemma PerformKeeps(v: View, op: Op)
    requires Kept(v) && Possible(op)
    ensures Kept(Perform(v, op))
  {
    hide Kept, SendSpec, LoginSpec;
    match op
    case Pass(_) =>
      PassKeeps(v, op.duration);
    case Boot(username, restored, o) =>
      BootKeeps(v, username, restored, o);
    case Call(a) =>
      if v.hasSession {
        SendKeeps(v, a);
      } else {
        if v.username != "" && PastFloor(v) {
          LoginKeeps(v, false, a.login1);
        }
        SendKeeps(ReauthenticateSpec(v, a.login1).0, a);
      }
  }

  lemma PassKeeps(v: View, duration: nat)
    requires Kept(v)
    ensures Kept(v.(now := v.now + duration))
  {}

  lemma BootKeeps(v: View, username: string, restored: bool, o: Outcome)
    requires Kept(v) && o.took >= 0
    ensures Kept(LoginOrRestoreSpec(v, username, restored, o))
  {
    LoginKeeps(v.(username := username), true, o);
    Appended(v.log, Restored(v.now));
  }

  /** The floor holds over every sequence of calls, pauses and restarts of one client. */
  lemma {:induction false} FloorHolds(v: View, ops: seq<Op>)
    requires Kept(v) && forall i | 0 <= i < |ops| :: Possible(ops[i])
    ensures Kept(PerformAll(v, ops))
    decreases |ops|
  {
    if ops != [] {
      PerformKeeps(v, ops[0]);
      FloorHolds(Perform(v, ops[0]), ops[1..]);
    }
  }

  // ---------------------------------------------------------------- what one call does, step by step

  /** There is an account to log in with, and the last attempt is a floor or more back at that time. */
  predicate MayLogIn(v: View, at: int)
  {
    v.username != "" && (v.lastLogin == None || v.lastLogin.value + 15 * 60 * SECOND <= at)
  }

  /** Everything a do does, oldest first, and what it leaves alone. With a session it sends the request at
      once; only a stale session makes it log in, and only a successful login makes it send once more. Without
      one nothing is sent before a login has succeeded. */
  lemma DoExactly(v: View, a: Answers)
    requires AllBounded(a)
    ensures var v' := DoSpec(v, a).0; v'.username == v.username && v'.log == v.log + Added(v, a)
    ensures var sent := Request(v.now, a.request1.result);
            var back := v.now + a.request1.took;
            v.hasSession ==>
              Added(v, a) ==
                if a.request1.result != Err(SessionExpired) || !MayLogIn(v, back) then [sent]
                else if a.login2.result.Err? then [sent, Login(back, v.username, false, false)]
                else [sent, Login(back, v.username, false, true), Request(back + a.login2.took, a.request2.result)]
    ensures !v.hasSession ==>
              Added(v, a) ==
                if !MayLogIn(v, v.now) then []
                else if a.login1.result.Err? then [Login(v.now, v.username, false, false)]
                else [Login(v.now, v.username, false, true), Request(v.now + a.login1.took, a.request1.result)]
  {
    DoHistory(v, a);
    NoSecondLogin(v, a);
    var log := DoSpec(v, a).0.log;
    assert log == v.log + log[|v.log|..];
  }

  /** What `LoginOrRestore` does: the account is kept however it goes, a session restored from disk is held
      without a login, and otherwise one login is made with that account. */
  lemma BootExactly(v: View, username: string, restored: bool, o: Outcome)
    ensures var v' := Perform(v, Boot(username, restored, o));
            && v'.username == username && (v'.hasSession <==> restored || o.result.Ok?)
            && v'.log == v.log + [if restored then Restored(v.now) else Login(v.now, username, true, o.result.Ok?)]
            && (!restored ==> v'.lastLogin == Some(v.now)) && (restored ==> v'.lastLogin == v.lastLogin)
            && v'.now == if restored then v.now else v.now + o.took
  {}

  // ---------------------------------------------------------------- the session

  predicate Attempt(e: Event)
  {
    e.Login? || e.Restored?
  }

  /** Of all attempts to get a session, by a login or from disk, the last one succeeded. */
  ghost predicate SessionOn(log: seq<Event>)
  {
    exists i ::
      && 0 <= i < |log| && (log[i].Restored? || (log[i].Login? && log[i].ok))
      && forall j | i < j < |log| :: !Attempt(log[j])
  }

  lemma SessionAfter(log: seq<Event>, e: Event)
    ensures SessionOn(log + [e]) <==> if Attempt(e) then e.Restored? || e.ok else SessionOn(log)
  {
    var after := log + [e];
    assert after[|log|] == e;
    if !Attempt(e) && SessionOn(log) {
      var i :| 0 <= i < |log| && (log[i].Restored? || (log[i].Login? && log[i].ok))
               && forall j | i < j < |log| :: !Attempt(log[j]);
      assert after[i] == log[i];
    }
    if !Attempt(e) && SessionOn(after) {
      var i :| 0 <= i < |after| && (after[i].Restored? || (after[i].Login? && after[i].ok))
               && forall j | i < j < |after| :: !Attempt(after[j]);
      forall j | i < j < |log|
        ensures !Attempt(log[j])
      {
        assert after[j] == log[j];
      }
    }
  }

  ghost predicate SessionTold(v: View)
  {
    v.hasSession <==> SessionOn(v.log)
  }

  lemma LoginTells(v: View, startup: bool, o: Outcome)
    ensures SessionTold(LoginSpec(v, startup, o))
  {
    SessionAfter(v.log, Login(v.now, v.username, startup, o.result.Ok?));
  }

  lemma RequestTells(v: View, o: Outcome)
    requires SessionTold(v)
    ensures SessionTold(RequestSpec(v, o))
  {
    SessionAfter(v.log, Request(v.now, o.result));
  }

  lemma ReauthenticateTells(v: View, o: Outcome)
    requires SessionTold(v)
    ensures SessionTold(ReauthenticateSpec(v, o).0)
  {
    LoginTells(v, false, o);
  }

  lemma SendTells(v: View, a: Answers)
    requires SessionTold(v)
    ensures SessionTold(SendSpec(v, a).0)
  {
    hide SessionTold;
    RequestTells(v, a.request1);
    var v1 := RequestSpec(v, a.request1);
    ReauthenticateTells(v1, a.login2);
    RequestTells(ReauthenticateSpec(v1, a.login2).0, a.request2);
  }

  lemma PerformTells(v: View, op: Op)
    requires SessionTold(v)
    ensures SessionTold(Perform(v, op))
  {
    hide SessionOn;
    match op
    case Pass(_) =>
    case Boot(username, restored, o) =>
      LoginTells(v.(username := username), true, o);
      SessionAfter(v.log, Restored(v.now));
    case Call(a) =>
      ReauthenticateTells(v, a.login1);
      SendTells(v, a);
      SendTells(ReauthenticateSpec(v, a.login1).0, a);
  }

  lemma {:induction false} SessionToldOn(v: View, ops: seq<Op>)
    requires SessionTold(v)
    ensures SessionTold(PerformAll(v, ops))
    decreases |ops|
  {
    hide SessionTold, Perform;
    if ops != [] {
      PerformTells(v, ops[0]);
      SessionToldOn(Perform(v, ops[0]), ops[1..]);
    }
  }

  /** A client as it is made. */
  function Made(now: int): View
  {
    ClientState("", false, None, now, [])
  }

  /** After any sequence of operations a client holds a session exactly when the last attempt to get one, by a
      login or from disk, succeeded. */
  lemma SessionIsLastAttempt(now: int, ops: seq<Op>)
    ensures PerformAll(Made(now), ops).hasSession <==> SessionOn(PerformAll(Made(now), ops).log)
  {
    SessionToldOn(Made(now), ops);
  }

  /** While the last attempt succeeded, the next do sends its request at once, and logs in only if the answer
      is that the session is stale. */
  lemma SessionIsUsed(now: int, ops: seq<Op>, a: Answers)
    requires AllBounded(a)
    ensures var v := PerformAll(Made(now), ops);
            SessionOn(v.log) ==>
              && Added(v, a) != [] && Added(v, a)[0] == Request(v.now, a.request1.result)
              && (Logins(Added(v, a)) > 0 ==> a.request1.result == Err(SessionExpired))
              && (a.request1.result.Ok? ==> DoSpec(v, a).1 == Ok(a.request1.result.value))
  {
    var v := PerformAll(Made(now), ops);
    SessionIsLastAttempt(now, ops);
    DoExactly(v, a);
    ReplyIsTheVerdict(v, a);
    LoginsOfAtMostThree(Added(v, a));
  }

  /** While it failed, or there was none, the next do sends nothing before a login of its own succeeds. */
  lemma NoRequestWithoutSession(now: int, ops: seq<Op>, a: Answers)
    requires AllBounded(a)
    ensures var v := PerformAll(Made(now), ops);
            !SessionOn(v.log) ==>
              forall i | 0 <= i < |Added(v, a)| && Added(v, a)[i].Request? ::
                i > 0 && Added(v, a)[i - 1].Login? && Added(v, a)[i - 1].ok
  {
    SessionIsLastAttempt(now, ops);
    DoExactly(PerformAll(Made(now), ops), a);
  }

  // ---------------------------------------------------------------- the account

  /** The account last given to LoginOrRestore. */
  function Account(ops: seq<Op>): string
  {
    if ops == [] then ""
    else if ops[|ops| - 1].Boot? then ops[|ops| - 1].username
    else Account(ops[..|ops| - 1])
  }

  lemma {:induction false} PerformLast(v: View, ops: seq<Op>)
    requires ops != []
    ensures PerformAll(v, ops) == Perform(PerformAll(v, ops[..|ops| - 1]), ops[|ops| - 1])
    decreases |ops|
  {
    hide Perform;
    if |ops| > 1 {
      PerformLast(Perform(v, ops[0]), ops[1..]);
      assert ops[1..][..|ops| - 2] == ops[..|ops| - 1][1..];
    } else {
      assert ops[1..] == [] && ops[..0] == [];
    }
  }

  /** A client logs in with the account given last, however that and everything since went. */
  lemma {:induction false} AccountIsKept(now: int, ops: seq<Op>)
    ensures PerformAll(Made(now), ops).username == Account(ops)
  {
    if ops != [] {
      var last := |ops| - 1;
      AccountIsKept(now, ops[..last]);
      PerformLast(Made(now), ops);
    }
  }

  // ---------------------------------------------------------------- how often that lets it log in

  predicate NoStartup(log: seq<Event>)
  {
    forall i | 0 <= i < |log| :: log[i].Login? ==> !log[i].startup
  }

  /** The time n floors take. */
  function Floors(n: int): int
  {
    n * FLOOR
  }

  lemma OneFloorMore(n: int)
    ensures Floors(0) == 0 && Floors(n) == Floors(n - 1) + FLOOR
  {}

  /** So n logins by reauthenticate, whatever happens between them, take n - 1 floors or longer. */
  lemma {:induction false} LoginsTakeTime(log: seq<Event>, first: int)
    requires Spaced(log) && NoStartup(log)
    requires forall i | 0 <= i < |log| :: first <= log[i].at
    ensures LastLogin(log).Some? <==> Logins(log) > 0
    ensures Logins(log) > 0 ==> Floors(Logins(log) - 1) <= LastLogin(log).value - first
  {
    hide Floors;
    if log != [] {
      LoginsTakeTime(log[..|log| - 1], first);
      OneFloorMore(Logins(log) - 1);
      assert first <= log[|log| - 1].at;
    }
  }

  /** Any stretch of a history keeps the spacing. */
  lemma {:induction false} StretchSpaced(log: seq<Event>, i: nat)
    requires Spaced(log) && i <= |log|
    ensures Spaced(log[i..])
    ensures LastLogin(log[i..]).Some? ==> LastLogin(log) == LastLogin(log[i..])
    decreases |log|
  {
    if i < |log| {
      var before := log[..|log| - 1];
      StretchSpaced(before, i);
      assert log[i..][..|log[i..]| - 1] == before[i..];
      if i < |before| {
        assert before[i..][|before[i..]| - 1] == before[|before| - 1];
      }
    }
  }

  /** Within any stretch of history, at most one login more than there are floors in its span. */
  lemma LoginsBounded(log: seq<Event>, i: nat, first: int, span: nat)
    requires Spaced(log) && i <= |log| && NoStartup(log[i..])
    requires forall k | i <= k < |log| :: first <= log[k].at <= first + span
    ensures Logins(log[i..]) > 0 ==> Floors(Logins(log[i..]) - 1) <= span
  {
    hide Floors, Spaced, Logins, LastLogin, NoStartup;
    StretchSpaced(log, i);
    var part := log[i..];
    forall k | 0 <= k < |part|
      ensures first <= part[k].at <= first + span
    {
      assert part[k] == log[i + k];
    }
    LoginsTakeTime(part, first);
    if Logins(part) > 0 {
      LastIsOneOf(part);
      var k :| 0 <= k < |part| && part[k].at == LastLogin(part).value;
      assert part[k].at <= first + span;
    }
  }

  lemma {:induction false} LastIsOneOf(log: seq<Event>)
    ensures LastLogin(log).Some? ==> exists i :: 0 <= i < |log| && log[i].at == LastLogin(log).value
  {
    if log != [] && !log[|log| - 1].Login? {
      LastIsOneOf(log[..|log| - 1]);
    } else if log != [] {
      assert log[|log| - 1].at == LastLogin(log).value;
    }
  }
}
