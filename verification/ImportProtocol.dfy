/** Everything that may import at once: any number of server processes, each with a worker and any
    number of RunOnce calls, any number of import commands, and the advisory lock they share. Each
    section under a mutex, each statement to the database and each contact with Instagram is one step;
    steps of all parties interleave freely. A process may die between any two of them, and the database
    may end the session that holds the lock at any time. */
module ImportProtocol {
  import opened StateMachine
  import opened Wrappers
  import opened ImportOutcome
  import opened ImportWorker

  /** Where a RunOnce call stands. */
  datatype Phase =
    | Asked
    | Skipped                                                  // returned: a run in flight, or cooling down
    | Begun                                                    // Pipeline.Run is about to ask for the lock
    | Importing(session: nat)                                  // took the lock in a session of its own
    | Ended(result: ImportResult, err: Option<RunError>)       // Pipeline.Run has returned
    | Refused                                                  // returned: another import holds the lock
    | Ran(result: ImportResult)                                // returned with its own result

  /** A server process; restarting one gives another process. */
  datatype Server = Server(alive: bool, status: Status, calls: map<nat, Phase>, log: seq<Event>)

  datatype CommandError = LockHeld | LockUnreachable | LoginRefused | RunFailed

  /** Where an import command stands. */
  datatype Command =
    | Started
    | Locked(session: nat)
    | LoggedIn(session: nat)
    | Exited(err: Option<CommandError>)
    | Killed

  datatype Party = OfCall(p: nat, c: nat) | OfCommand(k: nat)

  /** A contact with Instagram: a server's login at startup, which no lock covers, or one made by an
      import, with the session it took the lock in and the session that held the lock just then. */
  datatype Contact = Startup(p: nat) | Made(party: Party, session: nat, lock: Option<nat>)

  /** The clock and the database: the session that holds the advisory lock, and the next session. */
  datatype Env = Env(now: int, lock: Option<nat>, nextSession: nat)

  datatype State = State(env: Env, servers: map<nat, Server>, commands: map<nat, Command>, contacts: seq<Contact>)

  const INITIAL := State(Env(0, None, 0), map[], map[], [])

  datatype CallAction =
    | Ask
    | Enter
    | TryLock(reachable: bool)
    | Fetch
    | Finish(result: ImportResult, err: Option<RunError>, closed: bool)
    | Leave(wait: nat)

  datatype CommandAction =
    | TakeLock(reachable: bool)
    | LogIn(ok: bool, closed: bool)
    | Request
    | Import(ok: bool, closed: bool)

  datatype Step =
    | Tick(duration: nat)
    | Boot(p: nat, login: bool)
    | Crash(p: nat)
    | SessionEnds
    | OnCall(p: nat, c: nat, action: CallAction)
    | Report(p: nat, failure: RunError)
    | Launch(k: nat)
    | Kill(k: nat)
    | OnCommand(k: nat, command: CommandAction)

  // ---------------------------------------------------------------- the steps

  /** Closing one's session frees the lock if that session holds it; a session that could not be closed
      cleanly stays until the database notices. */
  function Released(env: Env, session: nat, closed: bool): Env
  {
    if closed && env.lock == Some(session) then env.(lock := None) else env
  }

  function Acquired(env: Env): Env
  {
    env.(lock := Some(env.nextSession), nextSession := env.nextSession + 1)
  }

  function CallStep(env: Env, srv: Server, c: nat, a: CallAction): Option<(Env, Server)>
  {
    if a.Ask? then
      if c in srv.calls then None else Some((env, srv.(calls := srv.calls[c := Asked])))
    else if c !in srv.calls then None
    else
      var phase := srv.calls[c];
      match a
      case Enter =>
        if !phase.Asked? then None
        else if Admissible(srv.status, env.now)
        then Some((env, srv.(status := Entered(srv.status), calls := srv.calls[c := Begun],
                             log := srv.log + [Admitted(c, env.now)])))
        else Some((env, srv.(calls := srv.calls[c := Skipped])))
      case TryLock(reachable) =>
        if !phase.Begun? then None
        else if !reachable then Some((env, srv.(calls := srv.calls[c := Ended(NOTHING, Some(LockFailed))])))
        else if env.lock.Some? then Some((env, srv.(calls := srv.calls[c := Ended(NOTHING, Some(ImportInProgress))])))
        else Some((Acquired(env), srv.(calls := srv.calls[c := Importing(env.nextSession)])))
      case Fetch => if phase.Importing? then Some((env, srv)) else None
      case Finish(result, err, closed) =>
        if !phase.Importing? || err == Some(ImportInProgress) then None
        else Some((Released(env, phase.session, closed), srv.(calls := srv.calls[c := Ended(result, err)])))
      case Leave(wait) =>
        if !phase.Ended? then None
        else
          var later := env.now + wait;
          var status := Left(srv.status, env.now, later, phase.result, phase.err);
          if phase.err == Some(ImportInProgress)
          then Some((env.(now := later), srv.(status := status, calls := srv.calls[c := Refused])))
          else Some((env.(now := later),
                     srv.(status := status, calls := srv.calls[c := Ran(phase.result)],
                          log := srv.log + [Completed(c, env.now, later, phase.result, phase.err)])))
  }

  function CommandStep(env: Env, cmd: Command, a: CommandAction): Option<(Env, Command)>
  {
    match a
    case TakeLock(reachable) =>
      if !cmd.Started? then None
      else if !reachable then Some((env, Exited(Some(LockUnreachable))))
      else if env.lock.Some? then Some((env, Exited(Some(LockHeld))))
      else Some((Acquired(env), Locked(env.nextSession)))
    case LogIn(ok, closed) =>
      if !cmd.Locked? then None
      else if ok then Some((env, LoggedIn(cmd.session)))
      else Some((Released(env, cmd.session, closed), Exited(Some(LoginRefused))))
    case Request => if cmd.LoggedIn? then Some((env, cmd)) else None
    case Import(ok, closed) =>
      if !cmd.LoggedIn? then None
      else Some((Released(env, cmd.session, closed), Exited(if ok then None else Some(RunFailed))))
  }

  /** The contact with Instagram an import's step makes, if it makes one. */
  function ContactOf(s: State, h: Party, contacts: bool): seq<Contact>
  {
    if contacts && Holds(s, h) then [Made(h, SessionOf(s, h), s.env.lock)] else []
  }

  function Apply(s: State, e: Step): Option<State>
  {
    match e
    case Tick(d) => Some(s.(env := s.env.(now := s.env.now + d)))
    case Boot(p, login) =>
      if p in s.servers then None
      else Some(s.(servers := s.servers[p := Server(true, FRESH, map[], [])],
                   contacts := s.contacts + if login then [Startup(p)] else []))
    case Crash(p) =>
      if p !in s.servers then None else Some(s.(servers := s.servers[p := s.servers[p].(alive := false)]))
    case SessionEnds => Some(s.(env := s.env.(lock := None)))
    case OnCall(p, c, a) =>
      if p !in s.servers || !s.servers[p].alive then None
      else
        var r := CallStep(s.env, s.servers[p], c, a);
        if r.None? then None
        else Some(s.(env := r.value.0, servers := s.servers[p := r.value.1],
                     contacts := s.contacts + ContactOf(s, OfCall(p, c), a.Fetch?)))
    case Report(p, failure) =>
      if p !in s.servers || !s.servers[p].alive then None
      else Some(s.(servers := s.servers[p := Reporting(s.servers[p], failure)]))
    case Launch(k) => if k in s.commands then None else Some(s.(commands := s.commands[k := Started]))
    case Kill(k) => if k !in s.commands then None else Some(s.(commands := s.commands[k := Killed]))
    case OnCommand(k, a) =>
      if k !in s.commands then None
      else
        var r := CommandStep(s.env, s.commands[k], a);
        if r.None? then None
        else Some(s.(env := r.value.0, commands := s.commands[k := r.value.1],
                     contacts := s.contacts + ContactOf(s, OfCommand(k), a.LogIn? || a.Request?)))
  }

  /** `RecordFailure`. */
  function Reporting(srv: Server, failure: RunError): Server
  {
    srv.(status := srv.status.(lastErr := Some(failure)), log := srv.log + [Reported(failure)])
  }

  ghost predicate Reachable(s: State)
  {
    Reaches(Apply, INITIAL, s)
  }

  // ---------------------------------------------------------------- who holds the lock

  predicate HasLock(cmd: Command)
  {
    cmd.Locked? || cmd.LoggedIn?
  }

  /** The party is in the part of its run that the lock is there for. */
  predicate Holds(s: State, h: Party)
  {
    match h
    case OfCall(p, c) =>
      p in s.servers && s.servers[p].alive && c in s.servers[p].calls && s.servers[p].calls[c].Importing?
    case OfCommand(k) => k in s.commands && HasLock(s.commands[k])
  }

  function SessionOf(s: State, h: Party): nat
    requires Holds(s, h)
  {
    match h
    case OfCall(p, c) => s.servers[p].calls[c].session
    case OfCommand(k) => s.commands[k].session
  }

  /** The database, too, has the lock held by this party's session. */
  predicate Owns(s: State, h: Party)
  {
    Holds(s, h) && s.env.lock == Some(SessionOf(s, h))
  }

  /** The database ends the session of a party that is still importing: it was restarted, the backend was
      terminated, or the connection broke. Nothing in an import notices. */
  ghost predicate LosesHolder(s: State, e: Step)
  {
    e.SessionEnds? && exists h :: Owns(s, h)
  }

  /** The steps of runs in which that does not happen. */
  ghost function Unbroken(s: State, e: Step): Option<State>
  {
    if LosesHolder(s, e) then None else Apply(s, e)
  }

  /** Sessions are told apart: no two parties ever hold one and the same. */
  ghost predicate SessionsApart(s: State)
  {
    && (forall h :: Holds(s, h) ==> SessionOf(s, h) < s.env.nextSession)
    && (forall h, g :: Holds(s, h) && Holds(s, g) && SessionOf(s, h) == SessionOf(s, g) ==> h == g)
    && (s.env.lock.Some? ==> s.env.lock.value < s.env.nextSession)
  }

  /** No holder has lost its session. */
  ghost predicate AllOwn(s: State)
  {
    forall h :: Holds(s, h) ==> Owns(s, h)
  }

  ghost predicate AtMostOneImport(s: State)
  {
    forall h, g :: Holds(s, h) && Holds(s, g) ==> h == g
  }

  // ---------------------------------------------------------------- how a step moves the lock

  /** One party moves at a time, and the lock moves only with it. */
  ghost predicate LockFollows(s: State, s': State, h: Party)
  {
    && (forall g :: g != h && Holds(s', g) ==> Holds(s, g) && SessionOf(s', g) == SessionOf(s, g))
    && (if Holds(s', h) then
          || (Holds(s, h) && SessionOf(s', h) == SessionOf(s, h)
              && s'.env.lock == s.env.lock && s'.env.nextSession == s.env.nextSession)
          || (!Holds(s, h) && s.env.lock.None? && SessionOf(s', h) == s.env.nextSession
              && s'.env.lock == Some(s.env.nextSession) && s'.env.nextSession == s.env.nextSession + 1)
        else
          && s'.env.nextSession == s.env.nextSession
          && (s'.env.lock == s.env.lock || (Owns(s, h) && s'.env.lock.None?)))
  }

  lemma CallStepFollows(s: State, p: nat, c: nat, a: CallAction)
    requires Apply(s, OnCall(p, c, a)).Some?
    ensures LockFollows(s, Apply(s, OnCall(p, c, a)).value, OfCall(p, c))
  {}

  lemma CommandStepFollows(s: State, k: nat, a: CommandAction)
    requires Apply(s, OnCommand(k, a)).Some?
    ensures LockFollows(s, Apply(s, OnCommand(k, a)).value, OfCommand(k))
  {}

  lemma FollowingKeepsApart(s: State, s': State, h: Party)
    requires SessionsApart(s) && LockFollows(s, s', h)
    ensures SessionsApart(s')
    ensures AllOwn(s) ==> AllOwn(s')
  {
    forall g | g != h && Holds(s', g)
      ensures Holds(s, g) && SessionOf(s', g) == SessionOf(s, g)
    {}
  }

  /** A step that neither takes nor gives back the lock: a process starts or dies, time passes, the
      database ends a session. */
  lemma OtherStepKeepsApart(s: State, e: Step)
    requires SessionsApart(s) && !e.OnCall? && !e.OnCommand? && Apply(s, e).Some?
    ensures SessionsApart(Apply(s, e).value)
    ensures AllOwn(s) && !LosesHolder(s, e) ==> AllOwn(Apply(s, e).value)
  {
    var s' := Apply(s, e).value;
    assert forall h :: Holds(s', h) ==> Holds(s, h) && SessionOf(s', h) == SessionOf(s, h);
  }

  lemma StepKeepsApart(s: State, e: Step)
    requires SessionsApart(s) && Apply(s, e).Some?
    ensures SessionsApart(Apply(s, e).value)
    ensures AllOwn(s) && !LosesHolder(s, e) ==> AllOwn(Apply(s, e).value)
  {
    hide Apply, SessionsApart, AllOwn, LockFollows;
    match e
    case OnCall(p, c, a) =>
      CallStepFollows(s, p, c, a);
      FollowingKeepsApart(s, Apply(s, e).value, OfCall(p, c));
    case OnCommand(k, a) =>
      CommandStepFollows(s, k, a);
      FollowingKeepsApart(s, Apply(s, e).value, OfCommand(k));
    case _ =>
      OtherStepKeepsApart(s, e);
  }

  // ---------------------------------------------------------------- what each worker keeps

  predicate InFlight(phase: Phase)
  {
    phase.Begun? || phase.Importing? || phase.Ended?
  }

  ghost predicate SomeInFlight(srv: Server)
  {
    exists c :: c in srv.calls && InFlight(srv.calls[c])
  }

  ghost predicate OneInFlight(srv: Server)
  {
    && (forall a, b | a in srv.calls && b in srv.calls && InFlight(srv.calls[a]) && InFlight(srv.calls[b]) :: a == b)
    && (srv.status.running <==> SomeInFlight(srv))
  }

  predicate Throttled(e: Event)
  {
    e.Completed? && e.err.Some? && RateLimited(e.err.value)
  }

  /** No run is admitted before the cooldown of any rate limit before it is over. */
  ghost predicate CooledDown(log: seq<Event>)
  {
    forall i, j | 0 <= i < j < |log| && Throttled(log[i]) && log[j].Admitted? :: log[j].at >= log[i].later + COOLDOWN
  }

  /** The cooldown in force covers every rate limit on record, and none reaches past half an hour. */
  ghost predicate CooldownCovers(now: int, srv: Server)
  {
    && (forall i | 0 <= i < |srv.log| && Throttled(srv.log[i]) ::
          srv.status.cooldownUntil.Some? && srv.log[i].later + COOLDOWN <= srv.status.cooldownUntil.value)
    && (srv.status.cooldownUntil.Some? ==> srv.status.cooldownUntil.value <= now + COOLDOWN)
  }

  ghost predicate StatusIsReplay(srv: Server)
  {
    && srv.status == Replay(srv.log).(running := srv.status.running)
    && forall i | 0 <= i < |srv.log| :: Recordable(srv.log[i])
  }

  /** Every completed run on record is that of a call that returned it. */
  ghost predicate RecordsReturned(srv: Server)
  {
    forall i | 0 <= i < |srv.log| && srv.log[i].Completed? ::
      srv.log[i].call in srv.calls && srv.calls[srv.log[i].call] == Ran(srv.log[i].result)
  }

  /** The one record of a call's completed run. */
  predicate RecordOf(srv: Server, c: nat, i: int)
  {
    0 <= i < |srv.log| && srv.log[i].Completed? && srv.log[i].call == c
  }

  ghost predicate ReturnedRecorded(srv: Server)
  {
    && (forall c | c in srv.calls && srv.calls[c].Ran? :: exists i :: RecordOf(srv, c, i))
    && forall c, i, j | RecordOf(srv, c, i) && RecordOf(srv, c, j) :: i == j
  }

  ghost predicate WorkerOk(now: int, srv: Server)
  {
    && OneInFlight(srv) && CooledDown(srv.log) && CooldownCovers(now, srv) && StatusIsReplay(srv)
    && RecordsReturned(srv) && ReturnedRecorded(srv)
  }

  lemma CallStepOneInFlight(env: Env, srv: Server, c: nat, a: CallAction)
    requires OneInFlight(srv) && CallStep(env, srv, c, a).Some?
    ensures OneInFlight(CallStep(env, srv, c, a).value.1)
  {
    var srv' := CallStep(env, srv, c, a).value.1;
    var before := c in srv.calls && InFlight(srv.calls[c]);
    assert c in srv'.calls && srv'.calls == srv.calls[c := srv'.calls[c]];
    if h :| h in srv.calls && InFlight(srv.calls[h]) && h != c {
      assert h in srv'.calls && InFlight(srv'.calls[h]);
      assert srv.status.running && !before;
    }
    if InFlight(srv'.calls[c]) {
      assert SomeInFlight(srv');
    }
  }

  lemma CallStepKeepsCooldown(env: Env, srv: Server, c: nat, a: CallAction)
    requires CooledDown(srv.log) && CooldownCovers(env.now, srv) && CallStep(env, srv, c, a).Some?
    ensures var (env', srv') := CallStep(env, srv, c, a).value;
            env.now <= env'.now && CooledDown(srv'.log) && CooldownCovers(env'.now, srv')
  {}

  lemma AppendKeepsReplay(srv: Server, e: Event, srv': Server)
    requires StatusIsReplay(srv) && Recordable(e) && srv'.log == srv.log + [e]
    requires srv'.status == Leaves(srv.status, e).(running := srv'.status.running)
    ensures StatusIsReplay(srv')
  {
    assert srv'.log[..|srv'.log| - 1] == srv.log && srv'.log[|srv'.log| - 1] == e;
  }

  /** What a call's step does to the history: at most one event, of that call, is added. */
  lemma CallStepLogs(env: Env, srv: Server, c: nat, a: CallAction)
    requires CallStep(env, srv, c, a).Some?
    ensures var srv' := CallStep(env, srv, c, a).value.1;
            && c in srv'.calls && srv'.calls == srv.calls[c := srv'.calls[c]] && srv'.alive == srv.alive
            && if srv'.calls[c].Begun? then
                 && c in srv.calls && srv.calls[c].Asked? && srv'.log == srv.log + [Admitted(c, env.now)]
                 && srv'.status == Entered(srv.status)
               else if srv'.calls[c].Ran? then
                 && c in srv.calls && srv.calls[c].Ended? && a.Leave? && srv'.calls[c].result == srv.calls[c].result
                 && srv.calls[c].err != Some(ImportInProgress)
                 && srv'.log
                    == srv.log + [Completed(c, env.now, env.now + a.wait, srv.calls[c].result, srv.calls[c].err)]
                 && srv'.status == Left(srv.status, env.now, env.now + a.wait, srv.calls[c].result, srv.calls[c].err)
               else
                 srv'.log == srv.log && (c in srv.calls ==> !srv.calls[c].Ran?)
                 && srv'.status == srv.status.(running := srv'.status.running)
  {}

  lemma CallStepKeepsReplay(env: Env, srv: Server, c: nat, a: CallAction)
    requires StatusIsReplay(srv) && CallStep(env, srv, c, a).Some?
    ensures StatusIsReplay(CallStep(env, srv, c, a).value.1)
  {
    hide CallStep, StatusIsReplay;
    var srv' := CallStep(env, srv, c, a).value.1;
    CallStepLogs(env, srv, c, a);
    if srv'.calls[c].Begun? {
      AppendKeepsReplay(srv, Admitted(c, env.now), srv');
    } else if srv'.calls[c].Ran? {
      AppendKeepsReplay(srv, Completed(c, env.now, env.now + a.wait, srv.calls[c].result, srv.calls[c].err), srv');
    } else {
      SameReplay(srv, srv');
    }
  }

  lemma SameReplay(srv: Server, srv': Server)
    requires StatusIsReplay(srv) && srv'.log == srv.log
    requires srv'.status == srv.status.(running := srv'.status.running)
    ensures StatusIsReplay(srv')
  {}

  lemma NotYetRecorded(srv: Server, c: nat)
    requires RecordsReturned(srv) && (c in srv.calls ==> !srv.calls[c].Ran?)
    ensures forall i :: !RecordOf(srv, c, i)
  {}

  lemma CallStepKeepsRecords(env: Env, srv: Server, c: nat, a: CallAction)
    requires RecordsReturned(srv) && ReturnedRecorded(srv) && CallStep(env, srv, c, a).Some?
    ensures RecordsReturned(CallStep(env, srv, c, a).value.1) && ReturnedRecorded(CallStep(env, srv, c, a).value.1)
  {
    hide CallStep;
    var srv' := CallStep(env, srv, c, a).value.1;
    CallStepLogs(env, srv, c, a);
    assert forall i | 0 <= i < |srv.log| :: srv'.log[i] == srv.log[i];
    assert forall k, i :: i < |srv.log| ==> (RecordOf(srv', k, i) <==> RecordOf(srv, k, i));
    NotYetRecorded(srv, c);
    if srv'.calls[c].Ran? {
      assert RecordOf(srv', c, |srv.log|);
    }
    forall k | k in srv'.calls && srv'.calls[k].Ran?
      ensures exists i :: RecordOf(srv', k, i)
    {
      if k != c {
        var i :| RecordOf(srv, k, i);
        assert RecordOf(srv', k, i);
      }
    }
  }

  lemma LaterIsFine(now: int, later: int, srv: Server)
    requires WorkerOk(now, srv) && now <= later
    ensures WorkerOk(later, srv)
  {}

  /** The records of completed runs are untouched by what completes none. */
  lemma RecordsUntouched(srv: Server, srv': Server)
    requires RecordsReturned(srv) && ReturnedRecorded(srv) && srv'.calls == srv.calls
    requires srv'.log == srv.log || exists failure :: srv'.log == srv.log + [Reported(failure)]
    ensures RecordsReturned(srv') && ReturnedRecorded(srv')
  {
    assert forall i | 0 <= i < |srv.log| :: srv'.log[i] == srv.log[i];
    forall c, i
      ensures RecordOf(srv', c, i) <==> RecordOf(srv, c, i)
    {}
    forall c | c in srv'.calls && srv'.calls[c].Ran?
      ensures exists i :: RecordOf(srv', c, i)
    {
      var i :| RecordOf(srv, c, i);
      assert RecordOf(srv', c, i);
    }
  }

  lemma SameFlights(srv: Server, srv': Server)
    requires OneInFlight(srv) && srv'.calls == srv.calls && srv'.status.running == srv.status.running
    ensures OneInFlight(srv')
  {
    assert SomeInFlight(srv') <==> SomeInFlight(srv);
  }

  lemma ReportKeepsCooldown(now: int, srv: Server, failure: RunError)
    requires CooledDown(srv.log) && CooldownCovers(now, srv)
    ensures CooledDown(Reporting(srv, failure).log) && CooldownCovers(now, Reporting(srv, failure))
  {}

  lemma ReportKeepsOk(now: int, srv: Server, failure: RunError)
    requires WorkerOk(now, srv)
    ensures WorkerOk(now, Reporting(srv, failure))
  {
    hide OneInFlight, CooledDown, CooldownCovers, StatusIsReplay, RecordsReturned, ReturnedRecorded;
    var srv' := Reporting(srv, failure);
    SameFlights(srv, srv');
    ReportKeepsCooldown(now, srv, failure);
    AppendKeepsReplay(srv, Reported(failure), srv');
    RecordsUntouched(srv, srv');
  }

  lemma CallStepKeepsOk(env: Env, srv: Server, c: nat, a: CallAction)
    requires WorkerOk(env.now, srv) && CallStep(env, srv, c, a).Some?
    ensures var (env', srv') := CallStep(env, srv, c, a).value; env.now <= env'.now && WorkerOk(env'.now, srv')
  {
    hide CallStep, OneInFlight, CooledDown, CooldownCovers, StatusIsReplay, RecordsReturned, ReturnedRecorded;
    CallStepOneInFlight(env, srv, c, a);
    CallStepKeepsCooldown(env, srv, c, a);
    CallStepKeepsReplay(env, srv, c, a);
    CallStepKeepsRecords(env, srv, c, a);
  }

  lemma FreshIsOk(now: int)
    ensures WorkerOk(now, Server(true, FRESH, map[], []))
  {}

  lemma DeadIsOk(now: int, srv: Server)
    requires WorkerOk(now, srv)
    ensures WorkerOk(now, srv.(alive := false))
  {
    hide OneInFlight, RecordsReturned, ReturnedRecorded;
    SameFlights(srv, srv.(alive := false));
    RecordsUntouched(srv, srv.(alive := false));
  }

  /** Which servers a step leaves, and which one it moves. */
  lemma ServersAfter(s: State, e: Step)
    requires Apply(s, e).Some?
    ensures var s' := Apply(s, e).value;
            match e
            case OnCall(p, c, a) =>
              && p in s.servers && CallStep(s.env, s.servers[p], c, a).Some?
              && s'.env == CallStep(s.env, s.servers[p], c, a).value.0
              && s'.servers == s.servers[p := CallStep(s.env, s.servers[p], c, a).value.1]
            case Report(p, failure) =>
              p in s.servers && s'.env == s.env && s'.servers == s.servers[p := Reporting(s.servers[p], failure)]
            case Boot(p, _) => s'.env == s.env && s'.servers == s.servers[p := Server(true, FRESH, map[], [])]
            case Crash(p) =>
              p in s.servers && s'.env == s.env && s'.servers == s.servers[p := s.servers[p].(alive := false)]
            case _ => s.env.now <= s'.env.now && s'.servers == s.servers
  {}

  ghost predicate WorkersOk(s: State)
  {
    forall p <- s.servers :: WorkerOk(s.env.now, s.servers[p])
  }

  lemma StepKeepsWorkers(s: State, e: Step)
    requires WorkersOk(s) && Apply(s, e).Some?
    ensures s.env.now <= Apply(s, e).value.env.now && WorkersOk(Apply(s, e).value)
  {
    hide Apply, CallStep, WorkerOk, Reporting;
    var s' := Apply(s, e).value;
    ServersAfter(s, e);
    match e {
      case OnCall(p, c, a) => CallStepKeepsOk(s.env, s.servers[p], c, a);
      case Report(p, failure) => ReportKeepsOk(s.env.now, s.servers[p], failure);
      case Boot(p, _) => FreshIsOk(s.env.now);
      case Crash(p) => DeadIsOk(s.env.now, s.servers[p]);
      case _ =>
    }
    forall p | p in s.servers
      ensures WorkerOk(s'.env.now, s.servers[p])
    {
      LaterIsFine(s.env.now, s'.env.now, s.servers[p]);
    }
  }

  // ---------------------------------------------------------------- who contacted Instagram

  /** A call that came back without a run of its own. */
  predicate ReturnedEmpty(srv: Server, c: nat)
  {
    c in srv.calls && (srv.calls[c].Skipped? || srv.calls[c].Refused?)
  }

  /** A party that has gone past taking the lock. */
  predicate PastLock(s: State, h: Party)
  {
    match h
    case OfCall(p, c) =>
      && p in s.servers && c in s.servers[p].calls
      && var phase := s.servers[p].calls[c];
         phase.Importing? || phase.Ran? || (phase.Ended? && phase.err != Some(ImportInProgress))
    case OfCommand(k) =>
      && k in s.commands && !s.commands[k].Started?
      && s.commands[k] != Exited(Some(LockHeld)) && s.commands[k] != Exited(Some(LockUnreachable))
  }

  /** Every contact an import made is one of a party that had taken the lock. */
  ghost predicate ContactsPastLock(s: State)
  {
    forall i | 0 <= i < |s.contacts| && s.contacts[i].Made? :: PastLock(s, s.contacts[i].party)
  }

  /** Every contact an import made was made while the lock was held in its own session. */
  ghost predicate ContactsUnderLock(s: State)
  {
    forall i | 0 <= i < |s.contacts| && s.contacts[i].Made? :: s.contacts[i].lock == Some(s.contacts[i].session)
  }

  lemma PastLockStays(s: State, e: Step, h: Party)
    requires Apply(s, e).Some? && PastLock(s, h)
    ensures PastLock(Apply(s, e).value, h)
  {}

  /** A step adds at most one contact: a startup login, or one of a party that holds the lock. */
  lemma ContactsAfter(s: State, e: Step)
    requires Apply(s, e).Some?
    ensures var s' := Apply(s, e).value;
            || s'.contacts == s.contacts
            || (exists p :: s'.contacts == s.contacts + [Startup(p)])
            || exists h :: Holds(s, h) && s'.contacts == s.contacts + [Made(h, SessionOf(s, h), s.env.lock)]
  {
    if e.OnCall? {
      assert Apply(s, e).value.contacts == s.contacts + ContactOf(s, OfCall(e.p, e.c), e.action.Fetch?);
    } else if e.OnCommand? {
      assert Apply(s, e).value.contacts
          == s.contacts + ContactOf(s, OfCommand(e.k), e.command.LogIn? || e.command.Request?);
    }
  }

  lemma StepKeepsContacts(s: State, e: Step)
    requires ContactsPastLock(s) && Apply(s, e).Some?
    ensures ContactsPastLock(Apply(s, e).value)
    ensures ContactsUnderLock(s) && AllOwn(s) ==> ContactsUnderLock(Apply(s, e).value)
  {
    hide Apply;
    var s' := Apply(s, e).value;
    ContactsAfter(s, e);
    forall i | 0 <= i < |s'.contacts| && s'.contacts[i].Made?
      ensures PastLock(s', s'.contacts[i].party)
    {
      PastLockStays(s, e, s'.contacts[i].party);
    }
  }

  // ---------------------------------------------------------------- the invariants

  /** What every interleaving keeps. */
  ghost predicate Inv(s: State)
  {
    SessionsApart(s) && WorkersOk(s) && ContactsPastLock(s)
  }

  /** What every interleaving keeps in which no holder loses its session. */
  ghost predicate UnbrokenInv(s: State)
  {
    Inv(s) && AllOwn(s) && ContactsUnderLock(s)
  }

  lemma StepKeepsInv(s: State, e: Step)
    requires Inv(s) && Apply(s, e).Some?
    ensures Inv(Apply(s, e).value)
    ensures UnbrokenInv(s) && !LosesHolder(s, e) ==> UnbrokenInv(Apply(s, e).value)
  {
    hide Apply, SessionsApart, WorkersOk, ContactsPastLock, ContactsUnderLock, AllOwn, LosesHolder;
    StepKeepsApart(s, e);
    StepKeepsWorkers(s, e);
    StepKeepsContacts(s, e);
  }

  lemma InvsAreInductive()
    ensures Inductive(Apply, Inv) && Inductive(Unbroken, UnbrokenInv)
  {
    hide Apply, Inv, LosesHolder;
    forall s, e | Inv(s) && Apply(s, e).Some?
      ensures Inv(Apply(s, e).value)
    {
      StepKeepsInv(s, e);
    }
    forall s, e | UnbrokenInv(s) && Unbroken(s, e).Some?
      ensures UnbrokenInv(Unbroken(s, e).value)
    {
      StepKeepsInv(s, e);
    }
  }

  lemma ReachableInv(s: State)
    requires Reachable(s)
    ensures Inv(s)
  {
    InvsAreInductive();
    ReachedKeeps(Apply, Inv, INITIAL, s);
  }

  lemma UnbrokenReachableInv(s: State)
    requires Reaches(Unbroken, INITIAL, s)
    ensures UnbrokenInv(s)
  {
    InvsAreInductive();
    ReachedKeeps(Unbroken, UnbrokenInv, INITIAL, s);
  }
}
