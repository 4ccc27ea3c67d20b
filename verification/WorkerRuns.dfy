/** What each server's worker promises over whole runs: one run at a time, its cooldown, its status. */
module WorkerRuns {
  import opened StateMachine
  import opened Wrappers
  import opened ImportOutcome
  import opened ImportWorker
  import opened ImportProtocol

  /** Each worker has at most one run in flight, and its running flag says so. */
  lemma SingleFlight(s: State, p: nat)
    requires Reachable(s) && p in s.servers
    ensures OneInFlight(s.servers[p])
  {
    ReachableInv(s);
    assert WorkerOk(s.env.now, s.servers[p]);
  }

  /** No worker admits a run within half an hour of a rate limit it recorded. */
  lemma CooldownRespected(s: State, p: nat, i: nat, j: nat)
    requires Reachable(s) && p in s.servers && i < j < |s.servers[p].log|
    requires Throttled(s.servers[p].log[i]) && s.servers[p].log[j].Admitted?
    ensures s.servers[p].log[j].at >= s.servers[p].log[i].later + COOLDOWN
  {
    ReachableInv(s);
    assert WorkerOk(s.env.now, s.servers[p]);
  }

  /** When a call may start a run: exactly when none of the server's calls is in one, and half an hour has passed
      since every rate limit on record. Otherwise it is turned away at once. */
  lemma AdmittedExactly(s: State, p: nat, c: nat)
    requires Reachable(s) && p in s.servers && s.servers[p].alive
    requires c in s.servers[p].calls && s.servers[p].calls[c].Asked?
    ensures var srv := s.servers[p];
            var free := (forall k | k in srv.calls ::
                           !srv.calls[k].Begun? && !srv.calls[k].Importing? && !srv.calls[k].Ended?)
                        && (forall i | 0 <= i < |srv.log| && Throttled(srv.log[i]) ::
                              srv.log[i].later + 30 * 60_000_000_000 <= s.env.now);
            var s' := Apply(s, OnCall(p, c, CallAction.Enter));
            s'.Some? && p in s'.value.servers && c in s'.value.servers[p].calls
            && s'.value.servers[p].calls[c] == if free then Begun else Skipped
  {
    hide Reachable, WorkerOk, Admissible, CallStep, Throttled;
    ReachableInv(s);
    var srv := s.servers[p];
    assert WorkerOk(s.env.now, srv);
    FreeIsAdmissible(s.env.now, srv);
    EnterStep(s.env, srv, c);
  }

  lemma EnterStep(env: Env, srv: Server, c: nat)
    requires c in srv.calls && srv.calls[c].Asked?
    ensures var r := CallStep(env, srv, c, CallAction.Enter);
            && r.Some? && r.value.1.calls == srv.calls[c := if Admissible(srv.status, env.now) then Begun else Skipped]
  {}

  lemma FreeIsAdmissible(now: int, srv: Server)
    requires WorkerOk(now, srv)
    ensures Admissible(srv.status, now) <==>
              && (forall k | k in srv.calls :: !srv.calls[k].Begun? && !srv.calls[k].Importing? && !srv.calls[k].Ended?)
              && forall i | 0 <= i < |srv.log| && Throttled(srv.log[i]) ::
                   srv.log[i].later + 30 * 60_000_000_000 <= now
  {
    hide CooledDown, RecordsReturned, ReturnedRecorded;
    CooldownIsOnRecord(srv.log);
    assert srv.status.cooldownUntil == Replay(srv.log).cooldownUntil;
    if k :| k in srv.calls && (srv.calls[k].Begun? || srv.calls[k].Importing? || srv.calls[k].Ended?) {
      assert InFlight(srv.calls[k]);
    }
  }

  /** How a run that has the lock ends: what it returned is what the worker shows from then on, a rate limit
      starts half an hour of cooldown when it is recorded, and any other outcome leaves the cooldown alone. */
  lemma FinishedRunShows(s: State, p: nat, c: nat, result: ImportResult, err: Option<RunError>, closed: bool, wait: nat)
    requires p in s.servers && s.servers[p].alive && c in s.servers[p].calls && s.servers[p].calls[c].Importing?
    requires err != Some(ImportInProgress)
    ensures var end := Run(Apply, s, [OnCall(p, c, Finish(result, err, closed)), OnCall(p, c, CallAction.Leave(wait))]);
            && end.Some? && p in end.value.servers && c in end.value.servers[p].calls
            && end.value.servers[p].calls[c] == Ran(result)
            && var was, shown := s.servers[p].status, end.value.servers[p].status;
               && shown.lastRun == Some(s.env.now) && shown.lastResult == result && shown.lastErr == err
               && !shown.running
               && shown.cooldownUntil == if err == Some(FetchFailed(true))
                                         then Some(s.env.now + wait + 30 * 60_000_000_000) else was.cooldownUntil
  {
    TwoSteps(Apply, s, OnCall(p, c, Finish(result, err, closed)), OnCall(p, c, CallAction.Leave(wait)));
  }

  /** A run that could not ask for the lock ends as failed, with nothing to its tally; it is not taken for a
      refusal. */
  lemma UnreachableLockShows(s: State, p: nat, c: nat, wait: nat)
    requires p in s.servers && s.servers[p].alive && c in s.servers[p].calls && s.servers[p].calls[c].Begun?
    ensures var end := Run(Apply, s, [OnCall(p, c, TryLock(false)), OnCall(p, c, CallAction.Leave(wait))]);
            && end.Some? && p in end.value.servers && c in end.value.servers[p].calls
            && end.value.env.lock == s.env.lock && end.value.servers[p].calls[c] == Ran(NOTHING)
            && var shown := end.value.servers[p].status;
               shown.lastRun == Some(s.env.now) && shown.lastResult == NOTHING && shown.lastErr == Some(LockFailed)
  {
    TwoSteps(Apply, s, OnCall(p, c, TryLock(false)), OnCall(p, c, CallAction.Leave(wait)));
  }

  /** The error a worker shows is that of its last completed run, or of a failure reported since. */
  lemma StatusTellsLastError(s: State, p: nat)
    requires Reachable(s) && p in s.servers
    ensures var srv := s.servers[p];
            || (srv.status.lastErr == None && forall i | 0 <= i < |srv.log| :: srv.log[i].Admitted?)
            || exists i :: LastNoted(srv.log, i) && srv.status.lastErr == NotedError(srv.log[i])
  {
    ReachableInv(s);
    assert WorkerOk(s.env.now, s.servers[p]);
    ErrorIsLastNoted(s.servers[p].log);
  }

  predicate NotEarlier(a: Option<int>, b: Option<int>)
  {
    a.Some? ==> b.Some? && a.value <= b.value
  }

  lemma CallStepCooldown(env: Env, srv: Server, c: nat, a: CallAction)
    requires CooldownCovers(env.now, srv) && CallStep(env, srv, c, a).Some?
    ensures NotEarlier(srv.status.cooldownUntil, CallStep(env, srv, c, a).value.1.status.cooldownUntil)
  {}

  lemma StepCooldown(s: State, e: Step, p: nat)
    requires WorkersOk(s) && Apply(s, e).Some? && p in s.servers
    ensures var s' := Apply(s, e).value;
            p in s'.servers && NotEarlier(s.servers[p].status.cooldownUntil, s'.servers[p].status.cooldownUntil)
  {
    hide CallStep;
    assert WorkerOk(s.env.now, s.servers[p]);
    ServersAfter(s, e);
    if e.OnCall? && e.p == p {
      CallStepCooldown(s.env, s.servers[p], e.c, e.action);
    }
  }

  /** The end of a worker's cooldown never moves back. */
  lemma {:induction false} CooldownNeverMovesBack(s: State, steps: seq<Step>, p: nat)
    requires Inv(s) && Run(Apply, s, steps).Some? && p in s.servers
    ensures var s' := Run(Apply, s, steps).value;
            p in s'.servers && NotEarlier(s.servers[p].status.cooldownUntil, s'.servers[p].status.cooldownUntil)
    decreases |steps|
  {
    hide Apply;
    if steps != [] {
      StepCooldown(s, steps[0], p);
      StepKeepsInv(s, steps[0]);
      CooldownNeverMovesBack(Apply(s, steps[0]).value, steps[1..], p);
    }
  }

  /** Whatever calls were skipped or refused in between, the status tells of the last run that really
      completed: its time and its tally together. */
  lemma StatusTellsOneRun(s: State, p: nat)
    requires Reachable(s) && p in s.servers
    ensures var srv := s.servers[p];
            || (srv.status.lastRun == None && srv.status.lastResult == NOTHING)
            || exists i :: LastCompleted(srv.log, i) && srv.status.lastRun == Some(srv.log[i].at)
                           && srv.status.lastResult == srv.log[i].result
  {
    ReachableInv(s);
    assert WorkerOk(s.env.now, s.servers[p]);
    StatusIsLastRun(s.servers[p].log);
  }

  /** What Status shows but for whether a run is in flight. */
  function Shown(status: Status): Status
  {
    status.(running := false)
  }

  /** A call that has returned a result stays returned. */
  lemma StepKeepsRan(s: State, e: Step, p: nat, c: nat)
    requires Apply(s, e).Some? && p in s.servers && c in s.servers[p].calls && s.servers[p].calls[c].Ran?
    ensures var s' := Apply(s, e).value;
            p in s'.servers && c in s'.servers[p].calls && s'.servers[p].calls[c].Ran?
  {}

  lemma {:induction false} RanForGood(s: State, steps: seq<Step>, p: nat, c: nat)
    requires Run(Apply, s, steps).Some? && p in s.servers && c in s.servers[p].calls && s.servers[p].calls[c].Ran?
    ensures var s' := Run(Apply, s, steps).value;
            p in s'.servers && c in s'.servers[p].calls && s'.servers[p].calls[c].Ran?
    decreases |steps|
  {
    hide Apply;
    if steps != [] {
      StepKeepsRan(s, steps[0], p, c);
      RanForGood(Apply(s, steps[0]).value, steps[1..], p, c);
    }
  }

  /** A step of a call that changes what its worker shows is the call's return with a result of its own. */
  lemma ShowingStepReturns(s: State, p: nat, c: nat, a: CallAction)
    requires Apply(s, OnCall(p, c, a)).Some?
    ensures p in s.servers
    ensures var s' := Apply(s, OnCall(p, c, a)).value;
            && p in s'.servers && c in s'.servers[p].calls
            && (Shown(s'.servers[p].status) != Shown(s.servers[p].status) ==> s'.servers[p].calls[c].Ran?)
  {}

  /** A call that comes back without having run - skipped, or refused by the lock - leaves no trace: along
      every run, each step it took changed nothing of what its worker shows, whatever happened before,
      between and after. */
  lemma EmptyCallsLeaveNoTrace(s: State, p: nat, c: nat, a: CallAction, steps: seq<Step>)
    requires Apply(s, OnCall(p, c, a)).Some? && Run(Apply, Apply(s, OnCall(p, c, a)).value, steps).Some?
    requires var end := Run(Apply, Apply(s, OnCall(p, c, a)).value, steps).value;
             p in end.servers && ReturnedEmpty(end.servers[p], c)
    ensures p in s.servers
    ensures var s' := Apply(s, OnCall(p, c, a)).value;
            p in s'.servers && Shown(s'.servers[p].status) == Shown(s.servers[p].status)
  {
    hide Apply;
    ShowingStepReturns(s, p, c, a);
    var s' := Apply(s, OnCall(p, c, a)).value;
    if s'.servers[p].calls[c].Ran? {
      RanForGood(s', steps, p, c);
    }
  }

  /** Nor does the status rest on anything the history has of such a call. */
  lemma EmptyCallsNotInStatus(s: State, p: nat, c: nat)
    requires Reachable(s) && p in s.servers && ReturnedEmpty(s.servers[p], c)
    ensures Shown(s.servers[p].status) == Shown(Replay(Without(s.servers[p].log, c)))
  {
    ReachableInv(s);
    var srv := s.servers[p];
    assert WorkerOk(s.env.now, srv);
    forall i | 0 <= i < |srv.log| && srv.log[i].Completed?
      ensures srv.log[i].call != c
    {
      assert srv.calls[srv.log[i].call].Ran?;
    }
    StatusIgnoresEmptyCalls(srv.log, c);
  }

  /** And a call that returned a result of its own is on record exactly once, with that very result. */
  lemma RanIsRecorded(s: State, p: nat, c: nat)
    requires Reachable(s) && p in s.servers && c in s.servers[p].calls && s.servers[p].calls[c].Ran?
    ensures var srv := s.servers[p];
            exists i :: RecordOf(srv, c, i) && srv.log[i].result == srv.calls[c].result
                        && forall j :: RecordOf(srv, c, j) ==> j == i
  {
    ReachableInv(s);
    var srv := s.servers[p];
    assert WorkerOk(s.env.now, srv);
    var i :| RecordOf(srv, c, i);
    assert srv.calls[srv.log[i].call] == Ran(srv.log[i].result);
  }
}
