/** How `server.Run` ends: the HTTP server, the worker's goroutines, the goroutine that drains both, and
    Run itself, whose return closes the database pool. Every party moves one step at a time, in any
    order the waits allow. */
module Shutdown {
  import opened StateMachine
  import opened Wrappers

  /** Run itself. Returned means the deferred pool.Close has run. */
  datatype Main = Building | WorkerStarted | Launched | Serving | ListenFailed | Joining | Returned

  /** The goroutine that drains; it is Absent until Run launches it. */
  datatype Drain = Absent | Watching | ShuttingDown | AwaitingWorker | Closed

  datatype Loop = NoLoop | Idle | InRun | Exited

  /** An accepted connection: between requests, or in a handler. */
  datatype Conn = Quiet | Handling

  datatype State = State(main: Main, drain: Drain, cancelled: bool, expired: bool,
                         worker: bool, loop: Loop, triggered: nat, conns: map<nat, Conn>)

  /** The pool has just been opened, and the worker built if an account is configured. */
  function Initial(worker: bool): State
  {
    State(Building, Absent, false, false, worker, NoLoop, 0, map[])
  }

  datatype Step =
    | Cancel                        // the caller's context ends
    | Expire                        // the ten-second budget is used up
    | BuildFails
    | StartWorker(scheduled: bool)
    | LaunchDrain
    | Listen(ok: bool)
    | AcceptFails
    | StopListening                 // ListenAndServe returns because of Shutdown
    | GiveUp                        // the listen-failure path cancels
    | Return
    | Accept(c: nat)
    | BeginRequest(c: nat)
    | Trigger(c: nat)
    | EndRequest(c: nat, keep: bool)
    | CloseIdle(c: nat)
    | BeginShutdown
    | Drained                       // srv.Shutdown returns nil
    | DrainExpires                  // srv.Shutdown returns the budget's error
    | WorkerDone                    // worker.Wait returns nil
    | WaitExpires                   // worker.Wait returns the budget's error
    | TickRun
    | TickRunEnds
    | LoopExits
    | TriggeredRunEnds

  predicate ShutdownCalled(s: State)
  {
    s.drain.ShuttingDown? || s.drain.AwaitingWorker? || s.drain.Closed?
  }

  /** The worker's WaitGroup is at zero. */
  predicate NothingCounted(s: State)
  {
    s.triggered == 0 && !s.loop.Idle? && !s.loop.InRun?
  }

  function AfterDrain(s: State): State
  {
    s.(drain := if s.worker then AwaitingWorker else Closed)
  }

  function MainStep(s: State, e: Step): Option<State>
  {
    match e
    case BuildFails => if s.main.Building? then Some(s.(main := Returned)) else None
    case StartWorker(scheduled) =>
      if s.main.Building? then Some(s.(main := WorkerStarted, loop := if s.worker && scheduled then Idle else NoLoop))
      else None
    case LaunchDrain =>
      if s.main.WorkerStarted? then Some(s.(main := Launched, drain := Watching)) else None
    case Listen(ok) =>
      if !s.main.Launched? then None
      else Some(s.(main := if ShutdownCalled(s) then Joining else if ok then Serving else ListenFailed))
    case AcceptFails => if s.main.Serving? && !ShutdownCalled(s) then Some(s.(main := ListenFailed)) else None
    case StopListening => if s.main.Serving? && ShutdownCalled(s) then Some(s.(main := Joining)) else None
    case GiveUp => if s.main.ListenFailed? then Some(s.(main := Joining, cancelled := true)) else None
    case Return => if s.main.Joining? && s.drain.Closed? then Some(s.(main := Returned)) else None
    case _ => None
  }

  function HTTPStep(s: State, e: Step): Option<State>
  {
    match e
    case Accept(c) =>
      if s.main.Serving? && !ShutdownCalled(s) && c !in s.conns then Some(s.(conns := s.conns[c := Quiet])) else None
    case BeginRequest(c) =>
      if c in s.conns && s.conns[c].Quiet? then Some(s.(conns := s.conns[c := Handling])) else None
    case Trigger(c) =>
      if c in s.conns && s.conns[c].Handling? && s.worker then Some(s.(triggered := s.triggered + 1)) else None
    case EndRequest(c, keep) =>
      if !(c in s.conns && s.conns[c].Handling?) then None
      else if keep && !ShutdownCalled(s) then Some(s.(conns := s.conns[c := Quiet]))
      else Some(s.(conns := s.conns - {c}))
    case CloseIdle(c) =>
      if c in s.conns && s.conns[c].Quiet? then Some(s.(conns := s.conns - {c})) else None
    case _ => None
  }

  function DrainStep(s: State, e: Step): Option<State>
  {
    match e
    case BeginShutdown => if s.drain.Watching? && s.cancelled then Some(s.(drain := ShuttingDown)) else None
    case Drained => if s.drain.ShuttingDown? && s.conns == map[] then Some(AfterDrain(s)) else None
    case DrainExpires => if s.drain.ShuttingDown? && s.expired then Some(AfterDrain(s)) else None
    case WorkerDone => if s.drain.AwaitingWorker? && NothingCounted(s) then Some(s.(drain := Closed)) else None
    case WaitExpires => if s.drain.AwaitingWorker? && s.expired then Some(s.(drain := Closed)) else None
    case _ => None
  }

  function WorkerStep(s: State, e: Step): Option<State>
  {
    match e
    case TickRun => if s.loop.Idle? then Some(s.(loop := InRun)) else None
    case TickRunEnds => if s.loop.InRun? then Some(s.(loop := Idle)) else None
    case LoopExits => if s.loop.Idle? && s.cancelled then Some(s.(loop := Exited)) else None
    case TriggeredRunEnds => if s.triggered > 0 then Some(s.(triggered := s.triggered - 1)) else None
    case _ => None
  }

  function Apply(s: State, e: Step): Option<State>
  {
    match e
    case Cancel => Some(s.(cancelled := true))
    case Expire => if ShutdownCalled(s) then Some(s.(expired := true)) else None
    case BuildFails | StartWorker(_) | LaunchDrain | Listen(_) | AcceptFails | StopListening | GiveUp | Return =>
      MainStep(s, e)
    case Accept(_) | BeginRequest(_) | Trigger(_) | EndRequest(_, _) | CloseIdle(_) => HTTPStep(s, e)
    case BeginShutdown | Drained | DrainExpires | WorkerDone | WaitExpires => DrainStep(s, e)
    case TickRun | TickRunEnds | LoopExits | TriggeredRunEnds => WorkerStep(s, e)
  }

  ghost predicate Reachable(s: State)
  {
    Reaches(Apply, Initial(true), s) || Reaches(Apply, Initial(false), s)
  }

  // ---------------------------------------------------------------- the invariant

  /** Nothing of the process uses the database any more. */
  predicate AllQuiet(s: State)
  {
    s.conns == map[] && NothingCounted(s)
  }

  predicate BeforeServing(m: Main)
  {
    m.Building? || m.WorkerStarted? || m.Launched?
  }

  ghost predicate Inv(s: State)
  {
    && (s.main.Building? || s.main.WorkerStarted? ==> s.drain.Absent?)
    && (s.drain.Absent? ==> s.conns == map[] && s.triggered == 0 && !s.expired)
    && (s.drain.Absent? ==> s.main.Building? || s.main.WorkerStarted? || (s.main.Returned? && s.loop.NoLoop?))
    && (s.main.Building? ==> s.loop.NoLoop?)
    && (BeforeServing(s.main) ==> s.conns == map[])
    && (!s.worker ==> NothingCounted(s))
    && (ShutdownCalled(s) ==> s.cancelled)
    && (s.main.Joining? ==> s.cancelled)
    && (s.main.Returned? && !s.drain.Absent? ==> s.drain.Closed?)
    && (s.drain.AwaitingWorker? && !s.expired ==> s.conns == map[])
    && (s.drain.Closed? && !s.expired ==> AllQuiet(s))
    && (s.expired ==> ShutdownCalled(s))
    && (s.loop.Exited? ==> s.cancelled)
  }

  lemma MainKeepsInv(s: State, e: Step)
    requires Inv(s) && MainStep(s, e).Some?
    ensures Inv(MainStep(s, e).value)
  {}

  lemma HTTPKeepsInv(s: State, e: Step)
    requires Inv(s) && HTTPStep(s, e).Some?
    ensures Inv(HTTPStep(s, e).value)
  {}

  lemma DrainKeepsInv(s: State, e: Step)
    requires Inv(s) && DrainStep(s, e).Some?
    ensures Inv(DrainStep(s, e).value)
  {}

  lemma WorkerKeepsInv(s: State, e: Step)
    requires Inv(s) && WorkerStep(s, e).Some?
    ensures Inv(WorkerStep(s, e).value)
  {}

  lemma StepKeepsInv(s: State, e: Step)
    requires Inv(s) && Apply(s, e).Some?
    ensures Inv(Apply(s, e).value)
  {
    if MainStep(s, e).Some? {
      MainKeepsInv(s, e);
    }
    if HTTPStep(s, e).Some? {
      HTTPKeepsInv(s, e);
    }
    if DrainStep(s, e).Some? {
      DrainKeepsInv(s, e);
    }
    if WorkerStep(s, e).Some? {
      WorkerKeepsInv(s, e);
    }
  }

  lemma InvIsInductive()
    ensures Inductive(Apply, Inv)
  {
    forall s, e | Inv(s) && Apply(s, e).Some?
      ensures Inv(Apply(s, e).value)
    {
      StepKeepsInv(s, e);
    }
  }

  lemma ReachableInv(s: State)
    requires Reachable(s)
    ensures Inv(s)
  {
    InvIsInductive();
    ReachedKeeps(Apply, Inv, Initial(Reaches(Apply, Initial(true), s)), s);
  }

  // ---------------------------------------------------------------- what shutting down promises

  /** On every path - cancelled, failing to listen, or failing before it - the pool is closed only when
      no handler, no schedule loop and no triggered import is left, unless the budget ran out. */
  lemma PoolOutlivesItsUsers(s: State)
    requires Reachable(s) && s.main.Returned? && !s.expired
    ensures AllQuiet(s)
  {
    ReachableInv(s);
  }

  /** Nor does anything start afterwards: no party of the process can move any more. */
  lemma QuietForGood(s: State, e: Step)
    requires Reachable(s) && s.main.Returned? && !s.expired && Apply(s, e).Some?
    ensures e.Cancel? || e.Expire?
  {
    ReachableInv(s);
    QuietIsStill(s, e);
  }

  lemma QuietIsStill(s: State, e: Step)
    requires AllQuiet(s)
    ensures s.main.Returned? ==> MainStep(s, e).None?
    ensures HTTPStep(s, e).Some? ==> e.Accept?
    ensures s.main.Returned? ==> HTTPStep(s, e).None?
    ensures s.drain.Closed? || s.drain.Absent? ==> DrainStep(s, e).None?
    ensures WorkerStep(s, e).None?
  {}

  /** Once the wait for the worker begins within the budget, no handler can trigger an import. */
  lemma NoTriggerDuringWait(s: State, c: nat)
    requires Reachable(s) && !s.expired && (s.drain.AwaitingWorker? || s.drain.Closed?)
    ensures Apply(s, Trigger(c)).None? && Apply(s, Accept(c)).None? && Apply(s, BeginRequest(c)).None?
  {
    ReachableInv(s);
  }

  /** A failure before the worker starts leaves nothing behind to wait for. */
  lemma EarlyReturnStartedNothing(s: State)
    requires Reachable(s) && s.main.Returned? && s.drain.Absent?
    ensures AllQuiet(s) && s.loop.NoLoop?
  {
    ReachableInv(s);
  }

  /** The schedule stops for nothing but a cancellation. */
  lemma ScheduleRunsOn(s: State)
    requires Reachable(s) && s.loop.Exited?
    ensures s.cancelled
  {
    ReachableInv(s);
  }

  /** The connections go away one by one: requests end, idle connections are closed. */
  lemma {:induction false} HandlersEnd(start: State, s: State) returns (end: State)
    requires Reaches(Apply, start, s)
    ensures Reaches(Apply, start, end) && end == s.(conns := map[])
    decreases |s.conns|
  {
    if c :| c in s.conns {
      var next := Then(Apply, start, s, if s.conns[c].Handling? then EndRequest(c, false) else CloseIdle(c));
      assert next == s.(conns := s.conns - {c});
      assert |s.conns.Keys - {c}| == |s.conns| - 1 && next.conns.Keys == s.conns.Keys - {c};
      end := HandlersEnd(start, next);
    } else {
      assert s.conns == map[];
      end := s;
    }
  }

  /** The triggered imports end one by one, then the schedule's, and the cancelled loop exits. */
  lemma {:induction false} RunsEnd(start: State, s: State) returns (end: State)
    requires Reaches(Apply, start, s) && s.cancelled
    ensures Reaches(Apply, start, end) && NothingCounted(end)
    ensures end == s.(triggered := 0, loop := end.loop)
    decreases s.triggered
  {
    if s.triggered > 0 {
      var next := Then(Apply, start, s, TriggeredRunEnds);
      end := RunsEnd(start, next);
    } else {
      end := s;
      if end.loop.InRun? {
        end := Then(Apply, start, end, TickRunEnds);
      }
      if end.loop.Idle? {
        end := Then(Apply, start, end, LoopExits);
      }
    }
  }

  /** Once Run has been cancelled or has failed to listen, it returns within the budget as soon as the
      handlers and the imports that are running end: no waiting party needs the budget to run out. */
  lemma ReturnsOnceWorkEnds(s: State) returns (end: State)
    requires Reachable(s) && !s.expired && !s.drain.Absent? && !s.main.Returned?
    requires s.cancelled || s.main.ListenFailed?
    ensures Reaches(Apply, s, end) && end.main.Returned? && !end.expired
  {
    ReachableInv(s);
    Here(Apply, s);
    end := s;
    if end.main.ListenFailed? {
      end := Then(Apply, s, end, GiveUp);
    }
    if end.drain.Watching? {
      end := Then(Apply, s, end, BeginShutdown);
    }
    end := HandlersEnd(s, end);
    end := RunsEnd(s, end);
    end := Drains(s, end);
    end := Joins(s, end);
  }

  lemma Drains(start: State, s: State) returns (end: State)
    requires Reaches(Apply, start, s) && ShutdownCalled(s) && AllQuiet(s)
    ensures Reaches(Apply, start, end) && end == s.(drain := Closed)
  {
    end := s;
    if end.drain.ShuttingDown? {
      end := Then(Apply, start, end, Drained);
    }
    if end.drain.AwaitingWorker? {
      end := Then(Apply, start, end, WorkerDone);
    }
  }

  lemma Joins(start: State, s: State) returns (end: State)
    requires Reaches(Apply, start, s) && s.drain.Closed?
    requires s.main.Launched? || s.main.Serving? || s.main.Joining?
    ensures Reaches(Apply, start, end) && end == s.(main := Returned)
  {
    end := s;
    if end.main.Launched? {
      end := Then(Apply, start, end, Listen(true));
    } else if end.main.Serving? {
      end := Then(Apply, start, end, StopListening);
    }
    end := Then(Apply, start, end, Return);
  }

  /** The last resort: from any state in which Run is joining, the budget's end is enough for it to
      return, whatever is still running. */
  lemma BudgetEndsTheWait(s: State) returns (end: State)
    requires Reachable(s) && s.main.Joining?
    ensures Reaches(Apply, s, end) && end.main.Returned?
  {
    ReachableInv(s);
    Here(Apply, s);
    end := s;
    if end.drain.Watching? {
      end := Then(Apply, s, end, BeginShutdown);
    }
    if !end.drain.Closed? {
      end := DrainGivesUp(s, end);
    }
    end := Joins(s, end);
  }

  lemma DrainGivesUp(start: State, s: State) returns (end: State)
    requires Reaches(Apply, start, s) && (s.drain.ShuttingDown? || s.drain.AwaitingWorker?)
    ensures Reaches(Apply, start, end) && end == s.(drain := Closed, expired := true)
  {
    end := Then(Apply, start, s, Expire);
    if end.drain.ShuttingDown? {
      end := Then(Apply, start, end, DrainExpires);
    }
    if end.drain.AwaitingWorker? {
      end := Then(Apply, start, end, WaitExpires);
    }
  }

  /** The logged exception is real: if the budget runs out, the pool is closed under a running import. */
  lemma ExpiryAbandonsAnImport() returns (s: State)
    ensures Reachable(s) && s.main.Returned? && s.expired && s.triggered == 1
  {
    var start := Initial(true);
    s := BudgetSpent(start);
    s := Then(Apply, start, s, WaitExpires);
    s := Then(Apply, start, s, StopListening);
    s := Then(Apply, start, s, Return);
  }

  /** The wait is real: a run of the schedule keeps Run from returning, within the budget, until it ends. */
  lemma ScheduledRunIsAwaited() returns (s: State)
    ensures Reachable(s) && s.drain.AwaitingWorker? && s.loop.InRun? && !s.expired
    ensures Apply(s, WorkerDone).None? && Apply(s, Return).None?
    ensures Run(Apply, s, [TickRunEnds, LoopExits]).Some?
    ensures Apply(Run(Apply, s, [TickRunEnds, LoopExits]).value, WorkerDone).Some?
  {
    var start := Initial(true);
    s := ScheduledRun(start);
    s := Then(Apply, start, s, Cancel);
    s := Then(Apply, start, s, BeginShutdown);
    s := Then(Apply, start, s, Drained);
    RunIsAwaited(s);
  }

  lemma ScheduledRun(start: State) returns (s: State)
    requires start == Initial(true)
    ensures Reaches(Apply, start, s)
    ensures s == State(Launched, Watching, false, false, true, InRun, 0, map[])
  {
    Here(Apply, start);
    s := Then(Apply, start, start, StartWorker(true));
    s := Then(Apply, start, s, LaunchDrain);
    s := Then(Apply, start, s, TickRun);
  }

  lemma RunIsAwaited(s: State)
    requires s.drain.AwaitingWorker? && s.loop.InRun? && s.triggered == 0 && s.cancelled && !s.main.Returned?
    ensures Apply(s, WorkerDone).None? && Apply(s, Return).None?
    ensures Run(Apply, s, [TickRunEnds, LoopExits]).Some?
    ensures Apply(Run(Apply, s, [TickRunEnds, LoopExits]).value, WorkerDone).Some?
  {
    TwoSteps(Apply, s, TickRunEnds, LoopExits);
  }

  lemma BudgetSpent(start: State) returns (s: State)
    requires start == Initial(true)
    ensures Reaches(Apply, start, s) && s.main.Serving? && s.drain.AwaitingWorker? && s.expired && s.triggered == 1
  {
    s := ImportTriggered(start);
    s := Then(Apply, start, s, Cancel);
    s := Then(Apply, start, s, BeginShutdown);
    s := Then(Apply, start, s, Expire);
    s := Then(Apply, start, s, DrainExpires);
  }

  lemma ImportTriggered(start: State) returns (s: State)
    requires start == Initial(true)
    ensures Reaches(Apply, start, s) && s.main.Serving? && s.drain.Watching? && s.triggered == 1 && s.worker
  {
    Here(Apply, start);
    s := Then(Apply, start, start, StartWorker(false));
    s := Then(Apply, start, s, LaunchDrain);
    s := Then(Apply, start, s, Listen(true));
    s := Then(Apply, start, s, Accept(0));
    s := Then(Apply, start, s, BeginRequest(0));
    s := Then(Apply, start, s, Trigger(0));
  }
}
