/** The worker's bookkeeping: each method is one section its mutex guards, and the first and the last
    one enclose a run. */
module ImportWorker {
  import opened Wrappers
  import opened ImportOutcome

  const MINUTE := 60_000_000_000
  /** rateLimitCooldown */
  const COOLDOWN := 30 * MINUTE

  /** What Status reports. A missing time is Go's zero time. */
  datatype Status = Status(lastRun: Option<int>, lastResult: ImportResult, lastErr: Option<RunError>,
                           running: bool, cooldownUntil: Option<int>)

  const FRESH := Status(None, NOTHING, None, false, None)

  predicate CoolingDown(s: Status, now: int)
  {
    s.cooldownUntil.Some? && now < s.cooldownUntil.value
  }

  /** A run may start: none is in flight, and no rate limit is being waited out. */
  predicate Admissible(s: Status, now: int)
  {
    !s.running && !CoolingDown(s, now)
  }

  function Entered(s: Status): Status
  {
    s.(running := true)
  }

  /** The end of a run: a refusal by the import lock is forgotten, any other outcome recorded at one
      moment, and a rate limit starts the cooldown at the next. */
  function Left(s: Status, at: int, later: int, result: ImportResult, err: Option<RunError>): Status
  {
    if err == Some(ImportInProgress) then s.(running := false)
    else
      Status(Some(at), result, err, false,
             if err.Some? && RateLimited(err.value) then Some(later + COOLDOWN) else s.cooldownUntil)
  }

  class Worker {
    var lastRun: Option<int>
    var lastResult: ImportResult
    var lastErr: Option<RunError>
    var running: bool
    var cooldownUntil: Option<int>

    constructor ()
      ensures View() == FRESH
    {
      lastRun, lastResult, lastErr, running, cooldownUntil := None, NOTHING, None, false, None;
    }

    ghost function View(): Status
      reads this
    {
      Status(lastRun, lastResult, lastErr, running, cooldownUntil)
    }

    /** The first section of RunOnce. */
    method Enter(now: int) returns (admitted: bool)
      modifies this
      ensures admitted <==> Admissible(old(View()), now)
      ensures View() == if admitted then Entered(old(View())) else old(View())
    {
      if running {
        return false;
      }
      if cooldownUntil.Some? && cooldownUntil.value - now > 0 {
        return false;
      }
      running := true;
      admitted := true;
    }

    /** The last section of RunOnce; at and later are its two looks at the clock. */
    method Leave(at: int, later: int, result: ImportResult, err: Option<RunError>) returns (ran: bool)
      modifies this
      ensures ran <==> err != Some(ImportInProgress)
      ensures View() == Left(old(View()), at, later, result, err)
    {
      if err == Some(ImportInProgress) {
        running := false;
        return false;
      }
      running := false;
      lastRun := Some(at);
      lastResult := result;
      lastErr := err;
      if err.Some? && RateLimited(err.value) {
        cooldownUntil := Some(later + COOLDOWN);
      }
      ran := true;
    }

    method RecordFailure(err: RunError)
      modifies this
      ensures View() == old(View()).(lastErr := Some(err))
    {
      lastErr := Some(err);
    }

    /** How long a run will still be refused on account of a rate limit: after exactly that long it no
        longer is. */
    method Cooldown(now: int) returns (remaining: nat)
      ensures CoolingDown(View(), now) <==> remaining > 0
      ensures forall t | now <= t :: CoolingDown(View(), t) <==> t < now + remaining
    {
      if cooldownUntil.Some? && cooldownUntil.value - now > 0 {
        return cooldownUntil.value - now;
      }
      remaining := 0;
    }
  }

  // ---------------------------------------------------------------- what the status is a record of

  datatype Event =
    | Admitted(call: nat, at: int)
    | Completed(call: nat, at: int, later: int, result: ImportResult, err: Option<RunError>)
    | Reported(failure: RunError)

  /** The status a history of completed runs and reported failures leaves. Admissions leave no trace in
      it, and neither do calls that were skipped or refused: they are in no history. */
  function Replay(log: seq<Event>): Status
  {
    if log == [] then FRESH
    else
      Leaves(Replay(log[..|log| - 1]), log[|log| - 1])
  }

  function Leaves(s: Status, e: Event): Status
  {
    match e
    case Admitted(_, _) => s
    case Completed(_, at, later, result, err) => Left(s, at, later, result, err)
    case Reported(failure) => s.(lastErr := Some(failure))
  }

  predicate Recordable(e: Event)
  {
    e.Completed? ==> e.err != Some(ImportInProgress)
  }

  predicate LastCompleted(log: seq<Event>, i: int)
  {
    && 0 <= i < |log| && log[i].Completed?
    && forall j | i < j < |log| :: !log[j].Completed?
  }

  /** Last run and last result always belong together: both come from the last run that completed. */
  lemma {:induction false} StatusIsLastRun(log: seq<Event>)
    requires forall i | 0 <= i < |log| :: Recordable(log[i])
    ensures (Replay(log).lastRun == None && Replay(log).lastResult == NOTHING
              && forall i | 0 <= i < |log| :: !log[i].Completed?)
         || exists i :: LastCompleted(log, i) && Replay(log).lastRun == Some(log[i].at)
                        && Replay(log).lastResult == log[i].result
  {
    if log != [] {
      var before := log[..|log| - 1];
      StatusIsLastRun(before);
      if log[|log| - 1].Completed? {
        assert LastCompleted(log, |log| - 1);
      } else if i :| LastCompleted(before, i) && Replay(before).lastRun == Some(before[i].at)
                     && Replay(before).lastResult == before[i].result {
        assert LastCompleted(log, i) && log[i] == before[i];
      }
    }
  }

  /** The last entry that says how something went: a completed run, or a failure reported without one. */
  predicate LastNoted(log: seq<Event>, i: int)
  {
    && 0 <= i < |log| && !log[i].Admitted?
    && forall j | i < j < |log| :: log[j].Admitted?
  }

  function NotedError(e: Event): Option<RunError>
    requires !e.Admitted?
  {
    if e.Completed? then e.err else Some(e.failure)
  }

  /** The error shown is that of the last completed run, or of a failure reported since. */
  lemma {:induction false} ErrorIsLastNoted(log: seq<Event>)
    requires forall i | 0 <= i < |log| :: Recordable(log[i])
    ensures (Replay(log).lastErr == None && forall i | 0 <= i < |log| :: log[i].Admitted?)
         || exists i :: LastNoted(log, i) && Replay(log).lastErr == NotedError(log[i])
  {
    if log != [] {
      var before := log[..|log| - 1];
      ErrorIsLastNoted(before);
      if !log[|log| - 1].Admitted? {
        assert LastNoted(log, |log| - 1);
      } else if i :| LastNoted(before, i) && Replay(before).lastErr == NotedError(before[i]) {
        assert LastNoted(log, i) && log[i] == before[i];
      }
    }
  }

  /** A cooldown in force is that of a rate limit on record. */
  lemma {:induction false} CooldownIsOnRecord(log: seq<Event>)
    requires forall i | 0 <= i < |log| :: Recordable(log[i])
    ensures Replay(log).cooldownUntil.Some? ==>
              exists i :: 0 <= i < |log| && log[i].Completed? && log[i].err == Some(FetchFailed(true))
                          && Replay(log).cooldownUntil.value == log[i].later + 30 * 60_000_000_000
  {
    if log != [] {
      var n := |log| - 1;
      CooldownIsOnRecord(log[..n]);
      if !(log[n].Completed? && log[n].err == Some(FetchFailed(true))) && Replay(log).cooldownUntil.Some? {
        var i :| 0 <= i < n && log[..n][i].Completed? && log[..n][i].err == Some(FetchFailed(true))
                 && Replay(log[..n]).cooldownUntil.value == log[..n][i].later + 30 * 60_000_000_000;
        assert log[i] == log[..n][i];
      }
    }
  }

  /** The history with everything about one call struck out. */
  function Without(log: seq<Event>, call: nat): seq<Event>
  {
    if log == [] then []
    else
      var init, e := Without(log[..|log| - 1], call), log[|log| - 1];
      if !e.Reported? && e.call == call then init else init + [e]
  }

  /** A call that completed no run has no part in the status: without it the history leaves the same. */
  lemma {:induction false} StatusIgnoresEmptyCalls(log: seq<Event>, call: nat)
    requires forall i | 0 <= i < |log| && log[i].Completed? :: log[i].call != call
    ensures Replay(Without(log, call)) == Replay(log)
  {
    if log != [] {
      var init, e := log[..|log| - 1], log[|log| - 1];
      StatusIgnoresEmptyCalls(init, call);
      if e.Reported? || e.call != call {
        var kept := Without(init, call) + [e];
        assert kept[..|kept| - 1] == Without(init, call);
      }
    }
  }
}
