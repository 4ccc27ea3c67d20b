/** `Client.run` and `Client.request`: one slot, callers that give up when their deadline passes, and
    goroutines that outlive the callers who gave up. Every send, receive and select branch is one step,
    and the steps of all callers and goroutines interleave freely. */
module ClientSlot {
  import opened StateMachine
  import opened Wrappers

  type CallID = nat
  type Body = string

  /** What the call into the Instagram library returned. */
  datatype Answer = Answer(body: Body, err: Option<string>)

  datatype Caller =
    | Waiting                                  // at the select on the slot
    | Refused                                  // returned: an earlier request has not returned
    | Watching                                 // at the select on done
    | Abandoned                                // returned: deadline exceeded
    | Received(err: Option<string>)            // run returned what came out of done
    | Replied(reply: Result<Body, string>)     // request returned

  datatype Goroutine = NotStarted | Spawned | Running | Returned | Released | Finished

  /** One call of run: its deadline, its caller, its goroutine, and the variables the two share.
      answer records what the function returned, once it has. */
  datatype Call = Call(expired: bool, caller: Caller, routine: Goroutine,
                       done: Option<Option<string>>, body: Body, answer: Option<Answer>)

  datatype State = State(slotFull: bool, calls: map<CallID, Call>)

  datatype Step =
    | Start(c: CallID)
    | Expire(c: CallID)
    | Admit(c: CallID)
    | Refuse(c: CallID)
    | Begin(c: CallID)
    | Return(c: CallID, answer: Answer)
    | Release(c: CallID)
    | Send(c: CallID)
    | Receive(c: CallID)
    | Abandon(c: CallID)
    | Reply(c: CallID)

  const INITIAL := State(false, map[])

  function With(s: State, c: CallID, call: Call): State
  {
    s.(calls := s.calls[c := call])
  }

  /** The state after a step, or None where the step is blocked or not that party's next one. */
  function Apply(s: State, e: Step): Option<State>
  {
    if e.Start? then
      if e.c in s.calls then None
      else Some(With(s, e.c, Call(false, Waiting, NotStarted, None, "", None)))
    else if e.c !in s.calls then None
    else
      var call := s.calls[e.c];
      match e
      case Expire(c) => Some(With(s, c, call.(expired := true)))
      case Admit(c) =>
        if call.caller.Waiting? && !s.slotFull
        then Some(With(s, c, call.(caller := Watching, routine := Spawned)).(slotFull := true))
        else None
      case Refuse(c) =>
        if call.caller.Waiting? && call.expired then Some(With(s, c, call.(caller := Refused))) else None
      case Begin(c) =>
        if call.routine.Spawned? then Some(With(s, c, call.(routine := Running))) else None
      case Return(c, answer) =>
        if call.routine.Running?
        then Some(With(s, c, call.(routine := Returned, body := answer.body, answer := Some(answer))))
        else None
      case Release(c) =>
        if call.routine.Returned? && s.slotFull
        then Some(With(s, c, call.(routine := Released)).(slotFull := false))
        else None
      case Send(c) =>
        if call.routine.Released? && call.done.None? && call.answer.Some?
        then Some(With(s, c, call.(routine := Finished, done := Some(call.answer.value.err))))
        else None
      case Receive(c) =>
        if call.caller.Watching? && call.done.Some?
        then Some(With(s, c, call.(caller := Received(call.done.value), done := None)))
        else None
      case Abandon(c) =>
        if call.caller.Watching? && call.expired then Some(With(s, c, call.(caller := Abandoned))) else None
      case Reply(c) =>
        if call.caller.Received?
        then
          var reply := if call.caller.err.Some? then Err(call.caller.err.value) else Ok(call.body);
          Some(With(s, c, call.(caller := Replied(reply))))
        else None
  }

  ghost predicate Reachable(s: State)
  {
    Reaches(Apply, INITIAL, s)
  }

  // ---------------------------------------------------------------- the invariant

  /** The goroutine has been handed the slot and has not given it back. */
  predicate Holds(call: Call)
  {
    call.routine.Spawned? || call.routine.Running? || call.routine.Returned?
  }

  predicate HasReturned(call: Call)
  {
    call.routine.Returned? || call.routine.Released? || call.routine.Finished?
  }

  ghost predicate CallOk(call: Call)
  {
    && (call.routine.NotStarted? <==> call.caller.Waiting? || call.caller.Refused?)
    && (call.answer.Some? <==> HasReturned(call))
    && (call.answer.Some? ==> call.body == call.answer.value.body)
    && (call.done.Some? ==> call.routine.Finished? && call.answer.Some? && call.done.value == call.answer.value.err)
    && (call.caller.Watching? && call.routine.Finished? ==> call.done.Some?)
    && (call.caller.Received? ==>
          call.routine.Finished? && call.answer.Some? && call.caller.err == call.answer.value.err)
    && (call.caller.Replied? ==>
          call.routine.Finished? && call.answer.Some? && call.caller.reply == ReplyTo(call.answer.value))
    && (call.caller.Refused? || call.caller.Abandoned? ==> call.expired)
  }

  /** What request is to return for an answer. */
  function ReplyTo(a: Answer): Result<Body, string>
  {
    if a.err.Some? then Err(a.err.value) else Ok(a.body)
  }

  ghost predicate OneHolder(s: State)
  {
    forall a, b | a in s.calls && b in s.calls && Holds(s.calls[a]) && Holds(s.calls[b]) :: a == b
  }

  ghost predicate SomeHolder(s: State)
  {
    exists c :: c in s.calls && Holds(s.calls[c])
  }

  ghost predicate Inv(s: State)
  {
    && (forall c <- s.calls :: CallOk(s.calls[c]))
    && OneHolder(s)
    && (s.slotFull <==> SomeHolder(s))
  }

  /** A step moves one call, and that call stays in order. */
  lemma StepKeepsCall(s: State, e: Step)
    requires (e.c in s.calls ==> CallOk(s.calls[e.c])) && Apply(s, e).Some?
    ensures e.c in Apply(s, e).value.calls && CallOk(Apply(s, e).value.calls[e.c])
  {}

  lemma OthersStay(s: State, e: Step)
    requires Apply(s, e).Some?
    ensures var s' := Apply(s, e).value;
            e.c in s'.calls && s'.calls == s.calls[e.c := s'.calls[e.c]]
  {}

  /** The slot follows the one call that moved. */
  lemma SlotFollows(s: State, e: Step)
    requires (e.c in s.calls ==> CallOk(s.calls[e.c])) && Apply(s, e).Some?
    ensures var s' := Apply(s, e).value;
            var before := e.c in s.calls && Holds(s.calls[e.c]);
            var after := e.c in s'.calls && Holds(s'.calls[e.c]);
            && (before == after ==> s'.slotFull == s.slotFull)
            && (before && !after ==> s.slotFull && !s'.slotFull)
            && (!before && after ==> !s.slotFull && s'.slotFull)
  {}

  lemma StepKeepsInv(s: State, e: Step)
    requires Inv(s) && Apply(s, e).Some?
    ensures Inv(Apply(s, e).value)
  {
    var s' := Apply(s, e).value;
    StepKeepsCall(s, e);
    OthersStay(s, e);
    SlotFollows(s, e);
    assert forall c <- s.calls :: c != e.c ==> c in s'.calls && s'.calls[c] == s.calls[c];
    HolderFollows(s, s', e.c);
  }

  /** Where one call moves and the slot with it, there is still one holder exactly while it is full. */
  lemma HolderFollows(s: State, s': State, c: CallID)
    requires OneHolder(s) && (s.slotFull <==> SomeHolder(s))
    requires c in s'.calls && s'.calls == s.calls[c := s'.calls[c]]
    requires var before := c in s.calls && Holds(s.calls[c]);
             var after := Holds(s'.calls[c]);
             && (before == after ==> s'.slotFull == s.slotFull)
             && (before && !after ==> s.slotFull && !s'.slotFull)
             && (!before && after ==> !s.slotFull && s'.slotFull)
    ensures OneHolder(s') && (s'.slotFull <==> SomeHolder(s'))
  {
    if h :| h in s.calls && Holds(s.calls[h]) && h != c {
      assert h in s'.calls && Holds(s'.calls[h]);
    }
    if Holds(s'.calls[c]) {
      assert SomeHolder(s');
    }
  }

  lemma InvIsInductive()
    ensures Inductive(Apply, Inv)
  {
    forall s, e | Inv(s) && Apply(s, e).Some?
      ensures Inv(Apply(s, e).value)
    {
      StepKeepsInv(s, e);
    }
  }

  lemma ReachableInv(s: State)
    requires Reachable(s)
    ensures Inv(s)
  {
    InvIsInductive();
    ReachedKeeps(Apply, Inv, INITIAL, s);
  }

  // ---------------------------------------------------------------- what every interleaving keeps

  /** At most one function is inside the client at a time. */
  lemma OneInside(s: State, a: CallID, b: CallID)
    requires Reachable(s) && a in s.calls && b in s.calls
    requires s.calls[a].routine.Running? && s.calls[b].routine.Running?
    ensures a == b
  {
    ReachableInv(s);
    assert Holds(s.calls[a]) && Holds(s.calls[b]);
  }

  /** The slot is full exactly while an admitted call has not given it back. */
  lemma SlotFullExactly(s: State)
    requires Reachable(s)
    ensures s.slotFull <==> SomeHolder(s)
  {
    ReachableInv(s);
  }

  /** A goroutine whose function has returned is never stuck, whatever became of its caller: it can
      hand the slot back at once, and then leave its result at once. */
  lemma FinishingNeverBlocks(s: State, c: CallID)
    requires Reachable(s) && c in s.calls
    ensures s.calls[c].routine.Returned? ==> Run(Apply, s, [Release(c), Send(c)]).Some?
    ensures s.calls[c].routine.Released? ==> Apply(s, Send(c)).Some?
  {
    ReachableInv(s);
    if s.calls[c].routine.Returned? {
      assert Holds(s.calls[c]);
      TwoSteps(Apply, s, Release(c), Send(c));
    }
  }

  /** A caller refused the slot never ran its function, and one that ran it was not refused. */
  lemma RefusedNeverRan(s: State, c: CallID)
    requires Reachable(s) && c in s.calls
    ensures s.calls[c].caller.Refused? ==> s.calls[c].routine.NotStarted? && s.calls[c].answer.None?
    ensures !s.calls[c].routine.NotStarted? ==> !s.calls[c].caller.Refused?
  {
    ReachableInv(s);
  }

  /** Nor does it later: a refused caller's call never changes again but for its deadline. */
  lemma {:induction false} RefusedForGood(s: State, steps: seq<Step>, c: CallID)
    requires Inv(s) && Run(Apply, s, steps).Some? && c in s.calls && s.calls[c].caller.Refused?
    ensures c in Run(Apply, s, steps).value.calls
    ensures Run(Apply, s, steps).value.calls[c] == s.calls[c]
    decreases |steps|
  {
    if steps != [] {
      StepKeepsInv(s, steps[0]);
      RefusedStays(s, steps[0], c);
      RefusedForGood(Apply(s, steps[0]).value, steps[1..], c);
    }
  }

  lemma RefusedStays(s: State, e: Step, c: CallID)
    requires Apply(s, e).Some? && c in s.calls && CallOk(s.calls[c]) && s.calls[c].caller.Refused?
    ensures c in Apply(s, e).value.calls && Apply(s, e).value.calls[c] == s.calls[c]
  {}

  /** What request returns is what its own function answered, and it is read only after the goroutine
      that wrote it is through. */
  lemma ReplyIsTheAnswer(s: State, c: CallID)
    requires Reachable(s) && c in s.calls && s.calls[c].caller.Replied?
    ensures s.calls[c].routine.Finished? && s.calls[c].answer.Some?
    ensures s.calls[c].caller.reply == ReplyTo(s.calls[c].answer.value)
  {
    ReachableInv(s);
  }

  /** The body is never written once run has returned to a caller that will read it. */
  lemma NoWriteBehindReader(s: State, c: CallID, e: Step)
    requires Reachable(s) && c in s.calls && Apply(s, e).Some?
    requires s.calls[c].caller.Received? || s.calls[c].caller.Replied?
    ensures c in Apply(s, e).value.calls
    ensures Apply(s, e).value.calls[c].body == s.calls[c].body
  {
    ReachableInv(s);
  }

  // ---------------------------------------------------------------- nobody waits for ever

  /** Every caller that has not returned can, once its deadline passes, without anyone else moving. */
  lemma CallerCanLeave(s: State, c: CallID)
    requires Reachable(s) && c in s.calls
    ensures s.calls[c].caller.Waiting? ==> Run(Apply, s, [Expire(c), Refuse(c)]).Some?
    ensures s.calls[c].caller.Watching? ==> Run(Apply, s, [Expire(c), Abandon(c)]).Some?
  {
    TwoSteps(Apply, s, Expire(c), Refuse(c));
    TwoSteps(Apply, s, Expire(c), Abandon(c));
  }

  /** While the holder does not move, nobody else gets in: every other call's goroutine stays as it is
      or finishes what it had already released. */
  lemma {:induction false} HungHolderKeepsSlot(s: State, steps: seq<Step>, h: CallID)
    requires Inv(s) && Run(Apply, s, steps).Some? && h in s.calls && Holds(s.calls[h])
    requires forall i | 0 <= i < |steps| :: steps[i].c != h
    ensures var s' := Run(Apply, s, steps).value;
            s'.slotFull && h in s'.calls && s'.calls[h] == s.calls[h]
            && forall c <- s'.calls :: c != h ==> !Holds(s'.calls[c])
    decreases |steps|
  {
    assert s.slotFull;
    if steps != [] {
      StepKeepsInv(s, steps[0]);
      HungHolderKeepsSlot(Apply(s, steps[0]).value, steps[1..], h);
    }
  }

  /** An undisturbed call gets in where the slot is free, runs its function once, gives the slot back and returns
      what the function answered: its body, or its error. */
  lemma UndisturbedCall(s: State, c: CallID, answer: Answer) returns (end: State)
    requires c !in s.calls && !s.slotFull
    ensures Reaches(Apply, s, end) && !end.slotFull && c in end.calls
    ensures end.calls[c].caller == Replied(if answer.err.None? then Ok(answer.body) else Err(answer.err.value))
  {
    Here(Apply, s);
    end := Then(Apply, s, s, Start(c));
    end := Then(Apply, s, end, Admit(c));
    end := Then(Apply, s, end, Begin(c));
    end := Then(Apply, s, end, Return(c, answer));
    end := Answered(s, end, c);
  }

  /** From the return of its function on, nothing stands in a call's way. */
  lemma Answered(start: State, s: State, c: CallID) returns (end: State)
    requires Reaches(Apply, start, s) && c in s.calls && s.slotFull
    requires var call := s.calls[c];
             && call.routine.Returned? && call.caller.Watching? && call.done.None?
             && call.answer.Some? && call.body == call.answer.value.body
    ensures Reaches(Apply, start, end) && !end.slotFull && c in end.calls
    ensures var answer := s.calls[c].answer.value;
            end.calls[c].caller == Replied(if answer.err.None? then Ok(answer.body) else Err(answer.err.value))
  {
    var sent := Then(Apply, start, s, Release(c));
    sent := Then(Apply, start, sent, Send(c));
    end := Delivered(start, sent, c);
  }

  lemma Delivered(start: State, s: State, c: CallID) returns (end: State)
    requires Reaches(Apply, start, s) && c in s.calls
    requires s.calls[c].caller.Watching? && s.calls[c].done.Some?
    ensures Reaches(Apply, start, end) && end.slotFull == s.slotFull && c in end.calls
    ensures var err := s.calls[c].done.value;
            end.calls[c].caller == Replied(if err.None? then Ok(s.calls[c].body) else Err(err.value))
  {
    end := Then(Apply, start, s, Receive(c));
    end := Then(Apply, start, end, Reply(c));
  }

  /** The goroutine's own remaining steps up to giving the slot back. */
  function Finish(c: CallID, routine: Goroutine, answer: Answer): seq<Step>
  {
    match routine
    case Spawned => [Begin(c), Return(c, answer), Release(c)]
    case Running => [Return(c, answer), Release(c)]
    case Returned => [Release(c)]
    case _ => []
  }

  /** If an abandoned call ever returns, the client recovers by itself: the goroutine's own steps free
      the slot, and a caller still waiting is admitted. */
  lemma Recovers(s: State, h: CallID, c: CallID, answer: Answer)
    requires Reachable(s) && h in s.calls && Holds(s.calls[h])
    requires c in s.calls && s.calls[c].caller.Waiting?
    ensures var freed := Run(Apply, s, Finish(h, s.calls[h].routine, answer));
            && freed.Some? && !freed.value.slotFull
            && c in freed.value.calls && Apply(freed.value, Admit(c)).Some?
  {
    ReachableInv(s);
    assert h != c;
    var s1 := if s.calls[h].routine.Spawned? then Apply(s, Begin(h)).value else s;
    var s2 := if s1.calls[h].routine.Running? then Apply(s1, Return(h, answer)).value else s1;
    var s3 := Apply(s2, Release(h)).value;
    OneStep(Apply, s2, Release(h));
    if !s.calls[h].routine.Returned? {
      TwoSteps(Apply, s1, Return(h, answer), Release(h));
    }
    if s.calls[h].routine.Spawned? {
      assert Finish(h, Spawned, answer)[1..] == [Return(h, answer), Release(h)];
    }
    assert s3.calls[c] == s.calls[c];
  }
}
