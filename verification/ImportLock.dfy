/** What the advisory lock promises over whole runs, and what is left of it once the database ends a
    holder's session. */
module ImportLock {
  import opened StateMachine
  import opened Wrappers
  import opened ImportOutcome
  import opened ImportProtocol

  /** In every interleaving the session the database has the lock held by belongs to at most one party. */
  lemma OneOwner(s: State, h: Party, g: Party)
    requires Reachable(s) && Owns(s, h) && Owns(s, g)
    ensures h == g
  {
    ReachableInv(s);
  }

  /** Where no holder loses its session, at most one import holds the lock over all servers, commands and
      deaths, and it does so in the session the database knows. */
  lemma OneImport(s: State, h: Party)
    requires Reaches(Unbroken, INITIAL, s) && Holds(s, h)
    ensures AtMostOneImport(s) && Owns(s, h)
  {
    UnbrokenReachableInv(s);
  }

  lemma {:induction false} FreshID(ids: set<nat>) returns (k: nat)
    ensures forall id <- ids :: id < k
  {
    if id :| id in ids {
      var below := FreshID(ids - {id});
      k := if id < below then below else id + 1;
      assert forall x <- ids :: x == id || x in ids - {id};
    } else {
      k := 0;
    }
  }

  /** Once a holder has lost its session, a second import gets in without any further loss. */
  lemma LossAdmitsAnother(s: State, h: Party) returns (end: State)
    requires Inv(s) && Holds(s, h) && !Owns(s, h)
    ensures Reaches(Unbroken, s, end) && !AtMostOneImport(end)
  {
    Here(Unbroken, s);
    if g :| Owns(s, g) {
      end := s;
      assert Holds(end, g) && Holds(end, h) && g != h;
    } else {
      var k := FreshID(s.commands.Keys);
      end := Then(Unbroken, s, s, SessionEnds);
      assert Holds(end, h);
      end := NewcomerGetsIn(s, end, h, k);
    }
  }

  /** A free lock goes to whoever asks, whoever else is importing. */
  lemma NewcomerGetsIn(start: State, s: State, h: Party, k: nat) returns (end: State)
    requires Reaches(Unbroken, start, s) && s.env.lock.None? && k !in s.commands && Holds(s, h)
    ensures Reaches(Unbroken, start, end) && !AtMostOneImport(end)
  {
    end := Then(Unbroken, start, s, Launch(k));
    assert Holds(end, h);
    end := Then(Unbroken, start, end, OnCommand(k, TakeLock(true)));
    assert Holds(end, h) && Holds(end, OfCommand(k)) && h != OfCommand(k);
  }

  /** Exactly when the lock keeps imports apart from here on, as long as no holder loses its session: when
      none has lost it already. */
  lemma OneImportExactly(s: State)
    requires Reachable(s)
    ensures (forall end :: Reaches(Unbroken, s, end) ==> AtMostOneImport(end)) <==> AllOwn(s)
  {
    ReachableInv(s);
    if AllOwn(s) {
      forall end | Reaches(Unbroken, s, end)
        ensures AtMostOneImport(end)
      {
        OwningIsInductive();
        ReachedKeeps(Unbroken, OneEach, s, end);
      }
    } else {
      var h :| Holds(s, h) && !Owns(s, h);
      var end := LossAdmitsAnother(s, h);
    }
  }

  ghost predicate OneEach(s: State)
  {
    SessionsApart(s) && AllOwn(s)
  }

  lemma OwningIsInductive()
    ensures Inductive(Unbroken, OneEach)
  {
    hide Apply, SessionsApart, AllOwn, LosesHolder;
    forall s, e | OneEach(s) && Unbroken(s, e).Some?
      ensures OneEach(Unbroken(s, e).value)
    {
      StepKeepsApart(s, e);
    }
  }

  /** The database does end sessions of its own accord, and then two imports run at once. */
  lemma TwoImports() returns (s: State)
    ensures Reachable(s) && Holds(s, OfCommand(0)) && Holds(s, OfCommand(1))
  {
    Here(Apply, INITIAL);
    s := Then(Apply, INITIAL, INITIAL, Launch(0));
    s := Then(Apply, INITIAL, s, OnCommand(0, TakeLock(true)));
    s := Then(Apply, INITIAL, s, SessionEnds);
    s := Then(Apply, INITIAL, s, Launch(1));
    s := Then(Apply, INITIAL, s, OnCommand(1, TakeLock(true)));
  }

  /** While any session holds the lock every attempt at it is refused, one by the holder's own process over
      a second session included; and no step but the holder's own or the database's ends that. */
  lemma SecondLockRefused(s: State, e: Step)
    requires Reachable(s) && s.env.lock.Some?
    ensures forall p, c | p in s.servers && c in s.servers[p].calls && s.servers[p].calls[c].Begun? ::
              CallStep(s.env, s.servers[p], c, TryLock(true)).value.1.calls[c] == Ended(NOTHING, Some(ImportInProgress))
    ensures forall k | k in s.commands && s.commands[k].Started? ::
              CommandStep(s.env, s.commands[k], TakeLock(true)) == Some((s.env, Exited(Some(LockHeld))))
    ensures Apply(s, e).Some? && Apply(s, e).value.env.lock != s.env.lock ==>
              e.SessionEnds?
              || (e.OnCall? && Owns(s, OfCall(e.p, e.c)))
              || (e.OnCommand? && Owns(s, OfCommand(e.k)))
  {
    ReachableInv(s);
    if e.OnCall? && Apply(s, e).Some? {
      CallStepFollows(s, e.p, e.c, e.action);
    } else if e.OnCommand? && Apply(s, e).Some? {
      CommandStepFollows(s, e.k, e.command);
    }
  }

  /** Where no holder loses its session, every contact an import ever made with Instagram - the login of a
      command above all - was made while the lock was held in that import's own session. */
  lemma ContactUnderLock(s: State, i: nat)
    requires Reaches(Unbroken, INITIAL, s) && i < |s.contacts| && s.contacts[i].Made?
    ensures s.contacts[i].lock == Some(s.contacts[i].session)
  {
    UnbrokenReachableInv(s);
  }

  /** Nothing that contacts Instagram is missing from the log: a server's login at startup, a call's fetching,
      and a command's login and requests are each on it, with the session that held the lock just then. */
  lemma ContactsAreLogged(s: State, e: Step)
    requires Apply(s, e).Some?
    ensures var s' := Apply(s, e).value;
            match e
            case Boot(p, login) => s'.contacts == if login then s.contacts + [Startup(p)] else s.contacts
            case OnCall(p, c, Fetch) =>
              Holds(s, OfCall(p, c)) &&
              s'.contacts == s.contacts + [Made(OfCall(p, c), SessionOf(s, OfCall(p, c)), s.env.lock)]
            case OnCommand(k, LogIn(_, _)) =>
              Holds(s, OfCommand(k)) &&
              s'.contacts == s.contacts + [Made(OfCommand(k), SessionOf(s, OfCommand(k)), s.env.lock)]
            case OnCommand(k, Request) =>
              Holds(s, OfCommand(k)) &&
              s'.contacts == s.contacts + [Made(OfCommand(k), SessionOf(s, OfCommand(k)), s.env.lock)]
            case _ => s'.contacts == s.contacts
  {}

  /** And when a command logs in, it is the one import there is. */
  lemma LoginUnderLock(s: State, k: nat, ok: bool, closed: bool)
    requires Reaches(Unbroken, INITIAL, s) && Apply(s, OnCommand(k, LogIn(ok, closed))).Some?
    ensures Owns(s, OfCommand(k)) && forall h :: Holds(s, h) ==> h == OfCommand(k)
  {
    UnbrokenReachableInv(s);
    assert Holds(s, OfCommand(k));
  }

  /** An import turned away - a command by the lock, a call by the lock, the cooldown or a run in flight -
      never contacted Instagram, whatever became of other sessions. */
  lemma TurnedAwayBeforeContact(s: State, h: Party, i: nat)
    requires Reachable(s) && i < |s.contacts| && s.contacts[i].Made? && s.contacts[i].party == h
    ensures h.OfCommand? ==> h.k in s.commands && s.commands[h.k] != Exited(Some(LockHeld))
    ensures h.OfCall? ==> h.p in s.servers && !ReturnedEmpty(s.servers[h.p], h.c)
  {
    ReachableInv(s);
    assert PastLock(s, h);
  }

  /** The lock is never lost: when no living party holds it, the database ends what session may be left of
      the dead, and the next import gets it. */
  lemma LockComesBack(s: State, k: nat)
    requires Reachable(s) && k in s.commands && s.commands[k].Started? && forall h :: !Owns(s, h)
    ensures var steps := [SessionEnds, OnCommand(k, TakeLock(true))];
            && Run(Unbroken, s, steps).Some? && Owns(Run(Unbroken, s, steps).value, OfCommand(k))
  {
    TwoSteps(Unbroken, s, SessionEnds, OnCommand(k, TakeLock(true)));
  }

  /** A lock that is free goes to the call that asks for it, in a session of its own. */
  lemma FreeLockIsTaken(s: State, p: nat, c: nat)
    requires p in s.servers && s.servers[p].alive && c in s.servers[p].calls && s.servers[p].calls[c].Begun?
    requires s.env.lock == None
    ensures var s' := Apply(s, OnCall(p, c, TryLock(true)));
            s'.Some? && Owns(s'.value, OfCall(p, c))
  {}

  /** And an import that ends and closes its session frees it. */
  lemma FinishedImportFrees(s: State, p: nat, c: nat, result: ImportResult, err: Option<RunError>)
    requires Owns(s, OfCall(p, c)) && err != Some(ImportInProgress)
    ensures var s' := Apply(s, OnCall(p, c, Finish(result, err, true)));
            s'.Some? && s'.value.env.lock == None
  {}

  /** How a command ends: it says which of the lock, the login and the import failed, or that none did, and
      having owned the lock it leaves it free. */
  lemma CommandEnds(s: State, k: nat, ok: bool)
    requires k in s.commands
    ensures s.commands[k].Started? ==>
              Apply(s, OnCommand(k, TakeLock(false)))
              == Some(s.(commands := s.commands[k := Exited(Some(LockUnreachable))]))
    ensures s.commands[k].Locked? ==>
              var s' := Apply(s, OnCommand(k, LogIn(ok, true)));
              && s'.Some? && k in s'.value.commands
              && (if ok then s'.value.commands[k].LoggedIn? && s'.value.env == s.env
                  else s'.value.commands[k] == Exited(Some(LoginRefused))
                       && (Owns(s, OfCommand(k)) ==> s'.value.env.lock == None))
    ensures s.commands[k].LoggedIn? ==>
              var s' := Apply(s, OnCommand(k, Import(ok, true)));
              && s'.Some? && k in s'.value.commands
              && s'.value.commands[k] == Exited(if ok then None else Some(RunFailed))
              && (Owns(s, OfCommand(k)) ==> s'.value.env.lock == None)
  {
    assert s.contacts + [] == s.contacts;
  }

  /** A holder's death leaves nobody owning the lock. */
  lemma DeathFreesLock(s: State, h: Party, g: Party)
    requires Reachable(s) && Owns(s, h)
    ensures var death := match h case OfCall(p, _) => Crash(p) case OfCommand(k) => Kill(k);
            Apply(s, death).Some? && !Owns(Apply(s, death).value, g)
  {
    ReachableInv(s);
    var s' := Apply(s, match h case OfCall(p, _) => Crash(p) case OfCommand(k) => Kill(k)).value;
    assert Owns(s', g) ==> Owns(s, g);
  }
}
