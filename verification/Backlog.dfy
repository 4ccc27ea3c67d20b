/** Whole sequences of import runs over a feed that does not change: does the backlog drain?

    Each run walks the feed with a `Known` hook that is exact (a post is known when its source is
    stored) and stores the collected posts that carry a recipe. A post without a recipe is never
    stored, so it is collected again by every run and uses up part of MaxItems. */
module Backlog {
  import opened Wrappers
  import opened SavedFeed

  /** The hook the server wires in: a post is known when its source is stored. */
  function KnownIn(stored: set<string>): Option<string -> bool>
  {
    Some(s => s in stored)
  }

  /** The posts of feed not yet stored. */
  function Unstored(feed: seq<SavedPost>, stored: set<string>): seq<SavedPost>
  {
    if feed == [] then []
    else
      var init := Unstored(feed[..|feed| - 1], stored);
      if feed[|feed| - 1].source in stored then init else init + [feed[|feed| - 1]]
  }

  function Count(ps: seq<SavedPost>, p: SavedPost -> bool): nat
  {
    if ps == [] then 0
    else Count(ps[..|ps| - 1], p) + (if p(ps[|ps| - 1]) then 1 else 0)
  }

  function Not(p: SavedPost -> bool): SavedPost -> bool
  {
    q => !p(q)
  }

  function StorableSources(ps: seq<SavedPost>, storable: SavedPost -> bool): set<string>
  {
    set p <- ps | storable(p) :: p.source
  }

  /** One run over the readable posts of the feed: collect, then store what is storable. */
  function Run(feed: seq<SavedPost>, storable: SavedPost -> bool, maxItems: nat, stored: set<string>): set<string>
  {
    stored + StorableSources(Take(NewPosts(feed, KnownIn(stored)), maxItems), storable)
  }

  function Runs(feed: seq<SavedPost>, storable: SavedPost -> bool, maxItems: nat, stored: set<string>, n: nat)
    : set<string>
  {
    if n == 0 then stored
    else Run(feed, storable, maxItems, Runs(feed, storable, maxItems, stored, n - 1))
  }

  /** The feed with later copies of a post removed. */
  function Distinct(feed: seq<SavedPost>): seq<SavedPost>
  {
    NewPosts(feed, None)
  }

  /** How many storable posts are still waiting, and how many waiting posts are never stored. */
  function Remaining(feed: seq<SavedPost>, storable: SavedPost -> bool, stored: set<string>): nat
  {
    Count(Unstored(Distinct(feed), stored), storable)
  }

  function Useless(feed: seq<SavedPost>, storable: SavedPost -> bool, stored: set<string>): nat
  {
    Count(Unstored(Distinct(feed), stored), Not(storable))
  }

  // ---------------------------------------------------------------- counting

  lemma {:induction false} CountAppend(a: seq<SavedPost>, b: seq<SavedPost>, p: SavedPost -> bool)
    ensures Count(a + b, p) == Count(a, p) + Count(b, p)
  {
    if b == [] {
      assert a + b == a;
    } else {
      CountAppend(a, b[..|b| - 1], p);
      assert (a + b)[..|a + b| - 1] == a + b[..|b| - 1];
    }
  }

  lemma {:induction false} CountPartition(ps: seq<SavedPost>, p: SavedPost -> bool)
    ensures Count(ps, p) + Count(ps, Not(p)) == |ps|
  {
    if ps != [] {
      CountPartition(ps[..|ps| - 1], p);
    }
  }

  /** A walk with the exact hook sees the distinct posts that are not stored. */
  lemma {:induction false} NewIsUnstored(feed: seq<SavedPost>, stored: set<string>)
    ensures NewPosts(feed, KnownIn(stored)) == Unstored(Distinct(feed), stored)
  {
    if feed != [] {
      NewIsUnstored(feed[..|feed| - 1], stored);
      NewIsUnstoredStep(feed, stored);
    }
  }

  lemma NewIsUnstoredStep(feed: seq<SavedPost>, stored: set<string>)
    requires feed != []
    requires NewPosts(feed[..|feed| - 1], KnownIn(stored)) == Unstored(Distinct(feed[..|feed| - 1]), stored)
    ensures NewPosts(feed, KnownIn(stored)) == Unstored(Distinct(feed), stored)
  {
    hide NewPosts, Unstored, Sources;
    var init, p := feed[..|feed| - 1], feed[|feed| - 1];
    NewPostsStep(feed, None);
    NewPostsStep(feed, KnownIn(stored));
    UnstoredStep(Distinct(init), p, stored);
  }

  lemma NewPostsStep(ps: seq<SavedPost>, known: Option<string -> bool>)
    requires ps != []
    ensures var init, p := ps[..|ps| - 1], ps[|ps| - 1];
            NewPosts(ps, known) == if Known(known, p.source) || p.source in Sources(init) then NewPosts(init, known)
                                   else NewPosts(init, known) + [p]
  {}

  lemma UnstoredStep(ps: seq<SavedPost>, p: SavedPost, stored: set<string>)
    ensures Unstored(ps + [p], stored) == if p.source in stored then Unstored(ps, stored)
                                          else Unstored(ps, stored) + [p]
  {
    assert (ps + [p])[..|ps|] == ps;
  }

  lemma {:induction false} UnstoredAppend(a: seq<SavedPost>, b: seq<SavedPost>, stored: set<string>)
    ensures Unstored(a + b, stored) == Unstored(a, stored) + Unstored(b, stored)
  {
    if b == [] {
      assert a + b == a;
    } else {
      UnstoredAppend(a, b[..|b| - 1], stored);
      assert (a + b)[..|a + b| - 1] == a + b[..|b| - 1];
    }
  }

  lemma {:induction false} UnstoredTwice(ps: seq<SavedPost>, stored: set<string>, more: set<string>)
    ensures Unstored(Unstored(ps, stored), more) == Unstored(ps, stored + more)
  {
    if ps != [] {
      UnstoredTwice(ps[..|ps| - 1], stored, more);
      if ps[|ps| - 1].source !in stored {
        UnstoredAppend(Unstored(ps[..|ps| - 1], stored), [ps[|ps| - 1]], more);
      }
    }
  }

  // ---------------------------------------------------------------- one run

  ghost predicate DistinctSources(ps: seq<SavedPost>)
  {
    forall i, j | 0 <= i < j < |ps| :: ps[i].source != ps[j].source
  }

  lemma {:induction false} UnstoredMeaning(ps: seq<SavedPost>, stored: set<string>)
    ensures forall p :: p in Unstored(ps, stored) <==> p in ps && p.source !in stored
  {
    if ps != [] {
      var init, last := ps[..|ps| - 1], ps[|ps| - 1];
      UnstoredMeaning(init, stored);
      assert ps == init + [last];
    }
  }

  lemma {:induction false} UnstoredDistinct(ps: seq<SavedPost>, stored: set<string>)
    requires DistinctSources(ps)
    ensures DistinctSources(Unstored(ps, stored))
  {
    if ps != [] {
      var init, last := ps[..|ps| - 1], ps[|ps| - 1];
      UnstoredDistinct(init, stored);
      UnstoredMeaning(init, stored);
    }
  }

  lemma WaitingDistinct(feed: seq<SavedPost>, stored: set<string>)
    ensures DistinctSources(Unstored(Distinct(feed), stored))
  {
    NewPostsDistinct(feed, None);
    UnstoredDistinct(Distinct(feed), stored);
  }

  /** Of the first k collected posts, a run leaves exactly the ones that are not storable. */
  lemma {:induction false} Leftover(taken: seq<SavedPost>, storable: SavedPost -> bool, k: nat)
    requires DistinctSources(taken) && k <= |taken|
    ensures var left := Unstored(taken[..k], StorableSources(taken, storable));
            && Count(left, storable) == 0
            && Count(left, Not(storable)) == Count(taken[..k], Not(storable))
  {
    if k > 0 {
      Leftover(taken, storable, k - 1);
      assert taken[..k][..k - 1] == taken[..k - 1];
      var p := taken[k - 1];
      if storable(p) {
        assert p.source in StorableSources(taken, storable);
      } else {
        var left := Unstored(taken[..k - 1], StorableSources(taken, storable));
        assert (left + [p])[..|left|] == left;
      }
    }
  }

  /** A run over the waiting posts: what it leaves of those it collected, then the rest untouched. */
  lemma RunLeaves(waiting: seq<SavedPost>, storable: SavedPost -> bool, m: nat)
    requires DistinctSources(waiting)
    ensures var taken := Take(waiting, m);
            var now := StorableSources(taken, storable);
            && waiting == taken + waiting[|taken|..]
            && Unstored(waiting, now) == Unstored(taken, now) + waiting[|taken|..]
  {
    var taken := Take(waiting, m);
    var rest := waiting[|taken|..];
    var now := StorableSources(taken, storable);
    assert waiting == taken + rest;
    UnstoredAppend(taken, rest, now);
    forall p | p in rest
      ensures p.source !in now
    {
      forall q | q in taken
        ensures q.source != p.source
      {
        var i :| 0 <= i < |taken| && waiting[i] == q;
        var j :| |taken| <= j < |waiting| && waiting[j] == p;
      }
    }
    KeptWhole(rest, now);
  }

  /** Only the storable ones of the collected posts leave the line. */
  lemma RunCounts(waiting: seq<SavedPost>, storable: SavedPost -> bool, m: nat)
    requires DistinctSources(waiting)
    ensures var taken := Take(waiting, m);
            var left := Unstored(waiting, StorableSources(taken, storable));
            && Count(left, storable) == Count(waiting, storable) - Count(taken, storable)
            && Count(left, Not(storable)) == Count(waiting, Not(storable))
            && Count(taken, Not(storable)) <= Count(waiting, Not(storable))
            && Count(taken, storable) <= Count(waiting, storable)
  {
    var taken := Take(waiting, m);
    var rest := waiting[|taken|..];
    var now := StorableSources(taken, storable);
    RunLeaves(waiting, storable, m);
    Leftover(taken, storable, |taken|);
    assert taken[..|taken|] == taken;
    CountAppend(taken, rest, storable);
    CountAppend(taken, rest, Not(storable));
    CountAppend(Unstored(taken, now), rest, storable);
    CountAppend(Unstored(taken, now), rest, Not(storable));
  }

  lemma {:induction false} KeptWhole(ps: seq<SavedPost>, stored: set<string>)
    requires forall p <- ps :: p.source !in stored
    ensures Unstored(ps, stored) == ps
  {
    if ps != [] {
      assert ps[|ps| - 1] in ps;
      KeptWhole(ps[..|ps| - 1], stored);
    }
  }

  /** What a run leaves waiting, in terms of what waited before it. */
  lemma AfterRun(feed: seq<SavedPost>, storable: SavedPost -> bool, m: nat, stored: set<string>)
    ensures var waiting := Unstored(Distinct(feed), stored);
            && DistinctSources(waiting)
            && Run(feed, storable, m, stored) == stored + StorableSources(Take(waiting, m), storable)
            && Unstored(Distinct(feed), Run(feed, storable, m, stored))
               == Unstored(waiting, StorableSources(Take(waiting, m), storable))
  {
    var waiting := Unstored(Distinct(feed), stored);
    WaitingDistinct(feed, stored);
    NewIsUnstored(feed, stored);
    UnstoredTwice(Distinct(feed), stored, StorableSources(Take(waiting, m), storable));
  }

  /** Every run stores at least min(MaxItems - U, R) of the R storable posts that wait, where U of
      the waiting posts are never stored; those U stay exactly as many. */
  lemma RunMakesProgress(feed: seq<SavedPost>, storable: SavedPost -> bool, m: nat, stored: set<string>)
    ensures var after := Run(feed, storable, m, stored);
            var u, r := Useless(feed, storable, stored), Remaining(feed, storable, stored);
            && Useless(feed, storable, after) == u
            && Remaining(feed, storable, after) <= r
            && (u < m ==> Remaining(feed, storable, after) <= r - (if m - u < r then m - u else r))
  {
    var waiting := Unstored(Distinct(feed), stored);
    AfterRun(feed, storable, m, stored);
    RunCounts(waiting, storable, m);
    CountPartition(waiting, storable);
    CountPartition(Take(waiting, m), storable);
  }

  /** What n steps of this size leave of r, at most. */
  function Left(r: nat, n: nat, step: nat): nat
  {
    if n * step < r then r - n * step else 0
  }

  lemma OneStepLess(r: nat, n: nat, step: nat)
    ensures Left(r, n + 1, step) == if Left(r, n, step) >= step then Left(r, n, step) - step else 0
  {
    assert (n + 1) * step == n * step + step;
  }

  /** The backlog drains: with U < MaxItems, all R storable posts are stored after
      ceil(R / (MaxItems - U)) runs. */
  lemma {:induction false} BacklogDrains(feed: seq<SavedPost>, storable: SavedPost -> bool, m: nat,
                                         stored: set<string>, n: nat)
    requires Useless(feed, storable, stored) < m
    ensures var u, r := Useless(feed, storable, stored), Remaining(feed, storable, stored);
            var after := Runs(feed, storable, m, stored, n);
            && Useless(feed, storable, after) == u
            && Remaining(feed, storable, after) <= Left(r, n, m - u)
  {
    hide Useless, Remaining, Run;
    if n > 0 {
      var u, r := Useless(feed, storable, stored), Remaining(feed, storable, stored);
      BacklogDrains(feed, storable, m, stored, n - 1);
      RunMakesProgress(feed, storable, m, Runs(feed, storable, m, stored, n - 1));
      OneStepLess(r, n - 1, m - u);
    }
  }

  // ---------------------------------------------------------------- exactly which feeds drain

  /** Fewer than MaxItems never-stored posts stand in front of every storable one. */
  ghost predicate Unblocked(waiting: seq<SavedPost>, storable: SavedPost -> bool, m: nat)
  {
    forall i | 0 <= i < |waiting| && storable(waiting[i]) :: Count(waiting[..i], Not(storable)) < m
  }

  /** The line a later state's waiting posts are what is left of, with its never-stored posts still there. */
  ghost predicate LineHolds(feed: seq<SavedPost>, line: seq<SavedPost>, storable: SavedPost -> bool, after: set<string>)
  {
    && Unstored(Distinct(feed), after) == Unstored(line, after)
    && forall p <- line :: Not(storable)(p) ==> p.source !in after
  }

  lemma LineStarts(feed: seq<SavedPost>, storable: SavedPost -> bool, stored: set<string>)
    ensures LineHolds(feed, Unstored(Distinct(feed), stored), storable, stored)
  {
    UnstoredMeaning(Distinct(feed), stored);
    UnstoredTwice(Distinct(feed), stored, stored);
    assert stored + stored == stored;
  }

  lemma LineStays(feed: seq<SavedPost>, storable: SavedPost -> bool, stored: set<string>, after: set<string>)
    requires stored <= after
    ensures Unstored(Distinct(feed), after) == Unstored(Unstored(Distinct(feed), stored), after)
  {
    UnstoredTwice(Distinct(feed), stored, after);
    assert stored + after == after;
  }

  lemma RunHoldsLine(feed: seq<SavedPost>, line: seq<SavedPost>, storable: SavedPost -> bool, m: nat,
                     before: set<string>)
    requires DistinctSources(line) && LineHolds(feed, line, storable, before)
    ensures forall p <- line :: Not(storable)(p) ==> p.source !in Run(feed, storable, m, before)
  {
    hide Distinct, Unstored, Run;
    AfterRun(feed, storable, m, before);
    UnstoredMeaning(line, before);
    NeverStored(line, Take(Unstored(line, before), m), storable);
  }

  /** After any runs, only storable posts have left the waiting line. */
  lemma {:induction false} OnlyStorableLeave(feed: seq<SavedPost>, storable: SavedPost -> bool, m: nat,
                                             stored: set<string>, n: nat)
    ensures LineHolds(feed, Unstored(Distinct(feed), stored), storable, Runs(feed, storable, m, stored, n))
  {
    hide Distinct, Unstored, Run;
    var line := Unstored(Distinct(feed), stored);
    LineStarts(feed, storable, stored);
    if n > 0 {
      OnlyStorableLeave(feed, storable, m, stored, n - 1);
      WaitingDistinct(feed, stored);
      RunHoldsLine(feed, line, storable, m, Runs(feed, storable, m, stored, n - 1));
      OnlyGrows(feed, storable, m, stored, n);
      LineStays(feed, storable, stored, Runs(feed, storable, m, stored, n));
    }
  }

  lemma {:induction false} OnlyGrows(feed: seq<SavedPost>, storable: SavedPost -> bool, m: nat,
                                     stored: set<string>, n: nat)
    ensures stored <= Runs(feed, storable, m, stored, n)
  {
    if n > 0 {
      OnlyGrows(feed, storable, m, stored, n - 1);
    }
  }

  /** Storing part of a line of distinct posts marks none of its other posts as stored. */
  lemma NeverStored(line: seq<SavedPost>, taken: seq<SavedPost>, storable: SavedPost -> bool)
    requires DistinctSources(line) && forall q <- taken :: q in line
    ensures forall p <- line :: Not(storable)(p) ==> p.source !in StorableSources(taken, storable)
  {
    forall p, q | p in line && q in taken && !storable(p) && storable(q)
      ensures p.source != q.source
    {
      var i :| 0 <= i < |line| && line[i] == p;
      var j :| 0 <= j < |line| && line[j] == q;
      assert i < j || j < i;
    }
  }

  /** The j-th post of what is unstored of ps is some post of ps, and what comes before it is what
      is unstored before it. */
  lemma {:induction false} UnstoredSplit(ps: seq<SavedPost>, stored: set<string>, j: nat) returns (i: nat)
    requires j < |Unstored(ps, stored)|
    ensures i < |ps| && ps[i] == Unstored(ps, stored)[j]
    ensures Unstored(ps[..i], stored) == Unstored(ps, stored)[..j]
  {
    var init := ps[..|ps| - 1];
    if j < |Unstored(init, stored)| {
      i := UnstoredSplit(init, stored, j);
      assert ps[..i] == init[..i];
    } else {
      i := |ps| - 1;
    }
  }

  lemma {:induction false} UnstoredCountsLess(ps: seq<SavedPost>, stored: set<string>, p: SavedPost -> bool)
    ensures Count(Unstored(ps, stored), p) <= Count(ps, p)
    ensures (forall q <- ps :: p(q) ==> q.source !in stored) ==> Count(Unstored(ps, stored), p) == Count(ps, p)
  {
    if ps != [] {
      var init, last := ps[..|ps| - 1], ps[|ps| - 1];
      UnstoredCountsLess(init, stored, p);
      assert last in ps;
      assert forall q <- init :: q in ps;
      CountAppend(Unstored(init, stored), [last], p);
    }
  }

  /** The first post of ps that satisfies p. */
  lemma {:induction false} FirstOf(ps: seq<SavedPost>, p: SavedPost -> bool) returns (j: nat)
    requires Count(ps, p) > 0
    ensures j < |ps| && p(ps[j]) && Count(ps[..j], p) == 0
  {
    var init := ps[..|ps| - 1];
    if Count(init, p) > 0 {
      j := FirstOf(init, p);
      assert ps[..j] == init[..j];
    } else {
      j := |ps| - 1;
    }
  }

  /** The first storable post that waits is close enough to the front to be collected. */
  lemma FirstStorableTaken(feed: seq<SavedPost>, storable: SavedPost -> bool, m: nat, stored: set<string>, n: nat)
    requires Unblocked(Unstored(Distinct(feed), stored), storable, m)
    requires Remaining(feed, storable, Runs(feed, storable, m, stored, n)) > 0
    ensures var waiting := Unstored(Distinct(feed), Runs(feed, storable, m, stored, n));
            Count(Take(waiting, m), storable) > 0
  {
    hide Distinct, Runs;
    var line := Unstored(Distinct(feed), stored);
    var before := Runs(feed, storable, m, stored, n);
    var waiting := Unstored(Distinct(feed), before);
    OnlyStorableLeave(feed, storable, m, stored, n);
    var j := FirstOf(waiting, storable);
    var i := UnstoredSplit(line, before, j);
    UnstoredCountsLess(line[..i], before, Not(storable));
    CountPartition(waiting[..j], storable);
    assert j < m;
    CountsOne(Take(waiting, m), storable, waiting[j]);
  }

  /** While the line is unblocked and something storable waits, a run stores at least one post. */
  lemma UnblockedProgress(feed: seq<SavedPost>, storable: SavedPost -> bool, m: nat, stored: set<string>, n: nat)
    requires Unblocked(Unstored(Distinct(feed), stored), storable, m)
    ensures Remaining(feed, storable, Runs(feed, storable, m, stored, n + 1)) == 0
            || Remaining(feed, storable, Runs(feed, storable, m, stored, n + 1))
               < Remaining(feed, storable, Runs(feed, storable, m, stored, n))
  {
    hide Distinct, Unblocked, Unstored, Count;
    var before := Runs(feed, storable, m, stored, n);
    if Remaining(feed, storable, before) > 0 {
      FirstStorableTaken(feed, storable, m, stored, n);
    }
    AfterRun(feed, storable, m, before);
    RunCounts(Unstored(Distinct(feed), before), storable, m);
  }

  lemma {:induction false} UnblockedDrains(feed: seq<SavedPost>, storable: SavedPost -> bool, m: nat,
                                           stored: set<string>, n: nat)
    requires Unblocked(Unstored(Distinct(feed), stored), storable, m)
    ensures Remaining(feed, storable, Runs(feed, storable, m, stored, n)) == 0
            || Remaining(feed, storable, Runs(feed, storable, m, stored, n)) + n <= Remaining(feed, storable, stored)
  {
    hide Remaining, Run, Unblocked, Distinct;
    if n == 0 {
      assert Runs(feed, storable, m, stored, n) == stored;
    } else {
      UnblockedDrains(feed, storable, m, stored, n - 1);
      UnblockedProgress(feed, storable, m, stored, n - 1);
    }
  }

  /** A storable post behind MaxItems never-stored ones is never collected. */
  lemma {:induction false} BlockedForever(feed: seq<SavedPost>, storable: SavedPost -> bool, m: nat,
                                          stored: set<string>, i: nat, n: nat)
    requires i < |Unstored(Distinct(feed), stored)| && storable(Unstored(Distinct(feed), stored)[i])
    requires Count(Unstored(Distinct(feed), stored)[..i], Not(storable)) >= m
    ensures Unstored(Distinct(feed), stored)[i].source !in Runs(feed, storable, m, stored, n)
  {
    hide Distinct, Unstored, Run, Count;
    var line := Unstored(Distinct(feed), stored);
    if n == 0 {
      UnstoredMeaning(Distinct(feed), stored);
      assert line[i] in line;
    } else {
      BlockedForever(feed, storable, m, stored, i, n - 1);
      OnlyStorableLeave(feed, storable, m, stored, n - 1);
      assert LineHolds(feed, line, storable, Runs(feed, storable, m, stored, n - 1));
      RunPasses(feed, line, storable, m, Runs(feed, storable, m, stored, n - 1), i);
    }
  }

  lemma RunPasses(feed: seq<SavedPost>, line: seq<SavedPost>, storable: SavedPost -> bool, m: nat,
                  before: set<string>, i: nat)
    requires Unstored(Distinct(feed), before) == Unstored(line, before)
    requires i < |line| && line[i].source !in before && Count(line[..i], Not(storable)) >= m
    requires forall p <- line :: Not(storable)(p) ==> p.source !in before
    ensures line[i].source !in Run(feed, storable, m, before)
  {
    AfterRun(feed, storable, m, before);
    StaysBehind(line, storable, m, before, i);
  }

  /** A post with MaxItems never-stored posts in front of it is not among the first MaxItems. */
  lemma StaysBehind(line: seq<SavedPost>, storable: SavedPost -> bool, m: nat, before: set<string>, i: nat)
    requires i < |line| && line[i].source !in before && Count(line[..i], Not(storable)) >= m
    requires forall p <- line :: Not(storable)(p) ==> p.source !in before
    requires DistinctSources(Unstored(line, before))
    ensures line[i].source !in StorableSources(Take(Unstored(line, before), m), storable)
  {
    var waiting := Unstored(line, before);
    assert line == line[..i] + [line[i]] + line[i + 1..];
    UnstoredAppend(line[..i] + [line[i]], line[i + 1..], before);
    UnstoredAppend(line[..i], [line[i]], before);
    var at := |Unstored(line[..i], before)|;
    assert waiting[at] == line[i];
    UnstoredCountsLess(line[..i], before, Not(storable));
    CountPartition(Unstored(line[..i], before), storable);
    forall q | q in Take(waiting, m)
      ensures q.source != line[i].source
    {
      var k :| 0 <= k < m && k < |waiting| && waiting[k] == q;
    }
  }

  /** Exactly which feeds drain: those in which fewer than MaxItems never-stored posts stand in
      front of each storable one. Nothing weaker than this makes repeated runs reach every post. */
  lemma DrainsExactlyWhenUnblocked(feed: seq<SavedPost>, storable: SavedPost -> bool, m: nat, stored: set<string>)
    ensures (exists n :: Remaining(feed, storable, Runs(feed, storable, m, stored, n)) == 0)
            <==> Unblocked(Unstored(Distinct(feed), stored), storable, m)
  {
    var line := Unstored(Distinct(feed), stored);
    if Unblocked(line, storable, m) {
      UnblockedDrains(feed, storable, m, stored, Remaining(feed, storable, stored));
    } else {
      var i :| 0 <= i < |line| && storable(line[i]) && Count(line[..i], Not(storable)) >= m;
      forall n: nat
        ensures Remaining(feed, storable, Runs(feed, storable, m, stored, n)) > 0
      {
        BlockedForever(feed, storable, m, stored, i, n);
        OnlyStorableLeave(feed, storable, m, stored, n);
        var after := Runs(feed, storable, m, stored, n);
        UnstoredMeaning(line, after);
        assert line[i] in Unstored(line, after);
        CountsOne(Unstored(line, after), storable, line[i]);
      }
    }
  }

  /** A feed that never drains: with MaxItems 1, one post without a recipe in front of one with a recipe
      keeps every run busy, and nothing is ever stored. */
  lemma StuckFeed() returns (feed: seq<SavedPost>, storable: SavedPost -> bool)
    ensures |Distinct(feed)| == 2 && !storable(Distinct(feed)[0]) && storable(Distinct(feed)[1])
    ensures forall n :: Runs(feed, storable, 1, {}, n) == {}
    ensures forall n :: Remaining(feed, storable, Runs(feed, storable, 1, {}, n)) == 1
  {
    var plain, recipe := SavedPost("a", "Sonnenuntergang", ""), SavedPost("b", "Rezept", "");
    feed := [plain, recipe];
    storable := p => p == recipe;
    TwoNewPosts(plain, recipe, None);
    TwoNewPosts(plain, recipe, KnownIn({}));
    StuckRuns(feed, storable);
    TwoWaiting(plain, recipe, storable);
  }

  lemma TwoNewPosts(a: SavedPost, b: SavedPost, known: Option<string -> bool>)
    requires a.source != b.source && !Known(known, a.source) && !Known(known, b.source)
    ensures NewPosts([a, b], known) == [a, b]
  {
    assert [a, b][..1] == [a] && [a][..0] == [];
    assert NewPosts([a], known) == [a];
    assert b.source !in Sources([a]);
  }

  lemma TwoWaiting(a: SavedPost, b: SavedPost, storable: SavedPost -> bool)
    requires !storable(a) && storable(b)
    ensures Unstored([a, b], {}) == [a, b] && Count([a, b], storable) == 1
  {
    assert [a, b][..1] == [a] && [a][..0] == [];
    assert Unstored([], {}) == [] && Count([], storable) == 0;
    assert Unstored([a], {}) == [a] && Count([a], storable) == 0;
  }

  lemma StuckRuns(feed: seq<SavedPost>, storable: SavedPost -> bool)
    requires |feed| == 2 && NewPosts(feed, KnownIn({})) == feed && !storable(feed[0])
    ensures forall n :: Runs(feed, storable, 1, {}, n) == {}
  {
    assert Take(feed, 1) == [feed[0]];
    assert Run(feed, storable, 1, {}) == {};
    forall n: nat
      ensures Runs(feed, storable, 1, {}, n) == {}
    {
      StuckFor(feed, storable, n);
    }
  }

  lemma {:induction false} StuckFor(feed: seq<SavedPost>, storable: SavedPost -> bool, n: nat)
    requires Run(feed, storable, 1, {}) == {}
    ensures Runs(feed, storable, 1, {}, n) == {}
  {
    if n > 0 {
      StuckFor(feed, storable, n - 1);
    }
  }

  lemma {:induction false} CountsOne(ps: seq<SavedPost>, p: SavedPost -> bool, q: SavedPost)
    requires q in ps && p(q)
    ensures Count(ps, p) > 0
  {
    if ps[|ps| - 1] != q {
      CountsOne(ps[..|ps| - 1], p, q);
    }
  }

  /** Nothing remaining means what it should: every storable post of the feed is stored. */
  lemma NothingRemains(feed: seq<SavedPost>, storable: SavedPost -> bool, stored: set<string>)
    ensures Remaining(feed, storable, stored) == 0 <==> forall p <- Distinct(feed) :: storable(p) ==> p.source in stored
  {
    var waiting := Unstored(Distinct(feed), stored);
    UnstoredMeaning(Distinct(feed), stored);
    if Remaining(feed, storable, stored) == 0 {
      forall p | p in Distinct(feed) && storable(p)
        ensures p.source in stored
      {
        if p.source !in stored {
          CountsOne(waiting, storable, p);
        }
      }
    } else {
      var j := FirstOf(waiting, storable);
      assert waiting[j] in waiting;
    }
  }
}
