/** The books of one import run: what became of each post, the tally of it, and what was stored. */
module ImportAccount {
  import opened Wrappers
  import opened SavedFeed
  import opened ImportOutcome
  import Backlog
  import E = Scoring

  /** What the extractor made of a caption. */
  datatype Extraction = NoneFound | ExtractorFailed | Found(recipe: E.Recipe)

  /** A confidence of zero or less counts as no recipe too. */
  predicate HasRecipe(x: Extraction)
  {
    x.Found? && x.recipe.confidence > 0.0
  }

  /** What one post's turn meets: whether the run is cancelled before it, what the extractor answers,
      whether the run is cancelled by the time an error is looked at, the database's clock, and which of
      the statements that store the recipe are lost. */
  datatype Turn = Turn(cancelled: bool, extraction: Extraction, cutOff: bool, now: int, faults: nat -> bool)

  datatype PostOutcome = Imported(degraded: bool) | Skipped | NoRecipe | Failed

  function Counted(r: ImportResult, o: PostOutcome): ImportResult
  {
    match o
    case Imported(degraded) => r.(seen := r.seen + 1, imported := r.imported + 1,
                                  degraded := r.degraded + if degraded then 1 else 0)
    case Skipped => r.(seen := r.seen + 1, skipped := r.skipped + 1)
    case NoRecipe => r.(seen := r.seen + 1, noRecipe := r.noRecipe + 1)
    case Failed => r.(seen := r.seen + 1, failed := r.failed + 1)
  }

  function Tally(outcomes: seq<PostOutcome>): ImportResult
  {
    if outcomes == [] then NOTHING else Counted(Tally(outcomes[..|outcomes| - 1]), outcomes[|outcomes| - 1])
  }

  function Gain(post: SavedPost, o: PostOutcome): set<string>
  {
    if o.Imported? then {post.source} else {}
  }

  /** The stored sources after the posts that have an outcome. */
  function StoredAfter(posts: seq<SavedPost>, outcomes: seq<PostOutcome>, stored: set<string>): set<string>
    requires |outcomes| <= |posts|
    decreases |outcomes|
  {
    if outcomes == [] then stored
    else
      StoredAfter(posts, outcomes[..|outcomes| - 1], stored) + Gain(posts[|outcomes| - 1], outcomes[|outcomes| - 1])
  }

  /** What may keep a recipe from being stored or refused as a duplicate: a lost statement, or more
      ingredients than 32-bit positions can tell apart. */
  ghost predicate StoreMayFail(turn: Turn)
  {
    (exists k :: turn.faults(k)) || (turn.extraction.Found? && |turn.extraction.recipe.ingredients| > 0x1_0000_0000)
  }

  /** The outcome a post may get, given its turn and the sources stored when it came. */
  ghost predicate Explains(o: PostOutcome, turn: Turn, source: string, stored: set<string>)
  {
    var x := turn.extraction;
    match o
    case NoRecipe => x.NoneFound? || (x.Found? && !HasRecipe(x))
    case Failed => x.ExtractorFailed? || (HasRecipe(x) && StoreMayFail(turn))
    case Skipped => HasRecipe(x) && source in stored
    case Imported(degraded) => HasRecipe(x) && source !in stored && degraded == x.recipe.degraded
  }

  /** The outcomes belong to the first posts, in order, each explained by its own turn. */
  ghost predicate Accounts(posts: seq<SavedPost>, turns: nat -> Turn, outcomes: seq<PostOutcome>, stored: set<string>)
    decreases |outcomes|
  {
    outcomes == [] ||
    var n := |outcomes| - 1;
    && n < |posts|
    && Accounts(posts, turns, outcomes[..n], stored)
    && Explains(outcomes[n], turns(n), posts[n].source, StoredAfter(posts, outcomes[..n], stored))
  }

  // ---------------------------------------------------------------- the tally

  predicate Balanced(r: ImportResult)
  {
    r.seen == r.imported + r.skipped + r.noRecipe + r.failed
    && 0 <= r.degraded <= r.imported && r.skipped >= 0 && r.noRecipe >= 0 && r.failed >= 0
  }

  /** Every counted post is in exactly one of the four buckets, and the degraded ones among the
      imported. */
  lemma {:induction false} TallyBalances(outcomes: seq<PostOutcome>)
    ensures Balanced(Tally(outcomes)) && Tally(outcomes).seen == |outcomes|
  {
    if outcomes != [] {
      TallyBalances(outcomes[..|outcomes| - 1]);
    }
  }

  /** The posts that came to this. */
  function With(outcomes: seq<PostOutcome>, o: PostOutcome): set<int>
  {
    set i | 0 <= i < |outcomes| && outcomes[i] == o
  }

  /** The tally counts outcomes: each bucket is the number of posts it is named for. */
  lemma {:induction false} TallyCounts(outcomes: seq<PostOutcome>)
    ensures var r := Tally(outcomes);
            && r.imported == |With(outcomes, Imported(true))| + |With(outcomes, Imported(false))|
            && r.degraded == |With(outcomes, Imported(true))|
            && r.skipped == |With(outcomes, Skipped)|
            && r.noRecipe == |With(outcomes, NoRecipe)|
            && r.failed == |With(outcomes, PostOutcome.Failed)|
            && r.seen == |outcomes|
  {
    hide With;
    if outcomes == [] {
      NoneWith();
    } else {
      TallyCounts(outcomes[..|outcomes| - 1]);
      OneMoreWith(outcomes, Imported(true));
      OneMoreWith(outcomes, Imported(false));
      OneMoreWith(outcomes, Skipped);
      OneMoreWith(outcomes, NoRecipe);
      OneMoreWith(outcomes, PostOutcome.Failed);
    }
  }

  lemma NoneWith()
    ensures forall o :: With([], o) == {}
  {}

  lemma OneMoreWith(outcomes: seq<PostOutcome>, o: PostOutcome)
    requires outcomes != []
    ensures |With(outcomes, o)|
         == |With(outcomes[..|outcomes| - 1], o)| + (if outcomes[|outcomes| - 1] == o then 1 else 0)
  {
    var n := |outcomes| - 1;
    if outcomes[n] == o {
      assert With(outcomes, o) == With(outcomes[..n], o) + {n};
    } else {
      assert With(outcomes, o) == With(outcomes[..n], o);
    }
  }

  // ---------------------------------------------------------------- tally and store

  lemma {:induction false} AccountsPrefix(posts: seq<SavedPost>, turns: nat -> Turn, outcomes: seq<PostOutcome>,
                                          stored: set<string>, k: nat)
    requires Accounts(posts, turns, outcomes, stored) && k <= |outcomes|
    ensures |outcomes| <= |posts| && Accounts(posts, turns, outcomes[..k], stored)
    ensures StoredAfter(posts, outcomes[..k], stored) <= StoredAfter(posts, outcomes, stored)
    decreases |outcomes|
  {
    if k < |outcomes| {
      var n := |outcomes| - 1;
      AccountsPrefix(posts, turns, outcomes[..n], stored, k);
      assert outcomes[..n][..k] == outcomes[..k];
    } else {
      assert outcomes[..k] == outcomes;
    }
  }

  /** How the turn of one counted post went, in terms of what had been stored by then. */
  lemma OutcomeExplained(posts: seq<SavedPost>, turns: nat -> Turn, outcomes: seq<PostOutcome>,
                         stored: set<string>, i: nat)
    requires Accounts(posts, turns, outcomes, stored) && i < |outcomes|
    ensures |outcomes| <= |posts|
    ensures Explains(outcomes[i], turns(i), posts[i].source, StoredAfter(posts, outcomes[..i], stored))
    ensures StoredAfter(posts, outcomes[..i], stored) + Gain(posts[i], outcomes[i])
         <= StoredAfter(posts, outcomes, stored)
  {
    AccountsPrefix(posts, turns, outcomes, stored, i + 1);
    assert outcomes[..i + 1][..i] == outcomes[..i];
  }

  /** The store grows by exactly as many sources as the tally says were imported. */
  lemma {:induction false} StoreGrowsByImported(posts: seq<SavedPost>, turns: nat -> Turn, outcomes: seq<PostOutcome>,
                                                stored: set<string>)
    requires Accounts(posts, turns, outcomes, stored)
    ensures |outcomes| <= |posts|
    ensures |StoredAfter(posts, outcomes, stored)| == |stored| + Tally(outcomes).imported
    decreases |outcomes|
  {
    if outcomes != [] {
      var n := |outcomes| - 1;
      StoreGrowsByImported(posts, turns, outcomes[..n], stored);
      assert StoredAfter(posts, outcomes[..n], stored) + {} == StoredAfter(posts, outcomes[..n], stored);
    }
  }

  /** What is stored only grows. */
  lemma StoredStays(posts: seq<SavedPost>, turns: nat -> Turn, outcomes: seq<PostOutcome>, stored: set<string>)
    requires Accounts(posts, turns, outcomes, stored)
    ensures |outcomes| <= |posts| && stored <= StoredAfter(posts, outcomes, stored)
  {
    AccountsPrefix(posts, turns, outcomes, stored, 0);
  }

  /** The imported posts have sources of their own, none of them stored before. */
  lemma ImportedAreNew(posts: seq<SavedPost>, turns: nat -> Turn, outcomes: seq<PostOutcome>, stored: set<string>,
                       i: nat, j: nat)
    requires Accounts(posts, turns, outcomes, stored) && i < j < |outcomes|
    requires outcomes[i].Imported? && outcomes[j].Imported?
    ensures |outcomes| <= |posts| && posts[i].source != posts[j].source && posts[j].source !in stored
  {
    OutcomeExplained(posts, turns, outcomes, stored, j);
    AccountsPrefix(posts, turns, outcomes, stored, j);
    StoredStays(posts, turns, outcomes[..j], stored);
    OutcomeExplained(posts, turns, outcomes[..j], stored, i);
  }

  /** A source that came to be stored is that of an imported post. */
  lemma {:induction false} ImportedFrom(posts: seq<SavedPost>, outcomes: seq<PostOutcome>, stored: set<string>,
                                        source: string)
    returns (i: nat)
    requires |outcomes| <= |posts| && source in StoredAfter(posts, outcomes, stored) && source !in stored
    ensures i < |outcomes| && outcomes[i].Imported? && posts[i].source == source
    decreases |outcomes|
  {
    var n := |outcomes| - 1;
    if source in StoredAfter(posts, outcomes[..n], stored) {
      i := ImportedFrom(posts, outcomes[..n], stored, source);
    } else {
      i := n;
    }
  }

  // ---------------------------------------------------------------- running again

  /** A later run imports a post only if the earlier run failed on it or did not get to it. The later run
      may fetch whatever it likes, in any order; its j-th post is the earlier run's i-th if they have the
      same source, and its extraction came out the same. */
  lemma RepeatImportsOnlyTheRest(posts: seq<SavedPost>, turns: nat -> Turn, first: seq<PostOutcome>,
                                 posts2: seq<SavedPost>, turns2: nat -> Turn, second: seq<PostOutcome>,
                                 stored: set<string>, i: nat, j: nat)
    requires Accounts(posts, turns, first, stored) && |first| <= |posts|
    requires Accounts(posts2, turns2, second, StoredAfter(posts, first, stored)) && |second| <= |posts2|
    requires j < |second| && second[j].Imported?
    requires i < |posts| && posts2[j].source == posts[i].source && turns2(j).extraction == turns(i).extraction
    ensures i >= |first| || first[i].Failed?
  {
    var between := StoredAfter(posts, first, stored);
    OutcomeExplained(posts2, turns2, second, between, j);
    AccountsPrefix(posts2, turns2, second, between, j);
    StoredStays(posts2, turns2, second[..j], between);
    if i < |first| {
      OutcomeExplained(posts, turns, first, stored, i);
    }
  }

  /** A post whose recipe the earlier run stored or found stored is skipped when a later run meets it
      again, unless that run fails on it. */
  lemma RepeatSkipsTheStored(posts: seq<SavedPost>, turns: nat -> Turn, first: seq<PostOutcome>,
                             posts2: seq<SavedPost>, turns2: nat -> Turn, second: seq<PostOutcome>,
                             stored: set<string>, i: nat, j: nat)
    requires Accounts(posts, turns, first, stored) && |first| <= |posts|
    requires Accounts(posts2, turns2, second, StoredAfter(posts, first, stored)) && |second| <= |posts2|
    requires i < |first| && (first[i].Imported? || first[i].Skipped?)
    requires j < |second| && posts2[j].source == posts[i].source && turns2(j).extraction == turns(i).extraction
    ensures second[j].Skipped? || (second[j].Failed? && StoreMayFail(turns2(j)))
  {
    var between := StoredAfter(posts, first, stored);
    OutcomeExplained(posts2, turns2, second, between, j);
    AccountsPrefix(posts2, turns2, second, between, j);
    StoredStays(posts2, turns2, second[..j], between);
    OutcomeExplained(posts, turns, first, stored, i);
  }

  /** What became of each counted post, by what its turn met: it had no recipe exactly when the extractor found
      none or gave it no confidence; where it had one and nothing stood in the way, it was skipped exactly when
      its source was stored before the run or imported earlier in it, and otherwise imported. */
  lemma OutcomeMeaning(posts: seq<SavedPost>, turns: nat -> Turn, outcomes: seq<PostOutcome>, stored: set<string>,
                       i: nat)
    requires Accounts(posts, turns, outcomes, stored) && i < |outcomes|
    ensures |outcomes| <= |posts|
    ensures var x := turns(i).extraction;
            && (outcomes[i] == NoRecipe <==> x.NoneFound? || (x.Found? && x.recipe.confidence <= 0.0))
            && (x.ExtractorFailed? ==> outcomes[i] == PostOutcome.Failed)
            && (outcomes[i].Imported? ==> x.Found? && outcomes[i].degraded == x.recipe.degraded)
            && (x.Found? && x.recipe.confidence > 0.0 && (forall k :: !turns(i).faults(k))
                && |x.recipe.ingredients| <= 0x1_0000_0000 ==>
                  if posts[i].source in stored || ImportedEarlier(posts, outcomes, i) then outcomes[i] == Skipped
                  else outcomes[i] == Imported(x.recipe.degraded))
  {
    OutcomeExplained(posts, turns, outcomes, stored, i);
    AccountsPrefix(posts, turns, outcomes, stored, i);
    var earlier := outcomes[..i];
    StoredStays(posts, turns, earlier, stored);
    if posts[i].source in StoredAfter(posts, earlier, stored) && posts[i].source !in stored {
      var j := ImportedFrom(posts, earlier, stored, posts[i].source);
      assert outcomes[j] == earlier[j];
    }
    forall j | 0 <= j < i && outcomes[j].Imported? && posts[j].source == posts[i].source
      ensures posts[i].source in StoredAfter(posts, earlier, stored)
    {
      OutcomeExplained(posts, turns, earlier, stored, j);
    }
  }

  /** An earlier post of the run with the same source was imported. */
  ghost predicate ImportedEarlier(posts: seq<SavedPost>, outcomes: seq<PostOutcome>, i: nat)
    requires i < |outcomes| <= |posts|
  {
    exists j :: 0 <= j < i && outcomes[j].Imported? && posts[j].source == posts[i].source
  }

  // ---------------------------------------------------------------- the run as the backlog sees it

  /** Nothing goes wrong in a post's turn. */
  ghost predicate Smooth(turn: Turn)
  {
    !turn.extraction.ExtractorFailed? && (turn.extraction.Found? ==> !StoreMayFail(turn))
  }

  /** A run to the end in which nothing goes wrong stores exactly the sources of the posts with a recipe. */
  lemma {:induction false} CleanRunStores(posts: seq<SavedPost>, turns: nat -> Turn, outcomes: seq<PostOutcome>,
                                          stored: set<string>, storable: SavedPost -> bool)
    requires Accounts(posts, turns, outcomes, stored) && |outcomes| <= |posts|
    requires forall i | 0 <= i < |outcomes| :: Smooth(turns(i))
    requires forall i | 0 <= i < |outcomes| :: storable(posts[i]) <==> HasRecipe(turns(i).extraction)
    ensures StoredAfter(posts, outcomes, stored) == stored + Backlog.StorableSources(posts[..|outcomes|], storable)
    decreases |outcomes|
  {
    if outcomes == [] {
      assert Backlog.StorableSources(posts[..0], storable) == {};
    } else {
      var n := |outcomes| - 1;
      CleanRunStores(posts, turns, outcomes[..n], stored, storable);
      SourcesStep(posts, n, storable);
      assert Smooth(turns(n));
    }
  }

  lemma SourcesStep(posts: seq<SavedPost>, n: nat, storable: SavedPost -> bool)
    requires n < |posts|
    ensures Backlog.StorableSources(posts[..n + 1], storable)
         == Backlog.StorableSources(posts[..n], storable) + (if storable(posts[n]) then {posts[n].source} else {})
  {
    assert posts[..n + 1] == posts[..n] + [posts[n]];
    forall p | p in posts[..n + 1]
      ensures p in posts[..n] || p == posts[n]
    {}
    assert posts[n] in posts[..n + 1];
  }

  /** So one run over an error-free feed is the step the backlog theorems are about. */
  lemma RunIsBacklogStep(feed: seq<SavedPost>, maxItems: nat, turns: nat -> Turn, outcomes: seq<PostOutcome>,
                         stored: set<string>, storable: SavedPost -> bool)
    requires var posts := Take(NewPosts(feed, Backlog.KnownIn(stored)), maxItems);
             && Accounts(posts, turns, outcomes, stored) && |outcomes| == |posts|
             && (forall i | 0 <= i < |outcomes| :: Smooth(turns(i)))
             && (forall i | 0 <= i < |outcomes| :: storable(posts[i]) <==> HasRecipe(turns(i).extraction))
    ensures StoredAfter(Take(NewPosts(feed, Backlog.KnownIn(stored)), maxItems), outcomes, stored)
         == Backlog.Run(feed, storable, maxItems, stored)
  {
    var posts := Take(NewPosts(feed, Backlog.KnownIn(stored)), maxItems);
    CleanRunStores(posts, turns, outcomes, stored, storable);
    assert posts[..|outcomes|] == posts;
  }
}
