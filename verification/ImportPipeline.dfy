/** One import run, from the lock to the tally: `Pipeline.Run` and `toRecipe` over the feed walk and the
    recipe repository. What the lock, the remote feed, the lookups, the category query, the extractor
    and the clock answer are arguments. */
module ImportPipeline {
  import opened Wrappers
  import opened Domain
  import opened Tables
  import opened ImportOutcome
  import opened ImportAccount
  import opened Orders
  import Backlog
  import F = SavedFeed
  import E = Scoring
  import N = Names
  import W = RecipeWrites
  import R = RecipeRepository
  import Reads = RecipeReads
  import opened StoredRecipes
  import opened WriteEcho

  const MAX_RECIPE_NAME_RUNES := 200
  const MAX_INGREDIENT_NAME_RUNES := 120
  const MAX_UNIT_NAME_RUNES := 32
  const UNTITLED_RECIPE := "Unbenanntes Rezept"

  /** What asking for the import lock comes to; Unlocked stands for a pipeline without one. */
  datatype LockAnswer = Unlocked | Acquired | Held | Unreachable

  // ---------------------------------------------------------------- toRecipe

  function PublishThreshold(publishThreshold: real, threshold: real): real
  {
    if publishThreshold > 0.0 then publishThreshold else threshold
  }

  /** An ingredient whose name has nothing left in it is dropped. */
  function LinesFor(ingredients: seq<E.Ingredient>): (r: seq<Line>)
    ensures |r| <= |ingredients|
  {
    if ingredients == [] then []
    else
      var init, ing := LinesFor(ingredients[..|ingredients| - 1]), ingredients[|ingredients| - 1];
      var name := N.SanitizeName(ing.name, MAX_INGREDIENT_NAME_RUNES);
      if name == "" then init
      else init + [Line(0, name, ing.amount, None, N.SanitizeName(ing.unit, MAX_UNIT_NAME_RUNES))]
  }

  function CategoriesNamed(names: seq<string>): (r: seq<Category>)
    ensures |r| == |names| && forall i | 0 <= i < |names| :: r[i] == Category(0, names[i])
  {
    seq(|names|, i requires 0 <= i < |names| => Category(0, names[i]))
  }

  function TitleFor(name: string): string
  {
    var title := N.SanitizeName(name, MAX_RECIPE_NAME_RUNES);
    if title == "" then UNTITLED_RECIPE else title
  }

  function RecipeFor(post: F.SavedPost, ex: E.Recipe, categories: seq<string>, publishAt: real): Recipe
  {
    Recipe(0, TitleFor(ex.name), ex.instructions, post.imageURL, post.source,
           if ex.confidence < publishAt then NEEDS_REVIEW else PUBLISHED,
           LinesFor(ex.ingredients), CategoriesNamed(categories), 0, 0)
  }

  /** The line says of an ingredient what an import keeps of it. */
  predicate SaysIngredient(line: Line, ing: E.Ingredient)
  {
    && line.ingredientName == N.SanitizeName(ing.name, 120)
    && line.amount == ing.amount
    && line.unitName == N.SanitizeName(ing.unit, 32)
  }

  /** The lines are those of exactly the ingredients that still have a name when it is sanitized, one each and
      in order; kept is where they stand. */
  ghost predicate SayIngredients(lines: seq<Line>, ingredients: seq<E.Ingredient>, kept: seq<int>)
  {
    && |kept| == |lines| && Ascending(kept)
    && (forall i | 0 <= i < |ingredients| && N.SanitizeName(ingredients[i].name, 120) != "" :: i in kept)
    && forall k | 0 <= k < |kept| ::
         && 0 <= kept[k] < |ingredients| && N.SanitizeName(ingredients[kept[k]].name, 120) != ""
         && SaysIngredient(lines[k], ingredients[kept[k]])
  }

  /** r is the recipe of this post and its extraction: text and ingredients from the extraction, picture and
      source from the post, the title sanitized or the fallback where nothing is left of it, the status by the
      threshold, and of the proposed categories those the vocabulary resolves, or all without one. */
  ghost predicate MadeOf(r: Recipe, setup: Setup, post: F.SavedPost, ex: E.Recipe)
  {
    && r.name == (if N.SanitizeName(ex.name, 200) == "" then "Unbenanntes Rezept" else N.SanitizeName(ex.name, 200))
    && r.instructions == ex.instructions
    && r.imageURL == post.imageURL
    && r.source == post.source
    && r.status == (if ex.confidence < setup.publishAt then "needs_review" else "published")
    && (exists kept :: SayIngredients(r.lines, ex.ingredients, kept))
    && NameCategories(r.categories, setup, ex)
  }

  ghost predicate NameCategories(categories: seq<Category>, setup: Setup, ex: E.Recipe)
  {
    var names := if setup.vocabulary.None? then ex.categories
                 else N.Resolved(setup.lower, N.Folded(setup.lower, setup.vocabulary.value), ex.categories);
    |categories| == |names| && forall i | 0 <= i < |names| :: categories[i].name == names[i]
  }

  lemma {:induction false} LinesSayIngredients(ingredients: seq<E.Ingredient>) returns (kept: seq<int>)
    ensures SayIngredients(LinesFor(ingredients), ingredients, kept)
  {
    hide N.SanitizeName, SayIngredients;
    kept := [];
    if ingredients != [] {
      var init, ing := ingredients[..|ingredients| - 1], ingredients[|ingredients| - 1];
      kept := LinesSayIngredients(init);
      assert ingredients == init + [ing];
      var name := N.SanitizeName(ing.name, 120);
      if name == "" {
        SkipsOne(LinesFor(init), init, kept, ing);
      } else {
        var line := Line(0, name, ing.amount, None, N.SanitizeName(ing.unit, 32));
        SaysOneMore(LinesFor(init), init, kept, line, ing);
        kept := kept + [|init|];
      }
    } else {
      NothingToSay(ingredients);
    }
  }

  lemma NothingToSay(ingredients: seq<E.Ingredient>)
    requires ingredients == []
    ensures SayIngredients([], ingredients, [])
  {}

  lemma SkipsOne(lines: seq<Line>, ingredients: seq<E.Ingredient>, kept: seq<int>, ing: E.Ingredient)
    requires SayIngredients(lines, ingredients, kept) && N.SanitizeName(ing.name, 120) == ""
    ensures SayIngredients(lines, ingredients + [ing], kept)
  {
    hide N.SanitizeName;
    var more := ingredients + [ing];
    forall k | 0 <= k < |kept|
      ensures 0 <= kept[k] < |ingredients| && more[kept[k]] == ingredients[kept[k]]
    {}
  }

  lemma SaysOneMore(lines: seq<Line>, ingredients: seq<E.Ingredient>, kept: seq<int>, line: Line, ing: E.Ingredient)
    requires SayIngredients(lines, ingredients, kept)
    requires N.SanitizeName(ing.name, 120) != "" && SaysIngredient(line, ing)
    ensures SayIngredients(lines + [line], ingredients + [ing], kept + [|ingredients|])
  {
    hide N.SanitizeName, SaysIngredient;
    var n := |ingredients|;
    var more, all := kept + [n], ingredients + [ing];
    assert more[|kept|] == n;
    forall i | 0 <= i < |all| && N.SanitizeName(all[i].name, 120) != ""
      ensures i in more
    {
      if i < n {
        assert all[i] == ingredients[i] && i in kept;
      }
    }
    forall k | 0 <= k < |kept|
      ensures 0 <= more[k] < n && all[more[k]] == ingredients[kept[k]] && (lines + [line])[k] == lines[k]
    {}
  }

  /** What an import makes of a post says what the post and its extraction say. */
  lemma RecipeIsMade(setup: Setup, post: F.SavedPost, ex: E.Recipe)
    ensures MadeOf(setup.RecipeOf(post, ex), setup, post, ex)
  {
    hide SayIngredients;
    var kept := LinesSayIngredients(ex.ingredients);
    assert SayIngredients(LinesFor(ex.ingredients), ex.ingredients, kept);
  }

  /** A lookup name an import may write: one bounded line with something in it. */
  ghost predicate Label(name: string, maxRunes: nat)
  {
    name != "" && |name| <= maxRunes && N.Normal(name)
  }

  ghost predicate LabelLine(line: Line)
  {
    && line.ingredientID == 0 && line.unitID == None
    && Label(line.ingredientName, MAX_INGREDIENT_NAME_RUNES)
    && (line.unitName != "" ==> Label(line.unitName, MAX_UNIT_NAME_RUNES))
  }

  lemma {:induction false} LinesAreLabels(ingredients: seq<E.Ingredient>)
    ensures forall i | 0 <= i < |LinesFor(ingredients)| :: LabelLine(LinesFor(ingredients)[i])
  {
    if ingredients != [] {
      var ing := ingredients[|ingredients| - 1];
      LinesAreLabels(ingredients[..|ingredients| - 1]);
      N.SanitizedIsNormal(ing.name, MAX_INGREDIENT_NAME_RUNES);
      N.SanitizedIsNormal(ing.unit, MAX_UNIT_NAME_RUNES);
    }
  }

  lemma UntitledIsLabel()
    ensures Label(UNTITLED_RECIPE, MAX_RECIPE_NAME_RUNES)
  {
    var s := UNTITLED_RECIPE;
    assert forall i | 0 <= i < |s| :: (N.IsSpace(s[i]) <==> i == 11) && !N.IsControl(s[i]);
  }

  /** Whatever a caption talked the extractor into, the recipe has a usable title, a legal status and
      only bounded one-line names; it is published exactly from the threshold on. */
  lemma RecipeIsTame(post: F.SavedPost, ex: E.Recipe, categories: seq<string>, publishAt: real)
    ensures var r := RecipeFor(post, ex, categories, publishAt);
            && Label(r.name, MAX_RECIPE_NAME_RUNES)
            && LegalStatus(r.status) && (r.status == PUBLISHED <==> ex.confidence >= publishAt)
            && forall i | 0 <= i < |r.lines| :: LabelLine(r.lines[i])
  {
    N.SanitizedIsNormal(ex.name, MAX_RECIPE_NAME_RUNES);
    UntitledIsLabel();
    LinesAreLabels(ex.ingredients);
  }

  // ---------------------------------------------------------------- what storing it adds to the lookup tables

  /** Every row of l' is a row of l or holds a label. */
  ghost predicate GrowsByLabels(l: Lookup, l': Lookup, maxRunes: nat)
  {
    forall id <- l'.rows :: (id in l.rows && l'.rows[id] == l.rows[id]) || Label(l'.rows[id], maxRunes)
  }

  lemma LabelsAddUp(a: Lookup, b: Lookup, c: Lookup, maxRunes: nat)
    requires GrowsByLabels(a, b, maxRunes) && GrowsByLabels(b, c, maxRunes)
    ensures GrowsByLabels(a, c, maxRunes)
  {}

  lemma FindOrCreateLabel(l: Lookup, name: string, maxRunes: nat)
    requires Label(name, maxRunes)
    ensures GrowsByLabels(l, FindOrCreate(l, name).0, maxRunes)
  {}

  lemma {:induction false} LinesAddLabels(ingredients: Lookup, units: Lookup, lines: seq<Line>)
    requires forall i | 0 <= i < |lines| :: LabelLine(lines[i])
    ensures var r := W.ResolveLines(ingredients, units, lines);
            && GrowsByLabels(ingredients, r.ingredients, MAX_INGREDIENT_NAME_RUNES)
            && GrowsByLabels(units, r.units, MAX_UNIT_NAME_RUNES)
  {
    if lines != [] {
      var init := W.ResolveLines(ingredients, units, lines[..|lines| - 1]);
      var last := lines[|lines| - 1];
      LinesAddLabels(ingredients, units, lines[..|lines| - 1]);
      FindOrCreateLabel(init.ingredients, last.ingredientName, MAX_INGREDIENT_NAME_RUNES);
      LabelsAddUp(ingredients, init.ingredients, FindOrCreate(init.ingredients, last.ingredientName).0,
                  MAX_INGREDIENT_NAME_RUNES);
      if last.unitName != "" {
        FindOrCreateLabel(init.units, last.unitName, MAX_UNIT_NAME_RUNES);
        LabelsAddUp(units, init.units, FindOrCreate(init.units, last.unitName).0, MAX_UNIT_NAME_RUNES);
      }
    }
  }

  ghost predicate AllNamed(l: Lookup, names: seq<string>)
  {
    forall i | 0 <= i < |names| :: Named(l, names[i])
  }

  /** A category that is there already is found, not created. */
  lemma {:induction false} KnownNamesAddNothing(l: Lookup, cs: seq<Category>)
    requires forall i | 0 <= i < |cs| :: cs[i].id == 0 && Named(l, cs[i].name)
    ensures W.ResolveCategories(l, cs).0 == l
  {
    if cs != [] {
      KnownNamesAddNothing(l, cs[..|cs| - 1]);
    }
  }

  /** A Create leaves the lookup tables as resolving the names left them. */
  lemma CreateLookups(t: Tables, r: Recipe, now: int)
    requires Valid(t) && W.Create(t, r, now).Ok?
    ensures var t' := W.Create(t, r, now).value.0;
            var lines := W.ResolveLines(t.ingredients, t.units, r.lines);
            && t'.categories == W.ResolveCategories(t.categories, r.categories).0
            && t'.ingredients == lines.ingredients && t'.units == lines.units
  {
    var row := RecipeRow(r.name, r.instructions, r.imageURL, r.source, r.status, now, now);
    InsertRecipeKeepsValid(t, row);
    var (t1, id) := InsertRecipe(t, row).value;
    var staged := r.(id := id, createdAt := now, updatedAt := now);
    W.ResolveKeeps(t1, staged);
    var (t2, resolved) := W.Resolve(t1, staged);
    W.WrittenMeaning(t2, resolved);
  }

  /** How far one import or a whole run may change the shared tables: ingredient and unit rows are only
      added, and only labels; with a vocabulary the categories stay exactly as they were. */
  ghost predicate Contained(t: Tables, t': Tables, closed: bool)
  {
    && GrowsByLabels(t.ingredients, t'.ingredients, MAX_INGREDIENT_NAME_RUNES)
    && GrowsByLabels(t.units, t'.units, MAX_UNIT_NAME_RUNES)
    && (closed ==> t'.categories == t.categories)
  }

  lemma ContainedItself(t: Tables, closed: bool)
    ensures Contained(t, t, closed)
  {}

  lemma ContainedAddsUp(a: Tables, b: Tables, c: Tables, closed: bool)
    requires Contained(a, b, closed) && Contained(b, c, closed)
    ensures Contained(a, c, closed)
  {
    LabelsAddUp(a.ingredients, b.ingredients, c.ingredients, MAX_INGREDIENT_NAME_RUNES);
    LabelsAddUp(a.units, b.units, c.units, MAX_UNIT_NAME_RUNES);
  }

  /** Storing one imported recipe adds its source and stays contained. */
  lemma ImportIsContained(t: Tables, post: F.SavedPost, ex: E.Recipe, categories: seq<string>, publishAt: real,
                          now: int, closed: bool)
    requires Valid(t) && W.Create(t, RecipeFor(post, ex, categories, publishAt), now).Ok?
    requires closed ==> AllNamed(t.categories, categories)
    ensures var t' := W.Create(t, RecipeFor(post, ex, categories, publishAt), now).value.0;
            && post.source !in StoredSources(t) && StoredSources(t') == StoredSources(t) + {post.source}
            && Contained(t, t', closed)
  {
    var r := RecipeFor(post, ex, categories, publishAt);
    W.CreateMeaning(t, r, now);
    CreateLookups(t, r, now);
    LinesAreLabels(ex.ingredients);
    LinesAddLabels(t.ingredients, t.units, r.lines);
    if closed {
      assert forall i | 0 <= i < |r.categories| :: r.categories[i].name == categories[i];
      KnownNamesAddNothing(t.categories, r.categories);
    }
  }

  /** A stored source is what makes the store refuse an imported recipe as a duplicate. */
  lemma DuplicateIsStored(t: Tables, post: F.SavedPost, ex: E.Recipe, categories: seq<string>, publishAt: real,
                          now: int)
    requires Valid(t)
    ensures W.Create(t, RecipeFor(post, ex, categories, publishAt), now) == Err(W.DuplicateSource)
            <==> post.source in StoredSources(t)
  {
    W.CreateOutcome(t, RecipeFor(post, ex, categories, publishAt), now);
    assert SourceStored(t, post.source) <==> post.source in StoredSources(t);
  }

  /** A recipe that is not stored yet goes in: an import carries no ids that could be missing, and its
      status is legal. Only more lines than 32-bit positions can tell apart could stand in the way. */
  lemma NewRecipeGoesIn(t: Tables, post: F.SavedPost, ex: E.Recipe, categories: seq<string>, publishAt: real, now: int)
    requires Valid(t) && post.source !in StoredSources(t) && |ex.ingredients| <= W.MAX_LINES
    ensures W.Create(t, RecipeFor(post, ex, categories, publishAt), now).Ok?
  {
    var r := RecipeFor(post, ex, categories, publishAt);
    LinesAreLabels(ex.ingredients);
    W.CarriedStillExist(t, r);
    assert SourceStored(t, post.source) <==> post.source in StoredSources(t);
    W.CreateOutcome(t, r, now);
  }

  /** What a vocabulary read from the categories lets through is in the categories. */
  lemma ResolvedAreNamed(l: Lookup, lower: char -> char, rows: seq<string>, proposed: seq<string>)
    requires AllNamed(l, rows)
    ensures AllNamed(l, N.Resolved(lower, N.Folded(lower, rows), proposed))
  {
    var out := N.Resolved(lower, N.Folded(lower, rows), proposed);
    N.ResolvedMeaning(lower, rows, proposed);
    forall i | 0 <= i < |out|
      ensures Named(l, out[i])
    {
      var name := out[i];
      assert name in out;
      var k :| 0 <= k < |rows| && rows[k] == name;
    }
  }

  // ---------------------------------------------------------------- the pipeline

  /** The names a vocabulary makes of an extraction's categories. */
  ghost function CategoriesFor(lower: char -> char, vocabulary: Option<seq<string>>, proposed: seq<string>): seq<string>
  {
    if vocabulary.None? then proposed else N.Resolved(lower, N.Folded(lower, vocabulary.value), proposed)
  }

  /** vocab is the run's view of these category names, or absent where there was none to read. */
  ghost predicate IsVocabulary(vocab: N.Vocabulary?, lower: char -> char, vocabulary: Option<seq<string>>)
    reads vocab
  {
    if vocabulary.None? then vocab == null
    else vocab != null && vocab.lower == lower && vocab.byFold == N.Folded(lower, vocabulary.value)
  }

  /** What one run goes by: how it folds names, the categories it may attach, and from which confidence on it
      publishes. */
  datatype Setup = Setup(lower: char -> char, vocabulary: Option<seq<string>>, publishAt: real)
  {
    predicate Closed()
    {
      vocabulary.Some?
    }

    /** The recipe a run makes of a post and its extraction. */
    ghost function RecipeOf(post: F.SavedPost, ex: E.Recipe): Recipe
    {
      RecipeFor(post, ex, CategoriesFor(lower, vocabulary, ex.categories), publishAt)
    }
  }

  /** The recipe made of a post and its extraction has been stored, and nothing else has changed. */
  ghost predicate StoredAs(t: Tables, t': Tables, setup: Setup, post: F.SavedPost, ex: E.Recipe, now: int)
  {
    var stored := W.Create(t, setup.RecipeOf(post, ex), now);
    stored.Ok? && t' == stored.value.0
  }

  /** The tables hold a recipe made of this post, under an id that was not there at first. */
  ghost predicate Brought(t0: Tables, t: Tables, setup: Setup, post: F.SavedPost, turn: Turn)
  {
    && turn.extraction.Found?
    && exists id, r :: id !in t0.recipes && Holds(t, id, r, turn.now) && MadeOf(r, setup, post, turn.extraction.recipe)
  }

  /** Storing the recipe of a post loses nothing, and the tables then hold it. */
  lemma StoredIsHeld(t: Tables, t': Tables, setup: Setup, post: F.SavedPost, turn: Turn)
    requires Valid(t) && turn.extraction.Found? && StoredAs(t, t', setup, post, turn.extraction.recipe, turn.now)
    ensures Kept(t, t') && Brought(t, t', setup, post, turn)
  {
    hide W.Create, Valid, RecipeFor, Kept, MadeOf;
    var r := setup.RecipeOf(post, turn.extraction.recipe);
    ImportNamesOnly(post, turn.extraction.recipe, CategoriesFor(setup.lower, setup.vocabulary,
                                                                turn.extraction.recipe.categories), setup.publishAt);
    CreateKeeps(t, r, turn.now);
    CreateHolds(t, r, turn.now);
    RecipeIsMade(setup, post, turn.extraction.recipe);
    assert Holds(t', W.Create(t, r, turn.now).value.1.id, r, turn.now);
  }

  lemma ImportNamesOnly(post: F.SavedPost, ex: E.Recipe, categories: seq<string>, publishAt: real)
    ensures NamesOnly(RecipeFor(post, ex, categories, publishAt))
  {
    hide Label;
    LinesAreLabels(ex.ingredients);
    forall i | 0 <= i < |LinesFor(ex.ingredients)|
      ensures LinesFor(ex.ingredients)[i].ingredientID == 0 && LinesFor(ex.ingredients)[i].unitID == None
    {
      assert LabelLine(LinesFor(ex.ingredients)[i]);
    }
  }

  /** Every post that counts as imported is in the tables as the recipe made of it. */
  ghost predicate AllBrought(t0: Tables, t: Tables, posts: seq<F.SavedPost>, turns: nat -> Turn,
                             outcomes: seq<PostOutcome>, setup: Setup)
    requires |outcomes| <= |posts|
  {
    forall i | 0 <= i < |outcomes| && outcomes[i].Imported? :: Brought(t0, t, setup, posts[i], turns(i))
  }

  /** Where a run stands after some of its posts: the outcomes account for the store, every recipe there was
      is as it was, every imported post is there as the recipe made of it, and the shared tables changed only
      as far as an import may change them. */
  ghost predicate Stands(t0: Tables, t: Tables, posts: seq<F.SavedPost>, turns: nat -> Turn,
                         outcomes: seq<PostOutcome>, setup: Setup)
  {
    && |outcomes| <= |posts| && Accounts(posts, turns, outcomes, StoredSources(t0))
    && StoredSources(t) == StoredAfter(posts, outcomes, StoredSources(t0))
    && Contained(t0, t, setup.Closed())
    && Kept(t0, t) && AllBrought(t0, t, posts, turns, outcomes, setup)
  }

  lemma RowsAreSources(t: Tables)
    requires Valid(t)
    ensures |t.recipes| == |StoredSources(t)|
  {
    var f := map id | id in t.recipes :: t.recipes[id].source;
    var ids := t.recipes.Keys;
    forall a, b | a in ids && b in ids && f[a] == f[b]
      ensures a == b
    {
      assert t.recipes[a].source == t.recipes[b].source;
    }
    ImageSize(ids, f);
    assert Image(ids, f) == StoredSources(t) by {
      assert forall id <- t.recipes :: f[id] == t.recipes[id].source;
    }
    assert |t.recipes| == |ids|;
  }

  /** The recipes table grows by exactly as many rows as the tally says were imported. */
  lemma RowsGrowByImported(t0: Tables, t: Tables, posts: seq<F.SavedPost>, turns: nat -> Turn,
                           outcomes: seq<PostOutcome>, setup: Setup)
    requires Valid(t0) && Valid(t) && Stands(t0, t, posts, turns, outcomes, setup)
    ensures |t.recipes| == |t0.recipes| + Tally(outcomes).imported
  {
    RowsAreSources(t0);
    RowsAreSources(t);
    StoreGrowsByImported(posts, turns, outcomes, StoredSources(t0));
  }

  lemma NothingYet(t: Tables, posts: seq<F.SavedPost>, turns: nat -> Turn, setup: Setup)
    ensures Stands(t, t, posts, turns, [], setup) && Tally([]) == NOTHING
  {
    KeptItself(t);
  }

  /** A post's turn leaves the tables as they were, or stores the recipe made of it. */
  ghost predicate Took(t: Tables, t': Tables, setup: Setup, post: F.SavedPost, turn: Turn, o: PostOutcome)
  {
    && Kept(t, t') && (o.Imported? ==> Brought(t, t', setup, post, turn))
    && StoredSources(t') == StoredSources(t) + Gain(post, o) && Contained(t, t', setup.Closed())
  }

  lemma TurnTook(t: Tables, t': Tables, setup: Setup, post: F.SavedPost, turn: Turn, o: PostOutcome)
    requires Valid(t) && (o.Imported? ==> turn.extraction.Found?)
    requires if o.Imported? then StoredAs(t, t', setup, post, turn.extraction.recipe, turn.now) else t' == t
    requires StoredSources(t') == StoredSources(t) + Gain(post, o) && Contained(t, t', setup.Closed())
    ensures Took(t, t', setup, post, turn, o)
  {
    hide Valid, StoredAs, Brought, Contained, Kept, StoredSources;
    if o.Imported? {
      StoredIsHeld(t, t', setup, post, turn);
    } else {
      KeptItself(t);
    }
  }

  lemma StaysBrought(t0: Tables, t: Tables, t': Tables, setup: Setup, post: F.SavedPost, turn: Turn)
    requires Brought(t0, t, setup, post, turn) && Kept(t, t')
    ensures Brought(t0, t', setup, post, turn)
  {
    hide Kept, Holds, MadeOf;
    var id, r :| id !in t0.recipes && Holds(t, id, r, turn.now) && MadeOf(r, setup, post, turn.extraction.recipe);
    StaysHeld(t, t', id, r, turn.now);
  }

  lemma BroughtSince(t0: Tables, t: Tables, t': Tables, setup: Setup, post: F.SavedPost, turn: Turn)
    requires Brought(t, t', setup, post, turn) && Kept(t0, t)
    ensures Brought(t0, t', setup, post, turn)
  {
    hide Holds, MadeOf;
    var id, r :| id !in t.recipes && Holds(t', id, r, turn.now) && MadeOf(r, setup, post, turn.extraction.recipe);
    assert id !in t0.recipes;
  }

  lemma OnePostMore(t0: Tables, t: Tables, t': Tables, posts: seq<F.SavedPost>, turns: nat -> Turn,
                    outcomes: seq<PostOutcome>, o: PostOutcome, setup: Setup)
    requires Stands(t0, t, posts, turns, outcomes, setup) && |outcomes| < |posts|
    requires Explains(o, turns(|outcomes|), posts[|outcomes|].source, StoredSources(t))
    requires Took(t, t', setup, posts[|outcomes|], turns(|outcomes|), o)
    ensures Stands(t0, t', posts, turns, outcomes + [o], setup)
    ensures Tally(outcomes + [o]) == Counted(Tally(outcomes), o)
  {
    hide Kept, Brought, Contained, Explains, StoredSources, AllBrought, Counted;
    var more := outcomes + [o];
    assert more[..|more| - 1] == outcomes && more[|more| - 1] == o;
    ContainedAddsUp(t0, t, t', setup.Closed());
    KeptOn(t0, t, t');
    OneMoreBrought(t0, t, t', posts, turns, outcomes, o, setup);
  }

  lemma OneMoreBrought(t0: Tables, t: Tables, t': Tables, posts: seq<F.SavedPost>, turns: nat -> Turn,
                       outcomes: seq<PostOutcome>, o: PostOutcome, setup: Setup)
    requires |outcomes| < |posts| && Kept(t0, t) && AllBrought(t0, t, posts, turns, outcomes, setup)
    requires Kept(t, t') && (o.Imported? ==> Brought(t, t', setup, posts[|outcomes|], turns(|outcomes|)))
    ensures AllBrought(t0, t', posts, turns, outcomes + [o], setup)
  {
    hide Kept, Brought;
    var more := outcomes + [o];
    forall i | 0 <= i < |more| && more[i].Imported?
      ensures Brought(t0, t', setup, posts[i], turns(i))
    {
      if i < |outcomes| {
        assert outcomes[i].Imported?;
        StaysBrought(t0, t, t', setup, posts[i], turns(i));
      } else {
        BroughtSince(t0, t, t', setup, posts[i], turns(i));
      }
    }
  }

  /** alreadyImported: a post is known when its source is found; a lookup that fails answers "not known".
      answers says which lookups the database answers. */
  function AlreadyImported(t: Tables, answers: string -> bool): string -> bool
  {
    source => answers(source) && exists id <- t.recipes :: t.recipes[id].source == source
  }

  function OptionsFor(t: Tables, answers: string -> bool, maxItems: int, maxPages: int): F.FetchOptions
  {
    F.FetchOptions(maxItems, maxPages, Some(AlreadyImported(t, answers)))
  }

  lemma BoundsKept(t: Tables, answers: string -> bool, maxItems: int, maxPages: int)
    ensures var o := OptionsFor(t, answers, maxItems, maxPages);
            o.maxItems == maxItems && o.maxPages == maxPages && o == OptionsFor(t, answers, o.maxItems, o.maxPages)
  {}

  function FetchErrorOf(e: F.FetchError): (r: Option<RunError>)
    ensures r == None <==> e == F.NoError
    ensures r == Some(FetchFailed(true)) <==> e == F.RequestFailed(F.RateLimited)
    ensures r.Some? ==> r.value.FetchFailed?
  {
    if e == F.NoError then None else Some(FetchFailed(e == F.RequestFailed(F.RateLimited)))
  }

  // ---------------------------------------------------------------- a run as the backlog sees it

  lemma {:induction false} SameKnownSameNew(ps: seq<F.SavedPost>, a: Option<string -> bool>, b: Option<string -> bool>)
    requires forall source :: F.Known(a, source) <==> F.Known(b, source)
    ensures F.NewPosts(ps, a) == F.NewPosts(ps, b)
  {
    if ps != [] {
      SameKnownSameNew(ps[..|ps| - 1], a, b);
    }
  }

  /** The walk's hook knows exactly the stored sources whose lookup is answered; while every lookup is, it is
      the set of stored sources. */
  lemma HookIsStore(t: Tables, answers: string -> bool)
    ensures forall source :: F.Known(Some(AlreadyImported(t, answers)), source)
                        <==> answers(source) && exists id :: id in t.recipes && t.recipes[id].source == source
    ensures (forall source :: answers(source)) ==>
              forall source :: F.Known(Some(AlreadyImported(t, answers)), source)
                          <==> F.Known(Backlog.KnownIn(StoredSources(t)), source)
  {}

  /** A run to the end of its posts in which nothing went wrong; storable says which posts have a recipe. */
  ghost predicate RanClean(posts: seq<F.SavedPost>, turns: nat -> Turn, outcomes: seq<PostOutcome>,
                           storable: F.SavedPost -> bool)
  {
    && |outcomes| == |posts|
    && (forall i | 0 <= i < |outcomes| :: Smooth(turns(i)))
    && (forall i | 0 <= i < |outcomes| :: storable(posts[i]) <==> HasRecipe(turns(i).extraction))
  }

  /** The whole run - walk, extraction and store - over a feed it can read, with nothing going wrong: what
      Run says is stored after it is exactly one step of the backlog. The backlog theorems are about
      runs like it. */
  lemma RunIsBacklogRun(t0: Tables, remote: F.Remote, opts: F.FetchOptions, answers: string -> bool,
                        turns: nat -> Turn, outcomes: seq<PostOutcome>, storable: F.SavedPost -> bool)
    requires opts == OptionsFor(t0, answers, opts.maxItems, opts.maxPages) && forall source :: answers(source)
    requires Accounts(F.Collected(remote, opts), turns, outcomes, StoredSources(t0))
    requires RanClean(F.Collected(remote, opts), turns, outcomes, storable)
    ensures var feed := F.PostsOn(F.ItemsOf(remote, F.ReadablePages(remote, opts.Pages(), 0)));
            StoredAfter(F.Collected(remote, opts), outcomes, StoredSources(t0))
            == Backlog.Run(feed, storable, opts.Items(), StoredSources(t0))
  {
    var feed := F.PostsOn(F.ItemsOf(remote, F.ReadablePages(remote, opts.Pages(), 0)));
    HookIsStore(t0, answers);
    SameKnownSameNew(feed, opts.known, Backlog.KnownIn(StoredSources(t0)));
    RunIsBacklogStep(feed, opts.Items(), turns, outcomes, StoredSources(t0), storable);
  }

  /** One granted run as `Run` reports it: the tables before and after, what it met, and its outcomes. */
  datatype ImportRun = ImportRun(before: Tables, after: Tables, remote: F.Remote, opts: F.FetchOptions,
                                 answers: string -> bool, turns: nat -> Turn, outcomes: seq<PostOutcome>, setup: Setup)

  /** What `Run` ensures of every run that was granted the lock. */
  ghost predicate IsRun(r: ImportRun)
  {
    && r.opts == OptionsFor(r.before, r.answers, r.opts.maxItems, r.opts.maxPages)
    && Stands(r.before, r.after, F.Collected(r.remote, r.opts), r.turns, r.outcomes, r.setup)
  }

  /** The posts on the readable part of the feed a run met. */
  function FeedOf(r: ImportRun): seq<F.SavedPost>
  {
    F.PostsOn(F.ItemsOf(r.remote, F.ReadablePages(r.remote, r.opts.Pages(), 0)))
  }

  /** The run met this feed, all its lookups were answered, and nothing went wrong in it. */
  ghost predicate CleanOn(r: ImportRun, feed: seq<F.SavedPost>, storable: F.SavedPost -> bool, maxItems: nat)
  {
    && FeedOf(r) == feed && r.opts.Items() == maxItems
    && (forall source :: r.answers(source))
    && RanClean(F.Collected(r.remote, r.opts), r.turns, r.outcomes, storable)
  }

  lemma CleanRunSteps(r: ImportRun, feed: seq<F.SavedPost>, storable: F.SavedPost -> bool, maxItems: nat)
    requires IsRun(r) && CleanOn(r, feed, storable, maxItems)
    ensures StoredSources(r.after) == Backlog.Run(feed, storable, maxItems, StoredSources(r.before))
  {
    RunIsBacklogRun(r.before, r.remote, r.opts, r.answers, r.turns, r.outcomes, storable);
  }

  /** Each run found the tables as the one before it had left them. */
  ghost predicate InTurn(runs: seq<ImportRun>)
  {
    forall i | 0 < i < |runs| :: runs[i].before == runs[i - 1].after
  }

  lemma {:induction false} StoreAfterRuns(runs: seq<ImportRun>, feed: seq<F.SavedPost>,
                                          storable: F.SavedPost -> bool, maxItems: nat)
    requires runs != [] && InTurn(runs)
    requires forall i | 0 <= i < |runs| :: IsRun(runs[i]) && CleanOn(runs[i], feed, storable, maxItems)
    ensures StoredSources(runs[|runs| - 1].after)
         == Backlog.Runs(feed, storable, maxItems, StoredSources(runs[0].before), |runs|)
    decreases |runs|
  {
    hide IsRun, CleanOn, Backlog.Run;
    var n := |runs| - 1;
    CleanRunSteps(runs[n], feed, storable, maxItems);
    if n > 0 {
      StoreAfterRuns(runs[..n], feed, storable, maxItems);
      assert runs[..n][n - 1] == runs[n - 1] && runs[n].before == runs[n - 1].after;
    }
  }

  /** So the database itself drains the backlog: with U < MaxItems posts that are never stored, n clean
      runs in a row over one feed leave at most R - n * (MaxItems - U) of the R storable ones unstored,
      and when that is nothing, every storable post of the feed is in the tables. */
  lemma DatabaseDrains(runs: seq<ImportRun>, feed: seq<F.SavedPost>, storable: F.SavedPost -> bool, maxItems: nat)
    requires runs != [] && InTurn(runs)
    requires forall i | 0 <= i < |runs| :: IsRun(runs[i]) && CleanOn(runs[i], feed, storable, maxItems)
    ensures var u := Backlog.Useless(feed, storable, StoredSources(runs[0].before));
            var r := Backlog.Remaining(feed, storable, StoredSources(runs[0].before));
            var after := StoredSources(runs[|runs| - 1].after);
            u < maxItems ==>
              && Backlog.Remaining(feed, storable, after) <= Backlog.Left(r, |runs|, maxItems - u)
              && (|runs| * (maxItems - u) >= r ==>
                    forall p <- Backlog.Distinct(feed) :: storable(p) ==> p.source in after)
  {
    hide IsRun, CleanOn, Backlog.Runs, Backlog.Useless, Backlog.Remaining, Backlog.Distinct, InTurn;
    var stored := StoredSources(runs[0].before);
    StoreAfterRuns(runs, feed, storable, maxItems);
    if Backlog.Useless(feed, storable, stored) < maxItems {
      Backlog.BacklogDrains(feed, storable, maxItems, stored, |runs|);
      Backlog.NothingRemains(feed, storable, StoredSources(runs[|runs| - 1].after));
    }
  }

  // ---------------------------------------------------------------- what a run leaves in the tables

  /** Whatever it imports, and wherever it stops, a run changes no read of any recipe there was. */
  lemma RunLeavesReads(t0: Tables, t: Tables, posts: seq<F.SavedPost>, turns: nat -> Turn,
                       outcomes: seq<PostOutcome>, setup: Setup, before: Reads.Collation, id: int)
    requires Valid(t0) && Valid(t) && StrictTotal(before) && Stands(t0, t, posts, turns, outcomes, setup)
    requires id in t0.recipes
    ensures id in t.recipes && Reads.Read(t, before, id) == Reads.Read(t0, before, id)
  {
    KeptReads(t0, t, before, id);
  }

  /** The categories of a read: the resolved names of the extraction, sorted and each once. */
  ghost predicate NamesFrom(before: Reads.Collation, got: seq<Category>, setup: Setup, ex: E.Recipe)
  {
    var names := if setup.vocabulary.None? then ex.categories
                 else N.Resolved(setup.lower, N.Folded(setup.lower, setup.vocabulary.value), ex.categories);
    InOrder(before, got) && forall name :: Among(got, name) <==> name in names
  }

  /** A read returns what post and extraction say: what `MadeOf` says of the recipe, categories sorted. */
  ghost predicate ReadsMadeOf(before: Reads.Collation, got: Recipe, setup: Setup, post: F.SavedPost, ex: E.Recipe)
  {
    && got.name == (if N.SanitizeName(ex.name, 200) == "" then "Unbenanntes Rezept" else N.SanitizeName(ex.name, 200))
    && got.instructions == ex.instructions
    && got.imageURL == post.imageURL
    && got.source == post.source
    && got.status == (if ex.confidence < setup.publishAt then "needs_review" else "published")
    && (exists kept :: SayIngredients(got.lines, ex.ingredients, kept))
    && NamesFrom(before, got.categories, setup, ex)
  }

  /** Every imported post can be read back, under one new id, as what it and its extraction say: title,
      instructions, image, source, status, every ingredient with a name in order, and the resolved category
      names sorted. */
  lemma ImportedReadsBack(t0: Tables, t: Tables, posts: seq<F.SavedPost>, turns: nat -> Turn,
                          outcomes: seq<PostOutcome>, setup: Setup, before: Reads.Collation, i: nat)
    returns (id: int)
    requires Valid(t) && StrictTotal(before) && Stands(t0, t, posts, turns, outcomes, setup)
    requires i < |outcomes| && outcomes[i].Imported?
    requires |turns(i).extraction.recipe.ingredients| <= 0x8000_0000
    ensures id in t.recipes && id !in t0.recipes
    ensures ReadsMadeOf(before, Reads.Read(t, before, id), setup, posts[i], turns(i).extraction.recipe)
    ensures forall other | other in t.recipes && t.recipes[other].source == posts[i].source :: other == id
  {
    hide Reads.Read, ReadsAs, Contained, Kept, Accounts, StoredAfter, MadeOf, ReadsMadeOf;
    assert Brought(t0, t, setup, posts[i], turns(i));
    var ex := turns(i).extraction.recipe;
    var r;
    id, r :| id !in t0.recipes && Holds(t, id, r, turns(i).now) && MadeOf(r, setup, posts[i], ex);
    MadeFields(r, setup, posts[i], ex);
    HeldReads(t, before, id, r, turns(i).now);
    MadeReads(before, Reads.Read(t, before, id), r, setup, posts[i], ex);
  }

  lemma MadeFields(r: Recipe, setup: Setup, post: F.SavedPost, ex: E.Recipe)
    requires MadeOf(r, setup, post, ex)
    ensures r.source == post.source && |r.lines| <= |ex.ingredients|
  {
    var kept :| SayIngredients(r.lines, ex.ingredients, kept);
    KeptAreFewer(kept, |ex.ingredients|);
  }

  lemma KeptAreFewer(kept: seq<int>, n: nat)
    requires Ascending(kept) && forall k | 0 <= k < |kept| :: 0 <= kept[k] < n
    ensures |kept| <= n
    decreases |kept|
  {
    if kept != [] {
      var last := |kept| - 1;
      KeptAreFewer(kept[..last], kept[last]);
    }
  }

  lemma MadeReads(before: Reads.Collation, got: Recipe, r: Recipe, setup: Setup, post: F.SavedPost, ex: E.Recipe)
    requires ReadsAs(before, got, r) && MadeOf(r, setup, post, ex)
    ensures ReadsMadeOf(before, got, setup, post, ex)
  {
    var kept :| SayIngredients(r.lines, ex.ingredients, kept);
    assert SayIngredients(got.lines, ex.ingredients, kept);
    assert NamesFrom(before, got.categories, setup, ex) by {
      NamesRead(before, got.categories, r.categories, setup, ex);
    }
  }

  lemma NamesRead(before: Reads.Collation, got: seq<Category>, given: seq<Category>, setup: Setup, ex: E.Recipe)
    requires SortedNames(before, got, given) && NameCategories(given, setup, ex)
    ensures NamesFrom(before, got, setup, ex)
  {
    var names := if setup.vocabulary.None? then ex.categories
                 else N.Resolved(setup.lower, N.Folded(setup.lower, setup.vocabulary.value), ex.categories);
    forall name
      ensures Among(got, name) <==> name in names
    {
      if Among(got, name) {
        var i :| 0 <= i < |got| && got[i].name == name;
        assert Among(given, got[i].name);
        var j :| 0 <= j < |given| && given[j].name == name;
        assert names[j] == name;
      }
      if name in names {
        var j :| 0 <= j < |names| && names[j] == name;
        assert given[j].name == name && Among(got, given[j].name);
      }
    }
  }

  /** And nothing else is new: each recipe that was not there before is that of one imported post. */
  lemma NothingElseStored(t0: Tables, t: Tables, posts: seq<F.SavedPost>, turns: nat -> Turn,
                          outcomes: seq<PostOutcome>, setup: Setup, id: int)
    returns (i: nat)
    requires Valid(t0) && Valid(t) && Stands(t0, t, posts, turns, outcomes, setup)
    requires id in t.recipes && id !in t0.recipes
    ensures i < |outcomes| && outcomes[i].Imported? && turns(i).extraction.Found?
    ensures exists r :: Holds(t, id, r, turns(i).now) && MadeOf(r, setup, posts[i], turns(i).extraction.recipe)
    ensures forall j | 0 <= j < |outcomes| && outcomes[j].Imported? && posts[j].source == t.recipes[id].source :: j == i
  {
    hide Contained, Accounts, Explains, MadeOf;
    var source := t.recipes[id].source;
    assert source in StoredSources(t);
    forall k | k in t0.recipes
      ensures t0.recipes[k].source != source
    {
      assert k != id && t.recipes[k] == t0.recipes[k];
    }
    i := ImportedFrom(posts, outcomes, StoredSources(t0), source);
    assert Brought(t0, t, setup, posts[i], turns(i));
    var k, r :| k !in t0.recipes && Holds(t, k, r, turns(i).now)
                && MadeOf(r, setup, posts[i], turns(i).extraction.recipe);
    MadeFields(r, setup, posts[i], turns(i).extraction.recipe);
    assert t.recipes[k].source == t.recipes[id].source;
    forall j | 0 <= j < |outcomes| && outcomes[j].Imported? && posts[j].source == source
      ensures j == i
    {
      if j < i {
        ImportedAreNew(posts, turns, outcomes, StoredSources(t0), j, i);
      } else if i < j {
        ImportedAreNew(posts, turns, outcomes, StoredSources(t0), i, j);
      }
    }
  }

  // ---------------------------------------------------------------- one run after another

  /** Of two runs, one after the other, the second imports a post only if the first failed on it or did
      not get to it - whatever the second one fetched - as long as its extraction comes out the same. */
  lemma SecondRunImportsTheRest(t0: Tables, t1: Tables, t2: Tables,
                                posts: seq<F.SavedPost>, turns: nat -> Turn, first: seq<PostOutcome>,
                                posts2: seq<F.SavedPost>, turns2: nat -> Turn, second: seq<PostOutcome>,
                                setup: Setup, setup2: Setup, i: nat, j: nat)
    requires Stands(t0, t1, posts, turns, first, setup) && Stands(t1, t2, posts2, turns2, second, setup2)
    requires j < |second| && second[j].Imported?
    requires i < |posts| && posts2[j].source == posts[i].source && turns2(j).extraction == turns(i).extraction
    ensures i >= |first| || first[i].Failed?
  {
    RepeatImportsOnlyTheRest(posts, turns, first, posts2, turns2, second, StoredSources(t0), i, j);
  }

  /** And while its lookups are answered it does not even fetch what the first run stored. */
  lemma SecondRunPassesTheStored(t0: Tables, t1: Tables, posts: seq<F.SavedPost>, turns: nat -> Turn,
                                 first: seq<PostOutcome>, setup: Setup, i: nat,
                                 remote: F.Remote, answers: string -> bool, maxItems: int, maxPages: int)
    requires Stands(t0, t1, posts, turns, first, setup) && forall source :: answers(source)
    requires i < |first| && (first[i].Imported? || first[i].Skipped?)
    ensures forall p <- F.Collected(remote, OptionsFor(t1, answers, maxItems, maxPages)) :: p.source != posts[i].source
  {
    OutcomeExplained(posts, turns, first, StoredSources(t0), i);
    AccountsPrefix(posts, turns, first, StoredSources(t0), i);
    assert posts[i].source in StoredSources(t1);
    HookIsStore(t1, answers);
    var opts := OptionsFor(t1, answers, maxItems, maxPages);
    CollectedAreUnknown(remote, opts);
  }

  lemma CollectedAreUnknown(remote: F.Remote, opts: F.FetchOptions)
    ensures forall p <- F.Collected(remote, opts) :: !F.Known(opts.known, p.source)
  {
    var feed := F.PostsOn(F.ItemsOf(remote, F.ReadablePages(remote, opts.Pages(), 0)));
    F.NewPostsMeaning(feed, opts.known);
    forall p | p in F.Collected(remote, opts)
      ensures !F.Known(opts.known, p.source)
    {
      assert p in F.NewPosts(feed, opts.known);
      assert p.source in F.Sources(F.NewPosts(feed, opts.known));
    }
  }

  // ---------------------------------------------------------------- the run itself

  class Pipeline {
    const recipes: R.Repository
    const lower: char -> char
    const publishAt: real

    constructor (recipes: R.Repository, lower: char -> char, threshold: real, publishThreshold: real)
      ensures this.recipes == recipes && this.lower == lower
      ensures publishAt == if publishThreshold > 0.0 then publishThreshold else threshold
    {
      this.recipes, this.lower := recipes, lower;
      publishAt := PublishThreshold(publishThreshold, threshold);
    }

    method ToRecipe(post: F.SavedPost, ex: E.Recipe, vocab: N.Vocabulary?, ghost vocabulary: Option<seq<string>>)
      returns (recipe: R.RecipeObject)
      requires IsVocabulary(vocab, lower, vocabulary)
      modifies vocab
      ensures IsVocabulary(vocab, lower, vocabulary)
      ensures fresh(recipe)
      ensures recipe.Value() == RecipeFor(post, ex, CategoriesFor(lower, vocabulary, ex.categories), publishAt)
      ensures MadeOf(recipe.Value(), Setup(lower, vocabulary, publishAt), post, ex) && NamesOnly(recipe.Value())
    {
      var status := PUBLISHED;
      if ex.confidence < publishAt {
        status := NEEDS_REVIEW;
      }
      var name := N.SanitizeName(ex.name, MAX_RECIPE_NAME_RUNES);
      if name == "" {
        name := UNTITLED_RECIPE;
      }
      var names := N.Resolve(vocab, ex.categories);
      var categories := BuildCategories(names);
      var lines := BuildLines(ex.ingredients);
      recipe := new R.RecipeObject(Recipe(0, name, ex.instructions, post.imageURL, post.source, status,
                                          lines, categories, 0, 0));
      RecipeIsMade(Setup(lower, vocabulary, publishAt), post, ex);
      ImportNamesOnly(post, ex, CategoriesFor(lower, vocabulary, ex.categories), publishAt);
    }

    method BuildCategories(names: seq<string>) returns (categories: seq<Category>)
      ensures categories == CategoriesNamed(names)
    {
      categories := [];
      for i := 0 to |names|
        invariant categories == CategoriesNamed(names[..i])
      {
        categories := categories + [Category(0, names[i])];
      }
      assert names[..|names|] == names;
    }

    method BuildLines(ingredients: seq<E.Ingredient>) returns (lines: seq<Line>)
      ensures lines == LinesFor(ingredients)
    {
      lines := [];
      for i := 0 to |ingredients|
        invariant lines == LinesFor(ingredients[..i])
      {
        var ing := ingredients[i];
        assert ingredients[..i + 1][..i] == ingredients[..i];
        var name := N.SanitizeName(ing.name, MAX_INGREDIENT_NAME_RUNES);
        if name == "" {
          continue;
        }
        lines := lines + [Line(0, name, ing.amount, None, N.SanitizeName(ing.unit, MAX_UNIT_NAME_RUNES))];
      }
      assert ingredients[..|ingredients|] == ingredients;
    }

    /** One post's turn in the loop of Run; None when a cancellation cut it off. */
    method ImportPost(post: F.SavedPost, turn: Turn, vocab: N.Vocabulary?, ghost vocabulary: Option<seq<string>>)
      returns (outcome: Option<PostOutcome>)
      requires Valid(recipes.tables) && IsVocabulary(vocab, lower, vocabulary)
      requires vocabulary.Some? ==> AllNamed(recipes.tables.categories, vocabulary.value)
      modifies recipes, vocab
      ensures Valid(recipes.tables) && IsVocabulary(vocab, lower, vocabulary)
      ensures turn.extraction.ExtractorFailed? ==> outcome == if turn.cutOff then None else Some(PostOutcome.Failed)
      ensures outcome == Some(NoRecipe) <==>
                turn.extraction.NoneFound?
                || (turn.extraction.Found? && turn.extraction.recipe.confidence <= 0.0)
      ensures turn.extraction.Found? && turn.extraction.recipe.confidence > 0.0
              && (forall k :: !turn.faults(k)) && |turn.extraction.recipe.ingredients| <= 0x1_0000_0000 ==>
                outcome == Some(if post.source in old(StoredSources(recipes.tables)) then Skipped
                                else Imported(turn.extraction.recipe.degraded))
      ensures outcome.None? ==> turn.cutOff && (turn.extraction.ExtractorFailed? || HasRecipe(turn.extraction))
      ensures outcome.None? && HasRecipe(turn.extraction) ==> StoreMayFail(turn)
      ensures outcome.Some? ==> Explains(outcome.value, turn, post.source, old(StoredSources(recipes.tables)))
      ensures StoredSources(recipes.tables)
           == old(StoredSources(recipes.tables)) + (if outcome.Some? then Gain(post, outcome.value) else {})
      ensures outcome.None? || !outcome.value.Imported? ==> recipes.tables == old(recipes.tables)
      ensures outcome.Some? && outcome.value.Imported? ==>
                turn.extraction.Found? &&
                StoredAs(old(recipes.tables), recipes.tables, Setup(lower, vocabulary, publishAt), post,
                         turn.extraction.recipe, turn.now)
      ensures Contained(old(recipes.tables), recipes.tables, vocabulary.Some?)
    {
      hide Valid, StoredAs, AllNamed;
      ContainedItself(recipes.tables, vocabulary.Some?);
      match turn.extraction {
        case NoneFound =>
          return Some(NoRecipe);
        case ExtractorFailed =>
          return if turn.cutOff then None else Some(PostOutcome.Failed);
        case Found(ex) =>
          if ex.confidence <= 0.0 {
            return Some(NoRecipe);
          }
          var err := Store(post, ex, turn, vocab, vocabulary);
          if err.None? {
            return Some(Imported(ex.degraded));
          }
          if err.value == W.DuplicateSource {
            return Some(Skipped);
          }
          return if turn.cutOff then None else Some(PostOutcome.Failed);
      }
    }

    /** The recipe of one post, made and handed to the repository. */
    method Store(post: F.SavedPost, ex: E.Recipe, turn: Turn, vocab: N.Vocabulary?,
                 ghost vocabulary: Option<seq<string>>)
      returns (err: Option<W.StoreError>)
      requires Valid(recipes.tables) && IsVocabulary(vocab, lower, vocabulary)
      requires vocabulary.Some? ==> AllNamed(recipes.tables.categories, vocabulary.value)
      requires turn.extraction == Found(ex)
      modifies recipes, vocab
      ensures Valid(recipes.tables) && IsVocabulary(vocab, lower, vocabulary)
      ensures err.None? ==>
                && post.source !in old(StoredSources(recipes.tables))
                && StoredSources(recipes.tables) == old(StoredSources(recipes.tables)) + {post.source}
                && StoredAs(old(recipes.tables), recipes.tables, Setup(lower, vocabulary, publishAt), post, ex,
                            turn.now)
      ensures err.Some? ==> recipes.tables == old(recipes.tables)
      ensures err == Some(W.DuplicateSource) ==> post.source in old(StoredSources(recipes.tables))
      ensures err.Some? && err != Some(W.DuplicateSource) ==> StoreMayFail(turn)
      ensures Contained(old(recipes.tables), recipes.tables, vocabulary.Some?)
    {
      hide Valid, W.Create, RecipeFor, StoredSources, AllNamed, GrowsByLabels;
      ghost var t := recipes.tables;
      ghost var categories := CategoriesFor(lower, vocabulary, ex.categories);
      var recipe := ToRecipe(post, ex, vocab, vocabulary);
      err := recipes.Create(recipe, turn.now, turn.faults);
      DuplicateIsStored(t, post, ex, categories, publishAt, turn.now);
      if err.None? {
        if vocabulary.Some? {
          ResolvedAreNamed(t.categories, lower, vocabulary.value, ex.categories);
        }
        ImportIsContained(t, post, ex, categories, publishAt, turn.now, vocabulary.Some?);
      } else {
        ContainedItself(t, vocabulary.Some?);
        if err.value != W.DuplicateSource && !StoreMayFail(turn) {
          NewRecipeGoesIn(t, post, ex, categories, publishAt, turn.now);
        }
      }
    }

    /** `Run`: the lock, the walk over the feed, then the posts in turn. The outcomes say what became of
        each fetched post, in order, for as far as the run got. */
    method Run(lock: LockAnswer, remote: F.Remote, maxItems: int, maxPages: int, lookups: string -> bool,
               vocabulary: Option<seq<string>>, turns: nat -> Turn)
      returns (result: ImportResult, err: Option<RunError>, requested: seq<string>, ghost outcomes: seq<PostOutcome>)
      requires Valid(recipes.tables)
      requires vocabulary.Some? ==> AllNamed(recipes.tables.categories, vocabulary.value)
      modifies recipes
      ensures Valid(recipes.tables)
      ensures result == Tally(outcomes)
      ensures lock == Held || lock == Unreachable ==>
                requested == [] && outcomes == [] && recipes.tables == old(recipes.tables)
      ensures err == Some(ImportInProgress) <==> lock == Held
      ensures err == Some(LockFailed) <==> lock == Unreachable
      ensures |outcomes| <= (if maxItems > 0 then maxItems else 50)
      ensures |requested| <= (if maxPages > 0 then maxPages else 100)
      ensures lock == Unlocked || lock == Acquired ==>
                var opts := OptionsFor(old(recipes.tables), lookups, maxItems, maxPages);
                var posts := F.Collected(remote, opts);
                && IsRun(ImportRun(old(recipes.tables), recipes.tables, remote, opts, lookups, turns, outcomes,
                                   Setup(lower, vocabulary, publishAt)))
                && err == (if |outcomes| < |posts| then Some(Cancelled) else FetchErrorOf(F.Reported(remote, opts)))
                && (|outcomes| < |posts| ==> turns(|outcomes|).cancelled || turns(|outcomes|).cutOff)
    {
      hide Stands, Valid, F.Collected, F.Reported, StoredSources, AllNamed, N.Folded, OptionsFor, F.Sent, F.NoRepeats;
      result, requested, outcomes := NOTHING, [], [];
      if lock == Unreachable {
        return result, Some(LockFailed), requested, outcomes;
      }
      if lock == Held {
        return result, Some(ImportInProgress), requested, outcomes;
      }
      var posts, fetchErr;
      BoundsKept(recipes.tables, lookups, maxItems, maxPages);
      posts, fetchErr, requested := F.PageMedia(remote, OptionsFor(recipes.tables, lookups, maxItems, maxPages));
      NothingYet(recipes.tables, posts, turns, Setup(lower, vocabulary, publishAt));
      if fetchErr != F.NoError && |posts| == 0 {
        return result, FetchErrorOf(fetchErr), requested, outcomes;
      }
      var vocab: N.Vocabulary? := null;
      if vocabulary.Some? {
        vocab := new N.Vocabulary(lower, vocabulary.value);
      }
      result, err, outcomes := ImportAll(posts, vocab, vocabulary, turns);
      if err.None? {
        err := FetchErrorOf(fetchErr);
      }
    }

    /** The loop of Run. */
    method ImportAll(posts: seq<F.SavedPost>, vocab: N.Vocabulary?, ghost vocabulary: Option<seq<string>>,
                     turns: nat -> Turn)
      returns (result: ImportResult, err: Option<RunError>, ghost outcomes: seq<PostOutcome>)
      requires Valid(recipes.tables) && IsVocabulary(vocab, lower, vocabulary)
      requires vocabulary.Some? ==> AllNamed(recipes.tables.categories, vocabulary.value)
      modifies recipes, vocab
      ensures Valid(recipes.tables)
      ensures result == Tally(outcomes)
      ensures Stands(old(recipes.tables), recipes.tables, posts, turns, outcomes, Setup(lower, vocabulary, publishAt))
      ensures |outcomes| <= |posts| && err == if |outcomes| < |posts| then Some(Cancelled) else None
      ensures err.Some? ==> turns(|outcomes|).cancelled || turns(|outcomes|).cutOff
    {
      hide Valid, Stands, AllNamed, GrowsByLabels, Explains, StoredSources, IsVocabulary, Took, StoredAs;
      result, err, outcomes := NOTHING, None, [];
      ghost var setup := Setup(lower, vocabulary, publishAt);
      NothingYet(recipes.tables, posts, turns, setup);
      for i := 0 to |posts|
        invariant Valid(recipes.tables) && IsVocabulary(vocab, lower, vocabulary)
        invariant vocabulary.Some? ==> recipes.tables.categories == old(recipes.tables.categories)
        invariant |outcomes| == i && result == Tally(outcomes) && err.None?
        invariant Stands(old(recipes.tables), recipes.tables, posts, turns, outcomes, setup)
      {
        if turns(i).cancelled {
          err := Some(Cancelled);
          break;
        }
        result := result.(seen := result.seen + 1);
        ghost var before := recipes.tables;
        var outcome := ImportPost(posts[i], turns(i), vocab, vocabulary);
        if outcome.None? {
          result := result.(seen := result.seen - 1);
          err := Some(Cancelled);
          break;
        }
        result := Bump(result, outcome.value);
        assert Contained(before, recipes.tables, vocabulary.Some?);
        TurnTook(before, recipes.tables, setup, posts[i], turns(i), outcome.value);
        OnePostMore(old(recipes.tables), before, recipes.tables, posts, turns, outcomes, outcome.value, setup);
        outcomes := outcomes + [outcome.value];
      }
    }

    /** The buckets of a post already counted as seen. */
    static method Bump(result: ImportResult, outcome: PostOutcome) returns (bumped: ImportResult)
      ensures bumped == Counted(result.(seen := result.seen - 1), outcome)
    {
      match outcome {
        case NoRecipe => bumped := result.(noRecipe := result.noRecipe + 1);
        case Failed => bumped := result.(failed := result.failed + 1);
        case Skipped => bumped := result.(skipped := result.skipped + 1);
        case Imported(degraded) =>
          bumped := result.(imported := result.imported + 1);
          if degraded {
            bumped := bumped.(degraded := bumped.degraded + 1);
          }
      }
    }
  }
}
