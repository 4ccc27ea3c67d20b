/** What `Create`, `Update` and `Delete` do to the tables and to the recipe handed in, as functions
    of both. The repository's methods are proved against these. */
module RecipeWrites {
  import opened Wrappers
  import opened Domain
  import opened Tables

  datatype StoreError = DuplicateSource | NotFound | Failed

  // ---------------------------------------------------------------- resolving names

  /** An id wins over a name; a name without an id is found or created. */
  ghost function ResolveCategory(l: Lookup, c: Category): (Lookup, Category)
  {
    if c.id != 0 then (l, c)
    else var (l', id) := FindOrCreate(l, c.name); (l', Category(id, l'.rows[id]))
  }

  ghost function ResolveCategories(l: Lookup, cs: seq<Category>): (r: (Lookup, seq<Category>))
    ensures |r.1| == |cs|
  {
    if cs == [] then (l, [])
    else
      var (l1, init) := ResolveCategories(l, cs[..|cs| - 1]);
      var (l2, last) := ResolveCategory(l1, cs[|cs| - 1]);
      (l2, init + [last])
  }

  lemma ResolveNoCategories(l: Lookup)
    ensures ResolveCategories(l, []) == (l, [])
  {}

  lemma ResolveCategoriesStep(l: Lookup, cs: seq<Category>, i: nat)
    requires i < |cs|
    ensures var init := ResolveCategories(l, cs[..i]);
            var (l2, c) := ResolveCategory(init.0, cs[i]);
            ResolveCategories(l, cs[..i + 1]) == (l2, init.1 + [c])
  {
    assert cs[..i + 1][..i] == cs[..i];
  }

  ghost function ResolveIngredient(l: Lookup, line: Line): (Lookup, Line)
  {
    if line.ingredientID != 0 then (l, line)
    else
      var (l', id) := FindOrCreate(l, line.ingredientName);
      (l', line.(ingredientID := id, ingredientName := l'.rows[id]))
  }

  ghost function ResolveUnit(l: Lookup, line: Line): (Lookup, Line)
  {
    if line.unitID.Some? || line.unitName == "" then (l, line)
    else
      var (l', id) := FindOrCreate(l, line.unitName);
      (l', line.(unitID := Some(id), unitName := l'.rows[id]))
  }

  datatype ResolvedLines = ResolvedLines(ingredients: Lookup, units: Lookup, lines: seq<Line>)

  ghost function ResolveLines(ingredients: Lookup, units: Lookup, lines: seq<Line>): (r: ResolvedLines)
    ensures |r.lines| == |lines|
  {
    if lines == [] then ResolvedLines(ingredients, units, [])
    else
      ResolveNext(ResolveLines(ingredients, units, lines[..|lines| - 1]), lines[|lines| - 1])
  }

  lemma ResolveNone(ingredients: Lookup, units: Lookup)
    ensures ResolveLines(ingredients, units, []) == ResolvedLines(ingredients, units, [])
  {}

  /** One more line, resolved after those before it. */
  ghost function ResolveNext(init: ResolvedLines, line: Line): ResolvedLines
  {
    var (ingredients, line1) := ResolveIngredient(init.ingredients, line);
    var (units, line2) := ResolveUnit(init.units, line1);
    ResolvedLines(ingredients, units, init.lines + [line2])
  }

  lemma ResolveLinesStep(ingredients: Lookup, units: Lookup, lines: seq<Line>, i: nat)
    requires i < |lines|
    ensures ResolveLines(ingredients, units, lines[..i + 1])
         == ResolveNext(ResolveLines(ingredients, units, lines[..i]), lines[i])
  {
    assert lines[..i + 1][..i] == lines[..i];
  }

  ghost function Resolve(t: Tables, r: Recipe): (Tables, Recipe)
  {
    var (categories, cs) := ResolveCategories(t.categories, r.categories);
    var rl := ResolveLines(t.ingredients, t.units, r.lines);
    (t.(categories := categories, ingredients := rl.ingredients, units := rl.units),
     r.(categories := cs, lines := rl.lines))
  }

  // ---------------------------------------------------------------- writing the child rows

  /** Go's conversion of an index to a 32-bit position: it wraps. */
  function ToInt32(i: nat): int
  {
    (i + 0x8000_0000) % 0x1_0000_0000 - 0x8000_0000
  }

  function RowOf(recipeID: int, line: Line, i: nat): LineRow
  {
    LineRow(recipeID, line.ingredientID, line.amount, line.unitID, ToInt32(i))
  }

  /** The lines inserted one after the other, positions counting up. */
  ghost function AddLines(t: Tables, recipeID: int, lines: seq<Line>): Result<Tables, SqlError>
  {
    if lines == [] then Ok(t)
    else
      var init := AddLines(t, recipeID, lines[..|lines| - 1]);
      if init.Err? then init
      else AddLine(init.value, RowOf(recipeID, lines[|lines| - 1], |lines| - 1))
  }

  lemma AddNoLines(t: Tables, recipeID: int)
    ensures AddLines(t, recipeID, []) == Ok(t)
  {}

  lemma AddLinesStep(t: Tables, recipeID: int, lines: seq<Line>, i: nat)
    requires i < |lines| && AddLines(t, recipeID, lines[..i]).Ok?
    ensures AddLines(t, recipeID, lines[..i + 1])
         == AddLine(AddLines(t, recipeID, lines[..i]).value, RowOf(recipeID, lines[i], i))
  {
    assert lines[..i + 1][..i] == lines[..i];
  }

  ghost function AddLinks(t: Tables, recipeID: int, cs: seq<Category>): Result<Tables, SqlError>
  {
    if cs == [] then Ok(t)
    else
      var init := AddLinks(t, recipeID, cs[..|cs| - 1]);
      if init.Err? then init else AddLink(init.value, recipeID, cs[|cs| - 1].id)
  }

  /** Delete then reinsert, lines first. */
  ghost function WriteAssociations(t: Tables, r: Recipe): Result<Tables, SqlError>
  {
    var lines := AddLines(DeleteLines(t, r.id), r.id, r.lines);
    if lines.Err? then lines
    else AddLinks(DeleteLinks(lines.value, r.id), r.id, r.categories)
  }

  // ---------------------------------------------------------------- the writes

  ghost function ResolveAndWrite(t: Tables, r: Recipe): Result<(Tables, Recipe), StoreError>
  {
    var (t2, resolved) := Resolve(t, r);
    var written := WriteAssociations(t2, resolved);
    if written.Err? then Err(Failed) else Ok((written.value, resolved))
  }

  ghost function Create(t: Tables, r: Recipe, now: int): Result<(Tables, Recipe), StoreError>
  {
    match InsertRecipe(t, RecipeRow(r.name, r.instructions, r.imageURL, r.source, r.status, now, now))
    case Err(NoRows) => Err(DuplicateSource)
    case Err(_) => Err(Failed)
    case Ok((t1, id)) => ResolveAndWrite(t1, r.(id := id, createdAt := now, updatedAt := now))
  }

  ghost function Update(t: Tables, r: Recipe, now: int): Result<(Tables, Recipe), StoreError>
  {
    match UpdateRecipeRow(t, r.id, r.name, r.instructions, r.imageURL, r.status, now)
    case Err(NoRows) => Err(NotFound)
    case Err(_) => Err(Failed)
    case Ok((t1, row)) => ResolveAndWrite(t1, r.(createdAt := row.createdAt, updatedAt := row.updatedAt))
  }

  /** The two halves of a Create: the recipe row, then everything that hangs on it. */
  lemma CreateInTwo(t: Tables, r: Recipe, now: int)
    ensures var row := RecipeRow(r.name, r.instructions, r.imageURL, r.source, r.status, now, now);
            match InsertRecipe(t, row)
            case Err(e) => Create(t, r, now) == Err(if e == NoRows then DuplicateSource else Failed)
            case Ok((t1, id)) =>
              Create(t, r, now) == ResolveAndWrite(t1, r.(id := id, createdAt := now, updatedAt := now))
  {}

  // ---------------------------------------------------------------- resolving only adds lookup rows

  lemma {:induction false} ResolveCategoriesKeeps(l: Lookup, cs: seq<Category>)
    requires ValidLookup(l)
    ensures var (l', rs) := ResolveCategories(l, cs);
            && ValidLookup(l') && Extends(l, l')
            && forall i | 0 <= i < |cs| ::
                 if cs[i].id != 0 then rs[i] == cs[i]
                 else rs[i].name == cs[i].name && rs[i].id in l'.rows && l'.rows[rs[i].id] == rs[i].name
  {
    if cs != [] {
      ResolveCategoriesKeeps(l, cs[..|cs| - 1]);
      FindOrCreateKeepsValid(ResolveCategories(l, cs[..|cs| - 1]).0, cs[|cs| - 1].name);
    }
  }

  /** What resolving a line means against the lookup tables it leaves behind. */
  ghost predicate LineResolved(ingredients: Lookup, units: Lookup, given: Line, line: Line)
  {
    && line.amount == given.amount
    && (if given.ingredientID != 0
        then line.ingredientID == given.ingredientID && line.ingredientName == given.ingredientName
        else
          && line.ingredientName == given.ingredientName
          && line.ingredientID in ingredients.rows && ingredients.rows[line.ingredientID] == line.ingredientName)
    && (if given.unitID.Some? || given.unitName == ""
        then line.unitID == given.unitID && line.unitName == given.unitName
        else
          && line.unitName == given.unitName && line.unitID.Some?
          && line.unitID.value in units.rows && units.rows[line.unitID.value] == line.unitName)
  }

  lemma {:induction false} ResolveLinesKeeps(ingredients: Lookup, units: Lookup, lines: seq<Line>)
    requires ValidLookup(ingredients) && ValidLookup(units)
    ensures var r := ResolveLines(ingredients, units, lines);
            && ValidLookup(r.ingredients) && ValidLookup(r.units)
            && Extends(ingredients, r.ingredients) && Extends(units, r.units)
            && forall i | 0 <= i < |lines| :: LineResolved(r.ingredients, r.units, lines[i], r.lines[i])
  {
    if lines != [] {
      ResolveLinesKeeps(ingredients, units, lines[..|lines| - 1]);
      ResolveNextKeeps(ingredients, units, lines[..|lines| - 1], lines[|lines| - 1]);
    }
  }

  lemma ResolveNextKeeps(ingredients: Lookup, units: Lookup, lines: seq<Line>, line: Line)
    requires ValidLookup(ingredients) && ValidLookup(units)
    requires var init := ResolveLines(ingredients, units, lines);
             && ValidLookup(init.ingredients) && ValidLookup(init.units)
             && Extends(ingredients, init.ingredients) && Extends(units, init.units)
             && forall i | 0 <= i < |lines| :: LineResolved(init.ingredients, init.units, lines[i], init.lines[i])
    ensures var init := ResolveLines(ingredients, units, lines);
            var r := ResolveNext(init, line);
            && ValidLookup(r.ingredients) && ValidLookup(r.units)
            && Extends(ingredients, r.ingredients) && Extends(units, r.units)
            && |r.lines| == |lines| + 1 && LineResolved(r.ingredients, r.units, line, r.lines[|lines|])
            && forall i | 0 <= i < |lines| :: LineResolved(r.ingredients, r.units, lines[i], r.lines[i])
  {
    hide ResolveLines, ValidLookup, Extends, LineResolved, ResolveIngredient, ResolveUnit;
    var init := ResolveLines(ingredients, units, lines);
    var r := ResolveNext(init, line);
    OneLineResolved(init.ingredients, init.units, line);
    ExtendsOn(ingredients, init.ingredients, r.ingredients);
    ExtendsOn(units, init.units, r.units);
    forall i | 0 <= i < |lines|
      ensures LineResolved(r.ingredients, r.units, lines[i], r.lines[i])
    {
      StaysResolved(init.ingredients, init.units, r.ingredients, r.units, lines[i], init.lines[i]);
    }
  }

  lemma OneLineResolved(ingredients: Lookup, units: Lookup, line: Line)
    requires ValidLookup(ingredients) && ValidLookup(units)
    ensures var (ingredients2, line1) := ResolveIngredient(ingredients, line);
            var (units2, line2) := ResolveUnit(units, line1);
            && ValidLookup(ingredients2) && ValidLookup(units2)
            && Extends(ingredients, ingredients2) && Extends(units, units2)
            && LineResolved(ingredients2, units2, line, line2)
  {
    FindOrCreateKeepsValid(ingredients, line.ingredientName);
    FindOrCreateKeepsValid(units, line.unitName);
  }

  lemma ExtendsOn(a: Lookup, b: Lookup, c: Lookup)
    requires Extends(a, b) && Extends(b, c)
    ensures Extends(a, c)
  {}

  lemma StaysResolved(ingredients: Lookup, units: Lookup, ingredients2: Lookup, units2: Lookup, given: Line, line: Line)
    requires LineResolved(ingredients, units, given, line)
    requires Extends(ingredients, ingredients2) && Extends(units, units2)
    ensures LineResolved(ingredients2, units2, given, line)
  {
    if given.ingredientID == 0 {
      var id := line.ingredientID;
      assert id in ingredients.rows;
    }
    if given.unitID.None? && given.unitName != "" {
      var id := line.unitID.value;
      assert id in units.rows;
    }
  }

  lemma ResolveKeeps(t: Tables, r: Recipe)
    requires Valid(t)
    ensures var (t', r') := Resolve(t, r);
            && Valid(t')
            && t'.recipes == t.recipes && t'.lines == t.lines && t'.links == t.links
            && t'.nextRecipe == t.nextRecipe && t'.nextLine == t.nextLine
            && LookupsGrow(t, t')
            && r' == r.(categories := r'.categories, lines := r'.lines)
  {
    ResolveCategoriesKeeps(t.categories, r.categories);
    ResolveLinesKeeps(t.ingredients, t.units, r.lines);
    var (t', r') := Resolve(t, r);
    GrowLookupsKeepsValid(t, t'.units, t'.categories, t'.ingredients);
  }

  // ---------------------------------------------------------------- the child rows written

  lemma {:induction false} AddLinesKeepsValid(t: Tables, recipeID: int, lines: seq<Line>)
    requires Valid(t) && AddLines(t, recipeID, lines).Ok?
    ensures var t' := AddLines(t, recipeID, lines).value;
            Valid(t') && t' == t.(lines := t'.lines, nextLine := t'.nextLine)
    ensures var t' := AddLines(t, recipeID, lines).value;
            && t'.nextLine == t.nextLine + |lines|
            && (forall id <- t.lines :: id in t'.lines && t'.lines[id] == t.lines[id])
            && forall id <- t'.lines :: id in t.lines || t.nextLine <= id < t'.nextLine
  {
    if lines != [] {
      AddLinesKeepsValid(t, recipeID, lines[..|lines| - 1]);
      AddLineKeepsValid(AddLines(t, recipeID, lines[..|lines| - 1]).value,
                        RowOf(recipeID, lines[|lines| - 1], |lines| - 1));
    }
  }

  /** The i-th line goes into the i-th new row. */
  lemma {:induction false} AddLinesRows(t: Tables, recipeID: int, lines: seq<Line>, i: nat)
    requires Valid(t) && AddLines(t, recipeID, lines).Ok? && i < |lines|
    ensures var t' := AddLines(t, recipeID, lines).value;
            t.nextLine + i in t'.lines && t'.lines[t.nextLine + i] == RowOf(recipeID, lines[i], i)
  {
    AddLinesKeepsValid(t, recipeID, lines[..|lines| - 1]);
    if i < |lines| - 1 {
      AddLinesRows(t, recipeID, lines[..|lines| - 1], i);
    }
  }

  lemma {:induction false} AddLinksKeepsValid(t: Tables, recipeID: int, cs: seq<Category>)
    requires Valid(t) && AddLinks(t, recipeID, cs).Ok?
    ensures var t' := AddLinks(t, recipeID, cs).value;
            && Valid(t')
            && t' == t.(links := t.links + set i | 0 <= i < |cs| :: (recipeID, cs[i].id))
  {
    hide Valid;
    if cs != [] {
      var init := cs[..|cs| - 1];
      AddLinksKeepsValid(t, recipeID, init);
      AddLinkKeepsValid(AddLinks(t, recipeID, init).value, recipeID, cs[|cs| - 1].id);
      assert (set i | 0 <= i < |cs| :: (recipeID, cs[i].id))
          == (set i | 0 <= i < |init| :: (recipeID, init[i].id)) + {(recipeID, cs[|cs| - 1].id)};
    }
  }

  lemma {:induction false} AddLinksSucceeds(t: Tables, recipeID: int, cs: seq<Category>)
    requires recipeID in t.recipes && forall i | 0 <= i < |cs| :: cs[i].id in t.categories.rows
    ensures AddLinks(t, recipeID, cs).Ok?
    ensures AddLinks(t, recipeID, cs).value == t.(links := AddLinks(t, recipeID, cs).value.links)
  {
    if cs != [] {
      AddLinksSucceeds(t, recipeID, cs[..|cs| - 1]);
    }
  }

  /** The lines of every recipe but one are the same in both states. */
  ghost predicate OtherLinesUntouched(t: Tables, t': Tables, recipeID: int)
  {
    && (forall id :: (id in t.lines && t.lines[id].recipeID != recipeID)
                     <==> (id in t'.lines && t'.lines[id].recipeID != recipeID))
    && (forall id | id in t.lines && t.lines[id].recipeID != recipeID :: t'.lines[id] == t.lines[id])
  }

  ghost predicate OtherLinksUntouched(t: Tables, t': Tables, recipeID: int)
  {
    forall l: (int, int) | l.0 != recipeID :: l in t.links <==> l in t'.links
  }

  /** A recipe's lines are, row by row, those given, at the positions of their indices. */
  ghost predicate LinesAre(t': Tables, first: int, recipeID: int, lines: seq<Line>)
  {
    && (forall id :: id in t'.lines && t'.lines[id].recipeID == recipeID <==> first <= id < first + |lines|)
    && (forall id | first <= id < first + |lines| :: t'.lines[id] == RowOf(recipeID, lines[id - first], id - first))
  }

  ghost predicate LinksAre(t': Tables, recipeID: int, cs: seq<Category>)
  {
    forall c :: (recipeID, c) in t'.links <==> exists i :: 0 <= i < |cs| && cs[i].id == c
  }

  /** A refused insert refuses the whole list. */
  lemma {:induction false} AddLinesRefused(t: Tables, recipeID: int, lines: seq<Line>, n: nat, e: SqlError)
    requires n <= |lines| && AddLines(t, recipeID, lines[..n]) == Err(e)
    ensures AddLines(t, recipeID, lines) == Err(e)
    decreases |lines|
  {
    if n == |lines| {
      assert lines[..n] == lines;
    } else {
      assert lines[..|lines| - 1][..n] == lines[..n];
      AddLinesRefused(t, recipeID, lines[..|lines| - 1], n, e);
    }
  }

  lemma {:induction false} AddLinksRefused(t: Tables, recipeID: int, cs: seq<Category>, n: nat, e: SqlError)
    requires n <= |cs| && AddLinks(t, recipeID, cs[..n]) == Err(e)
    ensures AddLinks(t, recipeID, cs) == Err(e)
    decreases |cs|
  {
    if n == |cs| {
      assert cs[..n] == cs;
    } else {
      assert cs[..|cs| - 1][..n] == cs[..n];
      AddLinksRefused(t, recipeID, cs[..|cs| - 1], n, e);
    }
  }

  /** What a successful write of the child rows leaves: the lines and links given for this recipe,
      and nothing else changed. */
  ghost predicate Written(t: Tables, r: Recipe, t': Tables)
  {
    && t' == t.(lines := t'.lines, nextLine := t.nextLine + |r.lines|, links := t'.links)
    && OtherLinesUntouched(t, t', r.id) && OtherLinksUntouched(t, t', r.id)
    && LinesAre(t', t.nextLine, r.id, r.lines)
    && LinksAre(t', r.id, r.categories)
  }

  lemma LinesWritten(t: Tables, recipeID: int, lines: seq<Line>)
    requires Valid(t) && AddLines(DeleteLines(t, recipeID), recipeID, lines).Ok?
    ensures var t' := AddLines(DeleteLines(t, recipeID), recipeID, lines).value;
            && Valid(t')
            && t' == t.(lines := t'.lines, nextLine := t.nextLine + |lines|)
            && OtherLinesUntouched(t, t', recipeID)
            && LinesAre(t', t.nextLine, recipeID, lines)
  {
    var t0 := DeleteLines(t, recipeID);
    DeletesKeepValid(t, recipeID);
    AddLinesKeepsValid(t0, recipeID, lines);
    NewLinesAre(t0, recipeID, lines);
    OthersKept(t, t0, AddLines(t0, recipeID, lines).value, recipeID);
  }

  lemma NewLinesAre(t0: Tables, recipeID: int, lines: seq<Line>)
    requires Valid(t0) && AddLines(t0, recipeID, lines).Ok?
    requires forall id <- t0.lines :: t0.lines[id].recipeID != recipeID
    ensures LinesAre(AddLines(t0, recipeID, lines).value, t0.nextLine, recipeID, lines)
    ensures var t1 := AddLines(t0, recipeID, lines).value;
            forall id <- t1.lines :: id in t0.lines || t1.lines[id].recipeID == recipeID
  {
    hide Valid, AddLines, ToInt32;
    var t1 := AddLines(t0, recipeID, lines).value;
    AddLinesKeepsValid(t0, recipeID, lines);
    LinesNumbered(t0);
    forall id | t0.nextLine <= id < t0.nextLine + |lines|
      ensures id in t1.lines && t1.lines[id] == RowOf(recipeID, lines[id - t0.nextLine], id - t0.nextLine)
    {
      AddLinesRows(t0, recipeID, lines, id - t0.nextLine);
    }
    forall id | id in t1.lines && t1.lines[id].recipeID == recipeID
      ensures t0.nextLine <= id < t0.nextLine + |lines|
    {
      assert id !in t0.lines;
    }
  }

  lemma LinesNumbered(t: Tables)
    requires Valid(t)
    ensures forall id <- t.lines :: id < t.nextLine
  {}

  lemma OthersKept(t: Tables, t0: Tables, t1: Tables, recipeID: int)
    requires t0 == DeleteLines(t, recipeID)
    requires forall id <- t0.lines :: id in t1.lines && t1.lines[id] == t0.lines[id]
    requires forall id <- t1.lines :: id in t0.lines || t1.lines[id].recipeID == recipeID
    ensures OtherLinesUntouched(t, t1, recipeID)
  {}

  lemma LinksWritten(t: Tables, recipeID: int, cs: seq<Category>)
    requires Valid(t) && AddLinks(DeleteLinks(t, recipeID), recipeID, cs).Ok?
    ensures var t' := AddLinks(DeleteLinks(t, recipeID), recipeID, cs).value;
            && Valid(t')
            && t' == t.(links := t'.links)
            && OtherLinksUntouched(t, t', recipeID)
            && LinksAre(t', recipeID, cs)
  {
    DeletesKeepValid(t, recipeID);
    AddLinksKeepsValid(DeleteLinks(t, recipeID), recipeID, cs);
  }

  lemma WrittenMeaning(t: Tables, r: Recipe)
    requires Valid(t) && WriteAssociations(t, r).Ok?
    ensures Valid(WriteAssociations(t, r).value)
    ensures Written(t, r, WriteAssociations(t, r).value)
  {
    LinesWritten(t, r.id, r.lines);
    LinksWritten(AddLines(DeleteLines(t, r.id), r.id, r.lines).value, r.id, r.categories);
  }

  lemma Int32Exact(i: nat)
    ensures ToInt32(i) == i <==> i < 0x8000_0000
  {}

  /** How many lines the 32-bit positions can tell apart; only the first half of them count up. */
  const MAX_LINES := 0x1_0000_0000

  lemma Int32Distinct(i: nat, j: nat)
    requires i < MAX_LINES && j < MAX_LINES && i != j
    ensures ToInt32(i) != ToInt32(j)
  {
    Int32Halves(i);
    Int32Halves(j);
  }

  lemma Int32Halves(i: nat)
    requires i < MAX_LINES
    ensures ToInt32(i) == if i < 0x8000_0000 then i else i - MAX_LINES
  {}

  lemma Int32Wraps()
    ensures ToInt32(MAX_LINES) == ToInt32(0)
  {}

  /** While positions can be told apart, the next one is free. */
  lemma NextPositionFree(t: Tables, recipeID: int, lines: seq<Line>)
    requires Valid(t) && AddLines(t, recipeID, lines).Ok? && |lines| < MAX_LINES
    requires forall id <- t.lines :: t.lines[id].recipeID != recipeID
    ensures !PositionTaken(AddLines(t, recipeID, lines).value, recipeID, ToInt32(|lines|))
  {
    hide ToInt32;
    var t1 := AddLines(t, recipeID, lines).value;
    NewLinesAre(t, recipeID, lines);
    forall id | id in t1.lines && t1.lines[id].recipeID == recipeID
      ensures t1.lines[id].position != ToInt32(|lines|)
    {
      Int32Distinct(id - t.nextLine, |lines|);
    }
  }

  /** Lines are refused only for a dangling id, as long as positions can be told apart. */
  lemma {:induction false} AddLinesSucceeds(t: Tables, recipeID: int, lines: seq<Line>)
    requires Valid(t) && |lines| <= MAX_LINES
    requires forall id <- t.lines :: t.lines[id].recipeID != recipeID
    requires forall i | 0 <= i < |lines| :: LineRefs(t, RowOf(recipeID, lines[i], i))
    ensures AddLines(t, recipeID, lines).Ok?
  {
    if lines != [] {
      var init := lines[..|lines| - 1];
      assert forall i | 0 <= i < |init| :: init[i] == lines[i];
      AddLinesSucceeds(t, recipeID, init);
      AddLinesKeepsValid(t, recipeID, init);
      NextPositionFree(t, recipeID, init);
      assert LineRefs(t, RowOf(recipeID, lines[|init|], |init|));
    }
  }

  /** The ids a recipe carries, rather than names to resolve, all exist. */
  ghost predicate CarriedIDsExist(t: Tables, r: Recipe)
  {
    && (forall i | 0 <= i < |r.categories| && r.categories[i].id != 0 :: r.categories[i].id in t.categories.rows)
    && (forall i | 0 <= i < |r.lines| && r.lines[i].ingredientID != 0 :: r.lines[i].ingredientID in t.ingredients.rows)
    && (forall i | 0 <= i < |r.lines| && r.lines[i].unitID.Some? :: r.lines[i].unitID.value in t.units.rows)
  }

  /** An id that exists before the names are resolved exists after, too. */
  lemma CarriedStillExist(t: Tables, r: Recipe)
    requires Valid(t) && CarriedIDsExist(t, r)
    ensures CarriedIDsExist(Resolve(t, r).0, r)
  {
    var t2 := Resolve(t, r).0;
    ResolveKeeps(t, r);
    ExtendsKeys(t.units, t2.units);
    ExtendsKeys(t.categories, t2.categories);
    ExtendsKeys(t.ingredients, t2.ingredients);
  }

  /** The resolved lines and categories refer to rows that exist. */
  lemma ResolvedRefs(t: Tables, r: Recipe)
    requires Valid(t) && r.id in t.recipes && CarriedIDsExist(Resolve(t, r).0, r)
    ensures var (t2, r2) := Resolve(t, r);
            && (forall i | 0 <= i < |r2.lines| :: LineRefs(t2, RowOf(r.id, r2.lines[i], i)))
            && (forall i | 0 <= i < |r2.categories| :: r2.categories[i].id in t2.categories.rows)
  {
    var (t2, r2) := Resolve(t, r);
    ResolveKeeps(t, r);
    ResolveCategoriesKeeps(t.categories, r.categories);
    ResolveLinesKeeps(t.ingredients, t.units, r.lines);
    forall i | 0 <= i < |r2.lines|
      ensures LineRefs(t2, RowOf(r.id, r2.lines[i], i))
    {
      assert LineResolved(t2.ingredients, t2.units, r.lines[i], r2.lines[i]);
    }
  }

  lemma ResolveAndWriteSucceeds(t: Tables, r: Recipe)
    requires Valid(t) && r.id in t.recipes && CarriedIDsExist(Resolve(t, r).0, r) && |r.lines| <= MAX_LINES
    ensures ResolveAndWrite(t, r).Ok?
  {
    var (t2, r2) := Resolve(t, r);
    ResolveKeeps(t, r);
    ResolvedRefs(t, r);
    var t0 := DeleteLines(t2, r.id);
    DeletesKeepValid(t2, r.id);
    forall i | 0 <= i < |r2.lines|
      ensures LineRefs(t0, RowOf(r.id, r2.lines[i], i))
    {
      assert LineRefs(t2, RowOf(r.id, r2.lines[i], i));
    }
    AddLinesSucceeds(t0, r.id, r2.lines);
    AddLinesKeepsValid(t0, r.id, r2.lines);
    AddLinksSucceeds(DeleteLinks(AddLines(t0, r.id, r2.lines).value, r.id), r.id, r2.categories);
  }

  lemma TwoPositions(t': Tables, first: int, recipeID: int, lines: seq<Line>, i: nat, j: nat)
    requires ValidLines(t') && LinesAre(t', first, recipeID, lines) && i < j < |lines|
    ensures ToInt32(i) != ToInt32(j)
  {
    hide ToInt32;
    var a, b := first + i, first + j;
    assert t'.lines[a] == RowOf(recipeID, lines[i], i) && t'.lines[b] == RowOf(recipeID, lines[j], j);
  }

  /** More lines than positions would put two of them at one. */
  lemma LinesFit(t': Tables, first: int, recipeID: int, lines: seq<Line>)
    requires ValidLines(t') && LinesAre(t', first, recipeID, lines)
    ensures |lines| <= MAX_LINES
  {
    if |lines| > MAX_LINES {
      TwoPositions(t', first, recipeID, lines, 0, MAX_LINES);
      Int32Wraps();
    }
  }

  /** The foreign keys hold of every line and link that was written. */
  lemma WrittenRefs(t: Tables, r: Recipe, t': Tables)
    requires Valid(t') && LinesAre(t', t.nextLine, r.id, r.lines) && LinksAre(t', r.id, r.categories)
    ensures forall i | 0 <= i < |r.lines| :: LineRefs(t', RowOf(r.id, r.lines[i], i))
    ensures forall i | 0 <= i < |r.categories| :: r.categories[i].id in t'.categories.rows
  {
    forall i | 0 <= i < |r.lines|
      ensures LineRefs(t', RowOf(r.id, r.lines[i], i))
    {
      var id := t.nextLine + i;
      assert t'.lines[id] == RowOf(r.id, r.lines[i], i);
    }
    forall i | 0 <= i < |r.categories|
      ensures r.categories[i].id in t'.categories.rows
    {
      var c := r.categories[i].id;
      assert (r.id, c) in t'.links;
    }
  }

  /** A resolved line or category keeps the id it carried. */
  lemma ResolvedKeepsIDs(t: Tables, r: Recipe)
    requires Valid(t)
    ensures var r2 := Resolve(t, r).1;
            && |r2.lines| == |r.lines| && |r2.categories| == |r.categories|
            && (forall i | 0 <= i < |r.lines| ::
                  && (r.lines[i].ingredientID != 0 ==> r2.lines[i].ingredientID == r.lines[i].ingredientID)
                  && (r.lines[i].unitID.Some? ==> r2.lines[i].unitID == r.lines[i].unitID))
            && forall i | 0 <= i < |r.categories| && r.categories[i].id != 0 :: r2.categories[i] == r.categories[i]
  {
    var r2 := Resolve(t, r).1;
    ResolveCategoriesKeeps(t.categories, r.categories);
    ResolveLinesKeeps(t.ingredients, t.units, r.lines);
    var rl := ResolveLines(t.ingredients, t.units, r.lines);
    forall i | 0 <= i < |r.lines|
      ensures && (r.lines[i].ingredientID != 0 ==> r2.lines[i].ingredientID == r.lines[i].ingredientID)
              && (r.lines[i].unitID.Some? ==> r2.lines[i].unitID == r.lines[i].unitID)
    {
      assert LineResolved(rl.ingredients, rl.units, r.lines[i], r2.lines[i]);
    }
  }

  /** A write that went through carried no dangling id. */
  lemma WrittenCarried(t: Tables, r: Recipe)
    requires Valid(t) && ResolveAndWrite(t, r).Ok?
    ensures CarriedIDsExist(Resolve(t, r).0, r) && |r.lines| <= MAX_LINES
  {
    hide Resolve, WriteAssociations, LinesAre, LinksAre, Valid;
    var (t2, r2) := Resolve(t, r);
    ResolveKeeps(t, r);
    WrittenMeaning(t2, r2);
    var t' := WriteAssociations(t2, r2).value;
    assert ValidLines(t');
    WrittenRefs(t2, r2, t');
    LinesFit(t', t2.nextLine, r2.id, r2.lines);
    ResolvedKeepsIDs(t, r);
    RefsCarried(t2, r, r2);
  }

  lemma RefsCarried(t2: Tables, r: Recipe, r2: Recipe)
    requires |r2.lines| == |r.lines| && |r2.categories| == |r.categories|
    requires forall i | 0 <= i < |r2.lines| :: LineRefs(t2, RowOf(r2.id, r2.lines[i], i))
    requires forall i | 0 <= i < |r2.categories| :: r2.categories[i].id in t2.categories.rows
    requires forall i | 0 <= i < |r.lines| ::
               && (r.lines[i].ingredientID != 0 ==> r2.lines[i].ingredientID == r.lines[i].ingredientID)
               && (r.lines[i].unitID.Some? ==> r2.lines[i].unitID == r.lines[i].unitID)
    requires forall i | 0 <= i < |r.categories| && r.categories[i].id != 0 :: r2.categories[i] == r.categories[i]
    ensures CarriedIDsExist(t2, r)
  {
    forall i | 0 <= i < |r.lines|
      ensures r.lines[i].ingredientID != 0 ==> r.lines[i].ingredientID in t2.ingredients.rows
      ensures r.lines[i].unitID.Some? ==> r.lines[i].unitID.value in t2.units.rows
    {
      assert LineRefs(t2, RowOf(r2.id, r2.lines[i], i));
    }
  }

  /** Once the recipe row is there, a write goes through exactly when every id it carries exists among the
      lookup rows - those it creates itself included - and 32-bit positions can tell its lines apart. */
  lemma ResolveAndWriteExactly(t: Tables, r: Recipe)
    requires Valid(t) && r.id in t.recipes
    ensures ResolveAndWrite(t, r).Ok? <==> CarriedIDsExist(Resolve(t, r).0, r) && |r.lines| <= MAX_LINES
  {
    if ResolveAndWrite(t, r).Ok? {
      WrittenCarried(t, r);
    }
    if CarriedIDsExist(Resolve(t, r).0, r) && |r.lines| <= MAX_LINES {
      ResolveAndWriteSucceeds(t, r);
    }
  }

  /** Everything about a completed write that does not depend on which write it was. */
  lemma ResolveAndWriteMeaning(t: Tables, r: Recipe)
    requires Valid(t) && ResolveAndWrite(t, r).Ok?
    ensures var (t', r') := ResolveAndWrite(t, r).value;
            && Valid(t')
            && r' == r.(categories := r'.categories, lines := r'.lines)
            && t'.recipes == t.recipes && t'.nextRecipe == t.nextRecipe
            && LookupsGrow(t, t')
            && OtherLinesUntouched(t, t', r.id) && OtherLinksUntouched(t, t', r.id)
            && LinesAre(t', t.nextLine, r.id, r'.lines) && LinksAre(t', r.id, r'.categories)
  {
    ResolveKeeps(t, r);
    var (t2, r2) := Resolve(t, r);
    WrittenMeaning(t2, r2);
  }

  /** What resolving means against the tables as they are once everything is written. */
  ghost predicate CategoryResolved(categories: Lookup, given: Category, c: Category)
  {
    if given.id != 0 then c == given
    else c.name == given.name && c.id in categories.rows && categories.rows[c.id] == c.name
  }

  ghost predicate Resolved(t': Tables, given: Recipe, r': Recipe)
  {
    && |r'.lines| == |given.lines| && |r'.categories| == |given.categories|
    && (forall i | 0 <= i < |given.lines| :: LineResolved(t'.ingredients, t'.units, given.lines[i], r'.lines[i]))
    && forall i | 0 <= i < |given.categories| ::
         CategoryResolved(t'.categories, given.categories[i], r'.categories[i])
  }

  lemma WrittenIsResolved(t: Tables, r: Recipe)
    requires Valid(t) && ResolveAndWrite(t, r).Ok?
    ensures var (t', r') := ResolveAndWrite(t, r).value;
            Resolved(t', r, r')
  {
    hide ResolveCategories, ResolveLines, LineResolved;
    ResolveKeeps(t, r);
    ResolveCategoriesKeeps(t.categories, r.categories);
    ResolveLinesKeeps(t.ingredients, t.units, r.lines);
    var (t2, r2) := Resolve(t, r);
    WrittenMeaning(t2, r2);
  }

  // ---------------------------------------------------------------- what Create guarantees

  /** Create fails as a duplicate exactly when the source is stored (and the status is legal, which
      is checked first); it succeeds exactly when the source is new, the status legal, every carried id
      exists and the lines can be told apart; anything else fails. */
  lemma CreateOutcome(t: Tables, r: Recipe, now: int)
    requires Valid(t)
    ensures Create(t, r, now) == Err(DuplicateSource) <==> LegalStatus(r.status) && SourceStored(t, r.source)
    ensures Create(t, r, now).Ok? <==>
              && LegalStatus(r.status) && !SourceStored(t, r.source)
              && CarriedIDsExist(Resolve(t, r).0, r) && |r.lines| <= MAX_LINES
    ensures Create(t, r, now) != Err(NotFound)
  {
    hide ResolveAndWrite, CarriedIDsExist, SourceStored;
    var row := RecipeRow(r.name, r.instructions, r.imageURL, r.source, r.status, now, now);
    CreateInTwo(t, r, now);
    if InsertRecipe(t, row).Ok? {
      InsertRecipeKeepsValid(t, row);
      var (t1, id) := InsertRecipe(t, row).value;
      var staged := r.(id := id, createdAt := now, updatedAt := now);
      ResolveAndWriteExactly(t1, staged);
      SameLookups(t, r, t1, staged);
      FailsOneWay(t1, staged);
    }
  }

  /** Which carried ids exist after resolving depends on the lookup tables and the child lists only. */
  lemma SameLookups(t: Tables, r: Recipe, t1: Tables, r1: Recipe)
    requires t1.units == t.units && t1.categories == t.categories && t1.ingredients == t.ingredients
    requires r1.lines == r.lines && r1.categories == r.categories
    ensures CarriedIDsExist(Resolve(t1, r1).0, r1) <==> CarriedIDsExist(Resolve(t, r).0, r)
  {}

  lemma FailsOneWay(t: Tables, r: Recipe)
    ensures ResolveAndWrite(t, r).Err? ==> ResolveAndWrite(t, r) == Err(Failed)
  {}

  /** A successful Create: one new recipe with a fresh id, its row as given, its lines and links as
      resolved, the schema invariant kept and every other recipe untouched. */
  lemma CreateMeaning(t: Tables, r: Recipe, now: int)
    requires Valid(t) && Create(t, r, now).Ok?
    ensures var (t', r') := Create(t, r, now).value;
            && Valid(t')
            && r'.id == t.nextRecipe && r'.id !in t.recipes
            && r' == r.(id := r'.id, createdAt := now, updatedAt := now, categories := r'.categories, lines := r'.lines)
            && t'.recipes == t.recipes[r'.id := RecipeRow(r.name, r.instructions, r.imageURL, r.source, r.status,
                                                          now, now)]
            && StoredSources(t') == StoredSources(t) + {r.source} && r.source !in StoredSources(t)
            && LookupsGrow(t, t')
            && OtherLinesUntouched(t, t', r'.id) && OtherLinksUntouched(t, t', r'.id)
            && LinesAre(t', t.nextLine, r'.id, r'.lines) && LinksAre(t', r'.id, r'.categories)
  {
    var row := RecipeRow(r.name, r.instructions, r.imageURL, r.source, r.status, now, now);
    InsertRecipeKeepsValid(t, row);
    var (t1, id) := InsertRecipe(t, row).value;
    ResolveAndWriteMeaning(t1, r.(id := id, createdAt := now, updatedAt := now));
    NewSource(t, row);
  }

  lemma CreateResolves(t: Tables, r: Recipe, now: int)
    requires Valid(t) && Create(t, r, now).Ok?
    ensures var (t', r') := Create(t, r, now).value;
            Resolved(t', r, r')
  {
    hide ResolveAndWrite, LineResolved, CategoryResolved, Valid;
    var row := RecipeRow(r.name, r.instructions, r.imageURL, r.source, r.status, now, now);
    CreateInTwo(t, r, now);
    InsertRecipeKeepsValid(t, row);
    var (t1, id) := InsertRecipe(t, row).value;
    WrittenIsResolved(t1, r.(id := id, createdAt := now, updatedAt := now));
  }

  lemma NewSource(t: Tables, row: RecipeRow)
    requires Valid(t) && InsertRecipe(t, row).Ok?
    ensures StoredSources(InsertRecipe(t, row).value.0) == StoredSources(t) + {row.source}
    ensures row.source !in StoredSources(t)
  {
    var t1 := InsertRecipe(t, row).value.0;
    assert t1.recipes[t.nextRecipe] == row;
    assert forall id <- t.recipes :: id in t1.recipes && t1.recipes[id] == t.recipes[id];
  }

  /** The positions written are 0..n-1 for every list that a 32-bit position can number. */
  lemma PositionsCountUp(t': Tables, first: int, recipeID: int, lines: seq<Line>, i: nat)
    requires LinesAre(t', first, recipeID, lines) && i < |lines|
    ensures first + i in t'.lines && t'.lines[first + i] == RowOf(recipeID, lines[i], i)
    ensures t'.lines[first + i].position == i <==> i < 0x8000_0000
  {
    Int32Exact(i);
  }

  // ---------------------------------------------------------------- what Update guarantees

  /** Update reports "not found" exactly when there is no such recipe, and otherwise succeeds exactly when
      the status is legal, every carried id exists and the lines can be told apart. */
  lemma UpdateOutcome(t: Tables, r: Recipe, now: int)
    requires Valid(t)
    ensures Update(t, r, now) == Err(NotFound) <==> r.id !in t.recipes
    ensures Update(t, r, now).Ok? <==>
              && r.id in t.recipes && LegalStatus(r.status)
              && CarriedIDsExist(Resolve(t, r).0, r) && |r.lines| <= MAX_LINES
    ensures Update(t, r, now) != Err(DuplicateSource)
  {
    hide ResolveAndWrite, CarriedIDsExist;
    UpdateInTwo(t, r, now);
    if r.id in t.recipes && LegalStatus(r.status) {
      UpdateRecipeKeepsValid(t, r.id, r.name, r.instructions, r.imageURL, r.status, now);
      var (t1, row) := UpdateRecipeRow(t, r.id, r.name, r.instructions, r.imageURL, r.status, now).value;
      var staged := r.(createdAt := row.createdAt, updatedAt := row.updatedAt);
      ResolveAndWriteExactly(t1, staged);
      SameLookups(t, r, t1, staged);
      FailsOneWay(t1, staged);
    }
  }

  lemma UpdateInTwo(t: Tables, r: Recipe, now: int)
    ensures match UpdateRecipeRow(t, r.id, r.name, r.instructions, r.imageURL, r.status, now)
            case Err(e) => Update(t, r, now) == Err(if e == NoRows then NotFound else Failed)
            case Ok((t1, row)) =>
              Update(t, r, now) == ResolveAndWrite(t1, r.(createdAt := row.createdAt, updatedAt := row.updatedAt))
  {}

  /** A successful Update: the row has the new fields, its source and creation time are kept, the
      child rows are replaced wholesale, and no other recipe changes. */
  lemma UpdateMeaning(t: Tables, r: Recipe, now: int)
    requires Valid(t) && Update(t, r, now).Ok?
    ensures var (t', r') := Update(t, r, now).value;
            && Valid(t')
            && r' == r.(createdAt := t.recipes[r.id].createdAt, updatedAt := now, categories := r'.categories,
                        lines := r'.lines)
            && t'.recipes == t.recipes[r.id := RecipeRow(r.name, r.instructions, r.imageURL, t.recipes[r.id].source,
                                                         r.status, t.recipes[r.id].createdAt, now)]
            && LookupsGrow(t, t')
            && OtherLinesUntouched(t, t', r.id) && OtherLinksUntouched(t, t', r.id)
            && LinesAre(t', t.nextLine, r.id, r'.lines) && LinksAre(t', r.id, r'.categories)
  {
    UpdateRecipeKeepsValid(t, r.id, r.name, r.instructions, r.imageURL, r.status, now);
    var (t1, row) := UpdateRecipeRow(t, r.id, r.name, r.instructions, r.imageURL, r.status, now).value;
    ResolveAndWriteMeaning(t1, r.(createdAt := row.createdAt, updatedAt := row.updatedAt));
  }

  lemma UpdateResolves(t: Tables, r: Recipe, now: int)
    requires Valid(t) && Update(t, r, now).Ok?
    ensures var (t', r') := Update(t, r, now).value;
            Resolved(t', r, r')
  {
    hide ResolveAndWrite, LineResolved, CategoryResolved, Valid;
    UpdateInTwo(t, r, now);
    UpdateRecipeKeepsValid(t, r.id, r.name, r.instructions, r.imageURL, r.status, now);
    var (t1, row) := UpdateRecipeRow(t, r.id, r.name, r.instructions, r.imageURL, r.status, now).value;
    WrittenIsResolved(t1, r.(createdAt := row.createdAt, updatedAt := row.updatedAt));
  }

  // ---------------------------------------------------------------- what Delete guarantees

  /** t' is t without one recipe: its row, its lines and its links are gone, and nothing else has changed. */
  ghost predicate Deleted(t: Tables, t': Tables, id: int)
  {
    && id in t.recipes
    && (forall k :: k in t'.recipes <==> k in t.recipes && k != id)
    && (forall k <- t'.recipes :: t'.recipes[k] == t.recipes[k])
    && (forall k <- t'.lines :: t'.lines[k].recipeID != id)
    && (forall l <- t'.links :: l.0 != id)
    && OtherLinesUntouched(t, t', id) && OtherLinksUntouched(t, t', id)
    && t'.units == t.units && t'.categories == t.categories && t'.ingredients == t.ingredients
    && t'.nextRecipe == t.nextRecipe && t'.nextLine == t.nextLine
  }

  /** Deleting a recipe that is there removes it with everything the schema's cascades reach, and it is gone:
      deleting it again removes nothing. */
  lemma DeleteMeaning(t: Tables, id: int)
    ensures var (t', n) := DeleteRecipe(t, id);
            if id in t.recipes then n == 1 && Deleted(t, t', id) && DeleteRecipe(t', id) == (t', 0)
            else n == 0 && t' == t
  {}
}
