/** The recipe repository: transactions over the tables, and a recipe whose slices are written
    through. Beginning, any statement and the commit may each be lost; the tables and the caller's recipe
    then stay as they were. */
module RecipeRepository {
  import opened Wrappers
  import opened Domain
  import opened Tables
  import S = Tables
  import W = RecipeWrites

  /** What a line's unit pointer points to. Whoever holds the pointer could write through it. */
  class UnitRef {
    var id: int

    constructor (id: int)
      ensures this.id == id
    {
      this.id := id;
    }
  }

  /** An ingredient line as an element of a slice: copying it copies the pointer, not the unit. */
  datatype LineSlot = LineSlot(ingredientID: int, ingredientName: string, amount: real, unit: UnitRef?,
                               unitName: string)

  function UnitsOf(slots: seq<LineSlot>): set<UnitRef>
  {
    set slot | slot in slots && slot.unit != null :: slot.unit
  }

  function LineIn(slot: LineSlot): Line
    reads slot.unit
  {
    Line(slot.ingredientID, slot.ingredientName, slot.amount,
         if slot.unit == null then None else Some(slot.unit.id), slot.unitName)
  }

  /** The lines that slots stand for, pointers followed. */
  function LinesIn(slots: seq<LineSlot>): (r: seq<Line>)
    reads UnitsOf(slots)
    ensures |r| == |slots|
  {
    if slots == [] then []
    else
      assert slots[|slots| - 1].unit != null ==> slots[|slots| - 1].unit in UnitsOf(slots);
      assert UnitsOf(slots[..|slots| - 1]) <= UnitsOf(slots);
      LinesIn(slots[..|slots| - 1]) + [LineIn(slots[|slots| - 1])]
  }

  lemma {:induction false} LinesInAt(slots: seq<LineSlot>, i: nat)
    requires i < |slots|
    ensures LinesIn(slots)[i] == LineIn(slots[i])
  {
    if i < |slots| - 1 {
      LinesInAt(slots[..|slots| - 1], i);
    }
  }

  /** What slots stand for changes only with the units they point to. */
  twostate lemma {:induction false} LinesKept(slots: seq<LineSlot>)
    requires forall u <- UnitsOf(slots) :: u.id == old(u.id)
    ensures LinesIn(slots) == old(LinesIn(slots))
  {
    if slots != [] {
      var last := slots[|slots| - 1];
      assert UnitsOf(slots[..|slots| - 1]) <= UnitsOf(slots);
      LinesKept(slots[..|slots| - 1]);
      assert last.unit != null ==> last.unit in UnitsOf(slots);
    }
  }

  lemma SlotAppended(slots: seq<LineSlot>, slot: LineSlot)
    ensures LinesIn(slots + [slot]) == LinesIn(slots) + [LineIn(slot)]
    ensures UnitsOf(slots + [slot]) == UnitsOf(slots) + (if slot.unit == null then {} else {slot.unit})
  {
    assert (slots + [slot])[..|slots|] == slots;
  }

  method NewSlots(lines: seq<Line>) returns (slots: array<LineSlot>)
    ensures fresh(slots) && fresh(UnitsOf(slots[..])) && LinesIn(slots[..]) == lines
  {
    hide LinesIn;
    var built: seq<LineSlot> := [];
    assert LinesIn(built) == [];
    for i := 0 to |lines|
      invariant |built| == i && fresh(UnitsOf(built)) && LinesIn(built) == lines[..i]
    {
      var line := lines[i];
      label Before:
      var unit: UnitRef? := null;
      if line.unitID.Some? {
        unit := new UnitRef(line.unitID.value);
      }
      LinesKept@Before(built);
      var slot := LineSlot(line.ingredientID, line.ingredientName, line.amount, unit, line.unitName);
      SlotAppended(built, slot);
      built := built + [slot];
      assert lines[..i + 1] == lines[..i] + [line];
    }
    assert lines[..|lines|] == lines;
    slots := new LineSlot[|built|](i requires 0 <= i < |built| => built[i]);
    assert slots[..] == built;
  }

  /** A recipe on the heap. Whoever shares a slice sees what is written into it, and whoever shares a
      line's unit pointer sees what is written through that. */
  class RecipeObject {
    var id: int
    var name: string
    var instructions: string
    var imageURL: string
    var source: string
    var status: string
    var lines: array<LineSlot>
    var categories: array<Category>
    var createdAt: int
    var updatedAt: int

    function Value(): Recipe
      reads this, lines, categories, UnitsOf(lines[..])
    {
      Recipe(id, name, instructions, imageURL, source, status, LinesIn(lines[..]), categories[..], createdAt, updatedAt)
    }

    /** The units its lines point to. */
    ghost function Units(): set<UnitRef>
      reads this, lines
    {
      UnitsOf(lines[..])
    }

    constructor (r: Recipe)
      ensures Value() == r && fresh(lines) && fresh(categories) && fresh(Units())
    {
      id, name, instructions, imageURL := r.id, r.name, r.instructions, r.imageURL;
      source, status, createdAt, updatedAt := r.source, r.status, r.createdAt, r.updatedAt;
      var ls := NewSlots(r.lines);
      var cs := new Category[|r.categories|](i requires 0 <= i < |r.categories| => r.categories[i]);
      lines, categories := ls, cs;
      new;
      assert categories[..] == r.categories;
    }

    /** `stage`: a copy with slices of its own. The clones are shallow: its lines point to the same units. */
    constructor Stage(other: RecipeObject)
      ensures Value() == other.Value() && fresh(lines) && fresh(categories)
      ensures lines[..] == other.lines[..] && categories[..] == other.categories[..]
    {
      id, name, instructions, imageURL := other.id, other.name, other.instructions, other.imageURL;
      source, status, createdAt, updatedAt := other.source, other.status, other.createdAt, other.updatedAt;
      var ls := new LineSlot[other.lines.Length](
        i requires 0 <= i < other.lines.Length reads other, other.lines => other.lines[i]);
      var cs := new Category[other.categories.Length](
        i requires 0 <= i < other.categories.Length reads other, other.categories => other.categories[i]);
      lines, categories := ls, cs;
      new;
      assert lines[..] == other.lines[..] && categories[..] == other.categories[..];
    }

    /** The assignment `*recipe = staged`: every field, and with them the staged slices. */
    method Assign(staged: RecipeObject)
      modifies this
      ensures Value() == staged.Value() && lines == staged.lines && categories == staged.categories
    {
      hide LinesIn;
      id, name, instructions, imageURL := staged.id, staged.name, staged.instructions, staged.imageURL;
      source, status, createdAt, updatedAt := staged.source, staged.status, staged.createdAt, staged.updatedAt;
      lines, categories := staged.lines, staged.categories;
      LinesKept(staged.lines[..]);
    }
  }

  /** Which of a call's statements are lost: the k-th, counting from beginning the transaction. */
  type Faults = nat -> bool

  ghost predicate Reliable(faults: Faults)
  {
    forall k :: !faults(k)
  }

  /** One open transaction: its own view of the tables, and statements that may be lost. */
  class Tx {
    const faults: Faults
    var sent: nat
    var t: Tables

    constructor (t: Tables, faults: Faults)
      ensures this.t == t && this.faults == faults
    {
      this.t, this.faults, sent := t, faults, 1;
    }

    method Send() returns (lost: bool)
      modifies this`sent
      ensures lost ==> !Reliable(faults)
    {
      lost := faults(sent);
      sent := sent + 1;
    }

    method FindOrCreate(l: Lookup, name: string) returns (r: Result<(Lookup, int), SqlError>)
      requires ValidLookup(l)
      modifies this`sent
      ensures r.Err? ==> !Reliable(faults)
      ensures r.Ok? ==> r.value == S.FindOrCreate(l, name) && ValidLookup(r.value.0)
    {
      var lost := Send();
      if lost {
        return Err(Lost);
      }
      FindOrCreateKeepsValid(l, name);
      if exists id <- l.rows :: l.rows[id] == name {
        var id :| id in l.rows && l.rows[id] == name;
        return Ok((l, id));
      }
      return Ok((Lookup(l.rows[l.next := name], l.next + 1), l.next));
    }

    method InsertRecipe(row: RecipeRow) returns (r: Result<int, SqlError>)
      requires Valid(t)
      modifies this
      ensures Valid(t)
      ensures r.Ok? ==> S.InsertRecipe(old(t), row) == Ok((t, r.value))
      ensures r.Err? ==> t == old(t) && (r.error == Lost || S.InsertRecipe(t, row) == Err(r.error))
      ensures r == Err(Lost) ==> !Reliable(faults)
    {
      var lost := Send();
      if lost {
        return Err(Lost);
      }
      if !LegalStatus(row.status) {
        return Err(Constraint);
      }
      if exists id <- t.recipes :: t.recipes[id].source == row.source {
        return Err(NoRows);
      }
      InsertRecipeKeepsValid(t, row);
      r := Ok(t.nextRecipe);
      t := t.(recipes := t.recipes[t.nextRecipe := row], nextRecipe := t.nextRecipe + 1);
    }

    method UpdateRecipe(id: int, name: string, instructions: string, imageURL: string, status: string, now: int)
      returns (r: Result<RecipeRow, SqlError>)
      requires Valid(t)
      modifies this
      ensures Valid(t)
      ensures r.Ok? ==> UpdateRecipeRow(old(t), id, name, instructions, imageURL, status, now) == Ok((t, r.value))
      ensures r.Err? ==>
                && t == old(t)
                && (r.error == Lost
                    || UpdateRecipeRow(t, id, name, instructions, imageURL, status, now) == Err(r.error))
      ensures r == Err(Lost) ==> !Reliable(faults)
    {
      var lost := Send();
      if lost {
        return Err(Lost);
      }
      if id !in t.recipes {
        return Err(NoRows);
      }
      if !LegalStatus(status) {
        return Err(Constraint);
      }
      UpdateRecipeKeepsValid(t, id, name, instructions, imageURL, status, now);
      var row := t.recipes[id].(name := name, instructions := instructions, imageURL := imageURL,
                                status := status, updatedAt := now);
      r := Ok(row);
      t := t.(recipes := t.recipes[id := row]);
    }

    method DeleteLines(recipeID: int) returns (err: Option<SqlError>)
      requires Valid(t)
      modifies this
      ensures Valid(t) && t == (if err.None? then S.DeleteLines(old(t), recipeID) else old(t))
      ensures err.Some? ==> err.value == Lost && !Reliable(faults)
    {
      var lost := Send();
      if lost {
        return Some(Lost);
      }
      DeletesKeepValid(t, recipeID);
      t := t.(lines := map id | id in t.lines && t.lines[id].recipeID != recipeID :: t.lines[id]);
      return None;
    }

    method DeleteLinks(recipeID: int) returns (err: Option<SqlError>)
      requires Valid(t)
      modifies this
      ensures Valid(t) && t == (if err.None? then S.DeleteLinks(old(t), recipeID) else old(t))
      ensures err.Some? ==> err.value == Lost && !Reliable(faults)
    {
      var lost := Send();
      if lost {
        return Some(Lost);
      }
      DeletesKeepValid(t, recipeID);
      t := t.(links := set l | l in t.links && l.0 != recipeID);
      return None;
    }

    method AddLine(row: LineRow) returns (err: Option<SqlError>)
      requires Valid(t)
      modifies this
      ensures Valid(t)
      ensures err.None? ==> S.AddLine(old(t), row) == Ok(t)
      ensures err.Some? ==> t == old(t) && (err.value == Lost || S.AddLine(t, row) == Err(err.value))
      ensures err == Some(Lost) ==> !Reliable(faults)
    {
      var lost := Send();
      if lost {
        return Some(Lost);
      }
      if row.recipeID !in t.recipes || row.ingredientID !in t.ingredients.rows
         || (row.unitID.Some? && row.unitID.value !in t.units.rows) {
        return Some(Constraint);
      }
      if exists id <- t.lines :: t.lines[id].recipeID == row.recipeID && t.lines[id].position == row.position {
        return Some(Constraint);
      }
      AddLineKeepsValid(t, row);
      t := t.(lines := t.lines[t.nextLine := row], nextLine := t.nextLine + 1);
      return None;
    }

    method AddLink(recipeID: int, categoryID: int) returns (err: Option<SqlError>)
      requires Valid(t)
      modifies this
      ensures Valid(t)
      ensures err.None? ==> S.AddLink(old(t), recipeID, categoryID) == Ok(t)
      ensures err.Some? ==> t == old(t) && (err.value == Lost || S.AddLink(t, recipeID, categoryID) == Err(err.value))
      ensures err == Some(Lost) ==> !Reliable(faults)
    {
      var lost := Send();
      if lost {
        return Some(Lost);
      }
      if recipeID !in t.recipes || categoryID !in t.categories.rows {
        return Some(Constraint);
      }
      AddLinkKeepsValid(t, recipeID, categoryID);
      t := t.(links := t.links + {(recipeID, categoryID)});
      return None;
    }
  }

  /** `resolveLookups`: categories first, then each line's ingredient and unit, written through the
      recipe's own slices. */
  method ResolveLookups(q: Tx, recipe: RecipeObject) returns (err: Option<SqlError>)
    requires Valid(q.t)
    modifies q, recipe.categories, recipe.lines
    ensures Valid(q.t)
    ensures err.None? ==> (q.t, recipe.Value()) == W.Resolve(old(q.t), old(recipe.Value()))
    ensures err.Some? ==> !Reliable(q.faults)
    ensures SameUnits(old(recipe.lines[..]), recipe.lines[..])
  {
    ghost var slots := recipe.lines[..];
    err := ResolveCategories(q, recipe.categories);
    LinesKept(slots);
    if err.None? {
      err := ResolveLines(q, recipe.lines);
    }
  }

  method ResolveCategories(q: Tx, cs: array<Category>) returns (err: Option<SqlError>)
    requires Valid(q.t)
    modifies q, cs
    ensures Valid(q.t)
    ensures err.None? ==> q.t == old(q.t).(categories := W.ResolveCategories(old(q.t).categories, old(cs[..])).0)
    ensures err.None? ==> cs[..] == W.ResolveCategories(old(q.t).categories, old(cs[..])).1
    ensures err.Some? ==> !Reliable(q.faults)
  {
    hide Valid, W.ResolveCategories;
    ghost var t0, given := q.t, cs[..];
    ghost var rc := W.ResolveCategories(t0.categories, given[..0]);
    W.ResolveNoCategories(t0.categories);
    for i := 0 to cs.Length
      invariant Valid(q.t)
      invariant rc == W.ResolveCategories(t0.categories, given[..i])
      invariant q.t == t0.(categories := rc.0) && cs[..i] == rc.1
      invariant cs[i..] == given[i..]
    {
      W.ResolveCategoriesStep(t0.categories, given, i);
      assert cs[i] == given[i];
      ghost var before := cs[..];
      err := ResolveCategoryAt(q, cs, i);
      if err.Some? {
        return;
      }
      var (categories, c) := W.ResolveCategory(rc.0, given[i]);
      rc := (categories, rc.1 + [c]);
      assert cs[..i] == before[..i] && cs[i + 1..] == before[i..][1..];
      assert cs[..i + 1] == cs[..i] + [cs[i]];
    }
    assert given[..cs.Length] == given;
    return None;
  }

  method ResolveCategoryAt(q: Tx, cs: array<Category>, i: nat) returns (err: Option<SqlError>)
    requires Valid(q.t) && i < cs.Length
    modifies q, cs
    ensures Valid(q.t)
    ensures forall k | 0 <= k < cs.Length && k != i :: cs[k] == old(cs[k])
    ensures err.None? ==>
              var (categories, c) := W.ResolveCategory(old(q.t).categories, old(cs[i]));
              q.t == old(q.t).(categories := categories) && cs[i] == c
    ensures err.Some? ==> !Reliable(q.faults)
  {
    if cs[i].id != 0 {
      return None;
    }
    var r := q.FindOrCreate(q.t.categories, cs[i].name);
    if r.Err? {
      return Some(r.error);
    }
    var (categories, id) := r.value;
    FindOrCreateKeepsValid(q.t.categories, cs[i].name);
    GrowLookupsKeepsValid(q.t, q.t.units, categories, q.t.ingredients);
    q.t := q.t.(categories := categories);
    cs[i] := Category(id, categories.rows[id]);
    return None;
  }

  /** A slot that had a unit pointer still has that one. */
  ghost predicate SameUnits(before: seq<LineSlot>, after: seq<LineSlot>)
  {
    && |after| == |before|
    && forall i | 0 <= i < |before| && before[i].unit != null :: after[i].unit == before[i].unit
  }

  /** One line: its ingredient, then its unit. A unit found or created gets a pointer of its own; a pointer
      that was there is neither replaced nor written through. */
  method ResolveLineAt(q: Tx, lines: array<LineSlot>, i: nat) returns (err: Option<SqlError>)
    requires Valid(q.t) && i < lines.Length
    modifies q, lines
    ensures Valid(q.t)
    ensures forall k | 0 <= k < lines.Length && k != i :: lines[k] == old(lines[k])
    ensures old(lines[i]).unit != null ==> lines[i].unit == old(lines[i]).unit
    ensures err.None? ==>
              var (ingredients, line1) := W.ResolveIngredient(old(q.t).ingredients, old(LineIn(lines[i])));
              var (units, line2) := W.ResolveUnit(old(q.t).units, line1);
              q.t == old(q.t).(ingredients := ingredients, units := units) && LineIn(lines[i]) == line2
    ensures err.Some? ==> !Reliable(q.faults)
  {
    if lines[i].ingredientID == 0 {
      var r := q.FindOrCreate(q.t.ingredients, lines[i].ingredientName);
      if r.Err? {
        return Some(r.error);
      }
      var (ingredients, id) := r.value;
      FindOrCreateKeepsValid(q.t.ingredients, lines[i].ingredientName);
      GrowLookupsKeepsValid(q.t, q.t.units, q.t.categories, ingredients);
      q.t := q.t.(ingredients := ingredients);
      lines[i] := lines[i].(ingredientID := id, ingredientName := ingredients.rows[id]);
    }
    if lines[i].unit == null && lines[i].unitName != "" {
      var r := q.FindOrCreate(q.t.units, lines[i].unitName);
      if r.Err? {
        return Some(r.error);
      }
      var (units, id) := r.value;
      FindOrCreateKeepsValid(q.t.units, lines[i].unitName);
      GrowLookupsKeepsValid(q.t, units, q.t.categories, q.t.ingredients);
      q.t := q.t.(units := units);
      var unit := new UnitRef(id);
      lines[i] := lines[i].(unit := unit, unitName := units.rows[id]);
    }
    return None;
  }

  method ResolveLines(q: Tx, lines: array<LineSlot>) returns (err: Option<SqlError>)
    requires Valid(q.t)
    modifies q, lines
    ensures Valid(q.t)
    ensures SameUnits(old(lines[..]), lines[..])
    ensures err.None? ==>
              var r := W.ResolveLines(old(q.t).ingredients, old(q.t).units, old(LinesIn(lines[..])));
              q.t == old(q.t).(ingredients := r.ingredients, units := r.units) && LinesIn(lines[..]) == r.lines
    ensures err.Some? ==> !Reliable(q.faults)
  {
    hide W.ResolveLines, W.ResolveIngredient, W.ResolveUnit, Valid;
    ghost var t0, slots, given := q.t, lines[..], LinesIn(lines[..]);
    ghost var rl := W.ResolveLines(t0.ingredients, t0.units, given[..0]);
    W.ResolveNone(t0.ingredients, t0.units);
    for i := 0 to lines.Length
      invariant Valid(q.t)
      invariant rl == W.ResolveLines(t0.ingredients, t0.units, given[..i])
      invariant q.t == t0.(ingredients := rl.ingredients, units := rl.units) && LinesIn(lines[..i]) == rl.lines
      invariant lines[i..] == slots[i..]
      invariant SameUnits(slots, lines[..])
    {
      assert lines[i] == slots[i];
      LinesKept(slots);
      LinesInAt(slots, i);
      W.ResolveLinesStep(t0.ingredients, t0.units, given, i);
      ghost var before := lines[..];
      label Before:
      err := ResolveLineAt(q, lines, i);
      if err.Some? {
        return;
      }
      LinesKept@Before(before[..i]);
      OneSlotMore(before, lines[..], slots, i);
      rl := W.ResolveNext(rl, given[i]);
    }
    assert given[..lines.Length] == given && lines[..lines.Length] == lines[..];
    return None;
  }

  /** The i-th slot has been worked on. */
  lemma OneSlotMore(before: seq<LineSlot>, after: seq<LineSlot>, slots: seq<LineSlot>, i: nat)
    requires |before| == |after| == |slots| && i < |after|
    requires before[i..] == slots[i..] && forall k | 0 <= k < |after| && k != i :: after[k] == before[k]
    ensures after[i + 1..] == slots[i + 1..]
    ensures LinesIn(after[..i + 1]) == LinesIn(before[..i]) + [LineIn(after[i])]
  {
    assert forall k | i <= k < |slots| :: before[k] == before[i..][k - i] && slots[k] == slots[i..][k - i];
    assert after[..i + 1][..i] == before[..i];
  }

  /** `writeAssociations`: delete then reinsert, lines at their indices. */
  method WriteAssociations(q: Tx, recipe: RecipeObject) returns (err: Option<SqlError>)
    requires Valid(q.t)
    modifies q
    ensures Valid(q.t)
    ensures err.None? ==> W.WriteAssociations(old(q.t), old(recipe.Value())) == Ok(q.t)
    ensures err.Some? && err.value != Lost ==> W.WriteAssociations(old(q.t), old(recipe.Value())) == Err(err.value)
    ensures err == Some(Lost) ==> !Reliable(q.faults)
  {
    hide Valid, W.AddLines, W.AddLinks;
    err := q.DeleteLines(recipe.id);
    if err.None? {
      LinesKept(recipe.lines[..]);
      err := InsertLines(q, recipe);
      if err.None? {
        err := q.DeleteLinks(recipe.id);
        if err.None? {
          err := InsertLinks(q, recipe);
        }
      }
    }
  }

  method InsertLines(q: Tx, recipe: RecipeObject) returns (err: Option<SqlError>)
    requires Valid(q.t)
    modifies q
    ensures Valid(q.t)
    ensures err.None? ==> W.AddLines(old(q.t), recipe.id, old(LinesIn(recipe.lines[..]))) == Ok(q.t)
    ensures err.Some? && err.value != Lost ==>
              W.AddLines(old(q.t), recipe.id, old(LinesIn(recipe.lines[..]))) == Err(err.value)
    ensures err == Some(Lost) ==> !Reliable(q.faults)
  {
    hide Valid, W.AddLines, S.AddLine, W.ToInt32;
    ghost var t0, lines := q.t, LinesIn(recipe.lines[..]);
    W.AddNoLines(t0, recipe.id);
    assert lines[..0] == [];
    for i := 0 to recipe.lines.Length
      invariant Valid(q.t)
      invariant W.AddLines(t0, recipe.id, lines[..i]) == Ok(q.t)
    {
      W.AddLinesStep(t0, recipe.id, lines, i);
      LinesKept(recipe.lines[..]);
      LinesInAt(recipe.lines[..], i);
      var slot := recipe.lines[i];
      var unitID := None;
      if slot.unit != null {
        unitID := Some(slot.unit.id);
      }
      err := q.AddLine(LineRow(recipe.id, slot.ingredientID, slot.amount, unitID, W.ToInt32(i)));
      if err.Some? {
        if err.value != Lost {
          W.AddLinesRefused(t0, recipe.id, lines, i + 1, err.value);
        }
        return;
      }
    }
    assert lines[..recipe.lines.Length] == lines;
    err := None;
  }

  method InsertLinks(q: Tx, recipe: RecipeObject) returns (err: Option<SqlError>)
    requires Valid(q.t)
    modifies q
    ensures Valid(q.t)
    ensures err.None? ==> W.AddLinks(old(q.t), recipe.id, recipe.categories[..]) == Ok(q.t)
    ensures err.Some? && err.value != Lost ==>
              W.AddLinks(old(q.t), recipe.id, recipe.categories[..]) == Err(err.value)
    ensures err == Some(Lost) ==> !Reliable(q.faults)
  {
    hide Valid;
    ghost var t0 := q.t;
    for i := 0 to recipe.categories.Length
      invariant Valid(q.t)
      invariant W.AddLinks(t0, recipe.id, recipe.categories[..i]) == Ok(q.t)
    {
      assert recipe.categories[..i + 1][..i] == recipe.categories[..i];
      err := q.AddLink(recipe.id, recipe.categories[i].id);
      if err.Some? {
        if err.value != Lost {
          W.AddLinksRefused(t0, recipe.id, recipe.categories[..], i + 1, err.value);
        }
        return;
      }
    }
    assert recipe.categories[..recipe.categories.Length] == recipe.categories[..];
    err := None;
  }

  /** The part `Create` and `Update` share once the recipe row is in place. */
  method ResolveAndWrite(tx: Tx, staged: RecipeObject) returns (failed: bool)
    requires Valid(tx.t)
    modifies tx, staged.categories, staged.lines
    ensures !failed ==> Valid(tx.t) && W.ResolveAndWrite(old(tx.t), old(staged.Value())) == Ok((tx.t, staged.Value()))
    ensures SameUnits(old(staged.lines[..]), staged.lines[..])
    ensures failed && Reliable(tx.faults) ==> W.ResolveAndWrite(old(tx.t), old(staged.Value())) == Err(W.Failed)
  {
    hide Valid, W.Resolve, W.WriteAssociations;
    var err := ResolveLookups(tx, staged);
    if err.Some? {
      return true;
    }
    label Resolved:
    err := WriteAssociations(tx, staged);
    LinesKept@Resolved(staged.lines[..]);
    return err.Some?;
  }

  method ResolveWriteCommit(tx: Tx, staged: RecipeObject) returns (failed: bool)
    requires Valid(tx.t)
    modifies tx, staged.categories, staged.lines
    ensures !failed ==> Valid(tx.t) && W.ResolveAndWrite(old(tx.t), old(staged.Value())) == Ok((tx.t, staged.Value()))
    ensures SameUnits(old(staged.lines[..]), staged.lines[..])
    ensures failed && Reliable(tx.faults) ==> W.ResolveAndWrite(old(tx.t), old(staged.Value())) == Err(W.Failed)
  {
    hide Valid, W.ResolveAndWrite, LinesIn;
    failed := ResolveAndWrite(tx, staged);
    if !failed {
      label Written:
      failed := tx.Send();
      LinesKept@Written(staged.lines[..]);
    }
  }

  /** The transaction of a `Create`, its commit included. It works on a staged copy, so it changes
      neither the committed tables nor anything of the caller's. */
  method StageCreate(tables: Tables, recipe: RecipeObject, now: int, faults: Faults)
    returns (err: Option<W.StoreError>, tx: Tx, staged: RecipeObject)
    requires Valid(tables)
    ensures err.None? ==> W.Create(tables, old(recipe.Value()), now) == Ok((tx.t, staged.Value())) && Valid(tx.t)
    ensures err == Some(W.DuplicateSource) ==> W.Create(tables, old(recipe.Value()), now) == Err(W.DuplicateSource)
    ensures err.Some? && Reliable(faults) ==> W.Create(tables, old(recipe.Value()), now) == Err(err.value)
    ensures SameUnits(recipe.lines[..], staged.lines[..]) && fresh(staged.lines) && fresh(staged.categories)
    ensures err != Some(W.NotFound) && fresh(tx) && fresh(staged) && tx.faults == faults
  {
    hide Valid, W.ResolveAndWrite, LinesIn;
    ghost var given := recipe.Value();
    W.CreateInTwo(tables, given, now);
    tx := new Tx(tables, faults);
    staged := new RecipeObject.Stage(recipe);
    LinesKept(recipe.lines[..]);
    label Staged:
    var row := tx.InsertRecipe(RecipeRow(staged.name, staged.instructions, staged.imageURL, staged.source,
                                         staged.status, now, now));
    if row.Err? {
      err := Some(if row.error == NoRows then W.DuplicateSource else W.Failed);
    } else {
      staged.id, staged.createdAt, staged.updatedAt := row.value, now, now;
      LinesKept@Staged(staged.lines[..]);
      ghost var t1, inserted := tx.t, staged.Value();
      assert inserted == given.(id := row.value, createdAt := now, updatedAt := now);
      assert W.Create(tables, given, now) == W.ResolveAndWrite(t1, inserted);
      var failed := ResolveWriteCommit(tx, staged);
      err := if failed then Some(W.Failed) else None;
    }
  }

  /** The transaction of an `Update`, its commit included. */
  method StageUpdate(tables: Tables, recipe: RecipeObject, now: int, faults: Faults)
    returns (err: Option<W.StoreError>, tx: Tx, staged: RecipeObject)
    requires Valid(tables)
    ensures err.None? ==> W.Update(tables, old(recipe.Value()), now) == Ok((tx.t, staged.Value())) && Valid(tx.t)
    ensures err == Some(W.NotFound) ==> W.Update(tables, old(recipe.Value()), now) == Err(W.NotFound)
    ensures err.Some? && Reliable(faults) ==> W.Update(tables, old(recipe.Value()), now) == Err(err.value)
    ensures SameUnits(recipe.lines[..], staged.lines[..]) && fresh(staged.lines) && fresh(staged.categories)
    ensures err != Some(W.DuplicateSource) && fresh(tx) && fresh(staged) && tx.faults == faults
  {
    hide Valid, W.ResolveAndWrite, LinesIn;
    ghost var given := recipe.Value();
    W.UpdateInTwo(tables, given, now);
    tx := new Tx(tables, faults);
    staged := new RecipeObject.Stage(recipe);
    LinesKept(recipe.lines[..]);
    label Staged:
    var row := tx.UpdateRecipe(staged.id, staged.name, staged.instructions, staged.imageURL, staged.status, now);
    if row.Err? {
      err := Some(if row.error == NoRows then W.NotFound else W.Failed);
    } else {
      staged.createdAt, staged.updatedAt := row.value.createdAt, row.value.updatedAt;
      LinesKept@Staged(staged.lines[..]);
      ghost var t1, updated := tx.t, staged.Value();
      assert updated == given.(createdAt := row.value.createdAt, updatedAt := row.value.updatedAt);
      assert W.Update(tables, given, now) == W.ResolveAndWrite(t1, updated);
      var failed := ResolveWriteCommit(tx, staged);
      err := if failed then Some(W.Failed) else None;
    }
  }

  /** The repository over the committed tables. */
  class Repository {
    var tables: Tables

    constructor (tables: Tables)
      ensures this.tables == tables
    {
      this.tables := tables;
    }

    /** `Create`. On success the tables and the caller's recipe are what the specification says; on
        any failure both are untouched, the recipe's slices included. Where nothing is lost it succeeds or
        fails exactly as specified. */
    method Create(recipe: RecipeObject, now: int, faults: Faults) returns (err: Option<W.StoreError>)
      requires Valid(tables)
      modifies this, recipe
      ensures Valid(tables)
      ensures err.None? ==> W.Create(old(tables), old(recipe.Value()), now) == Ok((tables, recipe.Value()))
      ensures err.Some? ==> tables == old(tables) && unchanged(recipe) && recipe.Value() == old(recipe.Value())
      ensures err == Some(W.DuplicateSource) ==> W.Create(tables, recipe.Value(), now) == Err(W.DuplicateSource)
      ensures err.Some? && Reliable(faults) ==> W.Create(tables, recipe.Value(), now) == Err(err.value)
      ensures forall u <- old(recipe.Units()) :: unchanged(u)
      ensures unchanged(old(recipe.lines)) && unchanged(old(recipe.categories))
      ensures err.None? ==> SameUnits(old(recipe.lines[..]), recipe.lines[..])
      ensures err != Some(W.NotFound)
    {
      hide Valid, W.Create, LinesIn;
      if faults(0) {
        return Some(W.Failed);
      }
      var tx, staged;
      err, tx, staged := StageCreate(tables, recipe, now, faults);
      LinesKept(recipe.lines[..]);
      if err.Some? {
        return;
      }
      label Staged:
      tables := tx.t;
      recipe.Assign(staged);
      LinesKept@Staged(staged.lines[..]);
    }

    /** `Update`, with the same guarantees. */
    method Update(recipe: RecipeObject, now: int, faults: Faults) returns (err: Option<W.StoreError>)
      requires Valid(tables)
      modifies this, recipe
      ensures Valid(tables)
      ensures err.None? ==> W.Update(old(tables), old(recipe.Value()), now) == Ok((tables, recipe.Value()))
      ensures err.Some? ==> tables == old(tables) && unchanged(recipe) && recipe.Value() == old(recipe.Value())
      ensures err == Some(W.NotFound) ==> W.Update(tables, recipe.Value(), now) == Err(W.NotFound)
      ensures err.Some? && Reliable(faults) ==> W.Update(tables, recipe.Value(), now) == Err(err.value)
      ensures forall u <- old(recipe.Units()) :: unchanged(u)
      ensures unchanged(old(recipe.lines)) && unchanged(old(recipe.categories))
      ensures err.None? ==> SameUnits(old(recipe.lines[..]), recipe.lines[..])
      ensures err != Some(W.DuplicateSource)
    {
      hide Valid, W.Update, LinesIn;
      if faults(0) {
        return Some(W.Failed);
      }
      var tx, staged;
      err, tx, staged := StageUpdate(tables, recipe, now, faults);
      LinesKept(recipe.lines[..]);
      if err.Some? {
        return;
      }
      label Staged:
      tables := tx.t;
      recipe.Assign(staged);
      LinesKept@Staged(staged.lines[..]);
    }

    /** `Delete`: the recipe goes with its lines and links, or was not there. */
    method Delete(id: int, faults: Faults) returns (err: Option<W.StoreError>)
      requires Valid(tables)
      modifies this
      ensures Valid(tables)
      ensures err.None? ==> W.Deleted(old(tables), tables, id) && tables == DeleteRecipe(old(tables), id).0
      ensures err.Some? ==> tables == old(tables)
      ensures err == Some(W.NotFound) ==> id !in tables.recipes
      ensures err == Some(W.Failed) ==> !Reliable(faults)
      ensures Reliable(faults) ==> (err.None? <==> id in old(tables).recipes)
      ensures err != Some(W.DuplicateSource)
    {
      if faults(0) {
        return Some(W.Failed);
      }
      if id !in tables.recipes {
        return Some(W.NotFound);
      }
      DeleteRecipeKeepsValid(tables, id);
      W.DeleteMeaning(tables, id);
      tables := tables.(lines := (map k | k in tables.lines && tables.lines[k].recipeID != id :: tables.lines[k]),
                        links := (set l | l in tables.links && l.0 != id),
                        recipes := tables.recipes - {id});
      return None;
    }
  }
}
