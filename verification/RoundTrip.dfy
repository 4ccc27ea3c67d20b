/** Reading a recipe and writing it back: with its ids, as `GetByID` then `Update`, and with names
    only, as a GET and a PUT of the API's DTO. */
module RoundTrip {
  import opened Wrappers
  import opened Domain
  import opened Tables
  import opened Orders
  import W = RecipeWrites
  import R = RecipeReads
  import Repo = RecipeRepository

  // ---------------------------------------------------------------- the DTO

  datatype IngredientDTO = IngredientDTO(name: string, amount: real, unit: string)
  datatype CategoryDTO = CategoryDTO(id: int, name: string)
  datatype RecipeDTO = RecipeDTO(id: int, name: string, instructions: string, imageURL: string, source: string,
                                 status: string, ingredients: seq<IngredientDTO>, categories: seq<CategoryDTO>)

  function ToDTO(r: Recipe): (d: RecipeDTO)
  {
    RecipeDTO(r.id, r.name, r.instructions, r.imageURL, r.source, r.status,
              seq(|r.lines|, i requires 0 <= i < |r.lines| =>
                IngredientDTO(r.lines[i].ingredientName, r.lines[i].amount, r.lines[i].unitName)),
              seq(|r.categories|, i requires 0 <= i < |r.categories| =>
                CategoryDTO(r.categories[i].id, r.categories[i].name)))
  }

  /** Only names travel back; the DTO's ids are not consulted. */
  function FromDTO(d: RecipeDTO): (r: Recipe)
  {
    Recipe(0, d.name, d.instructions, d.imageURL, d.source, d.status,
           seq(|d.ingredients|, i requires 0 <= i < |d.ingredients| =>
             Line(0, d.ingredients[i].name, d.ingredients[i].amount, None, d.ingredients[i].unit)),
           seq(|d.categories|, i requires 0 <= i < |d.categories| => Category(0, d.categories[i].name)),
           0, 0)
  }

  /** The body shows the recipe, field by field: its id, its texts, and each line and category by name. */
  ghost predicate BodyShows(d: RecipeDTO, r: Recipe)
  {
    && d.id == r.id && d.name == r.name && d.instructions == r.instructions && d.imageURL == r.imageURL
    && d.source == r.source && d.status == r.status
    && |d.ingredients| == |r.lines|
    && (forall i | 0 <= i < |r.lines| ::
          && d.ingredients[i].name == r.lines[i].ingredientName
          && d.ingredients[i].amount == r.lines[i].amount
          && d.ingredients[i].unit == r.lines[i].unitName)
    && |d.categories| == |r.categories|
    && forall i | 0 <= i < |r.categories| ::
         d.categories[i].id == r.categories[i].id && d.categories[i].name == r.categories[i].name
  }

  /** The recipe asks for what the body says, by name: none of its lines and categories carries an id. */
  ghost predicate BodyAsksFor(d: RecipeDTO, r: Recipe)
  {
    && r.name == d.name && r.instructions == d.instructions && r.imageURL == d.imageURL
    && r.source == d.source && r.status == d.status
    && |r.lines| == |d.ingredients|
    && (forall i | 0 <= i < |r.lines| ::
          && r.lines[i].ingredientID == 0 && r.lines[i].unitID == None
          && r.lines[i].ingredientName == d.ingredients[i].name
          && r.lines[i].amount == d.ingredients[i].amount
          && r.lines[i].unitName == d.ingredients[i].unit)
    && |r.categories| == |d.categories|
    && forall i | 0 <= i < |r.categories| :: r.categories[i].id == 0 && r.categories[i].name == d.categories[i].name
  }

  lemma BodiesMean(d: RecipeDTO, r: Recipe)
    ensures BodyShows(ToDTO(r), r) && BodyAsksFor(d, FromDTO(d))
  {}

  method ToRecipeDTO(r: Recipe) returns (d: RecipeDTO)
    ensures d == ToDTO(r) && BodyShows(d, r)
  {
    BodiesMean(ToDTO(r), r);
    d := RecipeDTO(r.id, r.name, r.instructions, r.imageURL, r.source, r.status, [], []);
    for i := 0 to |r.lines|
      invariant d == ToDTO(r.(lines := r.lines[..i], categories := []))
    {
      var ri := r.lines[i];
      d := d.(ingredients := d.ingredients + [IngredientDTO(ri.ingredientName, ri.amount, ri.unitName)]);
    }
    for i := 0 to |r.categories|
      invariant d == ToDTO(r.(categories := r.categories[..i]))
    {
      d := d.(categories := d.categories + [CategoryDTO(r.categories[i].id, r.categories[i].name)]);
    }
  }

  method DtoToRecipe(d: RecipeDTO) returns (r: Recipe)
    ensures r == FromDTO(d) && BodyAsksFor(d, r)
  {
    BodiesMean(d, FromDTO(d));
    r := Recipe(0, d.name, d.instructions, d.imageURL, d.source, d.status, [], [], 0, 0);
    for i := 0 to |d.categories|
      invariant r == FromDTO(d.(categories := d.categories[..i], ingredients := []))
    {
      r := r.(categories := r.categories + [Category(0, d.categories[i].name)]);
    }
    for i := 0 to |d.ingredients|
      invariant r == FromDTO(d.(ingredients := d.ingredients[..i]))
    {
      var ing := d.ingredients[i];
      r := r.(lines := r.lines + [Line(0, ing.name, ing.amount, None, ing.unit)]);
    }
  }

  datatype HttpStatus = OK | Created | BadRequest | Missing | Conflict | InternalError

  /** `handleUpdateRecipe`: name and status are checked, and the path's id wins over the body's. */
  method HandleUpdate(repo: Repo.Repository, id: int, dto: RecipeDTO, now: int, faults: Repo.Faults)
    returns (status: HttpStatus, body: Option<RecipeDTO>)
    requires Valid(repo.tables)
    modifies repo
    ensures Valid(repo.tables)
    ensures status == BadRequest <==> dto.name == "" || (dto.status != "published" && dto.status != "needs_review")
    ensures status == OK ==>
              var written := W.Update(old(repo.tables), FromDTO(dto).(id := id), now);
              written.Ok? && repo.tables == written.value.0 && body == Some(ToDTO(written.value.1))
    ensures status == OK ==>
              && id in old(repo.tables).recipes && body.Some? && body.value.id == id
              && var was := old(repo.tables).recipes[id];
                 repo.tables.recipes == old(repo.tables).recipes[id :=
                   RecipeRow(dto.name, dto.instructions, dto.imageURL, was.source, dto.status, was.createdAt, now)]
    ensures status == Missing ==> id !in repo.tables.recipes
    ensures status != BadRequest && (forall k :: !faults(k)) ==>
              && (status == Missing <==> id !in old(repo.tables).recipes)
              && (status == OK <==> id in old(repo.tables).recipes && |dto.ingredients| <= 0x1_0000_0000)
    ensures status == InternalError && Repo.Reliable(faults) ==>
              W.Update(repo.tables, FromDTO(dto).(id := id), now) == Err(W.Failed)
    ensures status != OK ==> repo.tables == old(repo.tables) && body == None
    ensures status != Created && status != Conflict
  {
    hide Valid, W.Update, FromDTO, ToDTO;
    if dto.name == "" {
      return BadRequest, None;
    }
    if !LegalStatus(dto.status) {
      return BadRequest, None;
    }
    PutOutcome(repo.tables, dto, id, now);
    var value := DtoToRecipe(dto);
    var recipe := new Repo.RecipeObject(value);
    recipe.id := id;
    assert recipe.Value() == FromDTO(dto).(id := id);
    var err := repo.Update(recipe, now, faults);
    if err == Some(W.NotFound) {
      W.UpdateOutcome(repo.tables, recipe.Value(), now);
      return Missing, None;
    }
    if err.Some? {
      assert err.value.Failed?;
      return InternalError, None;
    }
    PutWrites(old(repo.tables), dto, id, now);
    var dtoOut := ToRecipeDTO(recipe.Value());
    return OK, Some(dtoOut);
  }

  /** The row an update by a body leaves, and what the body it echoes has as its id. */
  lemma PutWrites(t: Tables, dto: RecipeDTO, id: int, now: int)
    requires Valid(t) && W.Update(t, FromDTO(dto).(id := id), now).Ok?
    ensures id in t.recipes
    ensures var (t', r') := W.Update(t, FromDTO(dto).(id := id), now).value;
            && r'.id == id
            && t'.recipes == t.recipes[id := RecipeRow(dto.name, dto.instructions, dto.imageURL, t.recipes[id].source,
                                                       dto.status, t.recipes[id].createdAt, now)]
  {
    hide W.LinesAre, W.LinksAre, W.OtherLinesUntouched, W.OtherLinksUntouched;
    W.UpdateOutcome(t, FromDTO(dto).(id := id), now);
    W.UpdateMeaning(t, FromDTO(dto).(id := id), now);
    BodiesMean(dto, FromDTO(dto));
  }

  lemma PutOutcome(t: Tables, dto: RecipeDTO, id: int, now: int)
    requires Valid(t) && LegalStatus(dto.status)
    ensures W.Update(t, FromDTO(dto).(id := id), now) == Err(W.NotFound) <==> id !in t.recipes
    ensures W.Update(t, FromDTO(dto).(id := id), now).Ok? <==>
              id in t.recipes && |dto.ingredients| <= W.MAX_LINES
  {
    hide W.Update, W.Resolve;
    var r := FromDTO(dto).(id := id);
    assert W.CarriedIDsExist(W.Resolve(t, r).0, r);
    W.UpdateOutcome(t, r, now);
  }

  lemma PostWrites(t: Tables, dto: RecipeDTO, now: int)
    requires Valid(t) && W.Create(t, FromDTO(dto), now).Ok?
    ensures var (t', r') := W.Create(t, FromDTO(dto), now).value;
            && r'.id !in t.recipes
            && t'.recipes == t.recipes[r'.id := RecipeRow(dto.name, dto.instructions, dto.imageURL, dto.source,
                                                          dto.status, now, now)]
  {
    hide W.Create, W.LinesAre, W.LinksAre, W.OtherLinesUntouched, W.OtherLinksUntouched;
    W.CreateMeaning(t, FromDTO(dto), now);
    BodiesMean(dto, FromDTO(dto));
  }

  /** A recipe posted without a status counts as published. */
  function Defaulted(d: RecipeDTO): RecipeDTO
  {
    if d.status == "" then d.(status := PUBLISHED) else d
  }

  /** A body carries no ids that could be missing, so only its source and its length decide. */
  lemma PostOutcome(t: Tables, dto: RecipeDTO, now: int)
    requires Valid(t) && LegalStatus(dto.status)
    ensures W.Create(t, FromDTO(dto), now) == Err(W.DuplicateSource) <==> SourceStored(t, dto.source)
    ensures W.Create(t, FromDTO(dto), now).Ok? <==>
              !SourceStored(t, dto.source) && |dto.ingredients| <= W.MAX_LINES
  {
    hide W.Create, W.Resolve;
    assert W.CarriedIDsExist(W.Resolve(t, FromDTO(dto)).0, FromDTO(dto));
    W.CreateOutcome(t, FromDTO(dto), now);
  }

  /** `handleCreateRecipe`: a name and a source are required, a missing status is filled in. */
  method HandleCreate(repo: Repo.Repository, dto: RecipeDTO, now: int, faults: Repo.Faults)
    returns (status: HttpStatus, body: Option<RecipeDTO>)
    requires Valid(repo.tables)
    modifies repo
    ensures Valid(repo.tables)
    ensures status == BadRequest <==>
              || dto.name == "" || dto.source == ""
              || (dto.status != "" && dto.status != "published" && dto.status != "needs_review")
    ensures status == Created ==>
              var written := W.Create(old(repo.tables), FromDTO(Defaulted(dto)), now);
              written.Ok? && repo.tables == written.value.0 && body == Some(ToDTO(written.value.1))
    ensures status == Created ==>
              && body.Some? && body.value.id !in old(repo.tables).recipes
              && var status' := if dto.status == "" then "published" else dto.status;
                 repo.tables.recipes == old(repo.tables).recipes[body.value.id :=
                   RecipeRow(dto.name, dto.instructions, dto.imageURL, dto.source, status', now, now)]
    ensures status == Conflict ==> SourceStored(old(repo.tables), dto.source)
    ensures status != BadRequest && (forall k :: !faults(k)) ==>
              && (status == Conflict <==> SourceStored(old(repo.tables), dto.source))
              && (status == Created <==>
                    !SourceStored(old(repo.tables), dto.source) && |dto.ingredients| <= 0x1_0000_0000)
    ensures status != Created ==> repo.tables == old(repo.tables) && body == None
    ensures status != OK && status != Missing
  {
    hide Valid, W.Create, FromDTO, ToDTO, SourceStored;
    if dto.name == "" || dto.source == "" {
      return BadRequest, None;
    }
    var filled := dto;
    if dto.status == "" {
      filled := dto.(status := PUBLISHED);
    }
    if !LegalStatus(filled.status) {
      return BadRequest, None;
    }
    PostOutcome(repo.tables, filled, now);
    var value := DtoToRecipe(filled);
    var recipe := new Repo.RecipeObject(value);
    var err := repo.Create(recipe, now, faults);
    if err == Some(W.DuplicateSource) {
      return Conflict, None;
    }
    if err.Some? {
      return InternalError, None;
    }
    PostWrites(old(repo.tables), filled, now);
    var dtoOut := ToRecipeDTO(recipe.Value());
    return Created, Some(dtoOut);
  }

  // ---------------------------------------------------------------- what a read hands out is known

  /** A line as the tables have it: its ids exist and carry its names. */
  ghost predicate KnownLine(t: Tables, line: Line)
  {
    && line.ingredientID in t.ingredients.rows && t.ingredients.rows[line.ingredientID] == line.ingredientName
    && (if line.unitID.Some?
        then line.unitID.value in t.units.rows && t.units.rows[line.unitID.value] == line.unitName
        else line.unitName == "")
  }

  lemma ReadLinesKnown(t: Tables, id: int)
    requires ValidLines(t)
    ensures forall i | 0 <= i < |R.ReadLines(t, id)| :: KnownLine(t, R.ReadLines(t, id)[i])
    ensures |R.ReadLines(t, id)| == |R.LineKeys(t, id)|
  {
    PairOrder();
    var keys := Sort(R.LineKeys(t, id), PairLess);
    forall i | 0 <= i < |keys|
      ensures keys[i].1 in t.lines && LineRefs(t, t.lines[keys[i].1])
    {
      assert keys[i] in Elements(keys);
    }
  }

  lemma ReadCategoriesKnown(t: Tables, before: R.Collation, id: int)
    requires Valid(t) && StrictTotal(before)
    ensures forall i | 0 <= i < |R.ReadCategories(t, before, id)| ::
              var c := R.ReadCategories(t, before, id)[i];
              c.id in t.categories.rows && t.categories.rows[c.id] == c.name && (id, c.id) in t.links
    ensures forall c | (id, c) in t.links ::
              exists i :: 0 <= i < |R.ReadCategories(t, before, id)| && R.ReadCategories(t, before, id)[i].id == c
  {
    var names := Sort(R.CategoryNames(t, id), before);
    R.NamesAreNamed(t, id, names);
    var cs := R.ReadCategories(t, before, id);
    forall i | 0 <= i < |cs|
      ensures cs[i].id in t.categories.rows && t.categories.rows[cs[i].id] == cs[i].name && (id, cs[i].id) in t.links
    {
      var n := names[i];
      assert n in Elements(names);
      var l :| l in t.links && l.0 == id && t.categories.rows[l.1] == n;
      assert l.1 == R.IDOf(t.categories, n);
      assert l == (id, cs[i].id);
    }
    forall c | (id, c) in t.links
      ensures exists i :: 0 <= i < |cs| && cs[i].id == c
    {
      var l := (id, c);
      assert l in t.links && l.0 == id;
      var n := t.categories.rows[l.1];
      assert n in R.CategoryNames(t, id);
      assert n in Elements(names);
      var i :| 0 <= i < |names| && names[i] == n;
      assert cs[i].id == c;
    }
  }

  // ---------------------------------------------------------------- resolving what is known

  /** given leads back to the known line: by its ids, or by its names where they can be resolved. */
  ghost predicate LeadsTo(given: Line, line: Line)
  {
    && given.amount == line.amount && given.ingredientName == line.ingredientName && given.unitName == line.unitName
    && (given.ingredientID == line.ingredientID || given.ingredientID == 0)
    && (given.unitID == line.unitID || (given.unitID.None? && line.unitName != ""))
  }

  lemma NamedBy(l: Lookup, id: int)
    requires ValidLookup(l) && id in l.rows
    ensures Named(l, l.rows[id]) && FindOrCreate(l, l.rows[id]) == (l, id)
  {}

  lemma ResolveKnownLine(t: Tables, given: Line, line: Line)
    requires ValidLookup(t.ingredients) && ValidLookup(t.units)
    requires KnownLine(t, line) && LeadsTo(given, line)
    ensures W.ResolveIngredient(t.ingredients, given) == (t.ingredients, given.(ingredientID := line.ingredientID))
    ensures W.ResolveUnit(t.units, given.(ingredientID := line.ingredientID)) == (t.units, line)
  {
    NamedBy(t.ingredients, line.ingredientID);
    if line.unitID.Some? {
      NamedBy(t.units, line.unitID.value);
    }
  }

  lemma {:induction false} ResolveKnownLines(t: Tables, given: seq<Line>, lines: seq<Line>)
    requires ValidLookup(t.ingredients) && ValidLookup(t.units) && |given| == |lines|
    requires forall i | 0 <= i < |lines| :: KnownLine(t, lines[i]) && LeadsTo(given[i], lines[i])
    ensures W.ResolveLines(t.ingredients, t.units, given) == W.ResolvedLines(t.ingredients, t.units, lines)
  {
    if given != [] {
      ResolveKnownLines(t, given[..|given| - 1], lines[..|lines| - 1]);
      ResolveKnownLine(t, given[|given| - 1], lines[|lines| - 1]);
      assert lines == lines[..|lines| - 1] + [lines[|lines| - 1]];
    }
  }

  lemma {:induction false} ResolveKnownCategories(l: Lookup, given: seq<Category>, cs: seq<Category>)
    requires ValidLookup(l) && |given| == |cs|
    requires forall i | 0 <= i < |cs| ::
               && cs[i].id in l.rows && l.rows[cs[i].id] == cs[i].name
               && given[i].name == cs[i].name && (given[i].id == cs[i].id || given[i].id == 0)
    ensures W.ResolveCategories(l, given) == (l, cs)
  {
    if given != [] {
      ResolveKnownCategories(l, given[..|given| - 1], cs[..|cs| - 1]);
      NamedBy(l, cs[|cs| - 1].id);
      assert cs == cs[..|cs| - 1] + [cs[|cs| - 1]];
    }
  }

  // ---------------------------------------------------------------- reading what was written

  ghost function RowIDs(first: int, n: nat): (ids: seq<int>)
    ensures |ids| == n && forall i | 0 <= i < n :: ids[i] == first + i
  {
    seq(n, i requires 0 <= i < n => first + i)
  }

  /** The i-th of ids is the row of the i-th line, at position i. */
  ghost predicate WrittenAs(t: Tables, ids: seq<int>, id: int, lines: seq<Line>)
  {
    && |ids| == |lines|
    && forall i | 0 <= i < |ids| ::
         ids[i] in t.lines && t.lines[ids[i]] == W.RowOf(id, lines[i], i) && t.lines[ids[i]].position == i
  }

  lemma WrittenRows(t: Tables, first: int, id: int, lines: seq<Line>)
    requires W.LinesAre(t, first, id, lines) && |lines| <= 0x8000_0000
    ensures WrittenAs(t, RowIDs(first, |lines|), id, lines)
  {
    var ids := RowIDs(first, |lines|);
    forall i | 0 <= i < |ids|
      ensures ids[i] in t.lines && t.lines[ids[i]] == W.RowOf(id, lines[i], i) && t.lines[ids[i]].position == i
    {
      W.PositionsCountUp(t, first, id, lines, i);
    }
  }

  lemma WrittenMembers(t: Tables, first: int, id: int, lines: seq<Line>, k: int)
    requires W.LinesAre(t, first, id, lines)
    ensures k in RowIDs(first, |lines|) <==> k in t.lines && t.lines[k].recipeID == id
  {
    if first <= k < first + |lines| {
      assert RowIDs(first, |lines|)[k - first] == k;
    }
  }

  lemma WrittenOrder(t: Tables, first: int, id: int, lines: seq<Line>)
    requires W.LinesAre(t, first, id, lines) && WrittenAs(t, RowIDs(first, |lines|), id, lines)
    ensures R.AnswersLines(t, id, RowIDs(first, |lines|))
  {
    hide W.LinesAre, KnownLine;
    var ids := RowIDs(first, |lines|);
    forall k
      ensures k in ids <==> k in t.lines && t.lines[k].recipeID == id
    {
      WrittenMembers(t, first, id, lines, k);
    }
    forall i, j | 0 <= i < j < |ids|
      ensures PairLess((t.lines[ids[i]].position, ids[i]), (t.lines[ids[j]].position, ids[j]))
    {
      assert t.lines[ids[i]].position == i && t.lines[ids[j]].position == j;
    }
  }

  /** Known lines join back to themselves. */
  lemma WrittenJoin(t: Tables, ids: seq<int>, id: int, lines: seq<Line>, keys: seq<(int, int)>)
    requires ValidLines(t) && WrittenAs(t, ids, id, lines)
    requires forall i | 0 <= i < |lines| :: KnownLine(t, lines[i])
    requires |keys| == |ids| && forall i | 0 <= i < |ids| :: keys[i].1 == ids[i]
    ensures forall i | 0 <= i < |keys| :: keys[i].1 in t.lines && LineRefs(t, t.lines[keys[i].1])
    ensures R.LinesAt(t, keys) == lines
  {
    forall i | 0 <= i < |keys|
      ensures keys[i].1 in t.lines && LineRefs(t, t.lines[keys[i].1]) && R.JoinedLine(t, t.lines[keys[i].1]) == lines[i]
    {
      assert KnownLine(t, lines[i]) && ids[i] in t.lines;
    }
  }

  /** Lines written in slice order are read back in that order. */
  lemma WrittenLinesRead(t: Tables, first: int, id: int, lines: seq<Line>)
    requires ValidLines(t) && W.LinesAre(t, first, id, lines) && |lines| <= 0x8000_0000
    requires forall i | 0 <= i < |lines| :: KnownLine(t, lines[i])
    ensures R.ReadLines(t, id) == lines
  {
    var ids := RowIDs(first, |lines|);
    WrittenRows(t, first, id, lines);
    WrittenOrder(t, first, id, lines);
    R.OneLineOrder(t, id, ids);
    WrittenJoin(t, ids, id, lines, R.KeysOf(t, ids));
  }

  /** A recipe whose row, lines and links are the same, over lookup tables that only grew, reads the
      same. */
  lemma SameReads(t: Tables, t': Tables, before: R.Collation, id: int)
    requires Valid(t) && Valid(t') && StrictTotal(before)
    requires id in t.recipes && id in t'.recipes && t'.recipes[id] == t.recipes[id]
    requires LookupsGrow(t, t')
    requires forall k :: (k in t.lines && t.lines[k].recipeID == id) <==> (k in t'.lines && t'.lines[k].recipeID == id)
    requires forall k | k in t.lines && t.lines[k].recipeID == id :: t'.lines[k] == t.lines[k]
    requires forall c :: (id, c) in t.links <==> (id, c) in t'.links
    ensures R.Read(t', before, id) == R.Read(t, before, id)
  {
    SameLines(t, t', id);
    SameCategories(t, t', before, id);
  }

  lemma SameLines(t: Tables, t': Tables, id: int)
    requires ValidLines(t) && ValidLines(t')
    requires Extends(t.units, t'.units) && Extends(t.ingredients, t'.ingredients)
    requires forall k :: (k in t.lines && t.lines[k].recipeID == id) <==> (k in t'.lines && t'.lines[k].recipeID == id)
    requires forall k | k in t.lines && t.lines[k].recipeID == id :: t'.lines[k] == t.lines[k]
    ensures R.ReadLines(t', id) == R.ReadLines(t, id)
  {
    PairOrder();
    assert R.LineKeys(t', id) == R.LineKeys(t, id);
    var keys := Sort(R.LineKeys(t, id), PairLess);
    forall i | 0 <= i < |keys|
      ensures && keys[i].1 in t.lines && keys[i].1 in t'.lines
              && LineRefs(t, t.lines[keys[i].1]) && LineRefs(t', t'.lines[keys[i].1])
              && R.JoinedLine(t', t'.lines[keys[i].1]) == R.JoinedLine(t, t.lines[keys[i].1])
    {
      assert keys[i] in Elements(keys);
      var k := keys[i].1;
      assert k in t.lines && t.lines[k].recipeID == id;
      assert LineRefs(t, t.lines[k]) && LineRefs(t', t'.lines[k]);
      var ingredient := t.lines[k].ingredientID;
      assert ingredient in t.ingredients.rows;
      if t.lines[k].unitID.Some? {
        var unit := t.lines[k].unitID.value;
        assert unit in t.units.rows;
      }
    }
    assert R.LinesAt(t', keys) == R.LinesAt(t, keys);
  }

  lemma SameCategories(t: Tables, t': Tables, before: R.Collation, id: int)
    requires Valid(t) && Valid(t') && StrictTotal(before) && Extends(t.categories, t'.categories)
    requires forall c :: (id, c) in t.links <==> (id, c) in t'.links
    ensures R.ReadCategories(t', before, id) == R.ReadCategories(t, before, id)
  {
    forall l | l in t.links && l.0 == id
      ensures l in t'.links && t'.categories.rows[l.1] == t.categories.rows[l.1]
    {
      var c := l.1;
      assert (id, c) in t.links && c in t.categories.rows;
    }
    forall l | l in t'.links && l.0 == id
      ensures l in t.links
    {
      var c := l.1;
      assert (id, c) in t'.links;
    }
    assert R.CategoryNames(t', id) == R.CategoryNames(t, id);
    var names := Sort(R.CategoryNames(t, id), before);
    R.NamesAreNamed(t, id, names);
    R.NamesAreNamed(t', id, names);
    forall i | 0 <= i < |names|
      ensures R.IDOf(t'.categories, names[i]) == R.IDOf(t.categories, names[i])
    {
      var k := R.IDOf(t.categories, names[i]);
      assert k in t.categories.rows && k in t'.categories.rows && t'.categories.rows[k] == names[i];
    }
  }

  /** No write changes what a read of another recipe returns. */
  lemma OtherReadsUnchanged(t: Tables, t': Tables, before: R.Collation, written: int, id: int)
    requires Valid(t) && Valid(t') && StrictTotal(before) && id != written
    requires id in t.recipes && id in t'.recipes && t'.recipes[id] == t.recipes[id]
    requires LookupsGrow(t, t')
    requires W.OtherLinesUntouched(t, t', written) && W.OtherLinksUntouched(t, t', written)
    ensures R.Read(t', before, id) == R.Read(t, before, id)
  {
    assert forall c: int :: (id, c).0 != written;
    SameReads(t, t', before, id);
  }

  /** A `Create`, whatever recipe it stores, changes no read of any recipe there was. */
  lemma CreateLeavesReads(t: Tables, before: R.Collation, r: Recipe, now: int, id: int)
    requires Valid(t) && StrictTotal(before) && W.Create(t, r, now).Ok? && id in t.recipes
    ensures var t' := W.Create(t, r, now).value.0;
            Valid(t') && id in t'.recipes && R.Read(t', before, id) == R.Read(t, before, id)
  {
    W.CreateMeaning(t, r, now);
    var (t', r') := W.Create(t, r, now).value;
    OtherReadsUnchanged(t, t', before, r'.id, id);
  }

  /** An `Update`, whatever it writes, changes no read of any other recipe. */
  lemma UpdateLeavesOtherReads(t: Tables, before: R.Collation, r: Recipe, now: int, id: int)
    requires Valid(t) && StrictTotal(before) && W.Update(t, r, now).Ok? && id in t.recipes && id != r.id
    ensures var t' := W.Update(t, r, now).value.0;
            Valid(t') && id in t'.recipes && R.Read(t', before, id) == R.Read(t, before, id)
  {
    W.UpdateMeaning(t, r, now);
    OtherReadsUnchanged(t, W.Update(t, r, now).value.0, before, r.id, id);
  }

  /** A `Delete` changes no read of any other recipe, and leaves none of the deleted one. */
  lemma DeleteLeavesOtherReads(t: Tables, t': Tables, before: R.Collation, deleted: int, id: int)
    requires Valid(t) && Valid(t') && StrictTotal(before) && W.Deleted(t, t', deleted) && id in t.recipes
    ensures id in t'.recipes <==> id != deleted
    ensures id != deleted ==> R.Read(t', before, id) == R.Read(t, before, id)
  {
    if id != deleted {
      OtherReadsUnchanged(t, t', before, deleted, id);
    }
  }

  // ---------------------------------------------------------------- writing back what was read

  /** given is the recipe as read, each line and category with its ids or by name only. */
  ghost predicate LeadsBack(given: Recipe, r: Recipe)
  {
    && given.id == r.id && given.name == r.name && given.instructions == r.instructions
    && given.imageURL == r.imageURL && given.status == r.status
    && |given.lines| == |r.lines| && (forall i | 0 <= i < |r.lines| :: LeadsTo(given.lines[i], r.lines[i]))
    && |given.categories| == |r.categories|
    && forall i | 0 <= i < |r.categories| ::
         given.categories[i].name == r.categories[i].name
         && (given.categories[i].id == r.categories[i].id || given.categories[i].id == 0)
  }

  ghost predicate KnownLines(t: Tables, lines: seq<Line>)
  {
    forall i | 0 <= i < |lines| :: KnownLine(t, lines[i])
  }

  /** The recipe as read, with these lines in place of its own. */
  ghost function ReadWith(t: Tables, before: R.Collation, id: int, lines: seq<Line>): Recipe
    requires Valid(t) && StrictTotal(before) && id in t.recipes
  {
    R.Read(t, before, id).(lines := lines)
  }

  /** Resolving a recipe that leads back to known lines and to its own categories finds every row it
      names and creates none. */
  lemma ResolvesToRead(t: Tables, t1: Tables, before: R.Collation, id: int, given: Recipe, lines: seq<Line>)
    requires Valid(t) && StrictTotal(before) && id in t.recipes && KnownLines(t, lines)
    requires LeadsBack(given, ReadWith(t, before, id, lines))
    requires t1 == t.(recipes := t1.recipes)
    ensures W.Resolve(t1, given) == (t1, given.(lines := lines, categories := R.ReadCategories(t, before, id)))
    ensures W.CarriedIDsExist(t, given)
  {
    ReadCategoriesKnown(t, before, id);
    ResolveKnownLines(t, given.lines, lines);
    ResolveKnownCategories(t.categories, given.categories, R.ReadCategories(t, before, id));
    KnownIDsExist(t, given, lines, R.ReadCategories(t, before, id));
  }

  /** Where every line and category given leads to a known one, every id given exists. */
  lemma KnownIDsExist(t: Tables, given: Recipe, lines: seq<Line>, cs: seq<Category>)
    requires KnownLines(t, lines) && |given.lines| == |lines| && |given.categories| == |cs|
    requires forall i | 0 <= i < |lines| :: LeadsTo(given.lines[i], lines[i])
    requires forall i | 0 <= i < |cs| ::
               && cs[i].id in t.categories.rows
               && (given.categories[i].id == cs[i].id || given.categories[i].id == 0)
    ensures W.CarriedIDsExist(t, given)
  {
    forall i | 0 <= i < |given.lines|
      ensures given.lines[i].ingredientID != 0 ==> given.lines[i].ingredientID in t.ingredients.rows
      ensures given.lines[i].unitID.Some? ==> given.lines[i].unitID.value in t.units.rows
    {
      assert KnownLine(t, lines[i]) && LeadsTo(given.lines[i], lines[i]);
    }
  }

  /** t' is t with the lines of one recipe written anew and its update time set. */
  ghost predicate UpdatedInPlace(t: Tables, t': Tables, before: R.Collation, id: int, lines: seq<Line>, now: int)
    requires Valid(t) && StrictTotal(before) && id in t.recipes
  {
    && Valid(t')
    && t'.units == t.units && t'.categories == t.categories && t'.ingredients == t.ingredients
    && t'.recipes == t.recipes[id := t.recipes[id].(updatedAt := now)]
    && W.OtherLinesUntouched(t, t', id) && W.OtherLinksUntouched(t, t', id)
    && W.LinesAre(t', t.nextLine, id, lines)
    && W.LinksAre(t', id, R.ReadCategories(t, before, id))
  }

  /** What the update of such a recipe leaves in the tables. */
  lemma UpdateInPlace(t: Tables, before: R.Collation, id: int, given: Recipe, lines: seq<Line>, now: int)
    requires Valid(t) && StrictTotal(before) && id in t.recipes && KnownLines(t, lines) && |lines| <= 0x8000_0000
    requires LeadsBack(given, ReadWith(t, before, id, lines))
    ensures W.Update(t, given, now).Ok?
    ensures UpdatedInPlace(t, W.Update(t, given, now).value.0, before, id, lines, now)
  {
    var r := R.Read(t, before, id);
    var (t1, row) := UpdateRecipeRow(t, id, r.name, r.instructions, r.imageURL, r.status, now).value;
    var staged := given.(createdAt := row.createdAt, updatedAt := row.updatedAt);
    ResolvesToRead(t, t, before, id, given, lines);
    ResolvesToRead(t, t1, before, id, staged, lines);
    W.CarriedStillExist(t, given);
    W.UpdateOutcome(t, given, now);
    W.UpdateMeaning(t, given, now);
    UpdateRecipeKeepsValid(t, id, r.name, r.instructions, r.imageURL, r.status, now);
    LookupsKept(t, given, now, t1, staged, staged.(lines := lines, categories := R.ReadCategories(t, before, id)));
  }

  /** The recipe then reads back with those lines. */
  lemma InPlaceReadsBack(t: Tables, t': Tables, before: R.Collation, id: int, lines: seq<Line>, now: int)
    requires Valid(t) && StrictTotal(before) && id in t.recipes && KnownLines(t, lines) && |lines| <= 0x8000_0000
    requires UpdatedInPlace(t, t', before, id, lines, now)
    ensures R.Read(t', before, id) == ReadWith(t, before, id, lines).(updatedAt := now)
  {
    hide Valid, R.ReadLines, R.ReadCategories, W.LinesAre;
    forall i | 0 <= i < |lines|
      ensures KnownLine(t', lines[i])
    {
      assert KnownLine(t, lines[i]);
    }
    ItsParts(t');
    WrittenLinesRead(t', t.nextLine, id, lines);
    SameLinkedCategories(t, t', before, id);
  }

  lemma ItsParts(t: Tables)
    requires Valid(t)
    ensures ValidLines(t) && ValidLinks(t)
  {}

  lemma SameLinkedCategories(t: Tables, t': Tables, before: R.Collation, id: int)
    requires Valid(t) && Valid(t') && StrictTotal(before) && t'.categories == t.categories
    requires W.LinksAre(t', id, R.ReadCategories(t, before, id))
    ensures R.ReadCategories(t', before, id) == R.ReadCategories(t, before, id)
  {
    ReadCategoriesKnown(t, before, id);
    SameCategories(t, t', before, id);
  }

  /** And every other recipe reads as before. */
  lemma InPlaceLeavesOthers(t: Tables, t': Tables, before: R.Collation, id: int, lines: seq<Line>, now: int, other: int)
    requires Valid(t) && StrictTotal(before) && id in t.recipes && other in t.recipes && other != id
    requires UpdatedInPlace(t, t', before, id, lines, now)
    ensures R.Read(t', before, other) == R.Read(t, before, other)
  {
    hide Valid, R.Read;
    OtherReadsUnchanged(t, t', before, id, other);
  }

  /** Where resolving creates no row, the update leaves the lookup tables as they were. */
  lemma LookupsKept(t: Tables, given: Recipe, now: int, t1: Tables, staged: Recipe, resolved: Recipe)
    requires W.Update(t, given, now).Ok? && W.Update(t, given, now) == W.ResolveAndWrite(t1, staged)
    requires W.Resolve(t1, staged) == (t1, resolved) && Valid(t1)
    ensures var (t', r') := W.Update(t, given, now).value;
            && r' == resolved
            && t'.units == t1.units && t'.categories == t1.categories && t'.ingredients == t1.ingredients
  {
    W.WrittenMeaning(t1, resolved);
  }

  /** Writing such a recipe succeeds, leaves a read of it with exactly those lines, changes nothing
      else a read can see except the update time, changes no other recipe and creates no lookup row. */
  lemma WriteBack(t: Tables, before: R.Collation, id: int, given: Recipe, lines: seq<Line>, now: int)
    requires Valid(t) && StrictTotal(before) && id in t.recipes && KnownLines(t, lines) && |lines| <= 0x8000_0000
    requires LeadsBack(given, ReadWith(t, before, id, lines))
    ensures W.Update(t, given, now).Ok?
    ensures var t' := W.Update(t, given, now).value.0;
            && Valid(t') && t'.recipes.Keys == t.recipes.Keys
            && t'.units == t.units && t'.categories == t.categories && t'.ingredients == t.ingredients
            && R.Read(t', before, id) == ReadWith(t, before, id, lines).(updatedAt := now)
            && forall other | other in t.recipes && other != id :: R.Read(t', before, other) == R.Read(t, before, other)
  {
    hide R.Read, ReadWith, LeadsBack, KnownLines, W.Update;
    UpdateInPlace(t, before, id, given, lines, now);
    var t' := W.Update(t, given, now).value.0;
    InPlaceReadsBack(t, t', before, id, lines, now);
    forall other | other in t.recipes && other != id
      ensures R.Read(t', before, other) == R.Read(t, before, other)
    {
      InPlaceLeavesOthers(t, t', before, id, lines, now, other);
    }
  }

  /** `GetByID`, then `Update` of the result: the ids are carried, and nothing a read can see changes
      except the update time. */
  lemma ReadThenUpdate(t: Tables, before: R.Collation, id: int, now: int)
    requires Valid(t) && StrictTotal(before) && id in t.recipes && |R.LineKeys(t, id)| <= 0x8000_0000
    ensures var written := W.Update(t, R.Read(t, before, id), now);
            && written.Ok? && Valid(written.value.0) && id in written.value.0.recipes
            && R.Read(written.value.0, before, id) == R.Read(t, before, id).(updatedAt := now)
            && written.value.0.units == t.units && written.value.0.categories == t.categories
            && written.value.0.ingredients == t.ingredients
  {
    ReadLinesKnown(t, id);
    WriteBack(t, before, id, R.Read(t, before, id), R.ReadLines(t, id), now);
  }

  /** What a names-only body can express of lines: a unit with an empty name is dropped. */
  ghost function Expressible(lines: seq<Line>): (r: seq<Line>)
    ensures |r| == |lines|
    ensures forall i | 0 <= i < |lines| ::
              r[i] == if lines[i].unitName == "" then lines[i].(unitID := None) else lines[i]
  {
    seq(|lines|, i requires 0 <= i < |lines| => if lines[i].unitName == "" then lines[i].(unitID := None) else lines[i])
  }

  /** Every unit a line of the recipe uses has a name. */
  ghost predicate UnitsHaveNames(t: Tables, before: R.Collation, id: int)
    requires Valid(t) && StrictTotal(before) && id in t.recipes
  {
    forall line <- R.Read(t, before, id).lines :: line.unitID.Some? ==> line.unitName != ""
  }

  /** An update with the body of a read goes through and creates no lookup row; the recipe reads as
      before exactly when none of its lines uses a unit with the empty name, which a names-only body
      cannot express. */
  lemma BodyWrittenBack(t: Tables, before: R.Collation, id: int, now: int)
    requires Valid(t) && StrictTotal(before) && id in t.recipes && |R.LineKeys(t, id)| <= 0x8000_0000
    ensures var body := FromDTO(ToDTO(R.Read(t, before, id))).(id := id);
            var written := W.Update(t, body, now);
            && written.Ok? && Valid(written.value.0) && written.value.0.recipes.Keys == t.recipes.Keys
            && written.value.0.units == t.units && written.value.0.categories == t.categories
            && written.value.0.ingredients == t.ingredients
            && (forall other | other in t.recipes && other != id ::
                  R.Read(written.value.0, before, other) == R.Read(t, before, other))
            && (R.Read(written.value.0, before, id) == R.Read(t, before, id).(updatedAt := now)
                <==> UnitsHaveNames(t, before, id))
  {
    var r := R.Read(t, before, id);
    BodyLeadsBack(t, before, id);
    WriteBack(t, before, id, FromDTO(ToDTO(r)).(id := id), Expressible(r.lines), now);
    ExpressibleSame(r.lines);
  }

  lemma BodyFields(t: Tables, before: R.Collation, id: int)
    requires Valid(t) && StrictTotal(before) && id in t.recipes
    ensures ToDTO(R.Read(t, before, id)).name == t.recipes[id].name
    ensures LegalStatus(ToDTO(R.Read(t, before, id)).status)
  {}

  /** The body a GET answers with is that of the recipe asked for, id included. */
  lemma GetShows(t: Tables, before: R.Collation, id: int)
    requires Valid(t) && StrictTotal(before) && id in t.recipes
    ensures ToDTO(R.Read(t, before, id)).id == id
    ensures BodyShows(ToDTO(R.Read(t, before, id)), R.Read(t, before, id))
  {
    BodiesMean(ToDTO(R.Read(t, before, id)), R.Read(t, before, id));
  }

  /** t and t' read the same but for the update time of one recipe, over the same lookup tables. */
  ghost predicate SameButUpdateTime(t: Tables, t': Tables, before: R.Collation, id: int, now: int)
    requires Valid(t) && Valid(t') && StrictTotal(before) && id in t.recipes
  {
    && t'.recipes.Keys == t.recipes.Keys
    && R.Read(t', before, id) == R.Read(t, before, id).(updatedAt := now)
  }

  /** A GET of a recipe - its row and the answers of its two child queries - and a PUT of the body it
      returned. The name decides whether the PUT is accepted at all; an accepted one creates no lookup row
      and changes no other recipe, and it changes nothing but the update time of this one exactly when
      none of its lines uses a unit with the empty name. A refused or failed one changes nothing. */
  method GetThenPut(repo: Repo.Repository, ghost before: R.Collation, id: int, row: RecipeRow,
                    lineRows: seq<R.LineColumns>, categoryRows: seq<R.CategoryColumns>, now: int, faults: Repo.Faults)
    returns (status: HttpStatus, body: Option<RecipeDTO>)
    requires Valid(repo.tables) && StrictTotal(before)
    requires id in repo.tables.recipes && row == repo.tables.recipes[id]
    requires R.ChildAnswers(repo.tables, before, id, lineRows, categoryRows)
    requires |R.LineKeys(repo.tables, id)| <= 0x8000_0000
    modifies repo
    ensures Valid(repo.tables)
    ensures status == BadRequest <==> row.name == ""
    ensures Repo.Reliable(faults) ==> (status == OK <==> row.name != "")
    ensures status == OK ==>
              && repo.tables.units == old(repo.tables.units) && repo.tables.categories == old(repo.tables.categories)
              && repo.tables.ingredients == old(repo.tables.ingredients)
              && repo.tables.recipes.Keys == old(repo.tables).recipes.Keys
              && (forall other | other in old(repo.tables).recipes && other != id ::
                    R.Read(repo.tables, before, other) == R.Read(old(repo.tables), before, other))
              && (SameButUpdateTime(old(repo.tables), repo.tables, before, id, now)
                  <==> UnitsHaveNames(old(repo.tables), before, id))
    ensures status != OK ==> repo.tables == old(repo.tables)
  {
    hide Valid, R.Read, R.ChildAnswers, ToDTO, FromDTO, W.Update, UnitsHaveNames, R.LineKeys;
    ghost var t := repo.tables;
    var recipe := R.Assemble(t, before, id, row, lineRows, categoryRows);
    var sent := ToRecipeDTO(recipe);
    BodyWrittenBack(t, before, id, now);
    BodyFields(t, before, id);
    status, body := HandleUpdate(repo, id, sent, now, faults);
  }

  /** The round trip really loses such a unit: here is a store with one. */
  lemma EmptyUnitIsLost(before: R.Collation, now: int) returns (t: Tables, id: int)
    requires StrictTotal(before)
    ensures Valid(t) && id in t.recipes && t.recipes[id].name != "" && !UnitsHaveNames(t, before, id)
    ensures var written := W.Update(t, FromDTO(ToDTO(R.Read(t, before, id))).(id := id), now);
            && written.Ok? && Valid(written.value.0) && id in written.value.0.recipes
            && R.Read(written.value.0, before, id) != R.Read(t, before, id).(updatedAt := now)
  {
    id := 1;
    var row := LineRow(1, 1, 1.0, Some(1), 0);
    t := Tables(Lookup(map[1 := ""], 2), Lookup(map[], 1), Lookup(map[1 := "Zucker"], 2),
                map[1 := RecipeRow("Kuchen", "", "", "post", PUBLISHED, 0, 0)], 2, map[1 := row], 2, {});
    PairOrder();
    assert R.LineKeys(t, id) == {(0, 1)} by {
      assert 1 in t.lines && t.lines[1] == row;
      assert (t.lines[1].position, 1) in R.LineKeys(t, id);
    }
    var keys := Sort(R.LineKeys(t, id), PairLess);
    assert |keys| == 1 && keys[0] in Elements(keys);
    assert R.LinesAt(t, keys)[0] == R.JoinedLine(t, row);
    var lines := R.Read(t, before, id).lines;
    assert lines[0].unitID == Some(1) && lines[0].unitName == "";
    assert lines[0] in lines;
    BodyWrittenBack(t, before, id, now);
  }

  lemma BodyLeadsBack(t: Tables, before: R.Collation, id: int)
    requires Valid(t) && StrictTotal(before) && id in t.recipes
    ensures var lines := Expressible(R.ReadLines(t, id));
            && KnownLines(t, lines) && |lines| == |R.LineKeys(t, id)|
            && LeadsBack(FromDTO(ToDTO(R.Read(t, before, id))).(id := id), ReadWith(t, before, id, lines))
  {
    ReadLinesKnown(t, id);
    ExpressibleKnown(t, R.ReadLines(t, id));
    BodyLeads(R.Read(t, before, id));
  }

  lemma ExpressibleKnown(t: Tables, lines: seq<Line>)
    requires KnownLines(t, lines)
    ensures KnownLines(t, Expressible(lines))
  {
    forall i | 0 <= i < |lines|
      ensures KnownLine(t, Expressible(lines)[i])
    {
      assert KnownLine(t, lines[i]);
    }
  }

  lemma BodyLeads(r: Recipe)
    ensures LeadsBack(FromDTO(ToDTO(r)).(id := r.id), r.(lines := Expressible(r.lines)))
  {}

  lemma ExpressibleSame(lines: seq<Line>)
    ensures Expressible(lines) == lines <==> forall line <- lines :: line.unitID.Some? ==> line.unitName != ""
  {
    if forall line <- lines :: line.unitID.Some? ==> line.unitName != "" {
      forall i | 0 <= i < |lines|
        ensures Expressible(lines)[i] == lines[i]
      {
        assert lines[i] in lines;
      }
    } else {
      var line :| line in lines && line.unitID.Some? && line.unitName == "";
      var i :| 0 <= i < |lines| && lines[i] == line;
      assert Expressible(lines)[i] != lines[i];
    }
  }
}
