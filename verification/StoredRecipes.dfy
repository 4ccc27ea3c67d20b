/** What it means that the tables hold a recipe, that later writes leave it alone, and what a read of it
    then returns. */
module StoredRecipes {
  import opened Wrappers
  import opened Domain
  import opened Tables
  import opened Orders
  import W = RecipeWrites
  import R = RecipeReads
  import opened RoundTrip
  import opened WriteEcho

  // ---------------------------------------------------------------- nothing lost

  /** Every recipe of t is in t' with its row, its lines and its links, and no more of them; the lookup
      tables only grew. */
  ghost predicate Kept(t: Tables, t': Tables)
  {
    && LookupsGrow(t, t')
    && (forall id <- t.recipes :: id in t'.recipes && t'.recipes[id] == t.recipes[id])
    && (forall k <- t.lines :: k in t'.lines && t'.lines[k] == t.lines[k])
    && (forall k <- t'.lines :: k in t.lines || t'.lines[k].recipeID !in t.recipes)
    && (forall l <- t.links :: l in t'.links)
    && (forall l <- t'.links :: l in t.links || l.0 !in t.recipes)
  }

  lemma KeptItself(t: Tables)
    ensures Kept(t, t)
  {}

  lemma KeptOn(a: Tables, b: Tables, c: Tables)
    requires Kept(a, b) && Kept(b, c)
    ensures Kept(a, c)
  {
    LookupsKeepGrowing(a, b, c);
    forall l | l in c.links
      ensures l in a.links || l.0 !in a.recipes
    {
      var id := l.0;
      assert id in a.recipes ==> id in b.recipes;
    }
  }

  lemma LookupsKeepGrowing(a: Tables, b: Tables, c: Tables)
    requires LookupsGrow(a, b) && LookupsGrow(b, c)
    ensures LookupsGrow(a, c)
  {
    W.ExtendsOn(a.units, b.units, c.units);
    W.ExtendsOn(a.categories, b.categories, c.categories);
    W.ExtendsOn(a.ingredients, b.ingredients, c.ingredients);
  }

  lemma CreateKeeps(t: Tables, r: Recipe, now: int)
    requires Valid(t) && W.Create(t, r, now).Ok?
    ensures Kept(t, W.Create(t, r, now).value.0)
  {
    hide W.Create, W.LinesAre, W.LinksAre;
    W.CreateMeaning(t, r, now);
    var (t', r') := W.Create(t, r, now).value;
    forall k | k in t.lines
      ensures t.lines[k].recipeID != r'.id
    {
      assert LineRefs(t, t.lines[k]);
    }
  }

  /** No read of a recipe that was there changes. */
  lemma KeptReads(t: Tables, t': Tables, before: R.Collation, id: int)
    requires Valid(t) && Valid(t') && StrictTotal(before) && Kept(t, t') && id in t.recipes
    ensures id in t'.recipes && R.Read(t', before, id) == R.Read(t, before, id)
  {
    SameReads(t, t', before, id);
  }

  // ---------------------------------------------------------------- a recipe in the tables

  predicate SameText(a: Line, b: Line)
  {
    a.ingredientName == b.ingredientName && a.amount == b.amount && a.unitName == b.unitName
  }

  /** The lines of a recipe are rows of their own, in the order given, and say what was given. */
  ghost predicate HoldsLines(t: Tables, id: int, first: int, lines: seq<Line>, given: seq<Line>)
  {
    && W.LinesAre(t, first, id, lines) && |lines| == |given|
    && forall i | 0 <= i < |lines| :: KnownLine(t, lines[i]) && SameText(lines[i], given[i])
  }

  ghost predicate HoldsCategories(t: Tables, id: int, cs: seq<Category>, given: seq<Category>)
  {
    && W.LinksAre(t, id, cs) && |cs| == |given|
    && forall i | 0 <= i < |cs| :: KnownCategory(t, cs[i]) && cs[i].name == given[i].name
  }

  /** The tables hold this recipe under this id: its row as it was written at that time, its lines and its
      categories. */
  ghost predicate Holds(t: Tables, id: int, r: Recipe, now: int)
  {
    && id in t.recipes
    && t.recipes[id] == RecipeRow(r.name, r.instructions, r.imageURL, r.source, r.status, now, now)
    && (exists first, lines :: HoldsLines(t, id, first, lines, r.lines))
    && exists cs :: HoldsCategories(t, id, cs, r.categories)
  }

  lemma ResolvedSays(t': Tables, given: Line, line: Line)
    requires W.LineResolved(t'.ingredients, t'.units, given, line) && LineFits(t', given)
    ensures KnownLine(t', line) && SameText(line, given)
  {}

  /** A recipe that goes in by its names is held as it is. */
  lemma CreateHolds(t: Tables, r: Recipe, now: int)
    requires Valid(t) && W.Create(t, r, now).Ok? && NamesOnly(r)
    ensures var (t', r') := W.Create(t, r, now).value;
            r'.id !in t.recipes && Holds(t', r'.id, r, now)
  {
    hide W.Create, W.LinesAre, W.LinksAre, W.LineResolved, KnownLine, LineFits, SameText;
    W.CreateMeaning(t, r, now);
    W.CreateResolves(t, r, now);
    var (t', r') := W.Create(t, r, now).value;
    NamesOnlyFit(t', r);
    forall i | 0 <= i < |r'.lines|
      ensures KnownLine(t', r'.lines[i]) && SameText(r'.lines[i], r.lines[i])
    {
      ResolvedSays(t', r.lines[i], r'.lines[i]);
    }
    assert HoldsLines(t', r'.id, t.nextLine, r'.lines, r.lines);
    assert HoldsCategories(t', r'.id, r'.categories, r.categories);
  }

  lemma StaysKnown(t: Tables, t': Tables, line: Line)
    requires KnownLine(t, line) && LookupsGrow(t, t')
    ensures KnownLine(t', line)
  {
    var id := line.ingredientID;
    assert id in t.ingredients.rows;
    if line.unitID.Some? {
      var unit := line.unitID.value;
      assert unit in t.units.rows;
    }
  }

  lemma LinesStayHeld(t: Tables, t': Tables, id: int, first: int, lines: seq<Line>, given: seq<Line>)
    requires Kept(t, t') && id in t.recipes && HoldsLines(t, id, first, lines, given)
    ensures HoldsLines(t', id, first, lines, given)
  {
    forall i | 0 <= i < |lines|
      ensures KnownLine(t', lines[i])
    {
      StaysKnown(t, t', lines[i]);
    }
  }

  lemma CategoriesStayHeld(t: Tables, t': Tables, id: int, cs: seq<Category>, given: seq<Category>)
    requires Kept(t, t') && id in t.recipes && HoldsCategories(t, id, cs, given)
    ensures HoldsCategories(t', id, cs, given)
  {
    forall c
      ensures (id, c) in t'.links <==> (id, c) in t.links
    {}
    forall i | 0 <= i < |cs|
      ensures KnownCategory(t', cs[i])
    {
      assert KnownCategory(t, cs[i]);
    }
  }

  /** A held recipe stays held as long as nothing is lost. */
  lemma StaysHeld(t: Tables, t': Tables, id: int, r: Recipe, now: int)
    requires Kept(t, t') && Holds(t, id, r, now)
    ensures Holds(t', id, r, now)
  {
    hide HoldsLines, HoldsCategories;
    var first, lines :| HoldsLines(t, id, first, lines, r.lines);
    LinesStayHeld(t, t', id, first, lines, r.lines);
    var cs :| HoldsCategories(t, id, cs, r.categories);
    CategoriesStayHeld(t, t', id, cs, r.categories);
  }

  // ---------------------------------------------------------------- reading it

  ghost predicate Among(cs: seq<Category>, name: string)
  {
    exists i :: 0 <= i < |cs| && cs[i].name == name
  }

  /** The same names, once each and in order. */
  ghost predicate SortedNames(before: R.Collation, got: seq<Category>, given: seq<Category>)
  {
    && InOrder(before, got)
    && (forall i | 0 <= i < |got| :: Among(given, got[i].name))
    && forall j | 0 <= j < |given| :: Among(got, given[j].name)
  }

  /** What a read returns of a recipe that was stored as r: its fields, its lines in order, and its
      category names sorted. */
  ghost predicate ReadsAs(before: R.Collation, got: Recipe, r: Recipe)
  {
    && got.name == r.name && got.instructions == r.instructions && got.imageURL == r.imageURL
    && got.source == r.source && got.status == r.status
    && |got.lines| == |r.lines| && (forall i | 0 <= i < |r.lines| :: SameText(got.lines[i], r.lines[i]))
    && SortedNames(before, got.categories, r.categories)
  }

  lemma HeldCategoriesRead(t: Tables, before: R.Collation, id: int, cs: seq<Category>, given: seq<Category>)
    requires Valid(t) && StrictTotal(before) && HoldsCategories(t, id, cs, given)
    ensures SortedNames(before, R.ReadCategories(t, before, id), given)
  {
    hide R.ReadCategories, InOrder;
    ItsParts(t);
    var got := R.ReadCategories(t, before, id);
    ReadInOrder(t, before, id);
    ReadCategoriesKnown(t, before, id);
    forall i | 0 <= i < |got|
      ensures Among(given, got[i].name)
    {
      assert (id, got[i].id) in t.links;
      var j :| 0 <= j < |cs| && cs[j].id == got[i].id;
      assert KnownCategory(t, cs[j]) && given[j].name == got[i].name;
    }
    forall j | 0 <= j < |given|
      ensures Among(got, given[j].name)
    {
      assert KnownCategory(t, cs[j]) && (id, cs[j].id) in t.links;
      var i :| 0 <= i < |got| && got[i].id == cs[j].id;
      assert got[i].name == given[j].name;
    }
  }

  /** A held recipe is what its read returns. */
  lemma HeldReads(t: Tables, before: R.Collation, id: int, r: Recipe, now: int)
    requires Valid(t) && StrictTotal(before) && Holds(t, id, r, now) && |r.lines| <= 0x8000_0000
    ensures ReadsAs(before, R.Read(t, before, id), r)
    ensures R.Read(t, before, id).createdAt == now && R.Read(t, before, id).updatedAt == now
  {
    hide HoldsCategories, SortedNames, KnownLine, SameText, W.LinesAre;
    var first, lines :| HoldsLines(t, id, first, lines, r.lines);
    WrittenLinesRead(t, first, id, lines);
    var cs :| HoldsCategories(t, id, cs, r.categories);
    HeldCategoriesRead(t, before, id, cs, r.categories);
  }

  // ---------------------------------------------------------------- what a body stores

  /** A read returns what the body said: its texts, every ingredient line by name, amount and unit in order, and
      the category names sorted and each once. The source and the status are told apart: a PUT does not write
      the one, and a POST may leave out the other. */
  ghost predicate ReadsBody(before: R.Collation, got: Recipe, dto: RecipeDTO)
  {
    && got.name == dto.name && got.instructions == dto.instructions && got.imageURL == dto.imageURL
    && |got.lines| == |dto.ingredients|
    && (forall i | 0 <= i < |got.lines| ::
          && got.lines[i].ingredientName == dto.ingredients[i].name
          && got.lines[i].amount == dto.ingredients[i].amount
          && got.lines[i].unitName == dto.ingredients[i].unit)
    && InOrder(before, got.categories)
    && forall name :: Among(got.categories, name) <==>
         exists j :: 0 <= j < |dto.categories| && dto.categories[j].name == name
  }

  /** The children of a recipe written by names read back as they were given. */
  lemma WrittenByNameReads(t': Tables, before: R.Collation, first: int, given: Recipe, r': Recipe)
    requires Valid(t') && StrictTotal(before) && W.Resolved(t', given, r') && NamesOnly(given)
    requires |given.lines| <= 0x8000_0000
    requires W.LinesAre(t', first, r'.id, r'.lines) && W.LinksAre(t', r'.id, r'.categories)
    ensures |R.ReadLines(t', r'.id)| == |given.lines|
    ensures forall i | 0 <= i < |given.lines| :: SameText(R.ReadLines(t', r'.id)[i], given.lines[i])
    ensures SortedNames(before, R.ReadCategories(t', before, r'.id), given.categories)
  {
    hide W.LinesAre, W.LinksAre, W.LineResolved, KnownLine, LineFits, SameText, SortedNames, R.ReadLines;
    NamesOnlyFit(t', given);
    forall i | 0 <= i < |r'.lines|
      ensures KnownLine(t', r'.lines[i]) && SameText(r'.lines[i], given.lines[i])
    {
      ResolvedSays(t', given.lines[i], r'.lines[i]);
    }
    WrittenLinesRead(t', first, r'.id, r'.lines);
    assert HoldsCategories(t', r'.id, r'.categories, given.categories);
    HeldCategoriesRead(t', before, r'.id, r'.categories, given.categories);
  }

  lemma BodyNames(before: R.Collation, got: seq<Category>, dto: RecipeDTO)
    requires SortedNames(before, got, FromDTO(dto).categories)
    ensures forall name :: Among(got, name) <==> exists j :: 0 <= j < |dto.categories| && dto.categories[j].name == name
  {
    var given := FromDTO(dto).categories;
    BodiesMean(dto, FromDTO(dto));
    forall name
      ensures Among(got, name) <==> exists j :: 0 <= j < |dto.categories| && dto.categories[j].name == name
    {
      if Among(got, name) {
        var i :| 0 <= i < |got| && got[i].name == name;
        assert Among(given, got[i].name);
        var j :| 0 <= j < |given| && given[j].name == name;
        assert dto.categories[j].name == name;
      }
      if j :| 0 <= j < |dto.categories| && dto.categories[j].name == name {
        assert given[j].name == name && Among(got, given[j].name);
      }
    }
  }

  lemma GivenReadsBody(before: R.Collation, got: Recipe, dto: RecipeDTO)
    requires got.name == dto.name && got.instructions == dto.instructions && got.imageURL == dto.imageURL
    requires |got.lines| == |FromDTO(dto).lines|
    requires forall i | 0 <= i < |FromDTO(dto).lines| :: SameText(got.lines[i], FromDTO(dto).lines[i])
    requires SortedNames(before, got.categories, FromDTO(dto).categories)
    ensures ReadsBody(before, got, dto)
  {
    BodiesMean(dto, FromDTO(dto));
    BodyNames(before, got.categories, dto);
    forall i | 0 <= i < |got.lines|
      ensures && got.lines[i].ingredientName == dto.ingredients[i].name
              && got.lines[i].amount == dto.ingredients[i].amount
              && got.lines[i].unitName == dto.ingredients[i].unit
    {
      assert SameText(got.lines[i], FromDTO(dto).lines[i]);
    }
  }

  /** After a POST a GET of the new recipe returns what the body said. */
  lemma PostReads(t: Tables, before: R.Collation, dto: RecipeDTO, now: int)
    requires Valid(t) && StrictTotal(before) && W.Create(t, FromDTO(dto), now).Ok? && |dto.ingredients| <= 0x8000_0000
    ensures var (t', r') := W.Create(t, FromDTO(dto), now).value;
            && Valid(t') && r'.id in t'.recipes
            && var got := R.Read(t', before, r'.id);
               ReadsBody(before, got, dto) && got.id == r'.id && got.source == dto.source && got.status == dto.status
  {
    hide W.Create, FromDTO, ReadsBody, SortedNames, SameText, Valid, W.Resolved, W.LinesAre, W.LinksAre, NamesOnly,
      R.ReadLines, R.ReadCategories;
    BodyIsNamesOnly(dto);
    W.CreateMeaning(t, FromDTO(dto), now);
    W.CreateResolves(t, FromDTO(dto), now);
    PostWrites(t, dto, now);
    var (t', r') := W.Create(t, FromDTO(dto), now).value;
    WrittenByNameReads(t', before, t.nextLine, FromDTO(dto), r');
    GivenReadsBody(before, R.Read(t', before, r'.id), dto);
  }

  /** After a PUT a GET returns what the body said, under the source there was. */
  lemma PutReads(t: Tables, before: R.Collation, id: int, dto: RecipeDTO, now: int)
    requires Valid(t) && StrictTotal(before) && |dto.ingredients| <= 0x8000_0000
    requires W.Update(t, FromDTO(dto).(id := id), now).Ok?
    ensures id in t.recipes
    ensures var t' := W.Update(t, FromDTO(dto).(id := id), now).value.0;
            && Valid(t') && id in t'.recipes
            && var got := R.Read(t', before, id);
               ReadsBody(before, got, dto) && got.id == id && got.source == t.recipes[id].source
               && got.status == dto.status
  {
    hide W.Update, FromDTO, ReadsBody, SortedNames, SameText, Valid, W.Resolved, W.LinesAre, W.LinksAre, NamesOnly,
      R.ReadLines, R.ReadCategories;
    var r := FromDTO(dto).(id := id);
    BodyIsNamesOnly(dto);
    NamesOnlyWithID(FromDTO(dto), id);
    W.UpdateMeaning(t, r, now);
    W.UpdateResolves(t, r, now);
    PutWrites(t, dto, id, now);
    var (t', r') := W.Update(t, r, now).value;
    WrittenByNameReads(t', before, t.nextLine, r, r');
    GivenReadsBody(before, R.Read(t', before, id), dto);
  }

  lemma BodyIsNamesOnly(dto: RecipeDTO)
    ensures NamesOnly(FromDTO(dto)) && |FromDTO(dto).lines| == |dto.ingredients|
  {}

  lemma NamesOnlyWithID(r: Recipe, id: int)
    requires NamesOnly(r)
    ensures NamesOnly(r.(id := id))
  {}
}
