/** What a write hands back - and a PUT or POST echoes - against what a read of the recipe then returns. */
module WriteEcho {
  import opened Wrappers
  import opened Domain
  import opened Tables
  import opened Orders
  import W = RecipeWrites
  import R = RecipeReads
  import opened RoundTrip

  // ---------------------------------------------------------------- when the two agree

  /** A recipe as a request body or an import carries it: names only. */
  predicate NamesOnly(r: Recipe)
  {
    && (forall i | 0 <= i < |r.lines| :: r.lines[i].ingredientID == 0 && r.lines[i].unitID == None)
    && forall i | 0 <= i < |r.categories| :: r.categories[i].id == 0
  }

  ghost predicate RowSays(l: Lookup, id: int, name: string)
  {
    id in l.rows && l.rows[id] == name
  }

  ghost predicate LineFits(t: Tables, given: Line)
  {
    && (given.ingredientID != 0 ==> RowSays(t.ingredients, given.ingredientID, given.ingredientName))
    && (given.unitID.Some? ==> RowSays(t.units, given.unitID.value, given.unitName))
  }

  ghost predicate CategoryFits(t: Tables, given: Category)
  {
    given.id != 0 ==> RowSays(t.categories, given.id, given.name)
  }

  /** Wherever the recipe carries an id, the row of that id has the name the recipe carries beside it. */
  ghost predicate NamesFit(t: Tables, r: Recipe)
  {
    && (forall i | 0 <= i < |r.lines| :: LineFits(t, r.lines[i]))
    && forall i | 0 <= i < |r.categories| :: CategoryFits(t, r.categories[i])
  }

  lemma NamesOnlyFit(t: Tables, r: Recipe)
    requires NamesOnly(r)
    ensures NamesFit(t, r)
  {}

  /** Where the ids exist before the write, so does the answer: lookup rows never change. */
  lemma FitsBeforeAsAfter(t: Tables, t': Tables, r: Recipe)
    requires W.CarriedIDsExist(t, r) && LookupsGrow(t, t')
    ensures NamesFit(t', r) <==> NamesFit(t, r)
  {
    forall i | 0 <= i < |r.lines|
      ensures LineFits(t', r.lines[i]) <==> LineFits(t, r.lines[i])
    {}
    forall i | 0 <= i < |r.categories|
      ensures CategoryFits(t', r.categories[i]) <==> CategoryFits(t, r.categories[i])
    {
      var id := r.categories[i].id;
      if id != 0 {
        assert id in t.categories.rows;
      }
    }
  }

  /** The categories come in strictly ascending order of their names, so without repetition. */
  ghost predicate InOrder(before: R.Collation, cs: seq<Category>)
  {
    forall i, j | 0 <= i < j < |cs| :: before(cs[i].name, cs[j].name)
  }

  // ---------------------------------------------------------------- lines

  lemma ResolvedLineKnown(t': Tables, given: Line, line: Line)
    requires W.LineResolved(t'.ingredients, t'.units, given, line)
    ensures KnownLine(t', line) <==> LineFits(t', given)
  {}

  lemma LinesReadAsWritten(t': Tables, first: int, id: int, given: seq<Line>, lines: seq<Line>)
    requires ValidLines(t') && W.LinesAre(t', first, id, lines) && |lines| <= 0x8000_0000 && |given| == |lines|
    requires forall i | 0 <= i < |lines| :: W.LineResolved(t'.ingredients, t'.units, given[i], lines[i])
    ensures R.ReadLines(t', id) == lines <==> forall i | 0 <= i < |lines| :: LineFits(t', given[i])
  {
    hide ValidLines, W.LinesAre, W.LineResolved, KnownLine, LineFits;
    forall i | 0 <= i < |lines|
      ensures KnownLine(t', lines[i]) <==> LineFits(t', given[i])
    {
      ResolvedLineKnown(t', given[i], lines[i]);
    }
    ReadLinesKnown(t', id);
    if forall i | 0 <= i < |lines| :: LineFits(t', given[i]) {
      WrittenLinesRead(t', first, id, lines);
    }
  }

  // ---------------------------------------------------------------- categories

  ghost predicate KnownCategory(t: Tables, c: Category)
  {
    RowSays(t.categories, c.id, c.name)
  }

  ghost function IDsOf(cs: seq<Category>): (ids: seq<int>)
    ensures |ids| == |cs| && forall i | 0 <= i < |cs| :: ids[i] == cs[i].id
  {
    seq(|cs|, i requires 0 <= i < |cs| => cs[i].id)
  }

  lemma LinkedIDs(t': Tables, id: int, cs: seq<Category>)
    requires W.LinksAre(t', id, cs)
    ensures forall c :: c in IDsOf(cs) <==> (id, c) in t'.links
  {
    var ids := IDsOf(cs);
    forall c
      ensures c in ids <==> (id, c) in t'.links
    {
      if c in ids {
        var i :| 0 <= i < |ids| && ids[i] == c;
        assert cs[i].id == c;
      }
      if (id, c) in t'.links {
        var i :| 0 <= i < |cs| && cs[i].id == c;
        assert ids[i] == c;
      }
    }
  }

  /** Categories that are known and in order are the answer of the category query. */
  lemma InOrderAnswers(t': Tables, before: R.Collation, id: int, cs: seq<Category>)
    requires StrictTotal(before) && W.LinksAre(t', id, cs) && InOrder(before, cs)
    requires forall i | 0 <= i < |cs| :: KnownCategory(t', cs[i])
    ensures R.AnswersCategories(t', before, id, IDsOf(cs))
  {
    var ids := IDsOf(cs);
    LinkedIDs(t', id, cs);
    forall c | c in ids
      ensures c in t'.categories.rows
    {
      var i :| 0 <= i < |ids| && ids[i] == c;
      assert KnownCategory(t', cs[i]);
    }
    forall i, j | 0 <= i < j < |ids|
      ensures ids[i] != ids[j] && !before(t'.categories.rows[ids[j]], t'.categories.rows[ids[i]])
    {
      assert KnownCategory(t', cs[i]) && KnownCategory(t', cs[j]) && before(cs[i].name, cs[j].name);
    }
  }

  lemma ReadInOrder(t: Tables, before: R.Collation, id: int)
    requires Valid(t) && StrictTotal(before)
    ensures InOrder(before, R.ReadCategories(t, before, id))
  {
    var names := Sort(R.CategoryNames(t, id), before);
    R.NamesAreNamed(t, id, names);
  }

  lemma CategoriesReadAsWritten(t': Tables, before: R.Collation, id: int, cs: seq<Category>)
    requires Valid(t') && StrictTotal(before) && W.LinksAre(t', id, cs)
    ensures R.ReadCategories(t', before, id) == cs
            <==> InOrder(before, cs) && forall i | 0 <= i < |cs| :: KnownCategory(t', cs[i])
  {
    hide InOrder, KnownCategory, W.LinksAre, Valid, R.ReadCategories;
    ItsParts(t');
    ReadIsKnownInOrder(t', before, id);
    if InOrder(before, cs) && forall i | 0 <= i < |cs| :: KnownCategory(t', cs[i]) {
      KnownInOrderIsRead(t', before, id, cs);
    }
  }

  lemma ReadIsKnownInOrder(t: Tables, before: R.Collation, id: int)
    requires Valid(t) && StrictTotal(before)
    ensures var cs := R.ReadCategories(t, before, id);
            InOrder(before, cs) && forall i | 0 <= i < |cs| :: KnownCategory(t, cs[i])
  {
    hide InOrder, R.ReadCategories;
    ReadInOrder(t, before, id);
    ReadCategoriesKnown(t, before, id);
  }

  lemma KnownInOrderIsRead(t': Tables, before: R.Collation, id: int, cs: seq<Category>)
    requires Valid(t') && StrictTotal(before) && W.LinksAre(t', id, cs) && InOrder(before, cs)
    requires forall i | 0 <= i < |cs| :: KnownCategory(t', cs[i])
    ensures R.ReadCategories(t', before, id) == cs
  {
    hide W.LinksAre, InOrder, R.AnswersCategories, R.ReadCategories, StrictTotal;
    InOrderAnswers(t', before, id, cs);
    forall i | 0 <= i < |cs|
      ensures cs[i].id in t'.categories.rows && cs[i] == Category(cs[i].id, t'.categories.rows[cs[i].id])
    {
      assert KnownCategory(t', cs[i]);
    }
    R.CategoriesAreRead(t', before, id, IDsOf(cs), cs);
  }

  lemma ResolvedInOrder(t': Tables, before: R.Collation, given: seq<Category>, cs: seq<Category>)
    requires |given| == |cs|
    requires forall i | 0 <= i < |cs| :: W.CategoryResolved(t'.categories, given[i], cs[i])
    ensures InOrder(before, cs) <==> InOrder(before, given)
    ensures (forall i | 0 <= i < |cs| :: KnownCategory(t', cs[i]))
            <==> forall i | 0 <= i < |given| :: CategoryFits(t', given[i])
  {
    forall i | 0 <= i < |cs|
      ensures cs[i].name == given[i].name && (KnownCategory(t', cs[i]) <==> CategoryFits(t', given[i]))
    {}
  }

  // ---------------------------------------------------------------- the whole recipe

  /** What the tables hold of a recipe that was just written reads as what was handed back, exactly when
      its ids and names fit and its categories came in order. */
  lemma ChildrenReadAsWritten(t': Tables, before: R.Collation, first: int, given: Recipe, r': Recipe)
    requires Valid(t') && StrictTotal(before) && W.Resolved(t', given, r') && |given.lines| <= 0x8000_0000
    requires W.LinesAre(t', first, r'.id, r'.lines) && W.LinksAre(t', r'.id, r'.categories)
    ensures R.ReadLines(t', r'.id) == r'.lines && R.ReadCategories(t', before, r'.id) == r'.categories
            <==> NamesFit(t', given) && InOrder(before, given.categories)
  {
    hide W.LinesAre, W.LinksAre, W.LineResolved, W.CategoryResolved, LineFits, CategoryFits, KnownCategory, InOrder;
    LinesReadAsWritten(t', first, r'.id, given.lines, r'.lines);
    CategoriesReadAsWritten(t', before, r'.id, r'.categories);
    ResolvedInOrder(t', before, given.categories, r'.categories);
  }

  /** What `Create` hands back is what a read of the new recipe returns, exactly when the categories came
      in order and every id that came with a name has that name's row. */
  lemma CreateEcho(t: Tables, before: R.Collation, r: Recipe, now: int)
    requires Valid(t) && StrictTotal(before) && W.Create(t, r, now).Ok? && |r.lines| <= 0x8000_0000
    ensures var (t', r') := W.Create(t, r, now).value;
            && Valid(t') && r'.id in t'.recipes
            && (R.Read(t', before, r'.id) == r' <==> NamesFit(t', r) && InOrder(before, r.categories))
  {
    hide W.Create, W.LinesAre, W.LinksAre, W.Resolved, NamesFit, InOrder;
    W.CreateMeaning(t, r, now);
    W.CreateResolves(t, r, now);
    var (t', r') := W.Create(t, r, now).value;
    ChildrenReadAsWritten(t', before, t.nextLine, r, r');
  }

  /** `Update` hands back the source it was given, too, which it never writes: that has to be the stored
      one as well. */
  lemma UpdateEcho(t: Tables, before: R.Collation, r: Recipe, now: int)
    requires Valid(t) && StrictTotal(before) && W.Update(t, r, now).Ok? && |r.lines| <= 0x8000_0000
    ensures r.id in t.recipes
    ensures var (t', r') := W.Update(t, r, now).value;
            && Valid(t') && r.id in t'.recipes
            && (R.Read(t', before, r.id) == r'
                <==> NamesFit(t', r) && InOrder(before, r.categories) && r.source == t.recipes[r.id].source)
  {
    hide W.LinesAre, W.LinksAre, W.Resolved, NamesFit, InOrder;
    W.UpdateMeaning(t, r, now);
    W.UpdateResolves(t, r, now);
    var (t', r') := W.Update(t, r, now).value;
    ChildrenReadAsWritten(t', before, t.nextLine, r, r');
  }

  // ---------------------------------------------------------------- over HTTP

  /** A body tells recipes with the same lines apart by their categories and their source. */
  lemma BodyTells(a: Recipe, b: Recipe)
    requires ToDTO(a) == ToDTO(b)
    ensures a.categories == b.categories && a.source == b.source
  {
    assert |a.categories| == |ToDTO(a).categories| && |b.categories| == |ToDTO(b).categories|;
    forall i | 0 <= i < |a.categories|
      ensures a.categories[i] == b.categories[i]
    {
      assert ToDTO(a).categories[i] == ToDTO(b).categories[i];
    }
  }

  /** A body that is the body of a read has its categories in order and its source from the row. */
  lemma BodyOfARead(t': Tables, before: R.Collation, given: Recipe, r': Recipe)
    requires Valid(t') && StrictTotal(before) && r'.id in t'.recipes && W.Resolved(t', given, r')
    requires ToDTO(R.Read(t', before, r'.id)) == ToDTO(r')
    ensures InOrder(before, given.categories) && r'.source == t'.recipes[r'.id].source
  {
    hide Valid, ToDTO, W.LineResolved, W.CategoryResolved, InOrder, R.ReadCategories, R.ReadLines;
    BodyTells(R.Read(t', before, r'.id), r');
    ReadInOrder(t', before, r'.id);
    ResolvedInOrder(t', before, given.categories, r'.categories);
  }

  /** The body a POST answers with is the body of a GET of the new recipe, exactly when the categories were
      sent in order of their names, none of them twice. */
  lemma PostEcho(t: Tables, before: R.Collation, dto: RecipeDTO, now: int)
    requires Valid(t) && StrictTotal(before) && W.Create(t, FromDTO(dto), now).Ok? && |dto.ingredients| <= 0x8000_0000
    ensures var (t', r') := W.Create(t, FromDTO(dto), now).value;
            && Valid(t') && r'.id in t'.recipes
            && (ToDTO(R.Read(t', before, r'.id)) == ToDTO(r') <==> InOrder(before, FromDTO(dto).categories))
  {
    hide W.Create, R.Read, InOrder, ToDTO, W.Resolved, Valid;
    var r := FromDTO(dto);
    CreateEcho(t, before, r, now);
    var (t', r') := W.Create(t, r, now).value;
    NamesOnlyFit(t', r);
    W.CreateResolves(t, r, now);
    if ToDTO(R.Read(t', before, r'.id)) == ToDTO(r') {
      BodyOfARead(t', before, r, r');
    }
  }

  /** The body a PUT answers with is the body of a GET, exactly when besides that the source sent is the
      stored one: a PUT may leave it out, and then its answer does too. */
  lemma PutEcho(t: Tables, before: R.Collation, id: int, dto: RecipeDTO, now: int)
    requires Valid(t) && StrictTotal(before) && |dto.ingredients| <= 0x8000_0000
    requires W.Update(t, FromDTO(dto).(id := id), now).Ok?
    ensures id in t.recipes
    ensures var (t', r') := W.Update(t, FromDTO(dto).(id := id), now).value;
            && Valid(t') && id in t'.recipes
            && (ToDTO(R.Read(t', before, id)) == ToDTO(r')
                <==> InOrder(before, FromDTO(dto).categories) && dto.source == t.recipes[id].source)
  {
    hide W.Update, R.Read, InOrder, ToDTO, W.Resolved, Valid;
    var r := FromDTO(dto).(id := id);
    UpdateEcho(t, before, r, now);
    var (t', r') := W.Update(t, r, now).value;
    NamesOnlyFit(t', r);
    W.UpdateMeaning(t, r, now);
    W.UpdateResolves(t, r, now);
    if ToDTO(R.Read(t', before, id)) == ToDTO(r') {
      BodyOfARead(t', before, r, r');
    }
  }

  // ---------------------------------------------------------------- and it does differ

  lemma EmptyTables() returns (t: Tables)
    ensures Valid(t) && t.recipes == map[]
  {
    t := Tables(Lookup(map[], 1), Lookup(map[], 1), Lookup(map[], 1), map[], 1, map[], 1, {});
  }

  /** However names are ordered, a POST of two categories the other way round answers with a body no GET
      returns. */
  lemma PostOutOfOrder(before: R.Collation, now: int) returns (t: Tables, dto: RecipeDTO)
    requires StrictTotal(before)
    ensures Valid(t) && LegalStatus(dto.status) && W.Create(t, FromDTO(dto), now).Ok?
    ensures var (t', r') := W.Create(t, FromDTO(dto), now).value;
            Valid(t') && r'.id in t'.recipes && ToDTO(R.Read(t', before, r'.id)) != ToDTO(r')
  {
    hide W.Create, R.Read, ToDTO, Valid;
    t := EmptyTables();
    var x, y := "Dessert", "Vegetarisch";
    var first, second := if before(x, y) then y else x, if before(x, y) then x else y;
    assert !before(first, second);
    dto := RecipeDTO(0, "Kuchen", "", "", "post", PUBLISHED, [], [CategoryDTO(0, first), CategoryDTO(0, second)]);
    PostOutcome(t, dto, now);
    PostEcho(t, before, dto, now);
    var cs := FromDTO(dto).categories;
    assert cs[0].name == first && cs[1].name == second;
  }

  /** A PUT that leaves the source out answers with a body no GET returns. */
  lemma PutWithoutSource(before: R.Collation, now: int) returns (t: Tables, id: int, dto: RecipeDTO)
    requires StrictTotal(before)
    ensures Valid(t) && id in t.recipes && dto.source == "" && W.Update(t, FromDTO(dto).(id := id), now).Ok?
    ensures var (t', r') := W.Update(t, FromDTO(dto).(id := id), now).value;
            Valid(t') && id in t'.recipes && ToDTO(R.Read(t', before, id)) != ToDTO(r')
  {
    hide W.Update, R.Read, ToDTO, W.Resolve;
    id := 1;
    t := Tables(Lookup(map[], 1), Lookup(map[], 1), Lookup(map[], 1),
                map[1 := RecipeRow("Kuchen", "", "", "post", PUBLISHED, 0, 0)], 2, map[], 1, {});
    dto := RecipeDTO(0, "Kuchen", "", "", "", PUBLISHED, [], []);
    W.UpdateOutcome(t, FromDTO(dto).(id := id), now);
    PutEcho(t, before, id, dto, now);
  }
}
