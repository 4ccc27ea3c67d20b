/** Reading recipes back: one at a time, or a page of search results assembled from two batched
    queries. A query's answer is any sequence of rows its WHERE clause selects in any order its ORDER
    BY clause allows. */
module RecipeReads {
  import opened Wrappers
  import opened Domain
  import opened Tables
  import opened Orders

  /** The collation names are ordered by; equal names are the only ties. */
  type Collation = (string, string) -> bool

  // ---------------------------------------------------------------- what a read returns

  ghost function LineKeys(t: Tables, recipeID: int): set<(int, int)>
  {
    set id | id in t.lines && t.lines[id].recipeID == recipeID :: (t.lines[id].position, id)
  }

  /** The joined columns of a line: COALESCE gives the empty unit name where there is no unit. */
  ghost function JoinedLine(t: Tables, row: LineRow): Line
    requires LineRefs(t, row)
  {
    Line(row.ingredientID, t.ingredients.rows[row.ingredientID], row.amount, row.unitID,
         if row.unitID.Some? then t.units.rows[row.unitID.value] else "")
  }

  ghost function LinesAt(t: Tables, keys: seq<(int, int)>): (r: seq<Line>)
    requires forall i | 0 <= i < |keys| :: keys[i].1 in t.lines && LineRefs(t, t.lines[keys[i].1])
    ensures |r| == |keys|
    ensures forall i | 0 <= i < |keys| :: r[i] == JoinedLine(t, t.lines[keys[i].1])
  {
    seq(|keys|, i requires 0 <= i < |keys| => JoinedLine(t, t.lines[keys[i].1]))
  }

  /** A recipe's lines in the order of (position, id). */
  ghost function ReadLines(t: Tables, recipeID: int): seq<Line>
    requires ValidLines(t)
  {
    PairOrder();
    var keys := Sort(LineKeys(t, recipeID), PairLess);
    assert forall i | 0 <= i < |keys| :: keys[i] in Elements(keys);
    LinesAt(t, keys)
  }

  /** The names of a recipe's categories. */
  ghost function CategoryNames(t: Tables, recipeID: int): set<string>
    requires ValidLinks(t)
  {
    set l | l in t.links && l.0 == recipeID :: t.categories.rows[l.1]
  }

  ghost function IDOf(l: Lookup, name: string): (id: int)
    requires Named(l, name)
    ensures id in l.rows && l.rows[id] == name
  {
    var id :| id in l.rows && l.rows[id] == name;
    id
  }

  ghost function CategoriesOf(l: Lookup, names: seq<string>): (r: seq<Category>)
    requires forall i | 0 <= i < |names| :: Named(l, names[i])
    ensures |r| == |names|
    ensures forall i | 0 <= i < |names| :: r[i] == Category(IDOf(l, names[i]), names[i])
  {
    seq(|names|, i requires 0 <= i < |names| => Category(IDOf(l, names[i]), names[i]))
  }

  lemma NamesAreNamed(t: Tables, recipeID: int, names: seq<string>)
    requires ValidLinks(t) && Elements(names) == CategoryNames(t, recipeID)
    ensures forall i | 0 <= i < |names| :: Named(t.categories, names[i])
  {
    forall i | 0 <= i < |names|
      ensures Named(t.categories, names[i])
    {
      var n := names[i];
      assert n in Elements(names);
      var l :| l in t.links && l.0 == recipeID && t.categories.rows[l.1] == n;
      var id := l.1;
      assert id in t.categories.rows && t.categories.rows[id] == n;
    }
  }

  /** A recipe's categories in the order of their names. */
  ghost function ReadCategories(t: Tables, before: Collation, recipeID: int): seq<Category>
    requires ValidLinks(t) && StrictTotal(before)
  {
    var names := Sort(CategoryNames(t, recipeID), before);
    NamesAreNamed(t, recipeID, names);
    CategoriesOf(t.categories, names)
  }

  function BaseRecipe(id: int, row: RecipeRow): Recipe
  {
    Recipe(id, row.name, row.instructions, row.imageURL, row.source, row.status, [], [], row.createdAt, row.updatedAt)
  }

  /** Everything a read of one recipe returns. */
  ghost function Read(t: Tables, before: Collation, id: int): Recipe
    requires Valid(t) && StrictTotal(before) && id in t.recipes
  {
    BaseRecipe(id, t.recipes[id]).(lines := ReadLines(t, id), categories := ReadCategories(t, before, id))
  }

  // ---------------------------------------------------------------- the four child queries

  /** ListRecipeIngredients: the recipe's lines, ordered by position and id. */
  ghost predicate AnswersLines(t: Tables, recipeID: int, ids: seq<int>)
  {
    && (forall id :: id in ids <==> id in t.lines && t.lines[id].recipeID == recipeID)
    && forall i, j | 0 <= i < j < |ids| ::
         PairLess((t.lines[ids[i]].position, ids[i]), (t.lines[ids[j]].position, ids[j]))
  }

  /** ListRecipeCategories: the recipe's categories, ordered by name. */
  ghost predicate AnswersCategories(t: Tables, before: Collation, recipeID: int, ids: seq<int>)
  {
    && (forall id :: id in ids <==> (recipeID, id) in t.links)
    && (forall id <- ids :: id in t.categories.rows)
    && forall i, j | 0 <= i < j < |ids| ::
         ids[i] != ids[j] && !before(t.categories.rows[ids[j]], t.categories.rows[ids[i]])
  }

  /** ListIngredientsForRecipes: ordered by recipe, position and id. */
  ghost predicate AnswersLinesFor(t: Tables, recipes: set<int>, ids: seq<int>)
  {
    && (forall id :: id in ids <==> id in t.lines && t.lines[id].recipeID in recipes)
    && forall i, j | 0 <= i < j < |ids| ::
         var a, b := t.lines[ids[i]], t.lines[ids[j]];
         a.recipeID < b.recipeID || (a.recipeID == b.recipeID && PairLess((a.position, ids[i]), (b.position, ids[j])))
  }

  /** ListCategoriesForRecipes: ordered by recipe and name. */
  ghost predicate AnswersCategoriesFor(t: Tables, before: Collation, recipes: set<int>, links: seq<(int, int)>)
  {
    && (forall l :: l in links <==> l in t.links && l.0 in recipes)
    && (forall l <- links :: l.1 in t.categories.rows)
    && forall i, j | 0 <= i < j < |links| ::
         && links[i] != links[j]
         && (links[i].0 < links[j].0
             || (links[i].0 == links[j].0
                 && !before(t.categories.rows[links[j].1], t.categories.rows[links[i].1])))
  }

  // ---------------------------------------------------------------- each query has one answer

  ghost function KeysOf(t: Tables, ids: seq<int>): (r: seq<(int, int)>)
    requires forall i | 0 <= i < |ids| :: ids[i] in t.lines
    ensures |r| == |ids| && forall i | 0 <= i < |ids| :: r[i] == (t.lines[ids[i]].position, ids[i])
  {
    seq(|ids|, i requires 0 <= i < |ids| => (t.lines[ids[i]].position, ids[i]))
  }

  /** Whatever answer the line query gives, it is the recipe's lines in their one order. */
  lemma OneLineOrder(t: Tables, recipeID: int, ids: seq<int>)
    requires ValidLines(t) && AnswersLines(t, recipeID, ids)
    ensures (forall i | 0 <= i < |ids| :: ids[i] in t.lines) && KeysOf(t, ids) == Sort(LineKeys(t, recipeID), PairLess)
  {
    PairOrder();
    AnsweredLines(t, recipeID, ids);
    KeysAreLineKeys(t, recipeID, ids);
    var keys := KeysOf(t, ids);
    assert Sorted(keys, PairLess);
    SortedUnique(keys, Sort(LineKeys(t, recipeID), PairLess), PairLess);
  }

  lemma AnsweredLines(t: Tables, recipeID: int, ids: seq<int>)
    requires AnswersLines(t, recipeID, ids)
    ensures forall i | 0 <= i < |ids| :: ids[i] in t.lines && t.lines[ids[i]].recipeID == recipeID
  {
    forall i | 0 <= i < |ids|
      ensures ids[i] in t.lines && t.lines[ids[i]].recipeID == recipeID
    {
      var id := ids[i];
      assert id in ids;
    }
  }

  lemma KeysAreLineKeys(t: Tables, recipeID: int, ids: seq<int>)
    requires forall id :: id in ids <==> id in t.lines && t.lines[id].recipeID == recipeID
    requires forall i | 0 <= i < |ids| :: ids[i] in t.lines && t.lines[ids[i]].recipeID == recipeID
    ensures Elements(KeysOf(t, ids)) == LineKeys(t, recipeID)
  {
    var keys := KeysOf(t, ids);
    forall k | k in LineKeys(t, recipeID)
      ensures k in Elements(keys)
    {
      var i :| 0 <= i < |ids| && ids[i] == k.1;
      assert keys[i] == k;
    }
    forall k | k in Elements(keys)
      ensures k in LineKeys(t, recipeID)
    {
      var i :| 0 <= i < |keys| && keys[i] == k;
      var id := ids[i];
      assert id in ids && k == (t.lines[id].position, id);
    }
  }

  ghost function NamesOf(l: Lookup, ids: seq<int>): (r: seq<string>)
    requires forall i | 0 <= i < |ids| :: ids[i] in l.rows
    ensures |r| == |ids| && forall i | 0 <= i < |ids| :: r[i] == l.rows[ids[i]]
  {
    seq(|ids|, i requires 0 <= i < |ids| => l.rows[ids[i]])
  }

  /** Category names are unique, so the order by name leaves no choice either. */
  lemma OneCategoryOrder(t: Tables, before: Collation, recipeID: int, ids: seq<int>)
    requires Valid(t) && StrictTotal(before) && AnswersCategories(t, before, recipeID, ids)
    ensures (forall i | 0 <= i < |ids| :: ids[i] in t.categories.rows)
    ensures NamesOf(t.categories, ids) == Sort(CategoryNames(t, recipeID), before)
  {
    forall i | 0 <= i < |ids|
      ensures ids[i] in t.categories.rows && (recipeID, ids[i]) in t.links
    {
      var id := ids[i];
      assert id in ids;
    }
    var names := NamesOf(t.categories, ids);
    forall i, j | 0 <= i < j < |names|
      ensures before(names[i], names[j])
    {
      assert ids[i] != ids[j] && ids[i] in ids && ids[j] in ids;
      assert names[i] != names[j];
    }
    forall n | n in CategoryNames(t, recipeID)
      ensures n in Elements(names)
    {
      var l :| l in t.links && l.0 == recipeID && t.categories.rows[l.1] == n;
      assert (recipeID, l.1) in t.links;
      var id := l.1;
      assert id in ids;
      var i :| 0 <= i < |ids| && ids[i] == id;
      assert names[i] == n;
    }
    forall n | n in Elements(names)
      ensures n in CategoryNames(t, recipeID)
    {
      var i :| 0 <= i < |names| && names[i] == n;
      var id := ids[i];
      assert id in ids;
      assert (recipeID, ids[i]) in t.links;
    }
    SortedUnique(names, Sort(CategoryNames(t, recipeID), before), before);
  }

  lemma NamesIdentify(l: Lookup, ids: seq<int>, i: nat)
    requires ValidLookup(l) && i < |ids| && forall k | 0 <= k < |ids| :: ids[k] in l.rows
    ensures Named(l, NamesOf(l, ids)[i]) && IDOf(l, NamesOf(l, ids)[i]) == ids[i]
  {
    var id := ids[i];
    assert id in l.rows && l.rows[id] == NamesOf(l, ids)[i];
  }

  // ---------------------------------------------------------------- the rows of the queries

  /** The columns both ingredient queries select. */
  datatype LineColumns = LineColumns(recipeID: int, ingredientID: int, ingredientName: string, amount: real,
                                     unitID: Option<int>, unitName: string)

  datatype CategoryColumns = CategoryColumns(recipeID: int, id: int, name: string)

  function ToRecipeIngredient(c: LineColumns): Line
  {
    Line(c.ingredientID, c.ingredientName, c.amount, c.unitID, c.unitName)
  }

  ghost function LineColumnsOf(t: Tables, id: int): LineColumns
    requires id in t.lines && LineRefs(t, t.lines[id])
  {
    var row := t.lines[id];
    LineColumns(row.recipeID, row.ingredientID, t.ingredients.rows[row.ingredientID], row.amount, row.unitID,
                if row.unitID.Some? then t.units.rows[row.unitID.value] else "")
  }

  /** rows are the selected columns of the lines ids. */
  ghost predicate SelectsLines(t: Tables, ids: seq<int>, rows: seq<LineColumns>)
  {
    && |rows| == |ids|
    && forall i | 0 <= i < |ids| ::
         ids[i] in t.lines && LineRefs(t, t.lines[ids[i]]) && rows[i] == LineColumnsOf(t, ids[i])
  }

  ghost predicate SelectsCategories(t: Tables, links: seq<(int, int)>, rows: seq<CategoryColumns>)
  {
    && |rows| == |links|
    && forall i | 0 <= i < |links| ::
         links[i].1 in t.categories.rows
         && rows[i] == CategoryColumns(links[i].0, links[i].1, t.categories.rows[links[i].1])
  }

  // ---------------------------------------------------------------- one recipe at a time

  function Lines(rows: seq<LineColumns>): (r: seq<Line>)
    ensures |r| == |rows| && forall i | 0 <= i < |rows| :: r[i] == ToRecipeIngredient(rows[i])
  {
    seq(|rows|, i requires 0 <= i < |rows| => ToRecipeIngredient(rows[i]))
  }

  function Categories(rows: seq<CategoryColumns>): (r: seq<Category>)
    ensures |r| == |rows| && forall i | 0 <= i < |rows| :: r[i] == Category(rows[i].id, rows[i].name)
  {
    seq(|rows|, i requires 0 <= i < |rows| => Category(rows[i].id, rows[i].name))
  }

  lemma LinesAreRead(t: Tables, recipeID: int, ids: seq<int>, rows: seq<LineColumns>)
    requires ValidLines(t) && AnswersLines(t, recipeID, ids) && SelectsLines(t, ids, rows)
    ensures Lines(rows) == ReadLines(t, recipeID)
  {
    hide ValidLines, AnswersLines;
    OneLineOrder(t, recipeID, ids);
    var keys := KeysOf(t, ids);
    forall i | 0 <= i < |rows|
      ensures Lines(rows)[i] == JoinedLine(t, t.lines[keys[i].1])
    {
      assert keys[i].1 == ids[i];
    }
    assert Lines(rows) == LinesAt(t, keys);
  }

  lemma CategoriesAreRead(t: Tables, before: Collation, recipeID: int, ids: seq<int>, cs: seq<Category>)
    requires Valid(t) && StrictTotal(before) && AnswersCategories(t, before, recipeID, ids)
    requires |cs| == |ids|
    requires forall i | 0 <= i < |ids| :: ids[i] in t.categories.rows
                                          && cs[i] == Category(ids[i], t.categories.rows[ids[i]])
    ensures cs == ReadCategories(t, before, recipeID)
  {
    OneCategoryOrder(t, before, recipeID, ids);
    var names := NamesOf(t.categories, ids);
    forall i | 0 <= i < |cs|
      ensures Named(t.categories, names[i]) && IDOf(t.categories, names[i]) == ids[i]
    {
      NamesIdentify(t.categories, ids, i);
    }
    NamesAreNamed(t, recipeID, names);
    assert cs == CategoriesOf(t.categories, names);
  }

  /** The answers of the two single-row child queries. */
  ghost predicate ChildAnswers(t: Tables, before: Collation, id: int,
                               lineRows: seq<LineColumns>, categoryRows: seq<CategoryColumns>)
  {
    && (exists ids :: AnswersLines(t, id, ids) && SelectsLines(t, ids, lineRows))
    && (exists ids, links :: AnswersCategories(t, before, id, ids) && Paired(id, ids, links)
                             && SelectsCategories(t, links, categoryRows))
  }

  /** links pairs the recipe with each of ids. */
  ghost predicate Paired(recipeID: int, ids: seq<int>, links: seq<(int, int)>)
  {
    |links| == |ids| && forall i | 0 <= i < |ids| :: links[i] == (recipeID, ids[i])
  }

  function Filled(id: int, row: RecipeRow, lines: seq<Line>, categories: seq<Category>): Recipe
  {
    BaseRecipe(id, row).(lines := lines, categories := categories)
  }

  /** Any answers of the single-row queries fill in the same recipe. */
  lemma ChildAnswersRead(t: Tables, before: Collation, id: int, lineRows: seq<LineColumns>,
                         categoryRows: seq<CategoryColumns>)
    requires Valid(t) && StrictTotal(before) && id in t.recipes
    requires ChildAnswers(t, before, id, lineRows, categoryRows)
    ensures Filled(id, t.recipes[id], Lines(lineRows), Categories(categoryRows)) == Read(t, before, id)
  {
    var lineIDs :| AnswersLines(t, id, lineIDs) && SelectsLines(t, lineIDs, lineRows);
    LinesAreRead(t, id, lineIDs, lineRows);
    var ids, links :| AnswersCategories(t, before, id, ids) && Paired(id, ids, links)
                      && SelectsCategories(t, links, categoryRows);
    forall i | 0 <= i < |ids|
      ensures ids[i] in t.categories.rows
              && Categories(categoryRows)[i] == Category(ids[i], t.categories.rows[ids[i]])
    {
      assert links[i] == (id, ids[i]);
    }
    CategoriesAreRead(t, before, id, ids, Categories(categoryRows));
  }

  /** `assemble`, as far as it does not touch the database: the rows are appended one by one. */
  method AppendChildren(id: int, row: RecipeRow, lineRows: seq<LineColumns>, categoryRows: seq<CategoryColumns>)
    returns (recipe: Recipe)
    ensures recipe == Filled(id, row, Lines(lineRows), Categories(categoryRows))
  {
    recipe := BaseRecipe(id, row);
    for i := 0 to |lineRows|
      invariant recipe == Filled(id, row, Lines(lineRows)[..i], [])
    {
      recipe := recipe.(lines := recipe.lines + [ToRecipeIngredient(lineRows[i])]);
    }
    for i := 0 to |categoryRows|
      invariant recipe == Filled(id, row, Lines(lineRows), Categories(categoryRows)[..i])
    {
      recipe := recipe.(categories := recipe.categories + [Category(categoryRows[i].id, categoryRows[i].name)]);
    }
  }

  /** `assemble`: one recipe from its two child queries, whatever order they chose among ties. */
  method Assemble(ghost t: Tables, ghost before: Collation, id: int, row: RecipeRow,
                  lineRows: seq<LineColumns>, categoryRows: seq<CategoryColumns>)
    returns (recipe: Recipe)
    requires Valid(t) && StrictTotal(before) && id in t.recipes && row == t.recipes[id]
    requires ChildAnswers(t, before, id, lineRows, categoryRows)
    ensures recipe == Read(t, before, id)
  {
    recipe := AppendChildren(id, row, lineRows, categoryRows);
    ChildAnswersRead(t, before, id, lineRows, categoryRows);
  }

  // ---------------------------------------------------------------- a page at a time

  /** The rows of one recipe among those of a batch, in batch order. */
  function LinesFor(rows: seq<LineColumns>, recipeID: int): seq<Line>
  {
    if rows == [] then []
    else
      var init := LinesFor(rows[..|rows| - 1], recipeID);
      var last := rows[|rows| - 1];
      if last.recipeID == recipeID then init + [ToRecipeIngredient(last)] else init
  }

  function CategoriesFor(rows: seq<CategoryColumns>, recipeID: int): seq<Category>
  {
    if rows == [] then []
    else
      var init := CategoriesFor(rows[..|rows| - 1], recipeID);
      var last := rows[|rows| - 1];
      if last.recipeID == recipeID then init + [Category(last.id, last.name)] else init
  }

  function GroupOf<V>(m: map<int, seq<V>>, id: int): seq<V>
  {
    if id in m then m[id] else []
  }

  /** `assemblePage`, as far as it does not touch the database: both batches are grouped by recipe,
      then handed out row by row. */
  method GroupPage(rows: seq<(int, RecipeRow)>, lineRows: seq<LineColumns>, categoryRows: seq<CategoryColumns>)
    returns (recipes: seq<Recipe>)
    ensures |recipes| == |rows|
    ensures forall i | 0 <= i < |rows| ::
              recipes[i] == Filled(rows[i].0, rows[i].1, LinesFor(lineRows, rows[i].0),
                                   CategoriesFor(categoryRows, rows[i].0))
  {
    var ingredients: map<int, seq<Line>> := map[];
    for i := 0 to |lineRows|
      invariant forall id :: GroupOf(ingredients, id) == LinesFor(lineRows[..i], id)
    {
      assert lineRows[..i + 1][..i] == lineRows[..i];
      var r := lineRows[i];
      ingredients := ingredients[r.recipeID := GroupOf(ingredients, r.recipeID) + [ToRecipeIngredient(r)]];
    }
    assert lineRows[..|lineRows|] == lineRows;
    var categories: map<int, seq<Category>> := map[];
    for i := 0 to |categoryRows|
      invariant forall id :: GroupOf(categories, id) == CategoriesFor(categoryRows[..i], id)
    {
      assert categoryRows[..i + 1][..i] == categoryRows[..i];
      var r := categoryRows[i];
      categories := categories[r.recipeID := GroupOf(categories, r.recipeID) + [Category(r.id, r.name)]];
    }
    assert categoryRows[..|categoryRows|] == categoryRows;
    recipes := [];
    for i := 0 to |rows|
      invariant |recipes| == i
      invariant forall k | 0 <= k < i ::
                  recipes[k] == Filled(rows[k].0, rows[k].1, LinesFor(lineRows, rows[k].0),
                                       CategoriesFor(categoryRows, rows[k].0))
    {
      var (id, row) := rows[i];
      recipes := recipes + [Filled(id, row, GroupOf(ingredients, id), GroupOf(categories, id))];
    }
  }

  ghost function OwnLines(t: Tables, ids: seq<int>, recipeID: int): seq<int>
  {
    if ids == [] then []
    else
      var init := OwnLines(t, ids[..|ids| - 1], recipeID);
      var last := ids[|ids| - 1];
      if last in t.lines && t.lines[last].recipeID == recipeID then init + [last] else init
  }

  ghost function OwnLinks(links: seq<(int, int)>, recipeID: int): seq<int>
  {
    if links == [] then []
    else
      var init := OwnLinks(links[..|links| - 1], recipeID);
      var last := links[|links| - 1];
      if last.0 == recipeID then init + [last.1] else init
  }

  lemma {:induction false} OwnLinesMembers(t: Tables, ids: seq<int>, recipeID: int)
    ensures forall id ::
              id in OwnLines(t, ids, recipeID) <==> id in ids && id in t.lines && t.lines[id].recipeID == recipeID
  {
    if ids != [] {
      OwnLinesMembers(t, ids[..|ids| - 1], recipeID);
      assert ids == ids[..|ids| - 1] + [ids[|ids| - 1]];
    }
  }

  /** What the batch's order says about the lines of one recipe. */
  ghost predicate BatchOrdered(t: Tables, ids: seq<int>)
  {
    && (forall i | 0 <= i < |ids| :: ids[i] in t.lines)
    && forall i, j | 0 <= i < j < |ids| && t.lines[ids[i]].recipeID == t.lines[ids[j]].recipeID ::
         PairLess((t.lines[ids[i]].position, ids[i]), (t.lines[ids[j]].position, ids[j]))
  }

  lemma {:induction false} OwnLinesOrdered(t: Tables, ids: seq<int>, recipeID: int)
    requires BatchOrdered(t, ids)
    ensures BatchOrdered(t, OwnLines(t, ids, recipeID))
  {
    if ids != [] {
      var init, last := ids[..|ids| - 1], ids[|ids| - 1];
      OwnLinesOrdered(t, init, recipeID);
      OwnLinesMembers(t, init, recipeID);
      var own := OwnLines(t, init, recipeID);
      if t.lines[last].recipeID == recipeID {
        forall k | 0 <= k < |own|
          ensures PairLess((t.lines[own[k]].position, own[k]), (t.lines[last].position, last))
        {
          var id := own[k];
          assert id in own;
          var i :| 0 <= i < |init| && init[i] == id;
          assert ids[i] == id && ids[|ids| - 1] == last;
        }
      }
    }
  }

  /** The batch, cut down to one recipe, is an answer of that recipe's own query. */
  lemma BatchAnswersOne(t: Tables, recipes: set<int>, ids: seq<int>, recipeID: int)
    requires AnswersLinesFor(t, recipes, ids) && recipeID in recipes
    ensures AnswersLines(t, recipeID, OwnLines(t, ids, recipeID))
  {
    forall i | 0 <= i < |ids|
      ensures ids[i] in t.lines
    {
      var id := ids[i];
      assert id in ids;
    }
    OwnLinesMembers(t, ids, recipeID);
    OwnLinesOrdered(t, ids, recipeID);
    var own := OwnLines(t, ids, recipeID);
    forall i | 0 <= i < |own|
      ensures t.lines[own[i]].recipeID == recipeID
    {
      var id := own[i];
      assert id in own;
    }
  }

  lemma {:induction false} LinesForSelected(t: Tables, ids: seq<int>, rows: seq<LineColumns>, recipeID: int)
    requires SelectsLines(t, ids, rows)
    ensures |LinesFor(rows, recipeID)| == |OwnLines(t, ids, recipeID)|
    ensures forall i | 0 <= i < |OwnLines(t, ids, recipeID)| ::
              var id := OwnLines(t, ids, recipeID)[i];
              id in t.lines && LineRefs(t, t.lines[id]) && LinesFor(rows, recipeID)[i] == JoinedLine(t, t.lines[id])
  {
    if ids != [] {
      LinesForSelected(t, ids[..|ids| - 1], rows[..|rows| - 1], recipeID);
    }
  }

  lemma BatchLinesRead(t: Tables, recipes: set<int>, ids: seq<int>, rows: seq<LineColumns>, recipeID: int)
    requires ValidLines(t) && AnswersLinesFor(t, recipes, ids) && SelectsLines(t, ids, rows) && recipeID in recipes
    ensures LinesFor(rows, recipeID) == ReadLines(t, recipeID)
  {
    var own := OwnLines(t, ids, recipeID);
    BatchAnswersOne(t, recipes, ids, recipeID);
    LinesForSelected(t, ids, rows, recipeID);
    OneLineOrder(t, recipeID, own);
    assert LinesFor(rows, recipeID) == LinesAt(t, KeysOf(t, own));
  }

  lemma {:induction false} OwnLinksMembers(links: seq<(int, int)>, recipeID: int)
    ensures forall id :: id in OwnLinks(links, recipeID) <==> (recipeID, id) in links
  {
    if links != [] {
      OwnLinksMembers(links[..|links| - 1], recipeID);
      assert links == links[..|links| - 1] + [links[|links| - 1]];
    }
  }

  /** What the batch's order says about the categories of one recipe. */
  ghost predicate NameOrdered(l: Lookup, before: Collation, links: seq<(int, int)>)
  {
    && (forall i | 0 <= i < |links| :: links[i].1 in l.rows)
    && forall i, j | 0 <= i < j < |links| && links[i].0 == links[j].0 ::
         links[i].1 != links[j].1 && !before(l.rows[links[j].1], l.rows[links[i].1])
  }

  ghost predicate IDsOrdered(l: Lookup, before: Collation, ids: seq<int>)
  {
    && (forall i | 0 <= i < |ids| :: ids[i] in l.rows)
    && forall i, j | 0 <= i < j < |ids| :: ids[i] != ids[j] && !before(l.rows[ids[j]], l.rows[ids[i]])
  }

  lemma {:induction false} OwnLinksOrdered(l: Lookup, before: Collation, links: seq<(int, int)>, recipeID: int)
    requires NameOrdered(l, before, links)
    ensures IDsOrdered(l, before, OwnLinks(links, recipeID))
  {
    if links != [] {
      var init, last := links[..|links| - 1], links[|links| - 1];
      OwnLinksOrdered(l, before, init, recipeID);
      OwnLinksMembers(init, recipeID);
      var own := OwnLinks(init, recipeID);
      assert links[|links| - 1].1 in l.rows;
      if last.0 == recipeID {
        forall k | 0 <= k < |own|
          ensures own[k] != last.1 && !before(l.rows[last.1], l.rows[own[k]])
        {
          var id := own[k];
          assert id in own;
          var i :| 0 <= i < |init| && init[i] == (recipeID, id);
          assert links[i] == (recipeID, id) && links[|links| - 1] == last;
        }
      }
    }
  }

  lemma {:induction false} CategoriesForSelected(t: Tables, links: seq<(int, int)>, rows: seq<CategoryColumns>,
                                                 recipeID: int)
    requires SelectsCategories(t, links, rows)
    ensures |CategoriesFor(rows, recipeID)| == |OwnLinks(links, recipeID)|
    ensures forall i | 0 <= i < |OwnLinks(links, recipeID)| ::
              var id := OwnLinks(links, recipeID)[i];
              id in t.categories.rows && CategoriesFor(rows, recipeID)[i] == Category(id, t.categories.rows[id])
  {
    if links != [] {
      CategoriesForSelected(t, links[..|links| - 1], rows[..|rows| - 1], recipeID);
    }
  }

  lemma BatchCategoriesRead(t: Tables, before: Collation, recipes: set<int>, links: seq<(int, int)>,
                            rows: seq<CategoryColumns>, recipeID: int)
    requires Valid(t) && StrictTotal(before) && recipeID in recipes
    requires AnswersCategoriesFor(t, before, recipes, links) && SelectsCategories(t, links, rows)
    ensures CategoriesFor(rows, recipeID) == ReadCategories(t, before, recipeID)
  {
    var own := OwnLinks(links, recipeID);
    OwnLinksMembers(links, recipeID);
    forall i, j | 0 <= i < j < |links| && links[i].0 == links[j].0
      ensures links[i].1 != links[j].1
    {
      assert links[i] != links[j];
    }
    OwnLinksOrdered(t.categories, before, links, recipeID);
    forall id | id in own
      ensures id in t.categories.rows
    {
      var i :| 0 <= i < |own| && own[i] == id;
    }
    assert AnswersCategories(t, before, recipeID, own);
    CategoriesForSelected(t, links, rows, recipeID);
    CategoriesAreRead(t, before, recipeID, own, CategoriesFor(rows, recipeID));
  }

  /** The answers of the two batched child queries for the recipes of a page. */
  ghost predicate BatchAnswers(t: Tables, before: Collation, recipes: set<int>,
                               lineRows: seq<LineColumns>, categoryRows: seq<CategoryColumns>)
  {
    && (exists ids :: AnswersLinesFor(t, recipes, ids) && SelectsLines(t, ids, lineRows))
    && (exists links :: AnswersCategoriesFor(t, before, recipes, links) && SelectsCategories(t, links, categoryRows))
  }

  lemma BatchAnswersRead(t: Tables, before: Collation, recipes: set<int>, lineRows: seq<LineColumns>,
                         categoryRows: seq<CategoryColumns>, id: int)
    requires Valid(t) && StrictTotal(before) && id in recipes && id in t.recipes
    requires BatchAnswers(t, before, recipes, lineRows, categoryRows)
    ensures Filled(id, t.recipes[id], LinesFor(lineRows, id), CategoriesFor(categoryRows, id)) == Read(t, before, id)
  {
    var ids :| AnswersLinesFor(t, recipes, ids) && SelectsLines(t, ids, lineRows);
    BatchLinesRead(t, recipes, ids, lineRows, id);
    var links :| AnswersCategoriesFor(t, before, recipes, links) && SelectsCategories(t, links, categoryRows);
    BatchCategoriesRead(t, before, recipes, links, categoryRows, id);
  }

  ghost function PageIDs(rows: seq<(int, RecipeRow)>): set<int>
  {
    set i | 0 <= i < |rows| :: rows[i].0
  }

  /** `assemblePage`: every recipe of the page comes out exactly as a read of it alone would give it. */
  method AssemblePage(ghost t: Tables, ghost before: Collation, rows: seq<(int, RecipeRow)>,
                      lineRows: seq<LineColumns>, categoryRows: seq<CategoryColumns>)
    returns (recipes: seq<Recipe>)
    requires Valid(t) && StrictTotal(before)
    requires forall i | 0 <= i < |rows| :: rows[i].0 in t.recipes && rows[i].1 == t.recipes[rows[i].0]
    requires BatchAnswers(t, before, PageIDs(rows), lineRows, categoryRows)
    ensures |recipes| == |rows|
    ensures forall i | 0 <= i < |rows| :: recipes[i] == Read(t, before, rows[i].0)
  {
    if |rows| == 0 {
      return [];
    }
    recipes := GroupPage(rows, lineRows, categoryRows);
    forall i | 0 <= i < |rows|
      ensures recipes[i] == Read(t, before, rows[i].0)
    {
      assert rows[i].0 in PageIDs(rows);
      BatchAnswersRead(t, before, PageIDs(rows), lineRows, categoryRows, rows[i].0);
    }
  }
}
