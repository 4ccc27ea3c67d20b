/** The database: its tables with the constraints of the schema, and the statements that change
    them. A statement either takes effect or is refused; a refused statement changes nothing. */
module Tables {
  import opened Wrappers

  const NEEDS_REVIEW := "needs_review"
  const PUBLISHED := "published"

  /** recipes_status_check, and the domain's own Valid. */
  predicate LegalStatus(status: string)
  {
    status == NEEDS_REVIEW || status == PUBLISHED
  }

  /** One of the three lookup tables: names by id, and the next value of its sequence. */
  datatype Lookup = Lookup(rows: map<int, string>, next: int)

  datatype RecipeRow = RecipeRow(name: string, instructions: string, imageURL: string, source: string,
                                 status: string, createdAt: int, updatedAt: int)

  datatype LineRow = LineRow(recipeID: int, ingredientID: int, amount: real, unitID: Option<int>, position: int)

  datatype Tables = Tables(units: Lookup, categories: Lookup, ingredients: Lookup,
                           recipes: map<int, RecipeRow>, nextRecipe: int,
                           lines: map<int, LineRow>, nextLine: int,
                           links: set<(int, int)>)

  datatype SqlError = NoRows | Constraint | Lost

  // ---------------------------------------------------------------- the schema invariant

  ghost predicate ValidLookup(l: Lookup)
  {
    && l.next > 0
    && (forall id <- l.rows :: 0 < id < l.next)
    && (forall a, b | a in l.rows && b in l.rows && l.rows[a] == l.rows[b] :: a == b)
  }

  /** Every row of l is still there, under its id. */
  ghost predicate Extends(l: Lookup, l': Lookup)
  {
    forall id <- l.rows :: id in l'.rows && l'.rows[id] == l.rows[id]
  }

  ghost predicate LookupsGrow(t: Tables, t': Tables)
  {
    Extends(t.units, t'.units) && Extends(t.categories, t'.categories) && Extends(t.ingredients, t'.ingredients)
  }

  ghost predicate ValidRecipes(t: Tables)
  {
    && t.nextRecipe > 0
    && (forall id <- t.recipes :: 0 < id < t.nextRecipe && LegalStatus(t.recipes[id].status))
    && (forall a, b | a in t.recipes && b in t.recipes && t.recipes[a].source == t.recipes[b].source :: a == b)
  }

  /** The foreign keys of an ingredient line. */
  ghost predicate LineRefs(t: Tables, row: LineRow)
  {
    && row.recipeID in t.recipes
    && row.ingredientID in t.ingredients.rows
    && (row.unitID.Some? ==> row.unitID.value in t.units.rows)
  }

  ghost predicate ValidLines(t: Tables)
  {
    && t.nextLine > 0
    && (forall id <- t.lines :: 0 < id < t.nextLine && LineRefs(t, t.lines[id]))
    && (forall a, b | a in t.lines && b in t.lines
                      && t.lines[a].recipeID == t.lines[b].recipeID
                      && t.lines[a].position == t.lines[b].position :: a == b)
  }

  ghost predicate ValidLinks(t: Tables)
  {
    forall l <- t.links :: l.0 in t.recipes && l.1 in t.categories.rows
  }

  /** What the schema promises of every committed state: unique names and sources, legal status,
      foreign keys, and no two lines of a recipe at one position. */
  ghost predicate Valid(t: Tables)
  {
    && ValidLookup(t.units) && ValidLookup(t.categories) && ValidLookup(t.ingredients)
    && ValidRecipes(t) && ValidLines(t) && ValidLinks(t)
  }

  // ---------------------------------------------------------------- reading

  ghost predicate Named(l: Lookup, name: string)
  {
    exists id :: id in l.rows && l.rows[id] == name
  }

  ghost predicate SourceStored(t: Tables, source: string)
  {
    exists id :: id in t.recipes && t.recipes[id].source == source
  }

  ghost function StoredSources(t: Tables): set<string>
  {
    set id <- t.recipes :: t.recipes[id].source
  }

  // ---------------------------------------------------------------- statements

  /** FindOrCreateIngredient, -Category and -Unit: read first, insert only when there is no row. */
  ghost function FindOrCreate(l: Lookup, name: string): (r: (Lookup, int))
    ensures r.1 in r.0.rows && r.0.rows[r.1] == name
    ensures Named(l, name) ==> r.0 == l
    ensures !Named(l, name) ==> r.1 == l.next && r.0 == Lookup(l.rows[l.next := name], l.next + 1)
  {
    if Named(l, name) then
      var id :| id in l.rows && l.rows[id] == name;
      (l, id)
    else (Lookup(l.rows[l.next := name], l.next + 1), l.next)
  }

  /** CreateRecipe: the check constraint is tested first, then ON CONFLICT (source) DO NOTHING. */
  ghost function InsertRecipe(t: Tables, row: RecipeRow): Result<(Tables, int), SqlError>
  {
    if !LegalStatus(row.status) then Err(Constraint)
    else if SourceStored(t, row.source) then Err(NoRows)
    else Ok((t.(recipes := t.recipes[t.nextRecipe := row], nextRecipe := t.nextRecipe + 1), t.nextRecipe))
  }

  /** UpdateRecipe: source and creation time stay, the update time becomes now. */
  ghost function UpdateRecipeRow(t: Tables, id: int, name: string, instructions: string, imageURL: string,
                                 status: string, now: int): Result<(Tables, RecipeRow), SqlError>
  {
    if id !in t.recipes then Err(NoRows)
    else if !LegalStatus(status) then Err(Constraint)
    else
      var row := t.recipes[id].(name := name, instructions := instructions, imageURL := imageURL,
                                status := status, updatedAt := now);
      Ok((t.(recipes := t.recipes[id := row]), row))
  }

  ghost function DeleteLines(t: Tables, recipeID: int): Tables
  {
    t.(lines := map id | id in t.lines && t.lines[id].recipeID != recipeID :: t.lines[id])
  }

  ghost function DeleteLinks(t: Tables, recipeID: int): Tables
  {
    t.(links := set l | l in t.links && l.0 != recipeID)
  }

  ghost predicate PositionTaken(t: Tables, recipeID: int, position: int)
  {
    exists id :: id in t.lines && t.lines[id].recipeID == recipeID && t.lines[id].position == position
  }

  ghost function AddLine(t: Tables, row: LineRow): Result<Tables, SqlError>
  {
    if !LineRefs(t, row) || PositionTaken(t, row.recipeID, row.position) then Err(Constraint)
    else Ok(t.(lines := t.lines[t.nextLine := row], nextLine := t.nextLine + 1))
  }

  /** AddRecipeCategory: a repeated link is ignored, a dangling one refused. */
  ghost function AddLink(t: Tables, recipeID: int, categoryID: int): Result<Tables, SqlError>
  {
    if recipeID !in t.recipes || categoryID !in t.categories.rows then Err(Constraint)
    else Ok(t.(links := t.links + {(recipeID, categoryID)}))
  }

  /** DeleteRecipe with the cascades of the schema; the number of rows it removed. */
  ghost function DeleteRecipe(t: Tables, id: int): (Tables, nat)
  {
    if id !in t.recipes then (t, 0)
    else (DeleteLinks(DeleteLines(t, id), id).(recipes := t.recipes - {id}), 1)
  }

  // ---------------------------------------------------------------- statements keep the invariant

  lemma FindOrCreateKeepsValid(l: Lookup, name: string)
    requires ValidLookup(l)
    ensures ValidLookup(FindOrCreate(l, name).0)
    ensures Extends(l, FindOrCreate(l, name).0)
    ensures FindOrCreate(l, name).1 > 0
  {}

  lemma InsertRecipeKeepsValid(t: Tables, row: RecipeRow)
    requires Valid(t) && InsertRecipe(t, row).Ok?
    ensures Valid(InsertRecipe(t, row).value.0)
  {
    var t' := InsertRecipe(t, row).value.0;
    assert forall id <- t.recipes :: id in t'.recipes && t'.recipes[id] == t.recipes[id];
    assert ValidRecipes(t');
    assert forall id <- t'.lines :: LineRefs(t, t.lines[id]);
  }

  lemma UpdateRecipeKeepsValid(t: Tables, id: int, name: string, instructions: string, imageURL: string,
                               status: string, now: int)
    requires Valid(t) && UpdateRecipeRow(t, id, name, instructions, imageURL, status, now).Ok?
    ensures Valid(UpdateRecipeRow(t, id, name, instructions, imageURL, status, now).value.0)
  {
    var t' := UpdateRecipeRow(t, id, name, instructions, imageURL, status, now).value.0;
    assert t'.recipes.Keys == t.recipes.Keys;
    assert forall k <- t.recipes :: t'.recipes[k].source == t.recipes[k].source;
    assert forall k <- t'.lines :: LineRefs(t, t.lines[k]);
  }

  lemma DeletesKeepValid(t: Tables, recipeID: int)
    requires Valid(t)
    ensures Valid(DeleteLines(t, recipeID)) && Valid(DeleteLinks(t, recipeID))
  {
    assert forall k <- DeleteLines(t, recipeID).lines :: LineRefs(t, t.lines[k]);
    assert forall k <- t.lines :: LineRefs(t, t.lines[k]);
  }

  lemma AddLineKeepsValid(t: Tables, row: LineRow)
    requires Valid(t) && AddLine(t, row).Ok?
    ensures Valid(AddLine(t, row).value)
  {
    var t' := AddLine(t, row).value;
    assert forall k <- t.lines :: LineRefs(t, t.lines[k]);
  }

  lemma AddLinkKeepsValid(t: Tables, recipeID: int, categoryID: int)
    requires Valid(t) && AddLink(t, recipeID, categoryID).Ok?
    ensures Valid(AddLink(t, recipeID, categoryID).value)
  {
    assert forall k <- t.lines :: LineRefs(t, t.lines[k]);
  }

  lemma DeleteRecipeKeepsValid(t: Tables, id: int)
    requires Valid(t)
    ensures Valid(DeleteRecipe(t, id).0)
  {
    if id in t.recipes {
      hide Valid;
      DeletesKeepValid(t, id);
      DeletesKeepValid(DeleteLines(t, id), id);
      BareRecipeGoes(DeleteLinks(DeleteLines(t, id), id), id);
    }
  }

  /** A recipe without lines and links can go. */
  lemma BareRecipeGoes(t: Tables, id: int)
    requires Valid(t)
    requires (forall k <- t.lines :: t.lines[k].recipeID != id) && forall l <- t.links :: l.0 != id
    ensures Valid(t.(recipes := t.recipes - {id}))
  {
    var t' := t.(recipes := t.recipes - {id});
    forall k | k in t'.lines
      ensures LineRefs(t', t'.lines[k])
    {
      assert LineRefs(t, t.lines[k]);
    }
  }

  /** Growing a lookup table breaks no reference to it. */
  lemma GrowLookupsKeepsValid(t: Tables, units: Lookup, categories: Lookup, ingredients: Lookup)
    requires Valid(t) && ValidLookup(units) && ValidLookup(categories) && ValidLookup(ingredients)
    requires Extends(t.units, units) && Extends(t.categories, categories) && Extends(t.ingredients, ingredients)
    ensures Valid(t.(units := units, categories := categories, ingredients := ingredients))
  {
    ExtendsKeys(t.units, units);
    ExtendsKeys(t.categories, categories);
    ExtendsKeys(t.ingredients, ingredients);
    assert forall k <- t.lines :: LineRefs(t, t.lines[k]);
  }

  lemma ExtendsKeys(l: Lookup, l': Lookup)
    requires Extends(l, l')
    ensures l.rows.Keys <= l'.rows.Keys
  {
    forall id | id in l.rows.Keys
      ensures id in l'.rows.Keys
    {
      assert id in l.rows;
    }
  }
}
