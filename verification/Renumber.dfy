/** Migration 0003: every recipe's ingredient lines are renumbered in the order they are read in, and
    then the pair of recipe and position is made unique. */
module Renumber {
  import opened Wrappers
  import opened Tables
  import opened Orders
  import opened RecipeReads

  type Rows = map<int, LineRow>

  const MAX_INT32 := 0x7fff_ffff

  /** The key the lines of a recipe are read by. */
  function Key(rows: Rows, id: int): (int, int)
    requires id in rows
  {
    (rows[id].position, id)
  }

  function LinesOf(rows: Rows, recipeID: int): set<int>
  {
    set id | id in rows && rows[id].recipeID == recipeID
  }

  /** The lines of the same recipe that are read before this one. */
  function Before(rows: Rows, id: int): set<int>
    requires id in rows
  {
    set k | k in rows && rows[k].recipeID == rows[id].recipeID && PairLess(Key(rows, k), Key(rows, id))
  }

  /** row_number() over the recipe's lines by (position, id), less one. */
  function Rank(rows: Rows, id: int): nat
    requires id in rows
  {
    |Before(rows, id)|
  }

  /** The rows after the UPDATE, which touches a row only where its position differs. */
  function Renumbered(rows: Rows): Rows
  {
    map id | id in rows ::
      if rows[id].position != Rank(rows, id) then rows[id].(position := Rank(rows, id)) else rows[id]
  }

  /** Every new position fits the column; otherwise the cast refuses the whole statement. */
  predicate Fits(rows: Rows)
  {
    forall id <- rows :: Rank(rows, id) <= MAX_INT32
  }

  /** The constraint the migration adds. */
  ghost predicate UniquePositions(rows: Rows)
  {
    forall a, b | a in rows && b in rows && rows[a].recipeID == rows[b].recipeID
                  && rows[a].position == rows[b].position :: a == b
  }

  function Positions(rows: Rows, recipeID: int): set<int>
  {
    set id | id in LinesOf(rows, recipeID) :: rows[id].position
  }

  /** A recipe's positions are exactly 0..n-1, each held by one line. */
  ghost predicate CountsUp(rows: Rows, recipeID: int)
  {
    && Positions(rows, recipeID) == Below(|LinesOf(rows, recipeID)|)
    && forall a, b | a in LinesOf(rows, recipeID) && b in LinesOf(rows, recipeID)
                     && rows[a].position == rows[b].position :: a == b
  }

  // ---------------------------------------------------------------- ranks

  lemma LaterRanksHigher(rows: Rows, a: int, b: int)
    requires a in rows && b in rows && rows[a].recipeID == rows[b].recipeID
    requires PairLess(Key(rows, a), Key(rows, b))
    ensures Rank(rows, a) < Rank(rows, b)
  {
    assert Before(rows, a) + {a} <= Before(rows, b);
    assert a !in Before(rows, a);
    SubsetSize(Before(rows, a) + {a}, Before(rows, b));
  }

  /** Two lines of a recipe stand in the same order by rank as by (position, id). */
  lemma RankIsOrder(rows: Rows, a: int, b: int)
    requires a in rows && b in rows && rows[a].recipeID == rows[b].recipeID
    ensures Rank(rows, a) < Rank(rows, b) <==> PairLess(Key(rows, a), Key(rows, b))
    ensures Rank(rows, a) == Rank(rows, b) <==> a == b
  {
    PairOrder();
    if PairLess(Key(rows, a), Key(rows, b)) {
      LaterRanksHigher(rows, a, b);
    } else if a != b {
      assert PairLess(Key(rows, b), Key(rows, a));
      LaterRanksHigher(rows, b, a);
    }
  }

  lemma RankBelowCount(rows: Rows, id: int)
    requires id in rows
    ensures Rank(rows, id) < |LinesOf(rows, rows[id].recipeID)|
  {
    var all := LinesOf(rows, rows[id].recipeID);
    assert Before(rows, id) + {id} <= all;
    assert id !in Before(rows, id);
    SubsetSize(Before(rows, id) + {id}, all);
  }

  /** n lines with different positions below n use every position below n. */
  lemma PositionsAllUsed(rows: Rows, recipeID: int)
    requires forall id <- LinesOf(rows, recipeID) :: 0 <= rows[id].position < |LinesOf(rows, recipeID)|
    requires forall a, b | a in LinesOf(rows, recipeID) && b in LinesOf(rows, recipeID)
                           && rows[a].position == rows[b].position :: a == b
    ensures CountsUp(rows, recipeID)
  {
    var ids := LinesOf(rows, recipeID);
    var f := map id | id in rows :: rows[id].position;
    forall a, b | a in ids && b in ids && f[a] == f[b]
      ensures a == b
    {
      assert rows[a].position == rows[b].position;
    }
    ImageSize(ids, f);
    forall p | p in Positions(rows, recipeID)
      ensures p in Image(ids, f)
    {
      var id :| id in ids && rows[id].position == p;
      assert f[id] == p;
    }
    forall p | p in Image(ids, f)
      ensures p in Positions(rows, recipeID)
    {
      var id :| id in ids && f[id] == p;
      assert rows[id].position == p;
    }
    assert Image(ids, f) == Positions(rows, recipeID);
    assert Positions(rows, recipeID) <= Below(|ids|);
    SubsetSize(Positions(rows, recipeID), Below(|ids|));
  }

  // ---------------------------------------------------------------- what the migration does

  lemma SameLines(rows: Rows, recipeID: int)
    ensures LinesOf(Renumbered(rows), recipeID) == LinesOf(rows, recipeID)
  {
    assert forall id <- rows :: Renumbered(rows)[id].recipeID == rows[id].recipeID;
  }

  /** After the UPDATE every recipe's positions are exactly 0..n-1. */
  lemma PositionsCountUp(rows: Rows, recipeID: int)
    ensures CountsUp(Renumbered(rows), recipeID)
  {
    var rows' := Renumbered(rows);
    var ids := LinesOf(rows, recipeID);
    SameLines(rows, recipeID);
    forall id | id in ids
      ensures 0 <= rows'[id].position < |ids|
    {
      RankBelowCount(rows, id);
    }
    forall a, b | a in ids && b in ids && rows'[a].position == rows'[b].position
      ensures a == b
    {
      RankIsOrder(rows, a, b);
    }
    PositionsAllUsed(rows', recipeID);
  }

  /** So the constraint always applies. */
  lemma ConstraintApplies(rows: Rows)
    ensures UniquePositions(Renumbered(rows))
  {
    var rows' := Renumbered(rows);
    forall a, b | a in rows' && b in rows' && rows'[a].recipeID == rows'[b].recipeID
                  && rows'[a].position == rows'[b].position
      ensures a == b
    {
      RankIsOrder(rows, a, b);
    }
  }

  /** A recipe reads back in the same order as before: the line query's answers are the same. */
  lemma ReadOrderKept(t: Tables, recipeID: int, ids: seq<int>)
    ensures AnswersLines(t, recipeID, ids) <==> AnswersLines(t.(lines := Renumbered(t.lines)), recipeID, ids)
  {
    var rows := t.lines;
    SameLines(rows, recipeID);
    if forall id :: id in ids <==> id in rows && rows[id].recipeID == recipeID {
      forall i, j | 0 <= i < j < |ids|
        ensures ids[i] in rows && ids[j] in rows
        ensures PairLess(Key(rows, ids[i]), Key(rows, ids[j]))
           <==> PairLess(Key(Renumbered(rows), ids[i]), Key(Renumbered(rows), ids[j]))
      {
        var a, b := ids[i], ids[j];
        assert a in ids && b in ids;
        RankIsOrder(rows, a, b);
      }
    }
  }

  lemma CountedUpRank(rows: Rows, recipeID: int, id: int)
    requires CountsUp(rows, recipeID) && id in LinesOf(rows, recipeID)
    ensures Rank(rows, id) == rows[id].position
  {
    var before := Before(rows, id);
    var p := rows[id].position;
    var f := map k | k in rows :: rows[k].position;
    assert p in Positions(rows, recipeID);
    forall k | k in before
      ensures f[k] in Below(p)
    {
      assert f[k] in Positions(rows, recipeID);
    }
    ImageSize(before, f);
    forall q | q in Below(p)
      ensures q in Image(before, f)
    {
      assert q in Positions(rows, recipeID);
      var k :| k in LinesOf(rows, recipeID) && rows[k].position == q;
      assert k in before && f[k] == q;
    }
    assert Image(before, f) == Below(p);
  }

  ghost predicate Untouched(rows: Rows, recipeID: int)
  {
    forall id <- LinesOf(rows, recipeID) :: Renumbered(rows)[id] == rows[id]
  }

  /** A recipe is left alone exactly when its positions already counted up from zero. */
  lemma UntouchedExactly(rows: Rows, recipeID: int)
    ensures Untouched(rows, recipeID) <==> CountsUp(rows, recipeID)
  {
    if CountsUp(rows, recipeID) {
      forall id | id in LinesOf(rows, recipeID)
        ensures Renumbered(rows)[id] == rows[id]
      {
        CountedUpRank(rows, recipeID, id);
      }
    }
    if Untouched(rows, recipeID) {
      UntouchedCountsUp(rows, recipeID);
    }
  }

  lemma UntouchedCountsUp(rows: Rows, recipeID: int)
    requires Untouched(rows, recipeID)
    ensures CountsUp(rows, recipeID)
  {
    PositionsCountUp(rows, recipeID);
    SameLines(rows, recipeID);
    assert Positions(rows, recipeID) == Positions(Renumbered(rows), recipeID);
  }

  /** Nothing but positions changes. */
  lemma OnlyPositionsChange(rows: Rows)
    ensures Renumbered(rows).Keys == rows.Keys
    ensures forall id <- rows :: Renumbered(rows)[id].(position := 0) == rows[id].(position := 0)
  {}

  /** A second run of the UPDATE would find nothing to do. */
  lemma RenumberTwice(rows: Rows)
    ensures Renumbered(Renumbered(rows)) == Renumbered(rows)
  {
    var rows' := Renumbered(rows);
    forall id | id in rows'
      ensures Renumbered(rows')[id] == rows'[id]
    {
      var recipeID := rows'[id].recipeID;
      PositionsCountUp(rows, recipeID);
      UntouchedExactly(rows', recipeID);
      assert id in LinesOf(rows', recipeID);
    }
  }

  /** The migration's comment says that no position already unique is changed. A recipe whose only
      line stands at position 5 has no position twice, and its line is moved to 0 all the same. */
  lemma UniqueYetMoved(row: LineRow)
    requires row.position == 5
    ensures UniquePositions(map[1 := row])
    ensures Renumbered(map[1 := row])[1].position == 0
  {
    var rows := map[1 := row];
    assert Before(rows, 1) == {};
  }

  /** The cast refuses the statement exactly when a recipe has more than 2^31 lines. */
  lemma FitsExactly(rows: Rows)
    ensures Fits(rows) <==> forall id <- rows :: |LinesOf(rows, rows[id].recipeID)| <= MAX_INT32 + 1
  {
    if Fits(rows) {
      forall id | id in rows
        ensures |LinesOf(rows, rows[id].recipeID)| <= MAX_INT32 + 1
      {
        var recipeID := rows[id].recipeID;
        var n := |LinesOf(rows, recipeID)|;
        PositionsCountUp(rows, recipeID);
        SameLines(rows, recipeID);
        assert id in LinesOf(rows, recipeID) && n > 0;
        assert n - 1 in Positions(Renumbered(rows), recipeID);
        var last :| last in LinesOf(rows, recipeID) && Renumbered(rows)[last].position == n - 1;
        assert Rank(rows, last) <= MAX_INT32;
      }
    }
    forall id | id in rows
      ensures Rank(rows, id) < |LinesOf(rows, rows[id].recipeID)|
    {
      RankBelowCount(rows, id);
    }
  }

  // ---------------------------------------------------------------- the migration itself

  class LineTable {
    var rows: Rows
    /** Whether recipe_ingredients_recipe_id_position_key is in force. */
    var positionsUnique: bool

    constructor (rows: Rows)
      ensures this.rows == rows && !positionsUnique
    {
      this.rows := rows;
      positionsUnique := false;
    }

    /** Both statements in one transaction: a refused one leaves the table as it was. The second is
        never the one refused. */
    method Up() returns (err: Option<SqlError>)
      modifies this
      ensures err.Some? <==> exists id <- old(rows) :: |LinesOf(old(rows), old(rows)[id].recipeID)| > MAX_INT32 + 1
      ensures err.None? ==> rows == Renumbered(old(rows)) && positionsUnique && UniquePositions(rows)
      ensures err.Some? ==> rows == old(rows) && positionsUnique == old(positionsUnique)
    {
      FitsExactly(rows);
      if !Fits(rows) {
        return Some(Constraint);
      }
      ConstraintApplies(rows);
      rows := Renumbered(rows);
      positionsUnique := true;
      err := None;
    }
  }
}
