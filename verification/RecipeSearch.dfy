/** `Search`: the filter, the paging arithmetic on fixed-width integers, and what the pages of one
    result add up to. */
module RecipeSearch {
  import opened Wrappers
  import opened Domain
  import opened Tables
  import opened Orders
  import LikeSearch
  import R = RecipeReads

  newtype int64 = x: int | -0x8000_0000_0000_0000 <= x < 0x8000_0000_0000_0000
  newtype int32 = x: int | -0x8000_0000 <= x < 0x8000_0000

  const MAX_INT32: int64 := 0x7FFF_FFFF

  lemma ProductFits(a: int, b: int)
    requires a >= 0 && b >= 0
    ensures a * b >= 0
  {}

  datatype SearchQuery = SearchQuery(text: string, categoryID: Option<int>, status: Option<string>,
                                     page: int64, pageSize: int64)
  {
    function Page(): (p: int64) ensures p >= 1 { if page < 1 then 1 else page }
    /** The offset of the page, as a mathematical integer. */
    ghost function Offset(): (o: nat)
    {
      ProductFits(Page() as int - 1, Size() as int);
      (Page() as int - 1) * Size() as int
    }
    function Size(): (n: int64) ensures 1 <= n <= 100 { if pageSize < 1 || pageSize > 100 then 20 else pageSize }
  }

  /** The database's case mapping and collation. */
  datatype Locale = Locale(lower: string -> string, before: (string, string) -> bool)

  // ---------------------------------------------------------------- the result set

  /** The WHERE clause: text, category semi-join and status, each optional. */
  ghost predicate Selected(t: Tables, loc: Locale, q: SearchQuery, id: int)
  {
    && id in t.recipes
    && LikeSearch.TextFilter(loc.lower, t.recipes[id].name, q.text)
    && (q.categoryID.Some? ==> exists l :: l in t.links && l.0 == id && l.1 == q.categoryID.value)
    && (q.status.Some? ==> t.recipes[id].status == q.status.value)
  }

  function ByNameThenID(before: (string, string) -> bool): ((string, int), (string, int)) -> bool
  {
    (a: (string, int), b: (string, int)) => before(a.0, b.0) || (a.0 == b.0 && a.1 < b.1)
  }

  lemma NameOrderIsTotal(before: (string, string) -> bool)
    requires StrictTotal(before)
    ensures StrictTotal(ByNameThenID(before))
  {
    var less := ByNameThenID(before);
    forall x, y, z | less(x, y) && less(y, z)
      ensures less(x, z)
    {
      assert before(x.0, y.0) && before(y.0, z.0) ==> before(x.0, z.0);
    }
    forall x, y
      ensures x == y || less(x, y) || less(y, x)
    {
      assert x.0 == y.0 || before(x.0, y.0) || before(y.0, x.0);
    }
  }

  ghost function MatchKeys(t: Tables, loc: Locale, q: SearchQuery): set<(string, int)>
  {
    set id | id in t.recipes && Selected(t, loc, q, id) :: (t.recipes[id].name, id)
  }

  /** All matches, ordered by (name, id). Names repeat, so the id is what makes the order total. */
  ghost function Matches(t: Tables, loc: Locale, q: SearchQuery): seq<(string, int)>
    requires StrictTotal(loc.before)
  {
    NameOrderIsTotal(loc.before);
    Sort(MatchKeys(t, loc, q), ByNameThenID(loc.before))
  }

  /** LIMIT and OFFSET. */
  function Slice<T>(s: seq<T>, offset: nat, limit: nat): seq<T>
  {
    if offset >= |s| then [] else Take(s[offset..], limit)
  }

  /** rows is an answer of SearchRecipes: the selected recipes ordered by name and id, cut to size. */
  ghost predicate AnswersSearch(t: Tables, loc: Locale, q: SearchQuery, limit: int32, offset: int32,
                                rows: seq<(int, RecipeRow)>)
    requires StrictTotal(loc.before)
  {
    && limit >= 0 && offset >= 0
    && var keys := Slice(Matches(t, loc, q), offset as int, limit as int);
       && |rows| == |keys|
       && forall i | 0 <= i < |rows| ::
            rows[i].0 in t.recipes && rows[i].0 == keys[i].1 && rows[i].1 == t.recipes[rows[i].0]
  }

  /** The database as `Search` uses it: a count, a page of rows, and the children of that page. */
  datatype Queries = Queries(count: int64,
                             search: (int32, int32) -> seq<(int, RecipeRow)>,
                             lines: seq<(int, RecipeRow)> -> seq<R.LineColumns>,
                             categories: seq<(int, RecipeRow)> -> seq<R.CategoryColumns>)

  ghost predicate Answers(t: Tables, loc: Locale, q: SearchQuery, db: Queries)
    requires StrictTotal(loc.before)
  {
    && db.count as int == |MatchKeys(t, loc, q)|
    && (forall limit: int32, offset: int32 | 0 <= limit && 0 <= offset ::
          AnswersSearch(t, loc, q, limit, offset, db.search(limit, offset)))
    && forall limit: int32, offset: int32 | 0 <= limit && 0 <= offset ::
         var rows := db.search(limit, offset);
         R.BatchAnswers(t, loc.before, R.PageIDs(rows), db.lines(rows), db.categories(rows))
  }

  // ---------------------------------------------------------------- the page

  /** The division of the guard asks whether the offset would pass the largest 32-bit integer,
      without computing it. */
  lemma GuardIsOverflow(page: int, size: int)
    requires page >= 1 && size >= 1
    ensures page - 1 > 0x7FFF_FFFF / size <==> (page - 1) * size > 0x7FFF_FFFF
  {
    var d := 0x7FFF_FFFF / size;
    QuotientEnds(0x7FFF_FFFF, size);
    if page - 1 > d {
      ProductGrows(d + 1, page - 1, size);
      assert (d + 1) * size == d * size + size;
    } else {
      ProductGrows(page - 1, d, size);
    }
  }

  lemma QuotientEnds(m: int, size: int)
    requires m >= 0 && size >= 1
    ensures (m / size) * size <= m < (m / size) * size + size
  {
    assert m == (m / size) * size + m % size;
  }

  lemma ProductGrows(a: int, b: int, c: int)
    requires a <= b && c >= 0
    ensures a * c <= b * c
  {
    assert (b - a) * c >= 0;
    assert (b - a) * c == b * c - a * c;
  }

  /** A slice, as far as a 32-bit offset can reach. */
  function Addressed<T>(s: seq<T>, offset: nat, limit: nat): seq<T>
  {
    if offset > 0x7FFF_FFFF then [] else Slice(s, offset, limit)
  }

  lemma AddressedExact<T>(s: seq<T>, offset: nat, limit: nat)
    requires limit > 0
    ensures Addressed(s, offset, limit) == Slice(s, offset, limit) <==> offset <= 0x7FFF_FFFF || offset >= |s|
  {
    if offset < |s| {
      assert Slice(s, offset, limit)[0] == s[offset];
    }
  }

  /** The page a search returns: its slice of the matches while the offset can be addressed, and
      nothing beyond. */
  ghost function PageKeys(t: Tables, loc: Locale, q: SearchQuery): seq<(string, int)>
    requires StrictTotal(loc.before)
  {
    Addressed(Matches(t, loc, q), q.Offset(), q.Size() as int)
  }

  /** keys are the p-th page of n of all, counting from 1. */
  ghost predicate IsPage(all: seq<(string, int)>, keys: seq<(string, int)>, p: int, n: int)
  {
    && p >= 1 && n >= 1
    && |keys| == (if p * n <= |all| then n else if (p - 1) * n <= |all| then |all| - (p - 1) * n else 0)
    && forall i | 0 <= i < |keys| :: 0 <= (p - 1) * n + i < |all| && keys[i] == all[(p - 1) * n + i]
  }

  lemma SliceIsPage(all: seq<(string, int)>, p: int, n: int)
    requires p >= 1 && n >= 1
    ensures (p - 1) * n >= 0 && p * n == (p - 1) * n + n
    ensures IsPage(all, Slice(all, (p - 1) * n, n), p, n)
  {
    ProductFits(p - 1, n);
    assert p * n == (p - 1) * n + n;
  }

  /** What a search returns, by the numbers asked for: a page size in 1..100 is taken as asked and any other
      is 20; a page below 1 is the first. */
  lemma PageKeysMeaning(t: Tables, loc: Locale, q: SearchQuery)
    requires StrictTotal(loc.before)
    ensures var n := if 1 <= q.pageSize <= 100 then q.pageSize as int else 20;
            var p := if q.page >= 1 then q.page as int else 1;
            if (p - 1) * n <= 0x7FFF_FFFF then IsPage(Matches(t, loc, q), PageKeys(t, loc, q), p, n)
            else PageKeys(t, loc, q) == []
  {
    hide Matches, Slice, IsPage;
    var n := if 1 <= q.pageSize <= 100 then q.pageSize as int else 20;
    var p := if q.page >= 1 then q.page as int else 1;
    SliceIsPage(Matches(t, loc, q), p, n);
    assert q.Offset() == (p - 1) * n && q.Size() as int == n;
  }

  /** The matches are exactly the selected recipes, ascending by name and, among equal names, by id. */
  lemma MatchesOrdered(t: Tables, loc: Locale, q: SearchQuery)
    requires StrictTotal(loc.before)
    ensures var m := Matches(t, loc, q);
            && (forall i, j | 0 <= i < j < |m| :: loc.before(m[i].0, m[j].0) || (m[i].0 == m[j].0 && m[i].1 < m[j].1))
            && (forall i | 0 <= i < |m| :: Selected(t, loc, q, m[i].1) && m[i].0 == t.recipes[m[i].1].name)
            && forall id :: Selected(t, loc, q, id) ==> exists i :: 0 <= i < |m| && m[i].1 == id
  {
    NameOrderIsTotal(loc.before);
    var m := Matches(t, loc, q);
    hide Selected;
    forall i | 0 <= i < |m|
      ensures m[i].1 in t.recipes && Selected(t, loc, q, m[i].1) && m[i].0 == t.recipes[m[i].1].name
    {
      assert m[i] in Elements(m);
    }
    forall id | id in t.recipes && Selected(t, loc, q, id)
      ensures exists i :: 0 <= i < |m| && m[i].1 == id
    {
      var key := (t.recipes[id].name, id);
      assert key in MatchKeys(t, loc, q);
      assert key in Elements(m);
      var i :| 0 <= i < |m| && m[i] == key;
      assert m[i].1 == id;
    }
    SelectedAreStored(t, loc, q);
  }

  lemma SelectedAreStored(t: Tables, loc: Locale, q: SearchQuery)
    ensures forall id :: Selected(t, loc, q, id) ==> id in t.recipes
  {}

  /** recipes are what reads of the recipes with these ids return, in this order. */
  ghost predicate ReadsOf(t: Tables, loc: Locale, keys: seq<(string, int)>, recipes: seq<Recipe>)
    requires Valid(t) && StrictTotal(loc.before)
  {
    && |recipes| == |keys|
    && forall i | 0 <= i < |keys| ::
         keys[i].1 in t.recipes && recipes[i] == R.Read(t, loc.before, keys[i].1)
  }

  /** recipes are the reads of the matches from (p - 1) * n up to p * n, where n is the page size asked for if
      that lies in 1..100 and else 20, and p is the page asked for or, below 1, the first; nothing where 32
      bits cannot hold the offset. */
  ghost predicate IsPageAskedFor(t: Tables, loc: Locale, q: SearchQuery, recipes: seq<Recipe>)
    requires Valid(t) && StrictTotal(loc.before)
  {
    var n := if 1 <= q.pageSize <= 100 then q.pageSize as int else 20;
    var p := if q.page >= 1 then q.page as int else 1;
    if (p - 1) * n <= 0x7FFF_FFFF
    then exists keys :: IsPage(Matches(t, loc, q), keys, p, n) && ReadsOf(t, loc, keys, recipes)
    else recipes == []
  }

  lemma PageAskedFor(t: Tables, loc: Locale, q: SearchQuery, recipes: seq<Recipe>)
    requires Valid(t) && StrictTotal(loc.before) && ReadsOf(t, loc, PageKeys(t, loc, q), recipes)
    ensures IsPageAskedFor(t, loc, q, recipes)
  {
    hide Valid, Matches, PageKeys, IsPage, R.Read;
    PageKeysMeaning(t, loc, q);
  }

  /** `Search`. Every operation on the page numbers stays within its width. */
  method Search(ghost t: Tables, ghost loc: Locale, q: SearchQuery, db: Queries)
    returns (recipes: seq<Recipe>, total: int64)
    requires Valid(t) && StrictTotal(loc.before) && Answers(t, loc, q, db)
    ensures total as int == |Matches(t, loc, q)|
    ensures IsPageAskedFor(t, loc, q, recipes)
    ensures ReadsOf(t, loc, PageKeys(t, loc, q), recipes)
  {
    hide Valid, MatchKeys, Matches, R.Read, R.BatchAnswers, IsPageAskedFor, StrictTotal;
    MatchesCounted(t, loc, q);
    var page, pageSize := q.page, q.pageSize;
    if page < 1 {
      page := 1;
    }
    if pageSize < 1 || pageSize > 100 {
      pageSize := 20;
    }
    total := db.count;
    GuardIsOverflow(page as int, pageSize as int);
    if page - 1 > MAX_INT32 / pageSize {
      PageAskedFor(t, loc, q, []);
      return [], total;
    }
    OffsetFits(page, pageSize);
    var offset: int64 := (page - 1) * pageSize;
    assert offset as int == q.Offset();
    var rows := db.search(pageSize as int32, offset as int32);
    assert AnswersSearch(t, loc, q, pageSize as int32, offset as int32, rows);
    recipes := R.AssemblePage(t, loc.before, rows, db.lines(rows), db.categories(rows));
    PageAskedFor(t, loc, q, recipes);
  }

  lemma MatchesCounted(t: Tables, loc: Locale, q: SearchQuery)
    requires StrictTotal(loc.before)
    ensures |Matches(t, loc, q)| == |MatchKeys(t, loc, q)|
  {}

  lemma OffsetFits(page: int64, size: int64)
    requires page >= 1 && 1 <= size <= 100 && page - 1 <= MAX_INT32 / size
    ensures 0 <= (page as int - 1) * size as int <= 0x7FFF_FFFF
  {
    GuardIsOverflow(page as int, size as int);
  }

  // ---------------------------------------------------------------- what the pages add up to

  /** A page is the true page of the result exactly when its offset can be addressed or there is
      nothing there: only a result of more than 2^31 rows has pages that cannot be reached. */
  lemma PageExact(t: Tables, loc: Locale, q: SearchQuery)
    requires StrictTotal(loc.before)
    ensures PageKeys(t, loc, q) == Slice(Matches(t, loc, q), q.Offset(), q.Size() as int)
            <==> q.Offset() <= 0x7FFF_FFFF || q.Offset() >= |Matches(t, loc, q)|
  {
    AddressedExact(Matches(t, loc, q), q.Offset(), q.Size() as int);
  }

  /** How many matches n pages of a size reach. */
  function Reach(n: nat, size: nat): nat
  {
    n * size
  }

  lemma ReachNext(n: nat, size: nat)
    ensures Reach(0, size) == 0 && Reach(n + 1, size) == Reach(n, size) + size
  {
    assert (n + 1) * size == n * size + size;
  }

  /** The first n pages of the given size, one after the other. */
  ghost function FirstPages(t: Tables, loc: Locale, q: SearchQuery, n: nat): seq<(string, int)>
    requires StrictTotal(loc.before) && n < 0x8000_0000_0000_0000
  {
    if n == 0 then []
    else FirstPages(t, loc, q, n - 1) + PageKeys(t, loc, q.(page := n as int64))
  }

  lemma SliceNext<T>(s: seq<T>, offset: nat, limit: nat)
    ensures Take(s, offset) + Slice(s, offset, limit) == Take(s, offset + limit)
  {}

  lemma MatchesIgnorePage(t: Tables, loc: Locale, q: SearchQuery, page: int64)
    requires StrictTotal(loc.before)
    ensures Matches(t, loc, q.(page := page)) == Matches(t, loc, q)
  {
    assert forall id :: Selected(t, loc, q.(page := page), id) <==> Selected(t, loc, q, id);
    assert MatchKeys(t, loc, q.(page := page)) == MatchKeys(t, loc, q);
  }

  /** With at most 2^31 matches, the pages follow one another without gap or repeat; the last of
      ceil(total / size) pages completes the ordered list. */
  lemma {:induction false} PagesTile(t: Tables, loc: Locale, q: SearchQuery, n: nat)
    requires StrictTotal(loc.before) && n < 0x8000_0000_0000_0000
    requires |Matches(t, loc, q)| <= 0x8000_0000
    ensures FirstPages(t, loc, q, n) == Take(Matches(t, loc, q), Reach(n, q.Size() as int))
    ensures Reach(n, q.Size() as int) >= |Matches(t, loc, q)| ==> FirstPages(t, loc, q, n) == Matches(t, loc, q)
  {
    hide Matches, PageKeys, SearchQuery.Size, Reach;
    if n > 0 {
      PagesTile(t, loc, q, n - 1);
      NextPage(t, loc, q, n);
    } else {
      ReachNext(0, q.Size() as int);
    }
  }

  /** Asked for in pages of a size in 1..100, the first n pages are the first n * size matches. */
  lemma AskedPagesTile(t: Tables, loc: Locale, q: SearchQuery, n: nat)
    requires StrictTotal(loc.before) && n < 0x8000_0000_0000_0000 && 1 <= q.pageSize <= 100
    requires |Matches(t, loc, q)| <= 0x8000_0000
    ensures n * q.pageSize as int >= 0
    ensures FirstPages(t, loc, q, n) == Take(Matches(t, loc, q), n * q.pageSize as int)
  {
    hide Matches, FirstPages;
    ProductFits(n, q.pageSize as int);
    PagesTile(t, loc, q, n);
  }

  lemma NextPage(t: Tables, loc: Locale, q: SearchQuery, n: nat)
    requires StrictTotal(loc.before) && 0 < n < 0x8000_0000_0000_0000
    requires |Matches(t, loc, q)| <= 0x8000_0000
    ensures Take(Matches(t, loc, q), Reach(n - 1, q.Size() as int)) + PageKeys(t, loc, q.(page := n as int64))
            == Take(Matches(t, loc, q), Reach(n, q.Size() as int))
  {
    hide PageKeys, Matches, SearchQuery.Size, Reach, Slice;
    ReachNext(n - 1, q.Size() as int);
    PageIsSlice(t, loc, q, n);
    SliceNext(Matches(t, loc, q), Reach(n - 1, q.Size() as int), q.Size() as int);
  }

  lemma PageIsSlice(t: Tables, loc: Locale, q: SearchQuery, n: nat)
    requires StrictTotal(loc.before) && 0 < n < 0x8000_0000_0000_0000
    requires |Matches(t, loc, q)| <= 0x8000_0000
    ensures PageKeys(t, loc, q.(page := n as int64))
         == Slice(Matches(t, loc, q), Reach(n - 1, q.Size() as int), q.Size() as int)
  {
    hide PageKeys, Matches;
    var nth := q.(page := n as int64);
    MatchesIgnorePage(t, loc, q, n as int64);
    PageExact(t, loc, nth);
    assert nth.Offset() == Reach(n - 1, q.Size() as int) && nth.Size() == q.Size();
  }

  /** The text condition, in words: case-folded substring search. */
  lemma SelectedMeaning(t: Tables, loc: Locale, q: SearchQuery, id: int)
    ensures Selected(t, loc, q, id) <==>
              && id in t.recipes
              && (q.text == "" || LikeSearch.Contains(loc.lower(t.recipes[id].name), loc.lower(q.text)))
              && (q.categoryID.Some? ==> (id, q.categoryID.value) in t.links)
              && (q.status.Some? ==> t.recipes[id].status == q.status.value)
  {
    if id in t.recipes {
      LikeSearch.TextFilterMeaning(loc.lower, t.recipes[id].name, q.text);
    }
  }
}
