/** Names an import writes into shared lookup tables: `sanitizeName`, `foldCategory` and the closed
    category vocabulary. A string is a sequence of runes. */
module Names {
  // ---------------------------------------------------------------- rune classes

  /** Unicode category Cc. */
  predicate IsControl(c: char)
  {
    var n := c as int;
    n <= 0x1F || 0x7F <= n <= 0x9F
  }

  /** The Unicode White_Space property. */
  predicate IsSpace(c: char)
  {
    var n := c as int;
    || 0x09 <= n <= 0x0D || n == 0x20 || n == 0x85 || n == 0xA0 || n == 0x1680
    || 0x2000 <= n <= 0x200A || n == 0x2028 || n == 0x2029 || n == 0x202F || n == 0x205F || n == 0x3000
  }

  // ---------------------------------------------------------------- strings functions

  function MapRunes(f: char -> char, s: string): (r: string)
    ensures |r| == |s| && forall i | 0 <= i < |s| :: r[i] == f(s[i])
  {
    seq(|s|, i requires 0 <= i < |s| => f(s[i]))
  }

  function ControlToSpace(c: char): char
  {
    if c == '\n' || c == '\r' || c == '\t' || IsControl(c) then ' ' else c
  }

  /** The length of the longest prefix of s without whitespace. */
  function WordLength(s: string): (n: nat)
    ensures n <= |s|
    ensures forall i | 0 <= i < n :: !IsSpace(s[i])
    ensures n < |s| ==> IsSpace(s[n])
  {
    if s == "" || IsSpace(s[0]) then 0 else 1 + WordLength(s[1..])
  }

  /** strings.Fields: the maximal runs of non-whitespace. */
  function Fields(s: string): seq<string>
    decreases |s|
  {
    if s == "" then []
    else if IsSpace(s[0]) then Fields(s[1..])
    else [s[..WordLength(s)]] + Fields(s[WordLength(s)..])
  }

  /** strings.Join with a single space. */
  function Join(words: seq<string>): string
  {
    if words == [] then ""
    else if |words| == 1 then words[0]
    else words[0] + " " + Join(words[1..])
  }

  function TrimLeft(s: string): string
  {
    if s != "" && IsSpace(s[0]) then TrimLeft(s[1..]) else s
  }

  function TrimRight(s: string): string
  {
    if s != "" && IsSpace(s[|s| - 1]) then TrimRight(s[..|s| - 1]) else s
  }

  function TrimSpace(s: string): string
  {
    TrimRight(TrimLeft(s))
  }

  /** `sanitizeName`: one line, single spaces, at most maxRunes runes. */
  function SanitizeName(name: string, maxRunes: nat): string
  {
    var cleaned := TrimSpace(Join(Fields(MapRunes(ControlToSpace, name))));
    if |cleaned| <= maxRunes then cleaned else TrimSpace(cleaned[..maxRunes])
  }

  lemma {:induction false} LeftTrimmed(s: string) returns (a: nat)
    ensures a <= |s| && TrimLeft(s) == s[a..]
    ensures (forall i | 0 <= i < a :: IsSpace(s[i])) && (a < |s| ==> !IsSpace(s[a]))
  {
    a := 0;
    if s != "" && IsSpace(s[0]) {
      var rest := LeftTrimmed(s[1..]);
      a := rest + 1;
      assert forall i | 1 <= i < a :: s[i] == s[1..][i - 1];
    }
  }

  lemma {:induction false} RightTrimmed(s: string) returns (b: nat)
    ensures b <= |s| && TrimRight(s) == s[..b]
    ensures (forall i | b <= i < |s| :: IsSpace(s[i])) && (b > 0 ==> !IsSpace(s[b - 1]))
  {
    b := |s|;
    if s != "" && IsSpace(s[|s| - 1]) {
      b := RightTrimmed(s[..|s| - 1]);
    }
  }

  /** Trimming takes away exactly the whitespace at both ends. */
  lemma TrimmedMeaning(s: string) returns (a: nat, b: nat)
    ensures a <= b <= |s| && TrimSpace(s) == s[a..b]
    ensures forall i | 0 <= i < |s| && (i < a || b <= i) :: IsSpace(s[i])
    ensures a < b ==> !IsSpace(s[a]) && !IsSpace(s[b - 1])
  {
    a := LeftTrimmed(s);
    var n := RightTrimmed(s[a..]);
    b := a + n;
  }

  // ---------------------------------------------------------------- the normal form

  /** A name as it may be stored: no control characters, and no whitespace other than single spaces
      between its words. */
  ghost predicate Normal(s: string)
  {
    && (forall i | 0 <= i < |s| :: !IsControl(s[i]) && (IsSpace(s[i]) ==> s[i] == ' '))
    && (forall i | 0 <= i < |s| - 1 :: !(IsSpace(s[i]) && IsSpace(s[i + 1])))
    && (s != "" ==> !IsSpace(s[0]) && !IsSpace(s[|s| - 1]))
  }

  /** The characters of s that are neither whitespace nor control. */
  function Visible(s: string): string
  {
    if s == "" then ""
    else
      var init := Visible(s[..|s| - 1]);
      var c := s[|s| - 1];
      if IsSpace(c) || IsControl(c) then init else init + [c]
  }

  ghost predicate Words(words: seq<string>)
  {
    forall k | 0 <= k < |words| ::
      words[k] != "" && forall i | 0 <= i < |words[k]| :: !IsSpace(words[k][i]) && !IsControl(words[k][i])
  }

  lemma {:induction false} FieldsAreWords(s: string)
    requires forall i | 0 <= i < |s| :: !IsControl(s[i])
    ensures Words(Fields(s))
    decreases |s|
  {
    if s != "" {
      if IsSpace(s[0]) {
        FieldsAreWords(s[1..]);
      } else {
        FieldsAreWords(s[WordLength(s)..]);
      }
    }
  }

  lemma {:induction false} JoinIsNormal(words: seq<string>)
    requires Words(words)
    ensures Normal(Join(words))
    ensures words != [] ==> Join(words) != ""
  {
    if |words| > 1 {
      JoinIsNormal(words[1..]);
      var a, b := words[0], Join(words[1..]);
      var j := a + " " + b;
      assert forall i | 0 <= i < |j| :: j[i] == if i < |a| then a[i] else if i == |a| then ' ' else b[i - |a| - 1];
    }
  }

  /** A word, a space and something that starts with another word split as they look. */
  lemma FirstField(s: string, n: nat)
    requires 0 < n == WordLength(s) && n + 1 < |s| && IsSpace(s[n]) && !IsSpace(s[n + 1])
    ensures Fields(s) == [s[..n]] + Fields(s[n + 1..]) && Fields(s[n + 1..]) != []
  {
    assert s[n..][1..] == s[n + 1..];
  }

  lemma JoinFirst(word: string, words: seq<string>)
    requires words != []
    ensures Join([word] + words) == word + " " + Join(words)
  {
    assert ([word] + words)[1..] == words;
  }

  lemma OneField(s: string)
    requires s != "" && WordLength(s) == |s|
    ensures Join(Fields(s)) == s
  {
    assert s[|s|..] == "" && s[..|s|] == s;
    assert Fields(s) == [s] + [];
  }

  lemma JoinedFromRest(s: string, n: nat)
    requires Normal(s) && n == WordLength(s) && n < |s|
    requires n + 1 < |s| && Join(Fields(s[n + 1..])) == s[n + 1..]
    ensures Join(Fields(s)) == s
  {
    hide Normal, Fields, Join, IsSpace;
    NormalRest(s, n);
    FirstField(s, n);
    JoinFirst(s[..n], Fields(s[n + 1..]));
    assert s == s[..n] + " " + s[n + 1..];
  }

  /** Splitting a normal name and joining it again gives it back. */
  lemma {:induction false} NormalIsJoined(s: string)
    requires Normal(s)
    ensures Join(Fields(s)) == s
    decreases |s|
  {
    if s != "" {
      var n := WordLength(s);
      if n < |s| {
        NormalRest(s, n);
        NormalIsJoined(s[n + 1..]);
        JoinedFromRest(s, n);
      } else {
        OneField(s);
      }
    }
  }

  /** What follows a space in a normal name is a normal name. */
  lemma NormalRest(s: string, n: nat)
    requires Normal(s) && n < |s| && IsSpace(s[n])
    ensures 0 < n && n + 1 < |s| && s[n] == ' ' && Normal(s[n + 1..]) && !IsSpace(s[n + 1..][0])
    ensures s[n..][1..] == s[n + 1..]
  {
    var rest := s[n + 1..];
    assert n + 1 < |s| && !IsSpace(s[n + 1]);
    assert forall i | 0 <= i < |rest| :: rest[i] == s[n + 1 + i];
    assert rest[|rest| - 1] == s[|s| - 1];
  }

  lemma NormalIsTrimmed(s: string)
    requires Normal(s)
    ensures TrimSpace(s) == s
  {}

  /** Cutting a normal name leaves at most one space to trim. */
  lemma CutIsNormal(s: string, n: nat)
    requires Normal(s) && n <= |s|
    ensures Normal(TrimSpace(s[..n])) && |TrimSpace(s[..n])| <= n
    ensures TrimSpace(s[..n]) == s[..n] || (n > 0 && s[n - 1] == ' ' && TrimSpace(s[..n]) == s[..n - 1])
  {
    var cut := s[..n];
    if n > 0 {
      assert cut[0] == s[0];
      if IsSpace(cut[n - 1]) {
        assert n > 1 && !IsSpace(s[n - 2]);
        var t := cut[..n - 1];
        assert t == s[..n - 1] && !IsSpace(t[|t| - 1]);
        assert TrimRight(t) == t;
      }
    }
  }

  lemma Cleaned(name: string)
    ensures Normal(TrimSpace(Join(Fields(MapRunes(ControlToSpace, name)))))
    ensures TrimSpace(Join(Fields(MapRunes(ControlToSpace, name)))) == Join(Fields(MapRunes(ControlToSpace, name)))
  {
    var mapped := MapRunes(ControlToSpace, name);
    FieldsAreWords(mapped);
    JoinIsNormal(Fields(mapped));
    NormalIsTrimmed(Join(Fields(mapped)));
  }

  /** What comes out is in normal form, within the bound, and unchanged by another pass. */
  lemma SanitizedIsNormal(name: string, maxRunes: nat)
    ensures Normal(SanitizeName(name, maxRunes))
    ensures |SanitizeName(name, maxRunes)| <= maxRunes
    ensures SanitizeName(SanitizeName(name, maxRunes), maxRunes) == SanitizeName(name, maxRunes)
  {
    Cleaned(name);
    var cleaned := TrimSpace(Join(Fields(MapRunes(ControlToSpace, name))));
    if |cleaned| > maxRunes {
      CutIsNormal(cleaned, maxRunes);
    }
    NormalIsKept(SanitizeName(name, maxRunes), maxRunes);
  }

  /** A name is left alone exactly when it is in normal form and within the bound. */
  lemma KeptExactly(s: string, maxRunes: nat)
    ensures SanitizeName(s, maxRunes) == s <==> Normal(s) && |s| <= maxRunes
  {
    SanitizedIsNormal(s, maxRunes);
    NormalIsKept(s, maxRunes);
  }

  lemma NormalIsKept(s: string, maxRunes: nat)
    ensures Normal(s) && |s| <= maxRunes ==> SanitizeName(s, maxRunes) == s
  {
    if Normal(s) {
      assert MapRunes(ControlToSpace, s) == s;
      NormalIsJoined(s);
      NormalIsTrimmed(s);
    }
  }

  // ---------------------------------------------------------------- nothing visible is invented

  lemma {:induction false} VisibleAppend(a: string, b: string)
    ensures Visible(a + b) == Visible(a) + Visible(b)
  {
    if b == "" {
      assert a + b == a;
    } else {
      VisibleAppend(a, b[..|b| - 1]);
      assert (a + b)[..|a + b| - 1] == a + b[..|b| - 1];
    }
  }

  lemma {:induction false} JoinedVisible(s: string)
    ensures Visible(Join(Fields(s))) == Visible(s)
    decreases |s|
  {
    if s != "" {
      if IsSpace(s[0]) {
        JoinedVisible(s[1..]);
        VisibleAppend([s[0]], s[1..]);
        assert s == [s[0]] + s[1..];
        assert Visible([s[0]]) == "";
      } else {
        var n := WordLength(s);
        JoinedVisible(s[n..]);
        VisibleAppend(s[..n], s[n..]);
        assert s == s[..n] + s[n..];
        JoinVisible(s[..n], Fields(s[n..]));
      }
    }
  }

  lemma JoinVisible(word: string, words: seq<string>)
    ensures Visible(Join([word] + words)) == Visible(word) + Visible(Join(words))
  {
    if words == [] {
      assert [word] + words == [word];
    } else {
      assert ([word] + words)[1..] == words;
      VisibleAppend(word + " ", Join(words));
      VisibleAppend(word, " ");
      assert Visible(" ") == "";
    }
  }

  lemma {:induction false} MappedVisible(s: string)
    ensures Visible(MapRunes(ControlToSpace, s)) == Visible(s)
  {
    if s != "" {
      var m := MapRunes(ControlToSpace, s);
      MappedVisible(s[..|s| - 1]);
      assert m[..|m| - 1] == MapRunes(ControlToSpace, s[..|s| - 1]);
    }
  }

  /** The visible characters of the result are a prefix of those of the input, and all of them
      unless the bound cut some off. */
  lemma SanitizedKeepsText(name: string, maxRunes: nat)
    ensures Visible(SanitizeName(name, maxRunes)) <= Visible(name)
    ensures Visible(SanitizeName(name, maxRunes)) != Visible(name) ==>
              |SanitizeName(name, maxRunes)| >= maxRunes - 1
  {
    Cleaned(name);
    var cleaned := Join(Fields(MapRunes(ControlToSpace, name)));
    MappedVisible(name);
    JoinedVisible(MapRunes(ControlToSpace, name));
    if |cleaned| > maxRunes {
      CutVisible(cleaned, maxRunes);
    }
  }

  lemma CutVisible(s: string, n: nat)
    requires Normal(s) && n <= |s|
    ensures Visible(TrimSpace(s[..n])) <= Visible(s) && |TrimSpace(s[..n])| >= n - 1
  {
    CutIsNormal(s, n);
    var k := |TrimSpace(s[..n])|;
    assert TrimSpace(s[..n]) == s[..k];
    VisibleAppend(s[..k], s[k..]);
    assert s == s[..k] + s[k..];
  }

  // ---------------------------------------------------------------- its words

  /** How many characters at the start of s are neither whitespace nor control. */
  function RunLength(s: string): (n: nat)
    ensures n <= |s|
    ensures s != "" && !IsSpace(s[0]) && !IsControl(s[0]) ==> n > 0
  {
    if s == "" || IsSpace(s[0]) || IsControl(s[0]) then 0 else 1 + RunLength(s[1..])
  }

  /** The runs of characters that are neither whitespace nor control. */
  function Runs(s: string): seq<string>
    decreases |s|
  {
    if s == "" then []
    else if IsSpace(s[0]) || IsControl(s[0]) then Runs(s[1..])
    else [s[..RunLength(s)]] + Runs(s[RunLength(s)..])
  }

  lemma MapTail(s: string, n: nat)
    requires n <= |s|
    ensures MapRunes(ControlToSpace, s)[n..] == MapRunes(ControlToSpace, s[n..])
    ensures MapRunes(ControlToSpace, s)[..n] == MapRunes(ControlToSpace, s[..n])
  {}

  /** Where control characters count as spaces, the first word is the first run. */
  lemma {:induction false} FirstRun(s: string)
    ensures WordLength(MapRunes(ControlToSpace, s)) == RunLength(s)
    ensures MapRunes(ControlToSpace, s)[..RunLength(s)] == s[..RunLength(s)]
  {
    if s != "" && !IsSpace(s[0]) && !IsControl(s[0]) {
      MapTail(s, 1);
      FirstRun(s[1..]);
      var n := RunLength(s[1..]);
      assert s[..n + 1] == [s[0]] + s[1..][..n];
      var m := MapRunes(ControlToSpace, s);
      assert m[..n + 1] == [m[0]] + m[1..][..n];
    }
  }

  lemma {:induction false} FieldsAreRuns(s: string)
    ensures Fields(MapRunes(ControlToSpace, s)) == Runs(s)
    decreases |s|
  {
    var m := MapRunes(ControlToSpace, s);
    if s != "" {
      assert m[0] == ControlToSpace(s[0]);
      if IsSpace(s[0]) || IsControl(s[0]) {
        MapTail(s, 1);
        FieldsAreRuns(s[1..]);
      } else {
        FirstRun(s);
        MapTail(s, RunLength(s));
        FieldsAreRuns(s[RunLength(s)..]);
      }
    }
  }

  lemma {:induction false} WordLengthOf(word: string, rest: string)
    requires forall i | 0 <= i < |word| :: !IsSpace(word[i])
    requires rest == "" || IsSpace(rest[0])
    ensures WordLength(word + rest) == |word|
  {
    if word != "" {
      WordLengthOf(word[1..], rest);
      assert (word + rest)[1..] == word[1..] + rest;
    } else {
      assert word + rest == rest;
    }
  }

  /** Joined words split again as they were. */
  lemma {:induction false} JoinedSplit(words: seq<string>)
    requires Words(words)
    ensures Fields(Join(words)) == words
  {
    hide Fields;
    if |words| == 1 {
      OneWordSplit(words[0]);
      assert words == [words[0]];
    } else if words != [] {
      JoinedSplit(words[1..]);
      FirstWordSplit(words[0], Join(words[1..]));
      assert words == [words[0]] + words[1..];
    } else {
      NothingSplit();
    }
  }

  lemma NothingSplit()
    ensures Fields("") == []
  {}

  lemma OneWordSplit(word: string)
    requires word != "" && forall i | 0 <= i < |word| :: !IsSpace(word[i])
    ensures Fields(word) == [word]
  {
    WordLengthOf(word, "");
    assert word + "" == word;
    assert word[|word|..] == "" && word[..|word|] == word;
  }

  lemma FirstWordSplit(word: string, rest: string)
    requires word != "" && forall i | 0 <= i < |word| :: !IsSpace(word[i])
    ensures Fields(word + " " + rest) == [word] + Fields(rest)
  {
    hide IsSpace;
    var tail := " " + rest;
    SpaceIsSpace();
    WordLengthOf(word, tail);
    var all := word + " " + rest;
    assert all == word + tail && all[..|word|] == word && all[|word|..] == tail && all[0] == word[0];
    assert tail[1..] == rest;
  }

  lemma SpaceIsSpace()
    ensures IsSpace(' ')
  {}

  /** The words of a name stay its words, apart and in order, unless the bound cuts some off: nothing is run
      together and nothing is split. */
  lemma SanitizedKeepsWords(name: string, maxRunes: nat)
    ensures |SanitizeName(name, |name|)| <= maxRunes ==> Runs(SanitizeName(name, maxRunes)) == Runs(name)
  {
    var mapped := MapRunes(ControlToSpace, name);
    Cleaned(name);
    FieldsAreWords(mapped);
    JoinedSplit(Fields(mapped));
    FieldsAreRuns(name);
    var cleaned := Join(Fields(mapped));
    NormalUnmapped(cleaned);
    FieldsAreRuns(cleaned);
    JoinedIsShorter(mapped);
  }

  lemma NormalUnmapped(s: string)
    requires Normal(s)
    ensures MapRunes(ControlToSpace, s) == s
  {}

  lemma {:induction false} JoinedIsShorter(s: string)
    ensures |Join(Fields(s))| <= |s|
    decreases |s|
  {
    if s != "" {
      if IsSpace(s[0]) {
        JoinedIsShorter(s[1..]);
      } else {
        var n := WordLength(s);
        JoinedIsShorter(s[n..]);
        if n < |s| {
          JoinedIsShorter(s[n + 1..]);
          assert s[n..][1..] == s[n + 1..];
        }
        FirstJoined(s[..n], Fields(s[n..]));
      }
    }
  }

  lemma FirstJoined(word: string, words: seq<string>)
    ensures |Join([word] + words)| == |word| + (if words == [] then 0 else 1 + |Join(words)|)
  {
    if words == [] {
      assert [word] + words == [word];
    } else {
      JoinFirst(word, words);
    }
  }

  /** A tighter bound gives a prefix of what a wider one gives. */
  lemma TighterIsPrefix(name: string, n: nat, m: nat)
    requires n <= m
    ensures SanitizeName(name, n) <= SanitizeName(name, m)
  {
    Cleaned(name);
    var cleaned := TrimSpace(Join(Fields(MapRunes(ControlToSpace, name))));
    if n < |cleaned| {
      CutIsNormal(cleaned, n);
    }
    if m < |cleaned| {
      CutIsNormal(cleaned, m);
    }
  }

  // ---------------------------------------------------------------- the category vocabulary

  const MAX_CATEGORY_NAME_RUNES := 64

  /** `foldCategory`; lower is the language's per-rune case mapping. */
  function FoldCategory(lower: char -> char, name: string): string
  {
    MapRunes(lower, SanitizeName(name, MAX_CATEGORY_NAME_RUNES))
  }

  /** Two names count as one category exactly when, sanitized to 64 runes, they agree rune by rune up to case. */
  lemma FoldsAgree(lower: char -> char, a: string, b: string)
    ensures FoldCategory(lower, a) == FoldCategory(lower, b) <==>
              var x, y := SanitizeName(a, 64), SanitizeName(b, 64);
              |x| == |y| && forall i | 0 <= i < |x| :: lower(x[i]) == lower(y[i])
  {
    hide SanitizeName;
    var x, y := SanitizeName(a, 64), SanitizeName(b, 64);
    var fx, fy := FoldCategory(lower, a), FoldCategory(lower, b);
    assert |fx| == |x| && |fy| == |y|;
    if fx == fy {
      forall i | 0 <= i < |x|
        ensures lower(x[i]) == lower(y[i])
      {
        assert fx[i] == lower(x[i]) && fy[i] == lower(y[i]);
      }
    }
  }

  /** The folds of the stored names, each with a stored spelling; a later row wins. */
  function Folded(lower: char -> char, rows: seq<string>): map<string, string>
  {
    if rows == [] then map[]
    else Folded(lower, rows[..|rows| - 1])[FoldCategory(lower, rows[|rows| - 1]) := rows[|rows| - 1]]
  }

  /** What resolving keeps: the proposals whose fold is in the vocabulary, in their stored spelling. */
  function Resolved(lower: char -> char, byFold: map<string, string>, proposed: seq<string>): seq<string>
  {
    if proposed == [] then []
    else
      var init := Resolved(lower, byFold, proposed[..|proposed| - 1]);
      var key := FoldCategory(lower, proposed[|proposed| - 1]);
      if key in byFold then init + [byFold[key]] else init
  }

  /** The stored category names by their fold, as a run found them when it started. */
  class Vocabulary {
    const lower: char -> char
    var byFold: map<string, string>
    var warned: bool

    constructor (lower: char -> char, rows: seq<string>)
      ensures this.lower == lower && byFold == Folded(lower, rows) && !warned
    {
      this.lower := lower;
      byFold := map[];
      warned := false;
      new;
      for i := 0 to |rows|
        invariant byFold == Folded(lower, rows[..i])
        invariant !warned
      {
        assert rows[..i + 1][..i] == rows[..i];
        byFold := byFold[FoldCategory(lower, rows[i]) := rows[i]];
      }
      assert rows[..|rows|] == rows;
    }
  }

  lemma ResolvedNone(v: Vocabulary?, proposed: seq<string>)
    ensures v != null ==> Resolved(v.lower, v.byFold, proposed[..0]) == []
    ensures v != null && proposed == [] ==> Resolved(v.lower, v.byFold, proposed) == []
  {}

  lemma ResolvedOneMore(lower: char -> char, byFold: map<string, string>, proposed: seq<string>, i: nat)
    requires i < |proposed|
    ensures var key := FoldCategory(lower, proposed[i]);
            Resolved(lower, byFold, proposed[..i + 1])
            == Resolved(lower, byFold, proposed[..i]) + (if key in byFold then [byFold[key]] else [])
  {
    assert proposed[..i + 1][..i] == proposed[..i];
  }

  /** `resolve`, which also serves a nil vocabulary: then proposals pass through unchecked. */
  method Resolve(v: Vocabulary?, proposed: seq<string>) returns (out: seq<string>)
    modifies v
    ensures out == if v == null then proposed else Resolved(v.lower, v.byFold, proposed)
    ensures v != null ==> v.byFold == old(v.byFold)
    ensures v != null ==> v.warned == (old(v.warned) || |out| < |proposed|)
  {
    hide FoldCategory, Resolved, SanitizeName;
    ResolvedNone(v, proposed);
    if |proposed| == 0 {
      return [];
    }
    if v == null {
      return proposed;
    }
    out := [];
    var dropped := [];
    for i := 0 to |proposed|
      invariant out == Resolved(v.lower, v.byFold, proposed[..i])
      invariant |out| + |dropped| == i
      invariant v.byFold == old(v.byFold) && v.warned == old(v.warned)
    {
      ResolvedOneMore(v.lower, v.byFold, proposed, i);
      var key := FoldCategory(v.lower, proposed[i]);
      if key in v.byFold {
        out := out + [v.byFold[key]];
        continue;
      }
      dropped := dropped + [SanitizeName(proposed[i], MAX_CATEGORY_NAME_RUNES)];
    }
    assert proposed[..|proposed|] == proposed;
    if |dropped| > 0 && !v.warned {
      v.warned := true;
    }
  }

  /** A fold is in the vocabulary exactly when some stored name has it, and it stands for such a name. */
  lemma {:induction false} FoldedMeaning(lower: char -> char, rows: seq<string>)
    ensures forall k :: k in Folded(lower, rows) <==> exists i :: 0 <= i < |rows| && FoldCategory(lower, rows[i]) == k
    ensures forall k <- Folded(lower, rows) ::
              Folded(lower, rows)[k] in rows && FoldCategory(lower, Folded(lower, rows)[k]) == k
  {
    if rows != [] {
      FoldedMeaning(lower, rows[..|rows| - 1]);
      assert rows == rows[..|rows| - 1] + [rows[|rows| - 1]];
    }
  }

  /** Of several stored names with one fold the last is the spelling that is kept. */
  lemma {:induction false} LastSpellingWins(lower: char -> char, rows: seq<string>, i: nat)
    requires i < |rows|
    requires forall j | i < j < |rows| :: FoldCategory(lower, rows[j]) != FoldCategory(lower, rows[i])
    ensures var fold := FoldCategory(lower, rows[i]);
            fold in Folded(lower, rows) && Folded(lower, rows)[fold] == rows[i]
    decreases |rows|
  {
    hide FoldCategory;
    if i < |rows| - 1 {
      LastSpellingWins(lower, rows[..|rows| - 1], i);
    }
  }

  /** The folds of names, in order, that some stored name has. */
  function FoldsIn(lower: char -> char, names: seq<string>, vocabulary: set<string>): seq<string>
  {
    if names == [] then []
    else
      var init := FoldsIn(lower, names[..|names| - 1], vocabulary);
      var key := FoldCategory(lower, names[|names| - 1]);
      if key in vocabulary then init + [key] else init
  }

  /** The folds some stored name has. */
  function FoldsOf(lower: char -> char, rows: seq<string>): set<string>
  {
    set i | 0 <= i < |rows| :: FoldCategory(lower, rows[i])
  }

  /** Only stored names come out, and read as folds they are exactly the proposals some stored name
      agrees with, in proposal order: nothing else is dropped, nothing is added. */
  lemma {:induction false} ResolvedMeaning(lower: char -> char, rows: seq<string>, proposed: seq<string>)
    ensures var vocabulary, out := FoldsOf(lower, rows), Resolved(lower, Folded(lower, rows), proposed);
            && (forall name <- out :: name in rows)
            && FoldsIn(lower, out, vocabulary) == FoldsIn(lower, proposed, vocabulary)
            && |FoldsIn(lower, out, vocabulary)| == |out|
  {
    FoldedMeaning(lower, rows);
    if proposed != [] {
      ResolvedMeaning(lower, rows, proposed[..|proposed| - 1]);
      var init := Resolved(lower, Folded(lower, rows), proposed[..|proposed| - 1]);
      var key := FoldCategory(lower, proposed[|proposed| - 1]);
      if key in Folded(lower, rows) {
        assert (init + [Folded(lower, rows)[key]])[..|init|] == init;
      }
    }
  }

  /** Resolving what was already resolved changes nothing. */
  lemma {:induction false} ResolveTwice(lower: char -> char, rows: seq<string>, proposed: seq<string>)
    ensures var byFold := Folded(lower, rows);
            Resolved(lower, byFold, Resolved(lower, byFold, proposed)) == Resolved(lower, byFold, proposed)
  {
    FoldedMeaning(lower, rows);
    if proposed != [] {
      ResolveTwice(lower, rows, proposed[..|proposed| - 1]);
      var byFold := Folded(lower, rows);
      var init := Resolved(lower, byFold, proposed[..|proposed| - 1]);
      var key := FoldCategory(lower, proposed[|proposed| - 1]);
      if key in byFold {
        assert (init + [byFold[key]])[..|init|] == init;
      }
    }
  }
}
