/** The text filter of the recipe search: `LIKE ... ESCAPE '\'` over a pattern built by escaping the
    search text with three nested replaces. Patterns follow section 9.7.1 of the PostgreSQL manual. */
module LikeSearch {
  import opened Wrappers

  // ---------------------------------------------------------------- SQL functions

  predicate StartsWith(s: string, prefix: string)
  {
    |prefix| <= |s| && s[..|prefix|] == prefix
  }

  /** SQL replace: every occurrence of from, found left to right without overlap. */
  function Replace(s: string, from: string, to: string): string
    requires from != ""
  {
    if s == "" then ""
    else if StartsWith(s, from) then to + Replace(s[|from|..], from, to)
    else [s[0]] + Replace(s[1..], from, to)
  }

  /** The expression of the query: backslash first, then percent, then underscore. */
  function Escape(text: string): string
  {
    Replace(Replace(Replace(text, "\\", "\\\\"), "%", "\\%"), "_", "\\_")
  }

  function Pattern(text: string): string
  {
    "%" + Escape(text) + "%"
  }

  datatype Token = AnySequence | AnyChar | Literal(c: char)

  /** A pattern read with backslash as its escape character; None when it ends in a dangling escape,
      which the server rejects. */
  function Tokens(pattern: string): Option<seq<Token>>
  {
    if pattern == "" then Some([])
    else if pattern[0] == '\\' then
      if |pattern| == 1 then None else Prefixed(Literal(pattern[1]), Tokens(pattern[2..]))
    else if pattern[0] == '%' then Prefixed(AnySequence, Tokens(pattern[1..]))
    else if pattern[0] == '_' then Prefixed(AnyChar, Tokens(pattern[1..]))
    else Prefixed(Literal(pattern[0]), Tokens(pattern[1..]))
  }

  function Prefixed(t: Token, rest: Option<seq<Token>>): Option<seq<Token>>
  {
    if rest.None? then None else Some([t] + rest.value)
  }

  ghost predicate Matches(s: string, ts: seq<Token>)
    decreases |ts|
  {
    if ts == [] then s == ""
    else
      match ts[0]
      case AnySequence => exists i | 0 <= i <= |s| :: Matches(s[i..], ts[1..])
      case AnyChar => s != "" && Matches(s[1..], ts[1..])
      case Literal(c) => s != "" && s[0] == c && Matches(s[1..], ts[1..])
  }

  /** `s LIKE pattern ESCAPE '\'`. */
  ghost function Like(s: string, pattern: string): Option<bool>
  {
    if Tokens(pattern).None? then None else Some(Matches(s, Tokens(pattern).value))
  }

  ghost predicate Contains(s: string, t: string)
  {
    exists i | 0 <= i <= |s| :: StartsWith(s[i..], t)
  }

  // ---------------------------------------------------------------- the escape

  function EscapeChar(c: char): string
  {
    if c == '\\' || c == '%' || c == '_' then ['\\', c] else [c]
  }

  /** The escape as one pass over the text. */
  function EscapeOnce(text: string): string
  {
    if text == "" then "" else EscapeChar(text[0]) + EscapeOnce(text[1..])
  }

  /** With a single character to replace, the search is a decision per character. */
  lemma ReplaceStep(s: string, from: char, to: string)
    requires s != ""
    ensures Replace(s, [from], to) == (if s[0] == from then to else [s[0]]) + Replace(s[1..], [from], to)
  {
    assert s[..1] == [s[0]];
    assert StartsWith(s, [from]) <==> s[0] == from;
  }

  lemma {:induction false} ReplaceAppend(a: string, b: string, from: char, to: string)
    ensures Replace(a + b, [from], to) == Replace(a, [from], to) + Replace(b, [from], to)
  {
    if a == "" {
      assert a + b == b;
    } else {
      ReplaceAppend(a[1..], b, from, to);
      AppendStep(a, b, from, to);
    }
  }

  lemma AppendStep(a: string, b: string, from: char, to: string)
    requires a != "" && Replace(a[1..] + b, [from], to) == Replace(a[1..], [from], to) + Replace(b, [from], to)
    ensures Replace(a + b, [from], to) == Replace(a, [from], to) + Replace(b, [from], to)
  {
    hide Replace;
    ReplaceStep(a, from, to);
    ReplaceStep(a + b, from, to);
    assert (a + b)[1..] == a[1..] + b && (a + b)[0] == a[0];
  }

  lemma ReplaceTwo(a: char, b: char, from: char, to: string)
    requires a != from && b != from
    ensures Replace([a, b], [from], to) == [a, b]
    ensures Replace([a], [from], to) == [a]
  {
    ReplaceStep([a, b], from, to);
    ReplaceStep([b], from, to);
    ReplaceStep([a], from, to);
  }

  lemma ReplaceHit(from: char, to: string)
    ensures Replace([from], [from], to) == to
  {
    ReplaceStep([from], from, to);
  }

  /** No replace disturbs what an earlier one wrote: three sequential replaces are one pass. */
  lemma {:induction false} EscapeIsOnePass(text: string)
    ensures Escape(text) == EscapeOnce(text)
  {
    if text != "" {
      var c, rest := text[0], text[1..];
      EscapeIsOnePass(rest);
      assert text == [c] + rest;
      var r1, s1 := Replace([c], "\\", "\\\\"), Replace(rest, "\\", "\\\\");
      ReplaceAppend([c], rest, '\\', "\\\\");
      var r2 := Replace(r1, "%", "\\%");
      ReplaceAppend(r1, s1, '%', "\\%");
      ReplaceAppend(r2, Replace(s1, "%", "\\%"), '_', "\\_");
      EscapeOneChar(c);
    }
  }

  lemma EscapeOneChar(c: char)
    ensures Escape([c]) == EscapeChar(c)
  {
    if c == '\\' {
      ReplaceHit('\\', "\\\\");
      ReplaceTwo('\\', '\\', '%', "\\%");
      ReplaceTwo('\\', '\\', '_', "\\_");
    } else if c == '%' {
      ReplaceTwo('%', '%', '\\', "\\\\");
      ReplaceHit('%', "\\%");
      ReplaceTwo('\\', '%', '_', "\\_");
    } else {
      ReplaceTwo(c, c, '\\', "\\\\");
      ReplaceTwo(c, c, '%', "\\%");
      if c == '_' {
        ReplaceHit('_', "\\_");
      } else {
        ReplaceTwo(c, c, '_', "\\_");
      }
    }
  }

  // ---------------------------------------------------------------- what the pattern means

  function Literals(text: string): (ts: seq<Token>)
    ensures |ts| == |text|
  {
    seq(|text|, i requires 0 <= i < |text| => Literal(text[i]))
  }

  /** An escaped character reads back as itself. */
  lemma EscapedCharReadsBack(c: char, rest: string)
    ensures Tokens(EscapeChar(c) + rest) == Prefixed(Literal(c), Tokens(rest))
  {
    var p := EscapeChar(c) + rest;
    assert p[|EscapeChar(c)|..] == rest;
  }

  /** The escaped text reads back as nothing but its own characters, whatever pattern follows it. */
  lemma {:induction false} EscapedReadsBack(text: string, rest: string)
    requires Tokens(rest).Some?
    ensures Tokens(EscapeOnce(text) + rest) == Some(Literals(text) + Tokens(rest).value)
  {
    if text == "" {
      assert EscapeOnce(text) + rest == rest;
      assert Literals(text) + Tokens(rest).value == Tokens(rest).value;
    } else {
      EscapedReadsBack(text[1..], rest);
      EscapedCharReadsBack(text[0], EscapeOnce(text[1..]) + rest);
      assert EscapeOnce(text) + rest == EscapeChar(text[0]) + (EscapeOnce(text[1..]) + rest);
      assert Literals(text) + Tokens(rest).value
          == [Literal(text[0])] + (Literals(text[1..]) + Tokens(rest).value);
    }
  }

  lemma StartsWithStep(s: string, t: string)
    requires s != "" && t != ""
    ensures StartsWith(s, t) <==> s[0] == t[0] && StartsWith(s[1..], t[1..])
  {
    if |t| <= |s| {
      assert s[..|t|] == [s[0]] + s[1..][..|t| - 1];
      assert t == [t[0]] + t[1..];
    }
  }

  lemma {:induction false} LiteralsThenAnything(s: string, text: string)
    ensures Matches(s, Literals(text) + [AnySequence]) <==> StartsWith(s, text)
  {
    var ts := Literals(text) + [AnySequence];
    if text == "" {
      assert ts[1..] == [];
      assert s[|s|..] == "";
      assert Matches(s[|s|..], ts[1..]);
    } else {
      assert ts[1..] == Literals(text[1..]) + [AnySequence];
      if s != "" {
        LiteralsThenAnything(s[1..], text[1..]);
        StartsWithStep(s, text);
      }
    }
  }

  /** The pattern never ends in a dangling escape, and it matches exactly the strings that contain
      the search text: a percent sign, an underscore or a backslash in it matches only itself. */
  lemma SearchIsSubstring(s: string, text: string)
    ensures Like(s, Pattern(text)) == Some(Contains(s, text))
  {
    EscapeIsOnePass(text);
    var rest := EscapeOnce(text) + "%";
    assert Pattern(text) == "%" + rest;
    assert Pattern(text)[1..] == rest;
    assert "%"[1..] == "";
    assert Tokens("%"[1..]) == Some([]);
    assert [AnySequence] + [] == [AnySequence];
    assert Tokens("%") == Some([AnySequence]);
    EscapedReadsBack(text, "%");
    var ts := Literals(text) + [AnySequence];
    assert Tokens(Pattern(text)) == Some([AnySequence] + ts);
    assert ([AnySequence] + ts)[1..] == ts;
    forall i | 0 <= i <= |s|
      ensures Matches(s[i..], ts) <==> StartsWith(s[i..], text)
    {
      LiteralsThenAnything(s[i..], text);
    }
  }

  // ---------------------------------------------------------------- the filter

  /** The text condition of both search queries. The caller passes no text at all for an empty one,
      and `lower` stands for the database's own case mapping. */
  ghost predicate TextFilter(lower: string -> string, name: string, text: string)
  {
    var arg := if text != "" then Some(text) else None;
    arg.None? || Like(lower(name), Pattern(lower(arg.value))) == Some(true)
  }

  /** The filter is case-folded substring search, the empty text included. */
  lemma TextFilterMeaning(lower: string -> string, name: string, text: string)
    ensures TextFilter(lower, name, text) <==> text == "" || Contains(lower(name), lower(text))
  {
    SearchIsSubstring(lower(name), lower(text));
  }
}
