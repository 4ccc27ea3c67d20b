/** The delimited span an untrusted caption is sent to the model in: `wrapCaption`, with the
    caption-tag pattern, and `capCaption`, which runs before it.

    A string here is a sequence of runes. The pattern's `\s` is the five ASCII whitespace characters,
    and no letter of the word it names has a case variant outside ASCII. */
module CaptionSpan {
  import opened Wrappers

  predicate IsSpace(c: char)
  {
    c == ' ' || c == '\t' || c == '\n' || c == '\r' || c == '\U{0C}'
  }

  predicate AllSpace(s: string)
  {
    forall k | 0 <= k < |s| :: IsSpace(s[k])
  }

  predicate IsWord(s: string)
  {
    && |s| == 7
    && forall k | 0 <= k < 7 :: s[k] == "caption"[k] || s[k] == "CAPTION"[k]
  }

  /** What stands between the angle brackets: spaces, at most one slash among them, the word, spaces.
      The word starts at `at`. */
  ghost predicate IsTagBody(s: string, at: nat)
  {
    && at + 7 <= |s|
    && (AllSpace(s[..at]) || exists k | 0 <= k < at :: s[k] == '/' && AllSpace(s[..k]) && AllSpace(s[k + 1..at]))
    && IsWord(s[at..at + 7])
    && AllSpace(s[at + 7..])
  }

  /** All of s, from bracket to bracket, is one match of the tag pattern. */
  ghost predicate IsTag(s: string)
  {
    && |s| >= 2 && s[0] == '<' && s[|s| - 1] == '>'
    && exists at, body :: body == s[1..|s| - 1] && IsTagBody(body, at)
  }

  ghost predicate TagAt(s: string, i: nat, j: nat)
  {
    i <= j <= |s| && IsTag(s[i..j])
  }

  ghost predicate StartsWithTag(s: string)
  {
    exists n :: TagAt(s, 0, n)
  }

  /** No substring of s is a caption tag. */
  ghost predicate TagFree(s: string)
  {
    forall i: nat, j: nat :: !TagAt(s, i, j)
  }

  const REPLACEMENT := "[caption-tag]"

  /** Where the tag at the start of s ends. */
  ghost function TagEnd(s: string): (n: nat)
    requires StartsWithTag(s)
    ensures 0 < n <= |s| && TagAt(s, 0, n)
  {
    var n :| TagAt(s, 0, n);
    n
  }

  /** ReplaceAllString: scanning from the left, every match becomes the replacement. */
  ghost function ReplaceTags(s: string): string
  {
    if s == "" then ""
    else if StartsWithTag(s) then REPLACEMENT + ReplaceTags(s[TagEnd(s)..])
    else [s[0]] + ReplaceTags(s[1..])
  }

  const OPENING := "<caption>\n"
  const CLOSING := "\n</caption>"

  ghost function WrapCaption(caption: string): string
  {
    OPENING + ReplaceTags(caption) + CLOSING
  }

  // ---------------------------------------------------------------- the shape of a tag

  lemma BodyChars(s: string, at: nat, k: nat)
    requires IsTagBody(s, at) && k < |s|
    ensures s[k] != '<' && s[k] != '>' && s[k] != '['
  {
    if k >= at + 7 {
      assert s[k] == s[at + 7..][k - at - 7];
    } else if k >= at {
      assert s[k] == s[at..at + 7][k - at];
    } else if AllSpace(s[..at]) {
      assert s[k] == s[..at][k];
    } else {
      var m :| 0 <= m < at && s[m] == '/' && AllSpace(s[..m]) && AllSpace(s[m + 1..at]);
      if k < m {
        assert s[k] == s[..m][k];
      } else if k > m {
        assert s[k] == s[m + 1..at][k - m - 1];
      }
    }
  }

  /** A tag has one opening bracket, at its start, and one closing bracket, at its end. */
  lemma TagShape(s: string, i: nat, j: nat)
    requires TagAt(s, i, j)
    ensures i + 9 <= j <= |s| && s[i] == '<' && s[j - 1] == '>'
    ensures forall k | i < k < j - 1 :: s[k] != '<' && s[k] != '>' && s[k] != '['
  {
    var body := s[i..j][1..j - i - 1];
    var at :| IsTagBody(body, at);
    forall k | i < k < j - 1
      ensures s[k] != '<' && s[k] != '>' && s[k] != '['
    {
      BodyChars(body, at, k - i - 1);
      assert body[k - i - 1] == s[i..j][k - i];
      assert s[i..j][k - i] == s[k];
    }
  }

  /** At most one match starts at any place, so leftmost-first matching has nothing to choose. */
  lemma OneMatchPerStart(s: string, i: nat, m: nat, n: nat)
    requires TagAt(s, i, m) && TagAt(s, i, n)
    ensures m == n
  {
    TagShape(s, i, m);
    TagShape(s, i, n);
  }

  /** A tag stays one whatever surrounds it. */
  lemma SameSpan(a: string, b: string, i: nat, j: nat, shift: int)
    requires i <= j <= |a| && 0 <= i + shift && j + shift <= |b|
    requires a[i..j] == b[i + shift..j + shift]
    ensures TagAt(a, i, j) <==> TagAt(b, i + shift, j + shift)
  {}

  // ---------------------------------------------------------------- replacing creates no tag

  /** A result that does not begin with a replacement begins as the input does. */
  lemma ReplacedHead(s: string)
    requires ReplaceTags(s) != "" && ReplaceTags(s)[0] != '['
    ensures s != "" && ReplaceTags(s) == [s[0]] + ReplaceTags(s[1..])
  {
    assert REPLACEMENT[0] == '[';
  }

  /** As far as the result shows no replacement, it is the input. */
  lemma {:induction false} UntouchedPrefix(s: string, k: nat)
    requires k <= |ReplaceTags(s)| && forall m | 0 <= m < k :: ReplaceTags(s)[m] != '['
    ensures k <= |s| && s[..k] == ReplaceTags(s)[..k]
  {
    hide ReplaceTags, StartsWithTag;
    if k > 0 {
      ReplacedHead(s);
      var rest := ReplaceTags(s[1..]);
      forall m | 0 <= m < k - 1
        ensures rest[m] != '['
      {
        assert rest[m] == ReplaceTags(s)[m + 1];
      }
      UntouchedPrefix(s[1..], k - 1);
      assert ReplaceTags(s)[..k] == [s[0]] + rest[..k - 1];
      assert s[..k] == [s[0]] + s[1..][..k - 1];
    }
  }

  /** A replacement in front of a tag-free text makes no tag. */
  lemma PrependReplacement(rest: string)
    requires TagFree(rest)
    ensures TagFree(REPLACEMENT + rest)
  {
    var r := REPLACEMENT + rest;
    assert forall k | 0 <= k < |REPLACEMENT| :: r[k] == REPLACEMENT[k] && REPLACEMENT[k] != '<';
    forall i: nat, j: nat
      ensures !TagAt(r, i, j)
    {
      if |REPLACEMENT| <= i <= j <= |r| {
        assert r[i..j] == rest[i - |REPLACEMENT|..j - |REPLACEMENT|];
        SameSpan(r, rest, i, j, -|REPLACEMENT|);
      }
    }
  }

  /** A tag that begins with c and continues into a replaced text was there before the replacing. */
  lemma HeadTagWasThere(c: char, tail: string, rest: string, j: nat)
    requires rest == ReplaceTags(tail) && TagAt([c] + rest, 0, j)
    ensures TagAt([c] + tail, 0, j)
  {
    TagIsUncut(c, tail, rest, j);
    SpliceHead(c, tail, rest, j - 1);
    SameSpan([c] + rest, [c] + tail, 0, j, 0);
  }

  /** No replacement begins inside a tag, so what of it lies in the replaced text is as it was. */
  lemma TagIsUncut(c: char, tail: string, rest: string, j: nat)
    requires rest == ReplaceTags(tail) && TagAt([c] + rest, 0, j)
    ensures 0 < j <= |rest| + 1 && j - 1 <= |tail| && tail[..j - 1] == rest[..j - 1]
  {
    hide TagAt, ReplaceTags;
    var r := [c] + rest;
    TagShape(r, 0, j);
    forall m | 0 <= m < j - 1
      ensures rest[m] != '['
    {
      assert rest[m] == r[m + 1];
    }
    UntouchedPrefix(tail, j - 1);
  }

  lemma SpliceHead(c: char, a: string, b: string, n: nat)
    requires n <= |a| && n <= |b| && a[..n] == b[..n]
    ensures ([c] + b)[0..n + 1] == ([c] + a)[0..n + 1]
  {
    assert ([c] + a)[..n + 1] == [c] + a[..n];
    assert ([c] + b)[..n + 1] == [c] + b[..n];
  }

  lemma ShiftedSpan(c: char, rest: string, i: nat, j: nat)
    requires 0 < i <= j <= |rest| + 1
    ensures TagAt([c] + rest, i, j) <==> TagAt(rest, i - 1, j - 1)
  {
    assert ([c] + rest)[i..j] == rest[i - 1..j - 1];
    SameSpan([c] + rest, rest, i, j, -1);
  }

  /** An untouched character in front of a tag-free replaced text makes no tag that was not there. */
  lemma PrependUntouched(c: char, tail: string, rest: string)
    requires rest == ReplaceTags(tail) && TagFree(rest) && !StartsWithTag([c] + tail)
    ensures TagFree([c] + rest)
  {
    hide IsTag, ReplaceTags;
    var r := [c] + rest;
    forall i: nat, j: nat
      ensures !TagAt(r, i, j)
    {
      if 0 < i <= j <= |r| {
        ShiftedSpan(c, rest, i, j);
      } else if i == 0 && TagAt(r, 0, j) {
        HeadTagWasThere(c, tail, rest, j);
      }
    }
  }

  /** Replacing tags never creates one, not even out of the pieces next to a replacement. */
  lemma {:induction false} ReplacedIsTagFree(s: string)
    ensures TagFree(ReplaceTags(s))
  {
    if s == "" {
    } else if StartsWithTag(s) {
      ReplacedIsTagFree(s[TagEnd(s)..]);
      PrependReplacement(ReplaceTags(s[TagEnd(s)..]));
    } else {
      ReplacedIsTagFree(s[1..]);
      assert s == [s[0]] + s[1..];
      PrependUntouched(s[0], s[1..], ReplaceTags(s[1..]));
    }
  }

  /** A caption without tags is embedded unchanged. */
  lemma {:induction false} TagFreeUnchanged(s: string)
    requires TagFree(s)
    ensures ReplaceTags(s) == s
  {
    if s != "" {
      forall i: nat, j: nat
        ensures !TagAt(s[1..], i, j)
      {
        if i <= j <= |s[1..]| {
          assert s[1..][i..j] == s[i + 1..j + 1];
          SameSpan(s[1..], s, i, j, 1);
        }
      }
      TagFreeUnchanged(s[1..]);
    }
  }

  /** The leftmost tag becomes the replacement; what stands before it is copied, and the rest goes on as a
      caption of its own. */
  lemma {:induction false} FirstTagReplaced(s: string, i: nat, j: nat)
    requires TagAt(s, i, j) && forall k: nat, m: nat | k < i :: !TagAt(s, k, m)
    ensures ReplaceTags(s) == s[..i] + "[caption-tag]" + ReplaceTags(s[j..])
    decreases i
  {
    hide IsTag;
    TagShape(s, i, j);
    if i == 0 {
      OneMatchPerStart(s, 0, TagEnd(s), j);
      assert s[..0] == "";
    } else {
      var tail := s[1..];
      assert tail[i - 1..j - 1] == s[i..j];
      SameSpan(s, tail, i, j, -1);
      forall k: nat, m: nat | k < i - 1
        ensures !TagAt(tail, k, m)
      {
        if k <= m <= |tail| {
          assert tail[k..m] == s[k + 1..m + 1];
          SameSpan(tail, s, k, m, 1);
        }
      }
      FirstTagReplaced(tail, i - 1, j - 1);
      assert tail[j - 1..] == s[j..] && s[..i] == [s[0]] + tail[..i - 1];
    }
  }

  // ---------------------------------------------------------------- the wrapped caption

  /** A caption without tags stands between the two tags as it is. */
  lemma TagFreeWrapped(caption: string)
    requires TagFree(caption)
    ensures WrapCaption(caption) == "<caption>\n" + caption + "\n</caption>"
  {
    TagFreeUnchanged(caption);
  }

  lemma TheTwoTags()
    ensures IsTag("<caption>") && IsTag("</caption>")
  {
    var open, close := "<caption>", "</caption>";
    assert open[1..8] == "caption" && close[1..9] == "/caption";
    assert "caption"[0..7] == "caption" && "/caption"[1..8] == "caption";
    assert IsTagBody("caption", 0);
    assert "/caption"[0] == '/' && AllSpace("/caption"[..0]) && AllSpace("/caption"[1..1]);
    assert IsTagBody("/caption", 1);
  }

  lemma WrapperChars()
    ensures OPENING[8] == '>' && (forall k | 0 < k < 10 :: OPENING[k] != '<')
    ensures CLOSING[0] != '<' && CLOSING[1] == '<' && (forall k | 1 < k < 11 :: CLOSING[k] != '<')
    ensures forall k | 0 <= k < 10 :: CLOSING[k] != '>'
  {
    assert OPENING[0] == '<' && OPENING[1] == 'c' && OPENING[2] == 'a' && OPENING[3] == 'p' && OPENING[4] == 't';
    assert OPENING[5] == 'i' && OPENING[6] == 'o' && OPENING[7] == 'n' && OPENING[8] == '>' && OPENING[9] == '\n';
    assert CLOSING[0] == '\n' && CLOSING[1] == '<' && CLOSING[2] == '/' && CLOSING[3] == 'c' && CLOSING[4] == 'a';
    assert CLOSING[5] == 'p' && CLOSING[6] == 't' && CLOSING[7] == 'i' && CLOSING[8] == 'o' && CLOSING[9] == 'n';
  }

  /** Where the wrapped text has angle brackets outside the caption. */
  lemma WrapperBrackets(r: string)
    ensures var w := OPENING + r + CLOSING;
            var c := 10 + |r|;
            && |w| == c + 11
            && w[8] == '>' && (forall k | 0 < k < 10 :: w[k] != '<')
            && w[c + 1] == '<' && (forall k | c + 1 < k < |w| :: w[k] != '<')
            && w[c] != '<' && (forall k | c <= k < |w| - 1 :: w[k] != '>')
            && w[0..9] == "<caption>" && w[c + 1..|w|] == "</caption>"
            && forall i, j | 10 <= i <= j <= c :: w[i..j] == r[i - 10..j - 10]
  {
    var w := OPENING + r + CLOSING;
    var c := 10 + |r|;
    WrapperChars();
    forall k | 0 < k < 10
      ensures w[k] != '<'
    {
      assert w[k] == OPENING[k];
    }
    forall k | c + 1 < k < |w|
      ensures w[k] != '<'
    {
      assert w[k] == CLOSING[k - c];
    }
    forall k | c <= k < |w| - 1
      ensures w[k] != '>'
    {
      assert w[k] == CLOSING[k - c];
    }
    assert w[8] == OPENING[8] && w[c] == CLOSING[0] && w[c + 1] == CLOSING[1];
    WrapperTags(w, c);
    forall i, j | 10 <= i <= j <= c
      ensures w[i..j] == r[i - 10..j - 10]
    {}
  }

  lemma WrapperTags(w: string, c: nat)
    requires |w| == c + 11 && c >= 10 && w[..10] == OPENING && w[c..] == CLOSING
    ensures w[0..9] == "<caption>" && w[c + 1..|w|] == "</caption>"
  {
    assert w[0..9] == w[..10][..9] && OPENING[..9] == "<caption>";
    assert w[c + 1..|w|] == w[c..][1..] && CLOSING[1..] == "</caption>";
  }

  /** Whatever the caption, the wrapped text contains exactly two caption tags: the opening one at
      its start and the closing one at its end. */
  lemma ExactlyTwoTags(caption: string, i: nat, j: nat)
    ensures var w := WrapCaption(caption);
            TagAt(w, i, j) <==> (i == 0 && j == 9) || (i == |w| - 10 && j == |w|)
  {
    var r := ReplaceTags(caption);
    var w := WrapCaption(caption);
    TheTwoTags();
    WrapperBrackets(r);
    ReplacedIsTagFree(caption);
    if TagAt(w, i, j) {
      TagShape(w, i, j);
      if 10 <= i && j <= 10 + |r| {
        SameSpan(w, r, i, j, -10);
      }
    }
  }

  // ---------------------------------------------------------------- capping

  type byte = n: int | 0 <= n < 256

  /** The UTF-8 encoding of one rune. */
  function Utf8(c: char): (bs: seq<byte>)
    ensures |bs| > 0
  {
    var n := c as int;
    if n < 0x80 then [n]
    else if n < 0x800 then [0xC0 + n / 64, 0x80 + n % 64]
    else if n < 0x10000 then [0xE0 + n / 4096, 0x80 + n / 64 % 64, 0x80 + n % 64]
    else [0xF0 + n / 262144, 0x80 + n / 4096 % 64, 0x80 + n / 64 % 64, 0x80 + n % 64]
  }

  /** The encoding of a rune gives the rune back: its bytes are those of RFC 3629, section 3. */
  lemma Utf8Decodes(c: char)
    ensures var b, n := Utf8(c), c as int;
            || (|b| == 1 && b[0] < 0x80 && n == b[0])
            || (|b| == 2 && 0xC0 <= b[0] < 0xE0 && n == (b[0] - 0xC0) * 64 + Tail(b[1]))
            || (|b| == 3 && 0xE0 <= b[0] < 0xF0 && n == (b[0] - 0xE0) * 4096 + Tail(b[1]) * 64 + Tail(b[2]))
            || (|b| == 4 && 0xF0 <= b[0] < 0xF8
                && n == (b[0] - 0xF0) * 262144 + Tail(b[1]) * 4096 + Tail(b[2]) * 64 + Tail(b[3]))
    ensures forall k | 0 < k < |Utf8(c)| :: 0x80 <= Utf8(c)[k] < 0xC0
  {
    SixBitDigits(c as int);
  }

  lemma SixBitDigits(n: nat)
    ensures n == n / 64 * 64 + n % 64
    ensures n / 64 == n / 4096 * 64 + n / 64 % 64
    ensures n / 4096 == n / 262144 * 64 + n / 4096 % 64
  {}

  /** The six bits a continuation byte carries. */
  function Tail(b: byte): int
  {
    b - 0x80
  }

  function Encode(s: string): seq<byte>
  {
    if s == "" then [] else Encode(s[..|s| - 1]) + Utf8(s[|s| - 1])
  }

  const MAX_CAPTION_RUNES := 8000

  /** `capCaption`, which cuts bytes: the loop walks the rune starts and keeps their byte offset. What
      it keeps is the encoding of whole runes, the first 8000 of them or all. */
  method CapCaption(caption: string) returns (kept: seq<byte>)
    ensures kept == Encode(Take(caption, 8000))
  {
    var bytes := Encode(caption);
    if |caption| <= MAX_CAPTION_RUNES {
      return bytes;
    }
    var offset, runes := 0, 0;
    assert caption[..|caption|] == caption;
    while runes < |caption|
      invariant 0 <= runes <= |caption| && runes <= MAX_CAPTION_RUNES
      invariant 0 <= offset <= |bytes| && bytes[..offset] == Encode(caption[..runes])
    {
      if runes == MAX_CAPTION_RUNES {
        return bytes[..offset];
      }
      EncodePrefix(caption, runes);
      EncodePrefix(caption, runes + 1);
      assert caption[..runes + 1][..runes] == caption[..runes];
      offset := offset + |Utf8(caption[runes])|;
      runes := runes + 1;
    }
    return bytes;
  }

  lemma {:induction false} EncodePrefix(s: string, k: nat)
    requires k <= |s|
    ensures Encode(s[..k]) <= Encode(s)
  {
    if k < |s| {
      EncodePrefix(s[..|s| - 1], k);
      assert s[..|s| - 1][..k] == s[..k];
    } else {
      assert s[..k] == s;
    }
  }
}
