/** Confidence scores: the rules extractor's sections and score, and what an LLM answer is worth.
    Scores are exact reals here. The line and title patterns are parameters. */
module Scoring {
  import opened Wrappers
  import opened Orders
  import Names
  import CaptionSpan

  datatype Ingredient = Ingredient(name: string, amount: real, unit: string)

  datatype Recipe = Recipe(name: string, instructions: string, ingredients: seq<Ingredient>,
                           categories: seq<string>, confidence: real, degraded: bool)

  function Min(a: real, b: real): real { if a <= b then a else b }

  function Clamp01(v: real): real
  {
    if v < 0.0 then 0.0 else if v > 1.0 then 1.0 else v
  }

  function WithAmounts(ingredients: seq<Ingredient>): (n: nat)
    ensures n <= |ingredients|
  {
    if ingredients == [] then 0
    else WithAmounts(ingredients[..|ingredients| - 1]) + (if ingredients[|ingredients| - 1].amount > 0.0 then 1 else 0)
  }

  /** The ingredients whose amount was read. */
  function Amounted(ingredients: seq<Ingredient>): set<int>
  {
    set i | 0 <= i < |ingredients| && ingredients[i].amount > 0.0
  }

  lemma {:induction false} AmountsAreCounted(ingredients: seq<Ingredient>)
    ensures WithAmounts(ingredients) == |Amounted(ingredients)|
  {
    if ingredients == [] {
      assert Amounted(ingredients) == {};
    } else {
      var last := |ingredients| - 1;
      AmountsAreCounted(ingredients[..last]);
      if ingredients[last].amount > 0.0 {
        assert Amounted(ingredients) == Amounted(ingredients[..last]) + {last};
      } else {
        assert Amounted(ingredients) == Amounted(ingredients[..last]);
      }
    }
  }

  predicate Blank(s: string)
  {
    Names.TrimSpace(s) == ""
  }

  // ---------------------------------------------------------------- the rules score

  const FULL_INGREDIENT_COUNT := 4
  const FULL_INSTRUCTION_RUNES := 80
  const UNTITLED := "Unbenanntes Rezept"

  /** How much of a list there is, how much of its section parsed, how many amounts were read. */
  function IngredientScoreOf(parsed: nat, withAmounts: nat, candidateLines: nat): real
  {
    if parsed == 0 then 0.0
    else
      var count := Min(1.0, parsed as real / FULL_INGREDIENT_COUNT as real);
      var coverage := if candidateLines > 0 then Min(1.0, parsed as real / candidateLines as real) else 1.0;
      var amounts := withAmounts as real / parsed as real;
      Clamp01(0.6 * count + 0.2 * coverage + 0.2 * amounts)
  }

  method IngredientScore(ingredients: seq<Ingredient>, candidateLines: nat) returns (score: real)
    ensures score == IngredientScoreOf(|ingredients|, WithAmounts(ingredients), candidateLines)
  {
    if |ingredients| == 0 {
      return 0.0;
    }
    var count := Min(1.0, |ingredients| as real / FULL_INGREDIENT_COUNT as real);
    var coverage := 1.0;
    if candidateLines > 0 {
      coverage := Min(1.0, |ingredients| as real / candidateLines as real);
    }
    var withAmounts := 0;
    for i := 0 to |ingredients|
      invariant withAmounts == WithAmounts(ingredients[..i])
    {
      assert ingredients[..i + 1][..i] == ingredients[..i];
      if ingredients[i].amount > 0.0 {
        withAmounts := withAmounts + 1;
      }
    }
    assert ingredients[..|ingredients|] == ingredients;
    var amounts := withAmounts as real / |ingredients| as real;
    score := Clamp01(0.6 * count + 0.2 * coverage + 0.2 * amounts);
  }

  function InstructionScore(instructions: string): real
  {
    var n := |Names.TrimSpace(instructions)|;
    if n == 0 then 0.0 else Min(1.0, n as real / FULL_INSTRUCTION_RUNES as real)
  }

  function ConfidenceFor(r: Recipe, ingredientLines: nat): real
  {
    var score := 0.5 * IngredientScoreOf(|r.ingredients|, WithAmounts(r.ingredients), ingredientLines)
                 + 0.5 * InstructionScore(r.instructions);
    Clamp01(if r.name == UNTITLED then 0.75 * score else score)
  }

  // ---------------------------------------------------------------- facts about quotients

  lemma QuotientBounds(a: nat, b: nat)
    requires 0 < b && a <= b
    ensures 0.0 <= a as real / b as real <= 1.0
    ensures a as real / b as real == 1.0 <==> a == b
    ensures a as real / b as real == 0.0 <==> a == 0
  {
    var q := a as real / b as real;
    assert q * b as real == a as real;
    assert q >= 1.0 ==> q * b as real >= b as real;
  }

  /** One more of both never lowers a quotient of at most one. */
  lemma QuotientUp(a: nat, b: nat)
    requires 0 < b && a <= b
    ensures (a + 1) as real / (b + 1) as real >= a as real / b as real
  {
    var x, y := a as real, b as real;
    var q := x / y;
    QuotientBounds(a, b);
    assert q * y == x;
    assert q * (y + 1.0) <= x + 1.0;
    assert (x + 1.0) / (y + 1.0) - q == ((x + 1.0) - q * (y + 1.0)) / (y + 1.0);
  }

  /** A larger divisor never raises a quotient. */
  lemma QuotientDown(a: nat, b: nat)
    requires 0 < b
    ensures a as real / (b + 1) as real <= a as real / b as real
  {
    var x, y := a as real, b as real;
    var q := x / y;
    assert q * y == x;
    assert q * (y + 1.0) >= x;
    assert q - x / (y + 1.0) == (q * (y + 1.0) - x) / (y + 1.0);
  }

  lemma ShareOf(q: real, y: real)
    requires y > 0.0
    ensures q < 1.0 ==> q * y < y
  {
    if q < 1.0 {
      assert (1.0 - q) * y > 0.0;
    }
  }

  lemma QuotientWhole(a: nat, b: nat)
    requires 0 < b <= a
    ensures a as real / b as real >= 1.0
  {
    var q := a as real / b as real;
    assert q * b as real == a as real;
    ShareOf(q, b as real);
  }

  // ---------------------------------------------------------------- what the rules score says

  /** The three terms of a nonempty list: a share of four ingredients, the coverage and the amounts. */
  lemma ScoreTerms(parsed: nat, withAmounts: nat, lines: nat)
    requires 0 < parsed && withAmounts <= parsed
    ensures var count := Min(1.0, parsed as real / FULL_INGREDIENT_COUNT as real);
            var coverage := if lines > 0 then Min(1.0, parsed as real / lines as real) else 1.0;
            var amounts := withAmounts as real / parsed as real;
            && 0.25 <= count <= 1.0 && (count == 1.0 <==> parsed >= FULL_INGREDIENT_COUNT)
            && 0.0 < coverage <= 1.0 && (coverage == 1.0 <==> parsed >= lines)
            && 0.0 <= amounts <= 1.0 && (amounts == 1.0 <==> withAmounts == parsed)
            && IngredientScoreOf(parsed, withAmounts, lines) == 0.6 * count + 0.2 * coverage + 0.2 * amounts
  {
    QuotientBounds(withAmounts, parsed);
    if 0 < lines {
      if parsed <= lines { QuotientBounds(parsed, lines); } else { QuotientWhole(parsed, lines); }
    }
  }

  lemma InstructionTerm(instructions: string)
    ensures 0.0 <= InstructionScore(instructions) <= 1.0
    ensures InstructionScore(instructions) == 0.0 <==> Blank(instructions)
    ensures InstructionScore(instructions) == 1.0 <==> |Names.TrimSpace(instructions)| >= FULL_INSTRUCTION_RUNES
  {}

  /** The rules score: zero exactly when there is nothing, one exactly for a clean full caption, and
      at most one half while a section is missing. */
  lemma RulesScoreMeaning(r: Recipe, lines: nat)
    ensures 0.0 <= ConfidenceFor(r, lines) <= 1.0
    ensures ConfidenceFor(r, lines) == 0.0 <==> r.ingredients == [] && Blank(r.instructions)
    ensures r.ingredients == [] || Blank(r.instructions) ==> ConfidenceFor(r, lines) <= 0.5
    ensures ConfidenceFor(r, lines) == 1.0 <==>
              && r.name != "Unbenanntes Rezept"
              && |r.ingredients| >= 4 && |r.ingredients| >= lines
              && WithAmounts(r.ingredients) == |r.ingredients|
              && |Names.TrimSpace(r.instructions)| >= 80
  {
    InstructionTerm(r.instructions);
    if r.ingredients != [] {
      ScoreTerms(|r.ingredients|, WithAmounts(r.ingredients), lines);
    }
  }

  /** Below 80 runes of instructions every rune counts the same. */
  lemma InstructionShare(instructions: string)
    ensures var n := |Names.TrimSpace(instructions)|;
            n <= 80 ==> InstructionScore(instructions) * 80.0 == n as real
  {}

  /** Both sections weigh the same, and a caption without a title of its own loses a quarter of the score. */
  lemma HalvesAndTitle(r: Recipe, lines: nat)
    ensures var both := IngredientScoreOf(|r.ingredients|, WithAmounts(r.ingredients), lines)
                        + InstructionScore(r.instructions);
            ConfidenceFor(r, lines) == if r.name == "Unbenanntes Rezept" then 0.375 * both else 0.5 * both
  {
    InstructionTerm(r.instructions);
    if r.ingredients != [] {
      ScoreTerms(|r.ingredients|, WithAmounts(r.ingredients), lines);
    }
  }

  /** One more parsed line that carries an amount never lowers the ingredient score. */
  lemma ParsedLineNeverLowers(parsed: nat, withAmounts: nat, lines: nat)
    requires withAmounts <= parsed
    ensures IngredientScoreOf(parsed + 1, withAmounts + 1, lines + 1) >= IngredientScoreOf(parsed, withAmounts, lines)
  {
    ScoreTerms(parsed + 1, withAmounts + 1, lines + 1);
    if parsed > 0 {
      ScoreTerms(parsed, withAmounts, lines);
      QuotientUp(withAmounts, parsed);
      if 0 < lines && parsed <= lines {
        QuotientUp(parsed, lines);
      }
    }
  }

  /** One more line that does not parse never raises it. */
  lemma UnparsedLineNeverRaises(parsed: nat, withAmounts: nat, lines: nat)
    requires withAmounts <= parsed
    ensures IngredientScoreOf(parsed, withAmounts, lines + 1) <= IngredientScoreOf(parsed, withAmounts, lines)
  {
    if parsed > 0 {
      ScoreTerms(parsed, withAmounts, lines + 1);
      ScoreTerms(parsed, withAmounts, lines);
      if 0 < lines {
        QuotientDown(parsed, lines);
      }
    }
  }

  // ---------------------------------------------------------------- the sections of a caption

  datatype LineKind = IngredientsHeader | InstructionsHeader | NoHeader

  datatype Grammar = Grammar(kind: string -> LineKind, parse: string -> Option<Ingredient>,
                             title: seq<string> -> string, categories: seq<string> -> seq<string>)

  datatype Section = NoSection | InIngredients | InInstructions

  /** The section the i-th line stands in: named by the last header before it. Headers are recognised in
      trimmed lines. */
  function SectionAt(g: Grammar, lines: seq<string>, i: nat): Section
    requires i <= |lines|
  {
    if i == 0 then NoSection
    else
      match g.kind(Names.TrimSpace(lines[i - 1]))
      case IngredientsHeader => InIngredients
      case InstructionsHeader => InInstructions
      case _ => SectionAt(g, lines, i - 1)
  }

  /** The lines among the first n that stand in a section, trimmed, headers and blank lines left out. */
  function LinesIn(g: Grammar, lines: seq<string>, section: Section, n: nat): seq<string>
    requires n <= |lines|
  {
    if n == 0 then []
    else
      var line := Names.TrimSpace(lines[n - 1]);
      LinesIn(g, lines, section, n - 1)
      + (if g.kind(line) == NoHeader && line != "" && SectionAt(g, lines, n - 1) == section then [line] else [])
  }

  function Parsed(g: Grammar, lines: seq<string>): (r: seq<Ingredient>)
    ensures |r| <= |lines|
  {
    if lines == [] then []
    else
      var init := Parsed(g, lines[..|lines| - 1]);
      var last := g.parse(lines[|lines| - 1]);
      if last.Some? then init + [last.value] else init
  }

  /** The last header before the i-th line is of this kind. */
  ghost predicate Under(g: Grammar, lines: seq<string>, header: LineKind, i: nat)
    requires i <= |lines|
  {
    exists h ::
      && 0 <= h < i && g.kind(Names.TrimSpace(lines[h])) == header
      && forall j | h < j < i :: g.kind(Names.TrimSpace(lines[j])) == NoHeader
  }

  lemma {:induction false} SectionMeaning(g: Grammar, lines: seq<string>, i: nat)
    requires i <= |lines|
    ensures SectionAt(g, lines, i) == InIngredients <==> Under(g, lines, IngredientsHeader, i)
    ensures SectionAt(g, lines, i) == InInstructions <==> Under(g, lines, InstructionsHeader, i)
  {
    if i > 0 {
      SectionMeaning(g, lines, i - 1);
      UnderNext(g, lines, IngredientsHeader, i - 1);
      UnderNext(g, lines, InstructionsHeader, i - 1);
    }
  }

  lemma UnderNext(g: Grammar, lines: seq<string>, header: LineKind, i: nat)
    requires i < |lines| && header != NoHeader
    ensures var kind := g.kind(Names.TrimSpace(lines[i]));
            Under(g, lines, header, i + 1) <==> if kind == NoHeader then Under(g, lines, header, i) else kind == header
  {
    StaysUnder(g, lines, header, i);
    if Under(g, lines, header, i + 1) {
      WasUnder(g, lines, header, i);
    }
  }

  lemma StaysUnder(g: Grammar, lines: seq<string>, header: LineKind, i: nat)
    requires i < |lines|
    ensures var kind := g.kind(Names.TrimSpace(lines[i]));
            kind == header || (kind == NoHeader && Under(g, lines, header, i)) ==> Under(g, lines, header, i + 1)
  {
    hide Names.TrimSpace;
    if g.kind(Names.TrimSpace(lines[i])) == NoHeader && Under(g, lines, header, i) {
      var h :| && 0 <= h < i && g.kind(Names.TrimSpace(lines[h])) == header
               && forall j | h < j < i :: g.kind(Names.TrimSpace(lines[j])) == NoHeader;
      assert forall j | h < j < i + 1 :: g.kind(Names.TrimSpace(lines[j])) == NoHeader;
    }
  }

  lemma WasUnder(g: Grammar, lines: seq<string>, header: LineKind, i: nat)
    requires i < |lines| && Under(g, lines, header, i + 1)
    ensures var kind := g.kind(Names.TrimSpace(lines[i]));
            kind == header || (kind == NoHeader && Under(g, lines, header, i))
  {
    hide Names.TrimSpace;
    var h :| && 0 <= h < i + 1 && g.kind(Names.TrimSpace(lines[h])) == header
             && forall j | h < j < i + 1 :: g.kind(Names.TrimSpace(lines[j])) == NoHeader;
    assert h < i ==> g.kind(Names.TrimSpace(lines[i])) == NoHeader;
  }

  /** A line is offered under a header if there is something in it, it is no header itself, and the last header
      before it is of that kind. */
  ghost predicate OfferedUnder(g: Grammar, lines: seq<string>, header: LineKind, i: int)
  {
    && 0 <= i < |lines| && !Blank(lines[i])
    && g.kind(Names.TrimSpace(lines[i])) == NoHeader && Under(g, lines, header, i)
  }

  /** out is the first n lines offered under a header, trimmed and in caption order; at is where they stand. */
  ghost predicate OffersInOrder(g: Grammar, lines: seq<string>, header: LineKind, n: nat, out: seq<string>,
                                at: seq<int>)
  {
    && |at| == |out| && Ascending(at)
    && (forall i | 0 <= i < n && OfferedUnder(g, lines, header, i) :: i in at)
    && forall k | 0 <= k < |at| ::
         0 <= at[k] < n && OfferedUnder(g, lines, header, at[k]) && out[k] == Names.TrimSpace(lines[at[k]])
  }

  function SectionOf(header: LineKind): Section
  {
    match header
    case IngredientsHeader => InIngredients
    case InstructionsHeader => InInstructions
    case NoHeader => NoSection
  }

  /** What a section takes: exactly the lines offered under its header, in order. */
  lemma {:induction false} LinesInMeaning(g: Grammar, lines: seq<string>, header: LineKind, n: nat)
    returns (at: seq<int>)
    requires n <= |lines| && header != NoHeader
    ensures OffersInOrder(g, lines, header, n, LinesIn(g, lines, SectionOf(header), n), at)
  {
    hide OfferedUnder, SectionAt, Under, Names.TrimSpace;
    at := [];
    if n > 0 {
      at := LinesInMeaning(g, lines, header, n - 1);
      OfferedNext(g, lines, header, n - 1);
      if OfferedUnder(g, lines, header, n - 1) {
        at := at + [n - 1];
      }
    }
  }

  lemma OfferedNext(g: Grammar, lines: seq<string>, header: LineKind, i: nat)
    requires i < |lines| && header != NoHeader
    ensures OfferedUnder(g, lines, header, i) <==>
              var line := Names.TrimSpace(lines[i]);
              g.kind(line) == NoHeader && line != "" && SectionAt(g, lines, i) == SectionOf(header)
  {
    SectionMeaning(g, lines, i);
  }

  /** What parsing keeps: the lines that parse, each as what it parses to, in order. */
  lemma {:induction false} ParsedMeaning(g: Grammar, lines: seq<string>) returns (at: seq<int>)
    ensures |at| == |Parsed(g, lines)| && Ascending(at)
    ensures forall i | 0 <= i < |lines| && g.parse(lines[i]).Some? :: i in at
    ensures forall k | 0 <= k < |at| :: 0 <= at[k] < |lines| && g.parse(lines[at[k]]) == Some(Parsed(g, lines)[k])
  {
    at := [];
    if lines != [] {
      var last := |lines| - 1;
      at := ParsedMeaning(g, lines[..last]);
      if g.parse(lines[last]).Some? {
        at := at + [last];
      }
    }
  }

  /** Lines are joined by single line breaks. */
  lemma {:induction false} JoinedMeaning(a: seq<string>, b: seq<string>)
    requires a != [] && b != []
    ensures JoinLines([]) == "" && JoinLines([a[0]]) == a[0]
    ensures JoinLines(a + b) == JoinLines(a) + "\n" + JoinLines(b)
  {
    if |a| == 1 {
      assert (a + b)[1..] == b;
    } else {
      JoinedMeaning(a[1..], b);
      assert (a + b)[1..] == a[1..] + b;
    }
  }

  function JoinLines(lines: seq<string>): string
  {
    if lines == [] then "" else if |lines| == 1 then lines[0] else lines[0] + "\n" + JoinLines(lines[1..])
  }

  method ParseLines(g: Grammar, lines: seq<string>) returns (ingredients: seq<Ingredient>)
    ensures ingredients == Parsed(g, lines)
  {
    ingredients := [];
    for i := 0 to |lines|
      invariant ingredients == Parsed(g, lines[..i])
    {
      assert lines[..i + 1][..i] == lines[..i];
      var ing := g.parse(lines[i]);
      if ing.Some? {
        ingredients := ingredients + [ing.value];
      }
    }
    assert lines[..|lines|] == lines;
  }

  /** The rules `Extract`. The score is supplied the number of lines the ingredients section offered,
      which is never less than the number that parsed. */
  method ExtractByRules(g: Grammar, lines: seq<string>) returns (r: Recipe, offered: nat)
    ensures offered == |LinesIn(g, lines, InIngredients, |lines|)| >= |r.ingredients|
    ensures r.ingredients == Parsed(g, LinesIn(g, lines, InIngredients, |lines|))
    ensures r.instructions == JoinLines(LinesIn(g, lines, InInstructions, |lines|))
    ensures r.name == g.title(lines) && !r.degraded
    ensures r.confidence == ConfidenceFor(r, offered)
    ensures r.categories == if r.confidence > 0.0 then g.categories(lines) else []
  {
    var ingredientLines, instructionLines := [], [];
    var section := NoSection;
    for i := 0 to |lines|
      invariant section == SectionAt(g, lines, i)
      invariant ingredientLines == LinesIn(g, lines, InIngredients, i)
      invariant instructionLines == LinesIn(g, lines, InInstructions, i)
    {
      var line := Names.TrimSpace(lines[i]);
      match g.kind(line) {
        case IngredientsHeader => section := InIngredients;
        case InstructionsHeader => section := InInstructions;
        case NoHeader =>
          if line != "" {
            match section {
              case InIngredients => ingredientLines := ingredientLines + [line];
              case InInstructions => instructionLines := instructionLines + [line];
              case NoSection =>
            }
          }
      }
    }
    var ingredients := ParseLines(g, ingredientLines);
    offered := |ingredientLines|;
    r := Recipe(g.title(lines), JoinLines(instructionLines), ingredients, [], 0.0, false);
    var ingredientScore := IngredientScore(ingredients, offered);
    var score := 0.5 * ingredientScore + 0.5 * InstructionScore(r.instructions);
    if r.name == UNTITLED {
      score := score * 0.75;
    }
    r := r.(confidence := Clamp01(score));
    if r.confidence > 0.0 {
      r := r.(categories := g.categories(lines));
    }
  }

  // ---------------------------------------------------------------- an LLM answer

  /** The decoded tool arguments. */
  datatype ToolInput = ToolInput(name: string, instructions: string, ingredients: seq<Ingredient>,
                                 categories: seq<string>, confidence: real)

  datatype LLMError = Unparseable | NoRecipe

  const NO_RECIPE := "NO_RECIPE_FOUND"

  /** What a result physically contains, scored. Instructions are measured in bytes here. */
  function StructuralConfidence(ingredients: seq<Ingredient>, instructions: string): real
  {
    if ingredients == [] || Blank(instructions) then 0.0
    else
      var list := 0.2 * Min(1.0, |ingredients| as real / 4.0);
      var method' := if |CaptionSpan.Encode(Names.TrimSpace(instructions))| >= 80 then 0.15 else 0.0;
      var amounts := 0.15 * (WithAmounts(ingredients) as real / |ingredients| as real);
      Clamp01(0.5 + list + method' + amounts)
  }

  method CopyIngredients(parsed: seq<Ingredient>) returns (ingredients: seq<Ingredient>)
    ensures ingredients == parsed
  {
    ingredients := [];
    for i := 0 to |parsed|
      invariant ingredients == parsed[..i]
    {
      var ing := parsed[i];
      ingredients := ingredients + [Ingredient(ing.name, ing.amount, ing.unit)];
    }
  }

  /** `parseToolInput`. */
  method ParseToolInput(raw: Option<ToolInput>) returns (r: Result<Recipe, LLMError>)
    ensures raw.None? <==> r == Err(Unparseable)
    ensures r.Ok? <==>
              && raw.Some? && raw.value.instructions != "NO_RECIPE_FOUND" && raw.value.confidence > 0.0
              && raw.value.ingredients != [] && !Blank(raw.value.instructions)
    ensures r.Ok? ==>
              && r.value.name == raw.value.name && r.value.instructions == raw.value.instructions
              && r.value.ingredients == raw.value.ingredients && r.value.categories == raw.value.categories
              && 0.0 < r.value.confidence <= 1.0
              && r.value.confidence == Min(Clamp01(raw.value.confidence),
                                           StructuralConfidence(raw.value.ingredients, raw.value.instructions))
  {
    if raw.None? {
      return Err(Unparseable);
    }
    hide StructuralConfidence, Blank;
    var parsed := raw.value;
    var ingredients := CopyIngredients(parsed.ingredients);
    if parsed.instructions == NO_RECIPE || parsed.confidence <= 0.0 {
      return Err(NoRecipe);
    }
    StructuralMeaning(parsed.ingredients, parsed.instructions);
    var confidence := Min(Clamp01(parsed.confidence), StructuralConfidence(ingredients, parsed.instructions));
    if confidence <= 0.0 {
      return Err(NoRecipe);
    }
    return Ok(Recipe(parsed.name, parsed.instructions, ingredients, parsed.categories, confidence, false));
  }

  /** What adds up to the structural score of a result with both halves: one half, a twentieth for each of the
      first four ingredients, the share of amounts and 80 bytes of instructions with 0.15 each. */
  lemma StructuralTerms(ingredients: seq<Ingredient>, instructions: string)
    requires ingredients != [] && !Blank(instructions)
    ensures StructuralConfidence(ingredients, instructions)
         == 0.5 + 0.05 * (if |ingredients| < 4 then |ingredients| else 4) as real
            + 0.15 * (WithAmounts(ingredients) as real / |ingredients| as real)
            + (if |CaptionSpan.Encode(Names.TrimSpace(instructions))| >= 80 then 0.15 else 0.0)
  {
    hide StructuralConfidence, Clamp01, Blank, WithAmounts;
    QuotientBounds(WithAmounts(ingredients), |ingredients|);
    FirstFour(|ingredients|);
    StructuralParts(ingredients, instructions);
    WithinOne(Min(1.0, |ingredients| as real / 4.0), WithAmounts(ingredients) as real / |ingredients| as real,
              if |CaptionSpan.Encode(Names.TrimSpace(instructions))| >= 80 then 0.15 else 0.0);
  }

  lemma StructuralParts(ingredients: seq<Ingredient>, instructions: string)
    requires ingredients != [] && !Blank(instructions)
    ensures var text := if |CaptionSpan.Encode(Names.TrimSpace(instructions))| >= 80 then 0.15 else 0.0;
            StructuralConfidence(ingredients, instructions)
            == Clamp01(0.5 + 0.2 * Min(1.0, |ingredients| as real / 4.0) + text
                       + 0.15 * (WithAmounts(ingredients) as real / |ingredients| as real))
  {}

  lemma FirstFour(n: nat)
    ensures 0.2 * Min(1.0, n as real / 4.0) == 0.05 * (if n < 4 then n else 4) as real
    ensures 0.0 <= Min(1.0, n as real / 4.0) <= 1.0
  {}

  lemma WithinOne(count: real, amounts: real, text: real)
    requires 0.0 <= count <= 1.0 && 0.0 <= amounts <= 1.0 && 0.0 <= text <= 0.15
    ensures Clamp01(0.5 + 0.2 * count + text + 0.15 * amounts) == 0.5 + 0.2 * count + text + 0.15 * amounts
  {}

  /** The structural score leaves a gap between nothing and 0.55, and is full exactly for four or more
      ingredients, all with an amount, and 80 bytes of instructions. */
  lemma StructuralMeaning(ingredients: seq<Ingredient>, instructions: string)
    ensures var s := StructuralConfidence(ingredients, instructions);
            && (s == 0.0 || 0.55 <= s <= 1.0)
            && (s > 0.0 <==> ingredients != [] && !Blank(instructions))
            && (s == 1.0 <==>
                && |ingredients| >= 4 && !Blank(instructions)
                && WithAmounts(ingredients) == |ingredients|
                && |CaptionSpan.Encode(Names.TrimSpace(instructions))| >= 80)
  {
    if ingredients != [] {
      QuotientBounds(WithAmounts(ingredients), |ingredients|);
    }
  }
}
