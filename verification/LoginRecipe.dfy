/**
 Login recipes: the line format, its parser and its printer
 (browser-lane-app/Sources/BrowserLaneApp/BrowserLaneLoginRecipe.swift).
 Space is the only white space inside a line. How a text reads as a number of seconds is
 a parameter, since it is the platform's floating-point reader.
 */
module LoginRecipe {
  import opened Wrappers
  import opened Text

  datatype FillValue = Username | Secret | Literal(text: string) {
    predicate IsSecret() { !Literal? }

    function Token(): string {
      match this
      case Username => "$username"
      case Secret => "$password"
      case Literal(text) => text
    }
  }

  datatype Step =
    | Click(selector: string)
    | ClickText(selector: string, text: string, timeout: real)
    | WaitFor(selector: string, timeout: real)
    | Wait(seconds: real)
    | Fill(selector: string, value: FillValue)
    | Submit(selector: string)

  datatype RecipeError =
    | UnknownVerb(verb: string, line: nat)
    | MissingSelector(verb: string, line: nat)
    | MissingValue(line: nat)
    | BadTimeout(raw: string, line: nat)

  /** What the platform reads from a text: no number, a finite one, or infinity or NaN. */
  datatype Reading = NotNumeric | NonFinite | Finite(value: real)

  type SecondsReader = string -> Reading

  /** The one thing the printer relies on: the seconds it can print are read as the number they denote. */
  ghost predicate ReadsDecimals(num: SecondsReader) {
    forall n: nat :: n <= 120 ==> num(Decimal(n)) == Finite(n as real)
  }

  const DEFAULT_TIMEOUT: real := 15.0

  predicate InRange(t: real) { 0.0 < t <= 120.0 }

  predicate IsSpace(c: char) { c == ' ' }

  /** Foundation's CharacterSet.newlines. */
  predicate IsNewline(c: char) {
    c == '\n' || c == '\U{0b}' || c == '\U{0c}' || c == '\r' || c == '\U{85}' || c == '\U{2028}' || c == '\U{2029}'
  }

  function Trim(s: string): string {
    Strip(IsSpace, s)
  }

  function Lines(source: string): seq<string> {
    SplitOn(seq(|source|, i requires 0 <= i < |source| => if IsNewline(source[i]) then '\n' else source[i]), '\n')
  }

  /** The first token, and everything after the one space that ends it. */
  function SplitOnce(s: string): (parts: seq<string>)
    ensures |parts| <= 2
  {
    var t := LStrip(IsSpace, s);
    if t == "" then []
    else
      var k := SkipRun(c => !IsSpace(c), t, 0);
      if k + 1 >= |t| then [t[..k]] else [t[..k], t[k + 1..]]
  }

  // ---- the parser

  function ParseWaitFor(num: SecondsReader, rest: string, line: nat): Result<Step, RecipeError> {
    var parts := Pieces(rest, ' ');
    if |parts| > 1 && num(parts[|parts| - 1]) != NotNumeric then
      match num(parts[|parts| - 1])
      case Finite(t) =>
        if InRange(t) then Ok(WaitFor(Join(parts[..|parts| - 1], ' '), t))
        else Err(BadTimeout(parts[|parts| - 1], line))
      case _ => Err(BadTimeout(parts[|parts| - 1], line))
    else Ok(WaitFor(rest, DEFAULT_TIMEOUT))
  }

  function ParseWait(num: SecondsReader, rest: string, line: nat): Result<Step, RecipeError> {
    match num(rest)
    case Finite(t) => if InRange(t) then Ok(Wait(t)) else Err(BadTimeout(rest, line))
    case _ => Err(BadTimeout(rest, line))
  }

  function ParseClickText(verb: string, rest: string, line: nat): Result<Step, RecipeError> {
    var parts := SplitOnce(rest);
    if |parts| == 2 && parts[1] != "" then Ok(ClickText(parts[0], parts[1], DEFAULT_TIMEOUT))
    else if |parts| < 2 then Err(MissingValue(line))
    else Err(MissingSelector(verb, line))
  }

  function ParseFill(verb: string, rest: string, line: nat): Result<Step, RecipeError> {
    var parts := Pieces(rest, ' ');
    if |parts| < 2 then
      if parts == [] then Err(MissingSelector(verb, line)) else Err(MissingValue(line))
    else
      var last := parts[|parts| - 1];
      var value := if last == "$username" then Username else if last == "$password" then Secret else Literal(last);
      Ok(Fill(Join(parts[..|parts| - 1], ' '), value))
  }

  function ParseStep(num: SecondsReader, verb: string, rest: string, line: nat): Result<Step, RecipeError> {
    var v := Lower(verb);
    if v == "click" || v == "submit" then
      if rest == "" then Err(MissingSelector(verb, line))
      else Ok(if v == "click" then Click(rest) else Submit(rest))
    else if v == "waitfor" then
      if rest == "" then Err(MissingSelector(verb, line)) else ParseWaitFor(num, rest, line)
    else if v == "wait" then ParseWait(num, rest, line)
    else if v == "clicktext" then ParseClickText(verb, rest, line)
    else if v == "fill" then ParseFill(verb, rest, line)
    else Err(UnknownVerb(verb, line))
  }

  function VerbLength(line: string): (k: nat)
    ensures k <= |line|
  {
    SkipRun(c => !IsSpace(c), line, 0)
  }

  predicate IsSkipped(line: string) {
    line == "" || line[0] == '#'
  }

  /** What a line says; blank lines and comments say nothing. */
  function ParseLine(num: SecondsReader, raw: string, line: nat): Result<Option<Step>, RecipeError> {
    var text := Trim(raw);
    if IsSkipped(text) then Ok(None)
    else
      var k := VerbLength(text);
      match ParseStep(num, text[..k], Trim(text[k..]), line)
      case Err(e) => Err(e)
      case Ok(step) => Ok(Some(step))
  }

  /** The steps of the lines from number i on; the first line that is wrong decides. */
  function ParseLines(num: SecondsReader, lines: seq<string>, i: nat): Result<seq<Step>, RecipeError>
    requires i <= |lines|
    decreases |lines| - i
  {
    if i == |lines| then Ok([])
    else
      match ParseLine(num, lines[i], i + 1)
      case Err(e) => Err(e)
      case Ok(None) => ParseLines(num, lines, i + 1)
      case Ok(Some(step)) => Prepend([step], ParseLines(num, lines, i + 1))
  }

  function Prepend(steps: seq<Step>, r: Result<seq<Step>, RecipeError>): Result<seq<Step>, RecipeError> {
    match r
    case Err(e) => Err(e)
    case Ok(more) => Ok(steps + more)
  }

  function Parsed(num: SecondsReader, source: string): Result<seq<Step>, RecipeError> {
    ParseLines(num, Lines(source), 0)
  }

  lemma {:induction false} PrependNothing(r: Result<seq<Step>, RecipeError>)
    ensures Prepend([], r) == r
  {
    if r.Ok? {
      assert [] + r.value == r.value;
    }
  }

  lemma {:induction false} PrependTwice(a: seq<Step>, b: seq<Step>, r: Result<seq<Step>, RecipeError>)
    ensures Prepend(a, Prepend(b, r)) == Prepend(a + b, r)
  {
    if r.Ok? {
      assert a + (b + r.value) == a + b + r.value;
    }
  }

  method Parse(num: SecondsReader, source: string) returns (r: Result<seq<Step>, RecipeError>)
    ensures r == Parsed(num, source)
  {
    var lines := Lines(source);
    var steps: seq<Step> := [];
    PrependNothing(ParseLines(num, lines, 0));
    for i := 0 to |lines|
      invariant Parsed(num, source) == Prepend(steps, ParseLines(num, lines, i))
    {
      var parsed := ParseLine(num, lines[i], i + 1);
      match parsed
      case Err(e) =>
        return Err(e);
      case Ok(None) =>
      case Ok(Some(step)) =>
        PrependTwice(steps, [step], ParseLines(num, lines, i + 1));
        steps := steps + [step];
    }
    assert steps + [] == steps;
    return Ok(steps);
  }

  /** What each line says, or what is wrong with it. */
  function Readings(num: SecondsReader, lines: seq<string>): (rs: seq<Result<Option<Step>, RecipeError>>)
    ensures |rs| == |lines|
    ensures forall i :: 0 <= i < |rs| ==> rs[i] == ParseLine(num, lines[i], i + 1)
  {
    seq(|lines|, i requires 0 <= i < |lines| => ParseLine(num, lines[i], i + 1))
  }

  /** The steps among the readings from number i on, if none of them is an error. */
  function StepsOf(rs: seq<Result<Option<Step>, RecipeError>>, i: nat): seq<Step>
    requires i <= |rs|
    decreases |rs| - i
  {
    if i == |rs| then []
    else (if rs[i].Ok? && rs[i].value.Some? then [rs[i].value.value] else []) + StepsOf(rs, i + 1)
  }

  ghost predicate FirstErrorAt(rs: seq<Result<Option<Step>, RecipeError>>, i: nat, k: nat) {
    && i <= k < |rs| && rs[k].Err?
    && forall j :: i <= j < k ==> rs[j].Ok?
  }

  /** The steps from reading i on, unless one of the readings is an error. */
  function Collect(rs: seq<Result<Option<Step>, RecipeError>>, i: nat): Result<seq<Step>, RecipeError>
    requires i <= |rs|
    decreases |rs| - i
  {
    if i == |rs| then Ok([]) else Follow(rs[i], Collect(rs, i + 1))
  }

  function Follow(first: Result<Option<Step>, RecipeError>, rest: Result<seq<Step>, RecipeError>): Result<seq<Step>, RecipeError> {
    match first
    case Err(e) => Err(e)
    case Ok(None) => rest
    case Ok(Some(step)) => Prepend([step], rest)
  }

  lemma {:induction false} ParseLinesFollow(num: SecondsReader, lines: seq<string>, i: nat, first: Result<Option<Step>, RecipeError>)
    requires i < |lines| && first == ParseLine(num, lines[i], i + 1)
    ensures ParseLines(num, lines, i) == Follow(first, ParseLines(num, lines, i + 1))
  {
    ParseLinesStep(num, lines, i);
  }

  lemma {:induction false} ParseLinesCollect(num: SecondsReader, lines: seq<string>, i: nat)
    requires i <= |lines|
    ensures ParseLines(num, lines, i) == Collect(Readings(num, lines), i)
    decreases |lines| - i
  {
    if i < |lines| {
      ParseLinesCollect(num, lines, i + 1);
      var rs := Readings(num, lines);
      CollectFirst(rs, i, rs[i]);
      ParseLinesFollow(num, lines, i, rs[i]);
    }
  }

  lemma {:induction false} CollectFirst(rs: seq<Result<Option<Step>, RecipeError>>, i: nat, first: Result<Option<Step>, RecipeError>)
    requires i < |rs| && rs[i] == first
    ensures Collect(rs, i) == Follow(first, Collect(rs, i + 1))
  {
  }

  lemma {:induction false} CollectDecides(rs: seq<Result<Option<Step>, RecipeError>>, i: nat) returns (k: nat)
    requires i <= |rs|
    ensures if k == |rs| then Collect(rs, i) == Ok(StepsOf(rs, i)) && forall j :: i <= j < k ==> rs[j].Ok?
            else FirstErrorAt(rs, i, k) && Collect(rs, i) == Err(rs[k].error)
    decreases |rs| - i
  {
    k := i;
    if i < |rs| && rs[i].Ok? {
      k := CollectDecides(rs, i + 1);
      assert [] + StepsOf(rs, i + 1) == StepsOf(rs, i + 1);
    }
  }

  /**
   A recipe is its lines' steps, in order; it is refused exactly when some line is wrong,
   and then for the first line that is, which the error names.
   */
  lemma {:induction false} FirstFault(num: SecondsReader, source: string) returns (k: nat)
    ensures var rs, r := Readings(num, Lines(source)), Parsed(num, source);
            if k == |rs| then r == Ok(StepsOf(rs, 0)) && forall j :: 0 <= j < k ==> rs[j].Ok?
            else FirstErrorAt(rs, 0, k) && r == Err(rs[k].error) && rs[k].error.line == k + 1
  {
    ParseLinesCollect(num, Lines(source), 0);
    k := CollectDecides(Readings(num, Lines(source)), 0);
    if k < |Lines(source)| {
      ErrorNamesLine(num, Lines(source)[k], k + 1);
    }
  }

  lemma {:induction false} ErrorNamesLine(num: SecondsReader, raw: string, line: nat)
    ensures ParseLine(num, raw, line).Err? ==> ParseLine(num, raw, line).error.line == line
  {
  }

  // ---- the printer

  /** Truncation toward zero, then decimal notation. */
  function SecondsText(t: real): string {
    if t >= 0.0 then Decimal(t.Floor)
    else if (-t).Floor == 0 then "0"
    else "-" + Decimal((-t).Floor)
  }

  function VerbText(step: Step): string {
    match step
    case Click(_) => "click"
    case ClickText(_, _, _) => "clickText"
    case Submit(_) => "submit"
    case WaitFor(_, _) => "waitFor"
    case Fill(_, _) => "fill"
    case Wait(_) => "wait"
  }

  /** The spaces after the verb, which line the selectors up. */
  function Gap(step: Step): string {
    match step
    case Click(_) => "   "
    case Submit(_) => "  "
    case Fill(_, _) => "    "
    case Wait(_) => "    "
    case _ => " "
  }

  function Argument(step: Step): string {
    match step
    case Click(s) => s
    case ClickText(s, text, _) => s + " " + text
    case Submit(s) => s
    case WaitFor(s, t) => if t == DEFAULT_TIMEOUT then s else s + " " + SecondsText(t)
    case Fill(s, v) => s + " " + v.Token()
    case Wait(t) => SecondsText(t)
  }

  function StepText(step: Step): string {
    VerbText(step) + Gap(step) + Argument(step)
  }

  function StepTexts(steps: seq<Step>): (texts: seq<string>)
    ensures |texts| == |steps|
    ensures forall i :: 0 <= i < |texts| ==> texts[i] == StepText(steps[i])
  {
    seq(|steps|, i requires 0 <= i < |steps| => StepText(steps[i]))
  }

  function Serialized(steps: seq<Step>): string {
    Join(StepTexts(steps), '\n')
  }

  // ---- what the parser yields

  predicate OneLine(s: string) {
    forall i :: 0 <= i < |s| ==> !IsNewline(s[i])
  }

  /** Not empty, and neither end is a space. */
  predicate Tight(s: string) {
    s != "" && !IsSpace(s[0]) && !IsSpace(s[|s| - 1])
  }

  /** Tokens with single spaces between them. */
  predicate SingleSpaced(s: string) {
    s != "" && Join(Pieces(s, ' '), ' ') == s
  }

  /** The steps a parse can yield. */
  predicate Parsable(step: Step) {
    match step
    case Click(s) => Tight(s) && OneLine(s)
    case Submit(s) => Tight(s) && OneLine(s)
    case ClickText(s, text, t) =>
      IsPiece(s, ' ') && OneLine(s) && OneLine(text) && text != "" && !IsSpace(text[|text| - 1]) && t == DEFAULT_TIMEOUT
    case WaitFor(s, t) => Tight(s) && OneLine(s) && InRange(t) && (t != DEFAULT_TIMEOUT ==> SingleSpaced(s))
    case Wait(t) => InRange(t)
    case Fill(s, v) =>
      && SingleSpaced(s) && Tight(s) && OneLine(s)
      && (v.Literal? ==> IsPiece(v.text, ' ') && OneLine(v.text) && v.text != "$username" && v.text != "$password")
  }

  lemma {:induction false} OneLineSlice(s: string, t: string)
    requires OneLine(s)
    requires forall c :: c in t ==> c in s
    ensures OneLine(t)
  {
    forall i | 0 <= i < |t| ensures !IsNewline(t[i]) {
      assert t[i] in t;
    }
  }

  lemma {:induction false} TrimTight(s: string)
    ensures Trim(s) == "" || Tight(Trim(s))
    ensures forall c :: c in Trim(s) ==> c in s
  {
    var t := LStrip(IsSpace, s);
    assert Trim(s) <= t;
    if Trim(s) != "" {
      assert Trim(s)[0] == t[0];
    }
  }

  lemma {:induction false} JoinPiecesTight(ps: seq<string>)
    requires ps != [] && ArePieces(ps, ' ')
    ensures Tight(Join(ps, ' '))
    ensures SingleSpaced(Join(ps, ' '))
  {
    PiecesJoin(ps, ' ');
    if |ps| > 1 {
      JoinPiecesTight(ps[1..]);
    }
  }

  lemma {:induction false} JoinChars(ps: seq<string>, s: string)
    requires forall i, c :: 0 <= i < |ps| && c in ps[i] ==> c in s
    requires |ps| > 1 ==> ' ' in s
    ensures forall c :: c in Join(ps, ' ') ==> c in s
  {
    if |ps| > 1 {
      JoinChars(ps[1..], s);
    }
  }

  lemma {:induction false} SplitChars(s: string, c: char)
    ensures forall i, d :: 0 <= i < |SplitOn(s, c)| && d in SplitOn(s, c)[i] ==> d in s
    ensures |SplitOn(s, c)| > 1 ==> c in s
  {
    if s != "" {
      SplitChars(s[1..], c);
      assert forall d :: d in s[1..] ==> d in s;
      assert s[0] in s;
    }
  }

  lemma {:induction false} NonEmptyAtMost(ps: seq<string>)
    ensures |NonEmpty(ps)| <= |ps|
  {
    if ps != [] {
      NonEmptyAtMost(ps[1..]);
    }
  }

  /** Some of the pieces of a one-line text, joined, are one line. */
  lemma {:induction false} PiecesOneLine(s: string, n: nat)
    requires OneLine(s) && n <= |Pieces(s, ' ')|
    ensures OneLine(Join(Pieces(s, ' ')[..n], ' '))
    ensures forall i :: 0 <= i < |Pieces(s, ' ')| ==> OneLine(Pieces(s, ' ')[i])
  {
    var ps := Pieces(s, ' ');
    SplitChars(s, ' ');
    NonEmptyAtMost(SplitOn(s, ' '));
    forall i, c | 0 <= i < |ps| && c in ps[i] ensures c in s {
      assert ps[i] in SplitOn(s, ' ');
    }
    JoinChars(ps[..n], s);
    OneLineSlice(s, Join(ps[..n], ' '));
    forall i | 0 <= i < |ps| ensures OneLine(ps[i]) {
      OneLineSlice(s, ps[i]);
    }
  }

  lemma {:induction false} ParseFillParsable(verb: string, rest: string, line: nat)
    requires OneLine(rest) && ParseFill(verb, rest, line).Ok?
    ensures Parsable(ParseFill(verb, rest, line).value)
  {
    var ps := Pieces(rest, ' ');
    PiecesOneLine(rest, |ps| - 1);
    JoinPiecesTight(ps[..|ps| - 1]);
    assert IsPiece(ps[|ps| - 1], ' ');
  }

  lemma {:induction false} ParseWaitForParsable(num: SecondsReader, rest: string, line: nat)
    requires Tight(rest) && OneLine(rest) && ParseWaitFor(num, rest, line).Ok?
    ensures Parsable(ParseWaitFor(num, rest, line).value)
  {
    var ps := Pieces(rest, ' ');
    if |ps| > 1 {
      PiecesOneLine(rest, |ps| - 1);
      JoinPiecesTight(ps[..|ps| - 1]);
    }
  }

  lemma {:induction false} ParseClickTextParsable(verb: string, rest: string, line: nat)
    requires (rest == "" || Tight(rest)) && OneLine(rest)
    ensures ParseClickText(verb, rest, line).Ok? ==> Parsable(ParseClickText(verb, rest, line).value)
    ensures ParseClickText(verb, rest, line).Err? ==> ParseClickText(verb, rest, line) == Err(MissingValue(line))
  {
    LeadIs(IsSpace, rest, 0);
    assert LStrip(IsSpace, rest) == rest;
    var k := SkipRun(c => !IsSpace(c), rest, 0);
    if k + 1 < |rest| {
      var text := rest[k + 1..];
      assert text[|text| - 1] == rest[|rest| - 1];
      OneLineSlice(rest, rest[..k]);
      OneLineSlice(rest, text);
    }
  }

  lemma {:induction false} ParseStepParsable(num: SecondsReader, verb: string, rest: string, line: nat)
    requires OneLine(rest) && (rest == "" || Tight(rest))
    requires ParseStep(num, verb, rest, line).Ok?
    ensures Parsable(ParseStep(num, verb, rest, line).value)
  {
    var v := Lower(verb);
    if v == "waitfor" {
      ParseWaitForParsable(num, rest, line);
    } else if v == "clicktext" {
      ParseClickTextParsable(verb, rest, line);
    } else if v == "fill" {
      ParseFillParsable(verb, rest, line);
    }
  }

  lemma {:induction false} ParseLineParsable(num: SecondsReader, raw: string, line: nat)
    requires OneLine(raw)
    ensures var r := ParseLine(num, raw, line); r.Ok? && r.value.Some? ==> Parsable(r.value.value)
  {
    var text := Trim(raw);
    TrimTight(raw);
    if !IsSkipped(text) {
      var k := VerbLength(text);
      OneLineSlice(raw, text);
      TrimTight(text[k..]);
      OneLineSlice(text, Trim(text[k..]));
      if ParseStep(num, text[..k], Trim(text[k..]), line).Ok? {
        ParseStepParsable(num, text[..k], Trim(text[k..]), line);
      }
    }
  }

  ghost predicate AllParsable(r: Result<seq<Step>, RecipeError>) {
    r.Ok? ==> forall j :: 0 <= j < |r.value| ==> Parsable(r.value[j])
  }

  lemma {:induction false} PrependParsable(step: Step, r: Result<seq<Step>, RecipeError>)
    requires Parsable(step) && AllParsable(r)
    ensures AllParsable(Prepend([step], r))
  {
  }

  lemma {:induction false} ParseLinesParsable(num: SecondsReader, lines: seq<string>, i: nat)
    requires i <= |lines|
    requires forall j :: i <= j < |lines| ==> OneLine(lines[j])
    ensures AllParsable(ParseLines(num, lines, i))
    decreases |lines| - i
  {
    if i < |lines| {
      ParseLinesParsable(num, lines, i + 1);
      ParseLineParsable(num, lines[i], i + 1);
      match ParseLine(num, lines[i], i + 1)
      case Ok(Some(step)) => PrependParsable(step, ParseLines(num, lines, i + 1));
      case _ =>
    }
  }

  lemma {:induction false} LinesOneLine(source: string)
    ensures forall i :: 0 <= i < |Lines(source)| ==> OneLine(Lines(source)[i])
  {
    var t := seq(|source|, i requires 0 <= i < |source| => if IsNewline(source[i]) then '\n' else source[i]);
    assert forall c :: c in t && IsNewline(c) ==> c == '\n';
    SplitChars(t, '\n');
    forall i | 0 <= i < |Lines(source)| ensures OneLine(Lines(source)[i]) {
      forall j | 0 <= j < |Lines(source)[i]| ensures !IsNewline(Lines(source)[i][j]) {
        assert Lines(source)[i][j] in Lines(source)[i];
      }
    }
  }

  // ---- the round trip

  predicate IsWhole(t: real) { t.Floor as real == t }

  /** A selector that, printed without a timeout, would be read as ending in one. */
  predicate EndsInNumber(num: SecondsReader, selector: string) {
    var parts := Pieces(selector, ' ');
    |parts| > 1 && num(parts[|parts| - 1]) != NotNumeric
  }

  /** The step survives printing and parsing. */
  predicate Survives(num: SecondsReader, step: Step) {
    match step
    case Wait(t) => IsWhole(t)
    case WaitFor(s, t) => if t == DEFAULT_TIMEOUT then !EndsInNumber(num, s) else IsWhole(t)
    case _ => true
  }

  lemma {:induction false} TightIsTrimmed(gap: string, a: string)
    requires Tight(a) && forall i :: 0 <= i < |gap| ==> IsSpace(gap[i])
    ensures Trim(gap + a) == a
  {
    LeadIs(IsSpace, gap + a, |gap|);
    assert (gap + a)[|gap|..] == a;
    RStripNothing(IsSpace, a);
  }

  lemma {:induction false} VerbOf(verb: string, gap: string, a: string)
    requires IsPiece(verb, ' ')
    requires gap != "" && forall i :: 0 <= i < |gap| ==> IsSpace(gap[i])
    ensures VerbLength(verb + gap + a) == |verb|
    ensures (verb + gap + a)[..|verb|] == verb
    ensures (verb + gap + a)[|verb|..] == gap + a
  {
    assert (verb + gap + a)[|verb|] == gap[0];
  }

  lemma {:induction false} TrimIdentity(text: string)
    requires Tight(text)
    ensures Trim(text) == text
  {
    TightIsTrimmed("", text);
    assert "" + text == text;
  }

  lemma {:induction false} PrintedTight(verb: string, gap: string, a: string)
    requires IsPiece(verb, ' ') && Tight(a)
    ensures Tight(verb + gap + a)
    ensures (verb + gap + a)[0] == verb[0]
  {
  }

  /** A printed line is taken apart into the verb and the text after it. */
  lemma {:induction false} ParsePrinted(num: SecondsReader, verb: string, gap: string, a: string, line: nat)
    requires IsPiece(verb, ' ') && verb[0] != '#'
    requires gap != "" && forall i :: 0 <= i < |gap| ==> IsSpace(gap[i])
    requires Tight(a)
    ensures ParseLine(num, verb + gap + a, line) ==
            match ParseStep(num, verb, a, line) case Err(e) => Err(e) case Ok(step) => Ok(Some(step))
  {
    PrintedTight(verb, gap, a);
    TrimIdentity(verb + gap + a);
    VerbOf(verb, gap, a);
    TightIsTrimmed(gap, a);
  }

  lemma {:induction false} DecimalTight(n: nat)
    ensures Tight(Decimal(n)) && IsPiece(Decimal(n), ' ') && OneLine(Decimal(n))
  {
    var s := Decimal(n);
    assert IsDigitChar(s[0]) && IsDigitChar(s[|s| - 1]);
    forall c | c in s ensures IsDigitChar(c) {
      var i :| 0 <= i < |s| && s[i] == c;
    }
  }

  lemma {:induction false} TightAround(a: string, b: string)
    requires a != "" && !IsSpace(a[0]) && b != "" && !IsSpace(b[|b| - 1])
    ensures Tight(a + " " + b)
    ensures a + [' '] + b == a + " " + b
  {
  }

  lemma {:induction false} ReparseWait(num: SecondsReader, t: real, line: nat)
    requires ReadsDecimals(num) && InRange(t)
    ensures ParseWait(num, SecondsText(t), line) == Ok(Wait(t)) <==> IsWhole(t)
  {
    assert num(Decimal(t.Floor)) == Finite(t.Floor as real);
  }

  /** A last token is split off again, and leaves the selector before it. */
  lemma {:induction false} PiecesWithLast(s: string, last: string)
    requires SingleSpaced(s) && IsPiece(last, ' ')
    ensures var parts := Pieces(s + " " + last, ' ');
            && parts == Pieces(s, ' ') + [last] && |parts| >= 2
            && parts[|parts| - 1] == last && parts[..|parts| - 1] == Pieces(s, ' ')
            && Join(parts[..|parts| - 1], ' ') == s
  {
    PiecesConcat(s, last, ' ');
    assert s + [' '] + last == s + " " + last;
    PiecesOfPiece(last, ' ');
    assert Pieces(s, ' ') != [];
  }

  /** A selector with an explicit timeout is split from it again. */
  lemma {:induction false} ReparseTimeout(num: SecondsReader, s: string, t: real, line: nat)
    requires ReadsDecimals(num) && InRange(t)
    requires SingleSpaced(s)
    ensures ParseWaitFor(num, s + " " + SecondsText(t), line) == Ok(WaitFor(s, t)) <==> IsWhole(t)
  {
    var last := Decimal(t.Floor);
    DecimalTight(t.Floor);
    PiecesWithLast(s, last);
    assert num(last) == Finite(t.Floor as real);
  }

  /** A selector without one is kept, unless its last token is read as a timeout. */
  lemma {:induction false} ReparseDefault(num: SecondsReader, s: string, line: nat)
    ensures ParseWaitFor(num, s, line) == Ok(WaitFor(s, DEFAULT_TIMEOUT)) <==> !EndsInNumber(num, s)
  {
    var parts := Pieces(s, ' ');
    if EndsInNumber(num, s) {
      var shorter := parts[..|parts| - 1];
      PiecesJoin(shorter, ' ');
      assert Pieces(Join(shorter, ' '), ' ') != parts;
    }
  }

  lemma {:induction false} ReparseFill(s: string, v: FillValue, verb: string, line: nat)
    requires Parsable(Fill(s, v))
    ensures ParseFill(verb, s + " " + v.Token(), line) == Ok(Fill(s, v))
  {
    assert IsPiece(v.Token(), ' ');
    PiecesWithLast(s, v.Token());
  }

  /** The label keeps its leading and inner spaces. */
  lemma {:induction false} ReparseClickText(s: string, text: string, verb: string, line: nat)
    requires IsPiece(s, ' ') && text != ""
    ensures ParseClickText(verb, s + " " + text, line) == Ok(ClickText(s, text, DEFAULT_TIMEOUT))
  {
    var t := s + " " + text;
    LeadIs(IsSpace, t, 0);
    assert LStrip(IsSpace, t) == t;
    assert t[|s|] == ' ';
    assert SkipRun(c => !IsSpace(c), t, 0) == |s|;
    assert t[..|s|] == s && t[|s| + 1..] == text;
  }

  /** Which parser each printed verb leads to. */
  lemma {:induction false} Dispatch(num: SecondsReader, rest: string, line: nat)
    requires rest != ""
    ensures ParseStep(num, "click", rest, line) == Ok(Click(rest))
    ensures ParseStep(num, "submit", rest, line) == Ok(Submit(rest))
    ensures ParseStep(num, "waitFor", rest, line) == ParseWaitFor(num, rest, line)
    ensures ParseStep(num, "wait", rest, line) == ParseWait(num, rest, line)
    ensures ParseStep(num, "clickText", rest, line) == ParseClickText("clickText", rest, line)
    ensures ParseStep(num, "fill", rest, line) == ParseFill("fill", rest, line)
  {
    assert Lower("click") == "click" && Lower("submit") == "submit" && Lower("fill") == "fill" && Lower("wait") == "wait";
    assert Lower("clickText") == "clicktext" && Lower("waitFor") == "waitfor";
  }

  lemma {:induction false} ArgumentTight(step: Step)
    requires Parsable(step)
    ensures Tight(Argument(step))
  {
    match step
    case ClickText(s, text, _) => TightAround(s, text);
    case WaitFor(s, t) =>
      DecimalTight(t.Floor);
      TightAround(s, SecondsText(t));
    case Fill(s, v) => TightAround(s, v.Token());
    case Wait(t) => DecimalTight(t.Floor);
    case _ =>
  }

  /** The argument is read back exactly when the step survives. */
  lemma {:induction false} ReparseStep(num: SecondsReader, step: Step, line: nat)
    requires ReadsDecimals(num) && Parsable(step)
    ensures ParseStep(num, VerbText(step), Argument(step), line) == Ok(step) <==> Survives(num, step)
  {
    ArgumentTight(step);
    Dispatch(num, Argument(step), line);
    match step
    case ClickText(s, text, _) => ReparseClickText(s, text, "clickText", line);
    case WaitFor(s, t) =>
      if t == DEFAULT_TIMEOUT {
        ReparseDefault(num, s, line);
      } else {
        ReparseTimeout(num, s, t, line);
      }
    case Wait(t) => ReparseWait(num, t, line);
    case Fill(s, v) => ReparseFill(s, v, "fill", line);
    case _ =>
  }

  /** A printed step is read back exactly when it survives, and never as a blank line. */
  lemma {:induction false} Reparse(num: SecondsReader, step: Step, line: nat)
    requires ReadsDecimals(num) && Parsable(step)
    ensures ParseLine(num, StepText(step), line) != Ok(None)
    ensures ParseLine(num, StepText(step), line) == Ok(Some(step)) <==> Survives(num, step)
  {
    ArgumentTight(step);
    ParsePrinted(num, VerbText(step), Gap(step), Argument(step), line);
    ReparseStep(num, step, line);
  }

  lemma {:induction false} OneLineConcat(a: string, b: string)
    requires OneLine(a) && OneLine(b)
    ensures OneLine(a + b)
  {
  }

  lemma {:induction false} OneLineWords(a: string, b: string)
    requires OneLine(a) && OneLine(b)
    ensures OneLine(a + " " + b)
  {
    OneLineConcat(a, " ");
    OneLineConcat(a + " ", b);
  }

  lemma {:induction false} ArgumentOneLine(step: Step)
    requires Parsable(step)
    ensures OneLine(Argument(step))
  {
    match step
    case ClickText(s, text, _) => OneLineWords(s, text);
    case WaitFor(s, t) =>
      DecimalTight(t.Floor);
      OneLineWords(s, SecondsText(t));
    case Fill(s, v) => OneLineWords(s, v.Token());
    case Wait(t) => DecimalTight(t.Floor);
    case _ =>
  }

  lemma {:induction false} VerbOneLine(step: Step)
    ensures OneLine(VerbText(step) + Gap(step))
  {
    OneLineConcat(VerbText(step), Gap(step));
  }

  lemma {:induction false} StepTextOneLine(step: Step)
    requires Parsable(step)
    ensures OneLine(StepText(step))
  {
    ArgumentOneLine(step);
    VerbOneLine(step);
    OneLineConcat(VerbText(step) + Gap(step), Argument(step));
  }

  lemma {:induction false} JoinNewlines(texts: seq<string>)
    requires forall i :: 0 <= i < |texts| ==> OneLine(texts[i])
    ensures forall c :: c in Join(texts, '\n') && IsNewline(c) ==> c == '\n'
  {
    if texts != [] {
      JoinNewlines(texts[1..]);
      assert forall c :: c in texts[0] ==> !IsNewline(c);
    }
  }

  /** The printed text has one line per step; an empty recipe prints as one empty line. */
  lemma {:induction false} SerializedLines(steps: seq<Step>)
    requires forall i :: 0 <= i < |steps| ==> Parsable(steps[i])
    ensures Lines(Serialized(steps)) == if steps == [] then [""] else StepTexts(steps)
  {
    var texts := StepTexts(steps);
    forall i | 0 <= i < |texts| ensures OneLine(texts[i]) && '\n' !in texts[i] {
      StepTextOneLine(steps[i]);
      assert IsNewline('\n');
    }
    JoinNewlines(texts);
    var s := Serialized(steps);
    assert s == Join(texts, '\n');
    assert forall i :: 0 <= i < |s| ==> s[i] in s;
    assert seq(|s|, i requires 0 <= i < |s| => if IsNewline(s[i]) then '\n' else s[i]) == s;
    if steps != [] {
      SplitOnJoin(texts, '\n');
    }
  }

  ghost predicate AllSurvive(num: SecondsReader, steps: seq<Step>) {
    forall i :: 0 <= i < |steps| ==> Survives(num, steps[i])
  }

  lemma {:induction false} AllSurviveCons(num: SecondsReader, step: Step, rest: seq<Step>)
    ensures AllSurvive(num, [step] + rest) <==> Survives(num, step) && AllSurvive(num, rest)
  {
    if AllSurvive(num, [step] + rest) {
      assert ([step] + rest)[0] == step;
      forall i | 0 <= i < |rest| ensures Survives(num, rest[i]) {
        assert ([step] + rest)[i + 1] == rest[i];
      }
    }
  }

  lemma {:induction false} ParseLinesStep(num: SecondsReader, lines: seq<string>, i: nat)
    requires i < |lines|
    ensures match ParseLine(num, lines[i], i + 1)
            case Err(e) => ParseLines(num, lines, i) == Err(e)
            case Ok(None) => ParseLines(num, lines, i) == ParseLines(num, lines, i + 1)
            case Ok(Some(step)) => ParseLines(num, lines, i) == Prepend([step], ParseLines(num, lines, i + 1))
  {
  }

  /** On any line, the text is read back as the step exactly when the step survives. */
  ghost predicate ReadBack(num: SecondsReader, text: string, step: Step) {
    forall line: nat ::
      var r := ParseLine(num, text, line);
      r != Ok(None) && (r == Ok(Some(step)) <==> Survives(num, step))
  }

  lemma {:induction false} ReparseFirst(num: SecondsReader, texts: seq<string>, i: nat, step: Step, rest: seq<Step>)
    requires i < |texts| && ReadBack(num, texts[i], step)
    ensures ParseLines(num, texts, i) == Ok([step] + rest)
        <==> Survives(num, step) && ParseLines(num, texts, i + 1) == Ok(rest)
  {
    ParseLinesStep(num, texts, i);
    match ParseLine(num, texts[i], i + 1)
    case Ok(Some(first)) => ConsSame(step, rest, first, ParseLines(num, texts, i + 1));
    case _ =>
  }

  lemma {:induction false} ReparseLines(num: SecondsReader, texts: seq<string>, steps: seq<Step>, i: nat)
    requires |texts| == |steps| && i <= |steps|
    requires forall j :: i <= j < |steps| ==> ReadBack(num, texts[j], steps[j])
    ensures ParseLines(num, texts, i) == Ok(steps[i..]) <==> AllSurvive(num, steps[i..])
    decreases |steps| - i
  {
    if i < |steps| {
      ReparseLines(num, texts, steps, i + 1);
      ReparseFirst(num, texts, i, steps[i], steps[i + 1..]);
      AllSurviveCons(num, steps[i], steps[i + 1..]);
      SplitHead(steps, i);
    } else {
      assert steps[i..] == [];
    }
  }

  lemma {:induction false} SplitHead<T>(s: seq<T>, i: nat)
    requires i < |s|
    ensures s[i..] == [s[i]] + s[i + 1..]
  {
  }

  /** The first line and the others contribute separately. */
  lemma {:induction false} ConsSame(step: Step, rest: seq<Step>, first: Step, more: Result<seq<Step>, RecipeError>)
    ensures Prepend([first], more) == Ok([step] + rest) <==> first == step && more == Ok(rest)
  {
    if more.Ok? {
      var got := [first] + more.value;
      assert got[0] == first && got[1..] == more.value;
      assert ([step] + rest)[0] == step && ([step] + rest)[1..] == rest;
    }
  }

  /**
   Printing an accepted recipe and parsing the text again gives the same recipe exactly
   when every wait is a whole number of seconds and no default wait has a selector that
   ends in a number.
   */
  lemma {:induction false} RoundTrip(num: SecondsReader, source: string)
    requires ReadsDecimals(num)
    requires Parsed(num, source).Ok?
    ensures var steps := Parsed(num, source).value;
            Parsed(num, Serialized(steps)) == Ok(steps) <==> AllSurvive(num, steps)
  {
    var steps := Parsed(num, source).value;
    LinesOneLine(source);
    ParseLinesParsable(num, Lines(source), 0);
    SerializedLines(steps);
    if steps == [] {
      assert ParseLines(num, [""], 0) == ParseLines(num, [""], 1);
    } else {
      forall j | 0 <= j < |steps| ensures ReadBack(num, StepTexts(steps)[j], steps[j]) {
        forall line: nat ensures ParseLine(num, StepText(steps[j]), line) != Ok(None)
                         ensures ParseLine(num, StepText(steps[j]), line) == Ok(Some(steps[j])) <==> Survives(num, steps[j])
        {
          Reparse(num, steps[j], line);
        }
      }
      ReparseLines(num, StepTexts(steps), steps, 0);
      assert steps[0..] == steps;
    }
  }

  /** Written out, the default timeout is dropped, and then the selector's own number is read as one. */
  lemma {:induction false} DefaultTimeoutIsLost(num: SecondsReader, token: string, n: nat, line: nat)
    requires ReadsDecimals(num) && IsPiece(token, ' ') && 1 <= n <= 120
    ensures var selector := token + " " + Decimal(n);
            && ParseWaitFor(num, selector + " " + Decimal(15), line) == Ok(WaitFor(selector, DEFAULT_TIMEOUT))
            && Argument(WaitFor(selector, DEFAULT_TIMEOUT)) == selector
            && ParseWaitFor(num, selector, line) == Ok(WaitFor(token, n as real))
  {
    PiecesOfPiece(token, ' ');
    assert Join([token], ' ') == token;
    TwoPieces(token, n);
    var selector := token + " " + Decimal(n);
    assert Join([token, Decimal(n)], ' ') == selector by {
      assert [token, Decimal(n)][1..] == [Decimal(n)];
    }
    ReparseTimeout(num, selector, 15.0, line);
    ReparseTimeout(num, token, n as real, line);
    assert SecondsText(n as real) == Decimal(n) && SecondsText(15.0) == Decimal(15);
  }

  lemma {:induction false} TwoPieces(token: string, n: nat)
    requires IsPiece(token, ' ')
    ensures Pieces(token + " " + Decimal(n), ' ') == [token, Decimal(n)]
  {
    DecimalTight(n);
    PiecesOfPiece(token, ' ');
    PiecesOfPiece(Decimal(n), ' ');
    PiecesConcat(token, Decimal(n), ' ');
    assert token + [' '] + Decimal(n) == token + " " + Decimal(n);
  }

  // ---- what each line means, as it is written

  /** Only blank lines, and lines whose first character other than a space is '#', say nothing. */
  lemma {:induction false} SaysNothing(num: SecondsReader, raw: string, line: nat)
    ensures ParseLine(num, raw, line) == Ok(None)
       <==> (forall i :: 0 <= i < |raw| ==> raw[i] == ' ')
            || exists k :: 0 <= k < |raw| && raw[k] == '#' && forall i :: 0 <= i < k ==> raw[i] == ' '
  {
    var text := Trim(raw);
    NothingParsed(num, raw, line);
    var k := Lead(IsSpace, raw);
    TrimmedFirst(raw);
    if k < |raw| {
      assert raw[k] != ' ';
      if exists j :: 0 <= j < |raw| && raw[j] == '#' && forall i :: 0 <= i < j ==> raw[i] == ' ' {
        var j :| 0 <= j < |raw| && raw[j] == '#' && forall i :: 0 <= i < j ==> raw[i] == ' ';
        assert j == k;
      }
    }
  }

  lemma {:induction false} TrimmedFirst(raw: string)
    ensures var k := Lead(IsSpace, raw);
            if k == |raw| then Trim(raw) == "" else Trim(raw) != "" && Trim(raw)[0] == raw[k]
  {
    var k := Lead(IsSpace, raw);
    var t := LStrip(IsSpace, raw);
    if k < |raw| {
      assert t[0] == raw[k];
      assert RStrip(IsSpace, t) <= t;
    }
  }

  lemma {:induction false} NothingParsed(num: SecondsReader, raw: string, line: nat)
    ensures ParseLine(num, raw, line) == Ok(None) <==> Trim(raw) == "" || Trim(raw)[0] == '#'
  {
  }

  /** A line: a verb, spaces, and the rest of it, with spaces around. */
  ghost predicate Written(raw: string, verb: string, rest: string) {
    exists before, gap, after :: WrittenAs(raw, before, verb, gap, rest, after)
  }

  predicate WrittenAs(raw: string, before: string, verb: string, gap: string, rest: string, after: string) {
    && AreSpaces(before) && AreSpaces(gap) && AreSpaces(after)
    && IsPiece(verb, ' ') && verb[0] != '#'
    && ((rest == "" && gap == "") || (Tight(rest) && gap != ""))
    && raw == before + (verb + gap + rest) + after
  }

  predicate AreSpaces(s: string) {
    forall i :: 0 <= i < |s| ==> s[i] == ' '
  }

  lemma {:induction false} TrimAround(before: string, text: string, after: string)
    requires AreSpaces(before) && AreSpaces(after) && Tight(text)
    ensures Trim(before + text + after) == text
  {
    var raw := before + text + after;
    assert raw[|before|] == text[0];
    LeadIs(IsSpace, raw, |before|);
    var t := raw[|before|..];
    assert t == text + after;
    assert TrimEnd(IsSpace, t, |t|) == |text| by {
      assert t[|text| - 1] == text[|text| - 1];
      assert forall j :: |text| <= j < |t| ==> t[j] == after[j - |text|];
    }
    assert t[..|text|] == text;
  }

  lemma {:induction false} VerbAlone(verb: string)
    requires IsPiece(verb, ' ')
    ensures Tight(verb) && VerbLength(verb) == |verb| && Trim(verb[|verb|..]) == ""
  {
    assert verb[0] in verb && verb[|verb| - 1] in verb;
    assert forall i :: 0 <= i < |verb| ==> verb[i] in verb;
  }

  /** A written line is taken apart into its verb and its rest. */
  lemma {:induction false} WrittenIsRead(num: SecondsReader, raw: string, verb: string, rest: string, line: nat)
    requires Written(raw, verb, rest)
    ensures match ParseStep(num, verb, rest, line)
            case Err(e) => ParseLine(num, raw, line) == Err(e)
            case Ok(step) => ParseLine(num, raw, line) == Ok(Some(step))
  {
    var before, gap, after :| WrittenAs(raw, before, verb, gap, rest, after);
    if rest == "" {
      VerbAlone(verb);
      assert verb + gap + rest == verb;
      TrimAround(before, verb, after);
      assert verb[..|verb|] == verb;
    } else {
      PrintedTight(verb, gap, rest);
      TrimAround(before, verb + gap + rest, after);
      VerbOf(verb, gap, rest);
      TightIsTrimmed(gap, rest);
    }
  }

  /** Which reader each verb, in any letter case, leads to. */
  lemma {:induction false} VerbMeans(num: SecondsReader, verb: string, rest: string, line: nat)
    ensures var v, r := Lower(verb), ParseStep(num, verb, rest, line);
            && (v == "click" && rest != "" ==> r == Ok(Click(rest)))
            && (v == "submit" && rest != "" ==> r == Ok(Submit(rest)))
            && (v == "waitfor" && rest != "" ==> r == ParseWaitFor(num, rest, line))
            && (v == "wait" ==> r == ParseWait(num, rest, line))
            && (v == "clicktext" ==> r == ParseClickText(verb, rest, line))
            && (v == "fill" ==> r == ParseFill(verb, rest, line))
            && (rest == "" && (v == "click" || v == "submit" || v == "waitfor") ==> r == Err(MissingSelector(verb, line)))
            && (v != "click" && v != "clicktext" && v != "submit" && v != "waitfor" && v != "wait" && v != "fill" ==>
                  r == Err(UnknownVerb(verb, line)))
  {
  }

  /** What is missing after a verb alone, and verbs there are not. */
  lemma {:induction false} RestMissing(num: SecondsReader, raw: string, verb: string, line: nat)
    requires Written(raw, verb, "")
    ensures var v, r := Lower(verb), ParseLine(num, raw, line);
            && (v == "click" || v == "submit" || v == "waitfor" || v == "fill" ==> r == Err(MissingSelector(verb, line)))
            && (v == "clicktext" ==> r == Err(MissingValue(line)))
  {
    WrittenIsRead(num, raw, verb, "", line);
    VerbMeans(num, verb, "", line);
    NothingAfter(verb, line);
  }

  lemma {:induction false} NothingAfter(verb: string, line: nat)
    ensures ParseFill(verb, "", line) == Err(MissingSelector(verb, line))
    ensures ParseClickText(verb, "", line) == Err(MissingValue(line))
  {
    PiecesJoin([], ' ');
    assert Pieces("", ' ') == [];
  }

  lemma {:induction false} VerbUnknown(num: SecondsReader, raw: string, verb: string, rest: string, line: nat)
    requires Written(raw, verb, rest)
    requires var v := Lower(verb);
             v != "click" && v != "clicktext" && v != "submit" && v != "waitfor" && v != "wait" && v != "fill"
    ensures ParseLine(num, raw, line) == Err(UnknownVerb(verb, line))
  {
    WrittenIsRead(num, raw, verb, rest, line);
    VerbMeans(num, verb, rest, line);
  }

  /** The rest of a click or submit is its selector, spaces and all. */
  lemma {:induction false} ClickMeans(num: SecondsReader, raw: string, verb: string, rest: string, line: nat)
    requires Written(raw, verb, rest) && rest != ""
    ensures Lower(verb) == "click" ==> ParseLine(num, raw, line) == Ok(Some(Click(rest)))
    ensures Lower(verb) == "submit" ==> ParseLine(num, raw, line) == Ok(Some(Submit(rest)))
  {
    WrittenIsRead(num, raw, verb, rest, line);
    VerbMeans(num, verb, rest, line);
  }

  predicate IsTimeout(r: Reading) { r.Finite? && 0.0 < r.value <= 120.0 }

  lemma {:induction false} WaitMeans(num: SecondsReader, raw: string, verb: string, rest: string, line: nat)
    requires Written(raw, verb, rest) && Lower(verb) == "wait"
    ensures ParseLine(num, raw, line) == if IsTimeout(num(rest)) then Ok(Some(Wait(num(rest).value))) else Err(BadTimeout(rest, line))
  {
    WrittenIsRead(num, raw, verb, rest, line);
    VerbMeans(num, verb, rest, line);
  }

  /** A last word that reads as a number is the timeout, and refused out of range; otherwise all of it is the selector. */
  lemma {:induction false} WaitForMeans(num: SecondsReader, raw: string, verb: string, rest: string, words: seq<string>, last: string, line: nat)
    requires Written(raw, verb, rest) && Lower(verb) == "waitfor" && Pieces(rest, ' ') == words + [last]
    ensures ParseLine(num, raw, line) ==
            if words == [] || num(last) == NotNumeric then Ok(Some(WaitFor(rest, 15.0)))
            else if IsTimeout(num(last)) then Ok(Some(WaitFor(Join(words, ' '), num(last).value)))
            else Err(BadTimeout(last, line))
  {
    WrittenIsRead(num, raw, verb, rest, line);
    VerbMeans(num, verb, rest, line);
    NotEmpty(rest, words, last);
    WaitForRead(num, rest, words, last, line);
  }

  lemma {:induction false} NotEmpty(rest: string, words: seq<string>, last: string)
    requires Pieces(rest, ' ') == words + [last]
    ensures rest != ""
  {
    PiecesJoin([], ' ');
    assert |Pieces(rest, ' ')| > 0;
  }

  lemma {:induction false} WaitForRead(num: SecondsReader, rest: string, words: seq<string>, last: string, line: nat)
    requires Pieces(rest, ' ') == words + [last]
    ensures ParseWaitFor(num, rest, line) ==
            if words == [] || num(last) == NotNumeric then Ok(WaitFor(rest, 15.0))
            else if IsTimeout(num(last)) then Ok(WaitFor(Join(words, ' '), num(last).value))
            else Err(BadTimeout(last, line))
  {
    WordsAndLast(words, last);
  }

  lemma {:induction false} WordsAndLast(words: seq<string>, last: string)
    ensures var parts := words + [last];
            |parts| == |words| + 1 && parts[|parts| - 1] == last && parts[..|parts| - 1] == words
  {
  }

  /** The last word of a fill is its value. */
  lemma {:induction false} FillMeans(num: SecondsReader, raw: string, verb: string, rest: string, words: seq<string>, last: string, line: nat)
    requires Written(raw, verb, rest) && Lower(verb) == "fill" && Pieces(rest, ' ') == words + [last]
    ensures ParseLine(num, raw, line) ==
            if words == [] then Err(MissingValue(line))
            else Ok(Some(Fill(Join(words, ' '),
                              if last == "$username" then Username else if last == "$password" then Secret else Literal(last))))
  {
    WrittenIsRead(num, raw, verb, rest, line);
    VerbMeans(num, verb, rest, line);
    FillRead(verb, rest, words, last, line);
  }

  lemma {:induction false} FillRead(verb: string, rest: string, words: seq<string>, last: string, line: nat)
    requires Pieces(rest, ' ') == words + [last]
    ensures ParseFill(verb, rest, line) ==
            if words == [] then Err(MissingValue(line))
            else Ok(Fill(Join(words, ' '),
                         if last == "$username" then Username else if last == "$password" then Secret else Literal(last)))
  {
    WordsAndLast(words, last);
  }

  /** The first word of a clickText is its selector, and everything after one space its label. */
  lemma {:induction false} ClickTextMeans(num: SecondsReader, raw: string, verb: string, selector: string, text: string, line: nat)
    requires Lower(verb) == "clicktext" && IsPiece(selector, ' ')
    requires text != "" && Written(raw, verb, selector + " " + text)
    ensures ParseLine(num, raw, line) == Ok(Some(ClickText(selector, text, 15.0)))
  {
    WrittenIsRead(num, raw, verb, selector + " " + text, line);
    VerbMeans(num, verb, selector + " " + text, line);
    ReparseClickText(selector, text, verb, line);
  }

  lemma {:induction false} LabelMissing(num: SecondsReader, raw: string, verb: string, selector: string, line: nat)
    requires Lower(verb) == "clicktext" && IsPiece(selector, ' ') && Written(raw, verb, selector)
    ensures ParseLine(num, raw, line) == Err(MissingValue(line))
  {
    WrittenIsRead(num, raw, verb, selector, line);
    VerbMeans(num, verb, selector, line);
    OneWord(selector);
  }

  lemma {:induction false} OneWord(s: string)
    requires IsPiece(s, ' ')
    ensures SplitOnce(s) == [s]
  {
    assert s[0] in s;
    LeadIs(IsSpace, s, 0);
    assert forall i :: 0 <= i < |s| ==> s[i] in s;
    assert s[..|s|] == s;
  }

  // ---- what is printed, letter by letter

  lemma {:induction false} PrintedVerbs(step: Step)
    ensures StepText(step) == VerbText(step) + Gap(step) + Argument(step)
    ensures VerbText(step) + Gap(step) ==
            match step
            case Click(_) => "click   "
            case ClickText(_, _, _) => "clickText "
            case Submit(_) => "submit  "
            case WaitFor(_, _) => "waitFor "
            case Fill(_, _) => "fill    "
            case Wait(_) => "wait    "
  {
  }

  lemma {:induction false} PrintedArguments(s: string, text: string, n: nat)
    ensures Argument(Click(s)) == s && Argument(Submit(s)) == s && Argument(WaitFor(s, 15.0)) == s
    ensures Argument(ClickText(s, text, 15.0)) == s + " " + text
    ensures n != 15 ==> Argument(WaitFor(s, n as real)) == s + " " + Decimal(n)
    ensures Argument(Fill(s, Username)) == s + " " + "$username" && Argument(Fill(s, Secret)) == s + " " + "$password"
    ensures Argument(Fill(s, Literal(text))) == s + " " + text
    ensures Argument(Wait(n as real)) == Decimal(n)
  {
    assert (n as real).Floor == n;
  }

  /** Seconds are printed without their fraction, whichever side of zero they are on. */
  lemma {:induction false} PrintedSeconds(n: nat, fraction: real)
    requires 0.0 <= fraction < 1.0
    ensures SecondsText(n as real + fraction) == Decimal(n)
    ensures SecondsText(-(n as real + fraction)) == (if n == 0 then "" else "-") + Decimal(n)
  {
    var t := n as real + fraction;
    assert t.Floor == n;
    assert Decimal(0) == "0";
    assert -(-t) == t;
    assert "" + Decimal(n) == Decimal(n);
  }

  /** What ends a line: LF, VT, FF, CR, NEL, and the line and paragraph separators. */
  lemma {:induction false} LineEnds(c: char)
    ensures IsNewline(c) <==> c as int in {10, 11, 12, 13, 0x85, 0x2028, 0x2029}
  {
  }
}
