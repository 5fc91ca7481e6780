/** The grammar crate's definition parser (parser/src/lib.rs): the text
    format of an L-system, `render:` and its `key = value` lines, then
    `rules:` and its `symbol => symbols` lines, built from the combinators. */
module Grammar {
  import opened Wrappers
  import opened Combinator
  import opened LSystemApi

  // ---------------------------------------------------------------------
  // Character classes of Rust's `char`

  /** `char::is_ascii_graphic`: `'!'` to `'~'`. */
  predicate IsAsciiGraphic(c: char) {
    '!' <= c <= '~'
  }

  /** `char::is_ascii_digit`. */
  predicate IsAsciiDigit(c: char) {
    '0' <= c <= '9'
  }

  /** `char::is_whitespace`: the Unicode `White_Space` property. */
  predicate IsWhitespace(c: char) {
    || '\t' <= c <= '\r'
    || c == ' '
    || c == '\U{0085}'
    || c == '\U{00A0}'
    || c == '\U{1680}'
    || '\U{2000}' <= c <= '\U{200A}'
    || c == '\U{2028}'
    || c == '\U{2029}'
    || c == '\U{202F}'
    || c == '\U{205F}'
    || c == '\U{3000}'
  }

  /** A graphic character is never whitespace, so `non_ws_char` rejects
      spaces, tabs and line ends. */
  lemma GraphicIsNotWhitespace(c: char)
    ensures IsAsciiGraphic(c) ==> !IsWhitespace(c) && !IsSpaceOrTab(c) && c != '\r' && c != '\n'
  {
  }

  // ---------------------------------------------------------------------
  // Symbols and white space

  /** `non_ws_char`: one ASCII-graphic character. */
  function NonWsChar(input: seq<char>): (r: ParseResult<char>)
    ensures input == [] ==> r == Err(EndOfInput)
    ensures input != [] && !IsAsciiGraphic(input[0]) ==> r == Err(ExpectingPredicate)
    ensures input != [] && IsAsciiGraphic(input[0]) ==> r == Ok((input[0], input[1..]))
  {
    if input == [] then Err(EndOfInput)
    else if IsAsciiGraphic(input[0]) then Ok((input[0], input[1..]))
    else Err(ExpectingPredicate)
  }

  /** `parse_symbol`: `non_ws_char` with the spaces and tabs around it
      skipped.  A parser that takes no arguments is modelled as the function
      it returns; `?` on `skip_spaces`, which never fails, is `.value`. */
  function ParseSymbol(input: seq<char>): (r: ParseResult<char>)
    ensures var s := SkipSpaces(input).value.1;
      && (r.Ok? <==> s != [] && IsAsciiGraphic(s[0]))
      && (r.Ok? ==> r.value == (s[0], SkipSpaces(s[1..]).value.1))
      && (r.Err? ==> r.error == if s == [] then EndOfInput else ExpectingPredicate)
    ensures r.Ok? ==> IsSuffix(r.value.1, input) && |r.value.1| < |input|
  {
    var s := SkipSpaces(input).value;
    var c :- NonWsChar(s.1);
    var end := SkipSpaces(c.1).value;
    SuffixTransitive(c.1, s.1, input);
    SuffixTransitive(end.1, c.1, input);
    Ok((c.0, end.1))
  }

  lemma ParseSymbolConsumes()
    ensures Consumes(ParseSymbol)
  {
  }

  /** `skip_all_ws`: drops all leading white space, line ends included;
      never fails. */
  function SkipAllWs(input: seq<char>): (r: ParseResult<()>)
    ensures r.Ok? && IsSuffix(r.value.1, input)
  {
    Ok(((), input[TakeWhileCount(input, IsWhitespace)..]))
  }

  /** What `skip_all_ws` drops is white space, and all of it. */
  lemma SkipAllWsSpan(input: seq<char>)
    ensures var rest := SkipAllWs(input).value.1;
      && (forall i :: 0 <= i < |input| - |rest| ==> IsWhitespace(input[i]))
      && (rest == [] || !IsWhitespace(rest[0]))
  {
    var k := TakeWhileCount(input, IsWhitespace);
    assert SkipAllWs(input).value.1 == input[k..];
  }

  /** `newline`: `"\n"`, `"\r\n"` or `"\r"`, tried in that order and
      consumed whole; anything else is `ExpectingOneOfToParse`.  This is the
      closed form of the combinator expression `NewlineOneOf`, and
      `NewlineIsOneOf` proves the two equal on every input. */
  function Newline(input: seq<char>): (r: ParseResult<()>)
    ensures r.Ok? ==> IsSuffix(r.value.1, input) && |r.value.1| < |input|
  {
    if "\n" <= input then Ok(((), input[1..]))
    else if "\r\n" <= input then Ok(((), input[2..]))
    else if "\r" <= input then Ok(((), input[1..]))
    else Err(ExpectingOneOfToParse)
  }

  /** `one_of([literal("\n"), literal("\r\n"), literal("\r")]).map(|_| ())`,
      as the source writes it. */
  function NewlineOneOf(input: seq<char>): ParseResult<()> {
    Map(OneOf(NewlineOptions()), (_: string) => ())(input)
  }

  function NewlineOptions(): seq<Parser<string>> {
    [Literal("\n"), Literal("\r\n"), Literal("\r")]
  }

  /** The combinator expression and the closed form agree: `newline`
      consumes one line end, `"\r\n"` as a whole, and fails with
      `ExpectingOneOfToParse` on anything else. */
  lemma NewlineIsOneOf(input: seq<char>)
    ensures NewlineOneOf(input) == Newline(input)
  {
    NewlineFirstSuccess(input);
    assert NewlineOneOf(input) == match FirstSuccess(NewlineOptions(), input)
      case Ok((_, rest)) => Ok(((), rest))
      case Err(e) => Err(e);
  }

  lemma NewlineFirstSuccess(input: seq<char>)
    ensures FirstSuccess(NewlineOptions(), input) ==
      if "\n" <= input then Ok(("\n", input[1..]))
      else if "\r\n" <= input then Ok(("\r\n", input[2..]))
      else if "\r" <= input then Ok(("\r", input[1..]))
      else Err(ExpectingOneOfToParse)
  {
    var opts := NewlineOptions();
    assert opts[0] == Literal("\n") && opts[1..][0] == Literal("\r\n");
    assert opts[1..][1..][0] == Literal("\r") && opts[1..][1..][1..] == [];
  }

  // ---------------------------------------------------------------------
  // Rules

  /** `rule_parser`: optional blank lines, a symbol, `=>`, one or more
      symbols and one line end, with spaces and tabs skipped between them
      as the macro does. */
  function RuleParser(input: seq<char>): (r: ParseResult<Rule<char>>)
    ensures r.Ok? ==> IsAsciiGraphic(r.value.0.matchInput)
    ensures r.Ok? ==> |r.value.0.productions| >= 1 &&
                      forall i :: 0 <= i < |r.value.0.productions| ==> IsAsciiGraphic(r.value.0.productions[i])
    ensures r.Ok? ==> IsSuffix(r.value.1, input) && |r.value.1| < |input|
    ensures r.Ok? ==> exists i :: 0 <= i < |input| && (input[i] == '\n' || input[i] == '\r')
  {
    ParseSymbolConsumes();
    var a := SkipSpaces(input).value;
    var ws := SkipAllWs(a.1).value;
    var b := SkipSpaces(ws.1).value;
    var symbol :- ParseSymbol(b.1);
    var c := SkipSpaces(symbol.1).value;
    var separator :- Literal("=>")(c.1);
    var d := SkipSpaces(separator.1).value;
    var replacements :- AtLeast(1, ParseSymbol)(d.1);
    var e := SkipSpaces(replacements.1).value;
    var nl :- Newline(e.1);
    var f := SkipSpaces(nl.1).value;
    RuleSuffix(input, a.1, ws.1, b.1, symbol.1, c.1, separator.1, d.1, replacements.1, e.1, nl.1, f.1);
    RuleSuffix(input, a.1, ws.1, b.1, symbol.1, c.1, separator.1, d.1, replacements.1, e.1, e.1, e.1);
    LineEndWithin(e.1, input);
    RunsValues(ParseSymbol, IsAsciiGraphic, d.1, replacements.0, replacements.1);
    Ok((Rule(symbol.0, replacements.0), f.1))
  }

  /** Text that `newline` accepts starts with a line end, and so does its
      place in any text it ends. */
  lemma LineEndWithin(e: seq<char>, input: seq<char>)
    requires IsSuffix(e, input) && Newline(e).Ok?
    ensures exists i :: 0 <= i < |input| && (input[i] == '\n' || input[i] == '\r')
  {
    assert input[|input| - |e|] == e[0];
  }

  /** The chain of remainders of a rule line narrows the input. */
  lemma RuleSuffix(s0: seq<char>, s1: seq<char>, s2: seq<char>, s3: seq<char>, s4: seq<char>, s5: seq<char>,
                   s6: seq<char>, s7: seq<char>, s8: seq<char>, s9: seq<char>, s10: seq<char>, s11: seq<char>)
    requires IsSuffix(s1, s0) && IsSuffix(s2, s1) && IsSuffix(s3, s2) && IsSuffix(s4, s3) && |s4| < |s3|
    requires IsSuffix(s5, s4) && IsSuffix(s6, s5) && IsSuffix(s7, s6) && IsSuffix(s8, s7)
    requires IsSuffix(s9, s8) && IsSuffix(s10, s9) && IsSuffix(s11, s10)
    ensures IsSuffix(s11, s0) && |s11| < |s0|
  {
    SuffixTransitive(s2, s1, s0);
    SuffixTransitive(s3, s2, s0);
    SuffixTransitive(s4, s3, s0);
    SuffixTransitive(s5, s4, s0);
    SuffixTransitive(s6, s5, s0);
    SuffixTransitive(s7, s6, s0);
    SuffixTransitive(s8, s7, s0);
    SuffixTransitive(s9, s8, s0);
    SuffixTransitive(s10, s9, s0);
    SuffixTransitive(s11, s10, s0);
  }

  lemma RuleParserConsumes()
    ensures Consumes(RuleParser)
  {
  }

  /** `rules_parser`: one or more rule lines, folded into a rule store by
      `from_rules`. */
  function RulesParser(input: seq<char>): (r: ParseResult<LSystemRules<char>>)
    ensures r.Ok? ==> IsSuffix(r.value.1, input) && |r.value.1| < |input|
  {
    RuleParserConsumes();
    Map(AtLeast(1, RuleParser), (rs: seq<Rule<char>>) => FromRules(rs))(input)
  }

  /** `rules_parser` fails exactly when the first rule line does, with that
      line's error; otherwise it yields `from_rules` of the greedy run of
      rule lines, in order, and stops where the next rule line fails. */
  lemma RulesParserBehaviour(input: seq<char>)
    ensures RuleParser(input).Err? ==> RulesParser(input) == Err(RuleParser(input).error)
    ensures RuleParser(input).Ok? ==>
      RulesParser(input).Ok? &&
      exists rules, rest :: |rules| >= 1 && Runs(RuleParser, input, rules, rest) && RuleParser(rest).Err? &&
                            RulesParser(input).value == (FromRules(rules), rest)
  {
    RuleParserConsumes();
    var r := Repeat(1, RuleParser, input);
    assert RulesParser(input) == match r
      case Ok((rs, rest)) => Ok((FromRules(rs), rest))
      case Err(e) => Err(e);
    if RuleParser(input).Ok? {
      var rest := RuleParser(input).value.1;
      assert Repeat(0, RuleParser, rest).Ok?;
      assert r.Ok?;
      var rules := r.value.0;
      assert Runs(RuleParser, input, rules, r.value.1);
    }
  }

  /** A rule line whose symbol, found after the leading white space, is not
      followed by `=>` fails there, with `ExpectingString("=>")`. */
  lemma NoSeparator(input: seq<char>, symbol: char, rest: seq<char>)
    requires ParseSymbol(SkipSpaces(SkipAllWs(SkipSpaces(input).value.1).value.1).value.1) == Ok((symbol, rest))
    requires !("=>" <= rest)
    ensures RuleParser(input) == Err(ExpectingString("=>"))
  {
    var a := SkipSpaces(input).value;
    var ws := SkipAllWs(a.1).value;
    var b := SkipSpaces(ws.1).value;
    var s := SkipSpaces(b.1).value.1;
    assert rest == SkipSpaces(s[1..]).value.1;
    SkipSpacesTwice(s[1..]);
    var c := SkipSpaces(rest).value;
    assert c.1 == rest;
    assert Literal("=>")(c.1) == Err(ExpectingString("=>"));
  }

  /** Text that does not start with white space is left as it is by both
      `skip_spaces` and `skip_all_ws`. */
  lemma NoLeadingSpace(s: seq<char>)
    requires s == [] || !IsWhitespace(s[0])
    ensures SkipSpaces(s).value.1 == s && SkipAllWs(s).value.1 == s
  {
    assert TakeWhileCount(s, IsSpaceOrTab) == 0;
    assert TakeWhileCount(s, IsWhitespace) == 0;
  }

  /** Skipping spaces and tabs a second time skips nothing. */
  lemma SkipSpacesTwice(s: seq<char>)
    ensures SkipSpaces(SkipSpaces(s).value.1).value.1 == SkipSpaces(s).value.1
  {
    var t := SkipSpaces(s).value.1;
    SkipSpacesSpan(s);
    assert TakeWhileCount(t, IsSpaceOrTab) == 0;
  }

  /** A rule line without its `=>` is a syntax error. */
  lemma MissingSeparator(line: seq<char>)
    requires line == "A BCD\n"
    ensures RuleParser(line) == Err(ExpectingString("=>"))
    ensures RulesParser(line) == Err(ExpectingString("=>"))
  {
    var rest := line[2..];
    assert rest == "BCD\n" && line == "A " + rest;
    SymbolA(line, rest);
    NoLeadingSpace(line);
    NoSeparator(line, 'A', rest);
    RulesParserBehaviour(line);
  }

  lemma SymbolA(line: seq<char>, rest: seq<char>)
    requires rest == "BCD\n" && line == "A " + rest
    ensures ParseSymbol(line) == Ok(('A', rest))
  {
    assert TakeWhileCount(line, IsSpaceOrTab) == 0;
    assert TakeWhileCount(rest, IsSpaceOrTab) == 0;
    assert line[1..] == " " + rest;
    SkipSpacesOver(" ", rest);
  }

  // ---------------------------------------------------------------------
  // Values and the render configuration

  /** An `f64`, kept as its IEEE 754 bit pattern; no arithmetic on it is
      modelled. */
  datatype F64 = F64(bits: bv64)

  /** The renderer settings the `render:` section sets, one field per
      configuration key. */
  datatype RendererConfig = RendererConfig(
    startingStep: F64,
    stepMultiplier: F64,
    startingAngle: F64,
    angleMultiplier: F64,
    startingLineWidth: F64,
    lineWidthMultiplier: F64,
    backgroundColor: string,
    penColor: string)

  /** A parsed definition: the rule store and the render settings. */
  datatype LSystem = LSystem(rules: LSystemRules<char>, renderConfig: RendererConfig)

  /** One `key = value` line. */
  datatype ConfigItem =
    | StartingStep(f: F64)
    | StepMultiplier(f: F64)
    | StartingAngle(f: F64)
    | AngleMultiplier(f: F64)
    | StartingLineWidth(f: F64)
    | LineWidthMultiplier(f: F64)
    | BackgroundColor(s: string)
    | PenColor(s: string)

  /** `str::trim_start`. */
  function TrimStart(s: seq<char>): seq<char> {
    s[TakeWhileCount(s, IsWhitespace)..]
  }

  /** `str::trim_end`. */
  function TrimEnd(s: seq<char>): seq<char>
    decreases |s|
  {
    if s != [] && IsWhitespace(s[|s| - 1]) then TrimEnd(s[..|s| - 1]) else s
  }

  /** `str::trim`: the input without its leading and trailing white space. */
  function Trim(s: seq<char>): (t: seq<char>) {
    TrimEnd(TrimStart(s))
  }

  /** `trim_end` removes exactly a white-space suffix. */
  lemma {:induction false} TrimEndSpan(s: seq<char>)
    ensures var t := TrimEnd(s);
      && t <= s
      && (forall k :: |t| <= k < |s| ==> IsWhitespace(s[k]))
      && (t == [] || !IsWhitespace(t[|t| - 1]))
    decreases |s|
  {
    if s != [] && IsWhitespace(s[|s| - 1]) {
      var init := s[..|s| - 1];
      TrimEndSpan(init);
      forall k | |TrimEnd(s)| <= k < |s| ensures IsWhitespace(s[k]) {
        if k < |s| - 1 { assert s[k] == init[k]; }
      }
    }
  }

  /** `trim` cuts the input into white space, the trimmed text, and white
      space, and the trimmed text neither starts nor ends with white space. */
  lemma TrimSpan(s: seq<char>)
    ensures var t := Trim(s); var i := TakeWhileCount(s, IsWhitespace);
      && i + |t| <= |s| && t == s[i..i + |t|]
      && (forall k :: 0 <= k < i ==> IsWhitespace(s[k]))
      && (forall k :: i + |t| <= k < |s| ==> IsWhitespace(s[k]))
      && (t == [] || (!IsWhitespace(t[0]) && !IsWhitespace(t[|t| - 1])))
  {
    var i := TakeWhileCount(s, IsWhitespace);
    var u := s[i..];
    TrimEndSpan(u);
    TrimmedSlice(s, i, TrimEnd(u));
  }

  /** A prefix `t` of `s[i..]` followed only by white space sits at
      `s[i..i + |t|]`, with white space after it up to the end of `s`. */
  lemma TrimmedSlice(s: seq<char>, i: nat, t: seq<char>)
    requires i <= |s| && t <= s[i..]
    requires forall k :: |t| <= k < |s| - i ==> IsWhitespace(s[i..][k])
    ensures i + |t| <= |s| && t == s[i..i + |t|]
    ensures forall k :: i + |t| <= k < |s| ==> IsWhitespace(s[k])
  {
    forall k | i + |t| <= k < |s| ensures IsWhitespace(s[k]) {
      assert s[k] == s[i..][k - i];
    }
  }

  /** The unused `decimal` parser's pattern, a `parse_sequence!` of one
      ASCII digit, `.` and one ASCII digit. */
  function DecimalPattern(input: seq<char>): (r: ParseResult<()>)
    ensures r.Ok? ==> IsSuffix(r.value.1, input)
  {
    var before :- Any(IsAsciiDigit)(input);
    var dot :- Literal(".")(before.1);
    var fractional :- Any(IsAsciiDigit)(dot.1);
    SuffixTransitive(dot.1, before.1, input);
    SuffixTransitive(fractional.1, dot.1, input);
    Ok(((), fractional.1))
  }

  /** The conversion `decimal` applies to the matched text; `toF64` stands
      for `str::parse::<f64>`. */
  function ConvertDecimal(toF64: seq<char> -> Option<F64>, text: seq<char>): Result<F64, ParseError> {
    match toF64(text)
    case Some(v) => Ok(v)
    case None => Err(Custom("invalid decimal"))
  }

  /** `decimal`: the text the pattern matched, converted to an `f64`. */
  function Decimal(toF64: seq<char> -> Option<F64>, input: seq<char>): (r: ParseResult<F64>)
    ensures r.Ok? ==> IsSuffix(r.value.1, input)
  {
    assert WellFormed(DecimalPattern);
    FlatMap(Recognize(DecimalPattern), (text: seq<char>) => ConvertDecimal(toF64, text))(input)
  }

  /** `decimal` accepts exactly a digit, a dot and a digit, three characters
      and no more, and fails with the error of the first element that does
      not match. */
  lemma DecimalBehaviour(toF64: seq<char> -> Option<F64>, input: seq<char>)
    ensures Decimal(toF64, input) ==
      if input == [] then Err(EndOfInput)
      else if !IsAsciiDigit(input[0]) then Err(ExpectingPredicate)
      else if !("." <= input[1..]) then Err(ExpectingString("."))
      else if |input| == 2 then Err(EndOfInput)
      else if !IsAsciiDigit(input[2]) then Err(ExpectingPredicate)
      else match ConvertDecimal(toF64, input[..3])
        case Ok(v) => Ok((v, input[3..]))
        case Err(e) => Err(e)
  {
    assert WellFormed(DecimalPattern);
    if |input| >= 3 && IsAsciiDigit(input[0]) && "." <= input[1..] && IsAsciiDigit(input[2]) {
      assert input[1..][1..] == input[2..];
      assert DecimalPattern(input) == Ok(((), input[3..]));
      assert Recognize(DecimalPattern)(input) == Ok((input[..3], input[3..]));
    } else if |input| >= 2 && IsAsciiDigit(input[0]) && "." <= input[1..] {
      assert input[1..][1..] == input[2..];
    }
  }

  /** Two digits before the dot are already too many: `decimal` fails on
      `"40.5"` at the `0`, where it expects the dot. */
  lemma DecimalRejectsTwoDigits(toF64: seq<char> -> Option<F64>)
    ensures Decimal(toF64, "40.5") == Err(ExpectingString("."))
  {
    DecimalBehaviour(toF64, "40.5");
  }

  predicate NotLineEnd(c: char) {
    c != '\r' && c != '\n'
  }

  /** The conversion `config_value` applies to the text of the line: trim it
      and parse it, with its own message on failure. */
  function ConvertValue<T>(parseValue: seq<char> -> Option<T>, value: seq<char>): Result<T, ParseError> {
    var trimmed := Trim(value);
    match parseValue(trimmed)
    case Some(v) => Ok(v)
    case None => Err(Custom("Invalid config value: '" + trimmed + "\n           '"))
  }

  /** `config_value::<T>()`: the rest of the line (at least one character),
      trimmed and converted by `T::from_str`, which is the parameter
      `parseValue`. */
  function ConfigValue<T>(parseValue: seq<char> -> Option<T>, input: seq<char>): (r: ParseResult<T>)
    ensures r.Ok? ==> IsSuffix(r.value.1, input)
  {
    FlatMap(LineText(), ConvertWith(parseValue))(input)
  }

  /** `recognize(at_least(1, any(|c| c != '\r' && c != '\n')))`. */
  function LineText(): Parser<seq<char>> {
    Recognize(AtLeast(1, Any(NotLineEnd)))
  }

  function ConvertWith<T>(parseValue: seq<char> -> Option<T>): seq<char> -> Result<T, ParseError> {
    value => ConvertValue(parseValue, value)
  }

  /** `config_value` takes the whole rest of the line, never its line end:
      an empty rest of line is `EndOfInput` at the end of the text and
      `ExpectingPredicate` before a line end; otherwise the trimmed text is
      converted, and a failed conversion is the `Custom` message. */
  lemma ConfigValueBehaviour<T>(parseValue: seq<char> -> Option<T>, input: seq<char>)
    ensures var k := TakeWhileCount(input, NotLineEnd);
      ConfigValue(parseValue, input) ==
        if k == 0 then Err(if input == [] then EndOfInput else ExpectingPredicate)
        else match ConvertValue(parseValue, input[..k])
          case Ok(v) => Ok((v, input[k..]))
          case Err(e) => Err(e)
  {
    RestOfLine(input);
    FlatMapOf(LineText(), ConvertWith(parseValue), input);
  }

  /** The text `config_value` recognizes: the characters up to the line end,
      at least one of them. */
  lemma RestOfLine(input: seq<char>)
    ensures var k := TakeWhileCount(input, NotLineEnd);
      LineText()(input) ==
        if k == 0 then Err(if input == [] then EndOfInput else ExpectingPredicate)
        else Ok((input[..k], input[k..]))
  {
    var k := TakeWhileCount(input, NotLineEnd);
    var line := AtLeast(1, Any(NotLineEnd));
    RepeatAny(1, NotLineEnd, input);
    assert line(input) == Repeat(1, Any(NotLineEnd), input);
    RecognizeOf(line, input);
    if k > 0 {
      assert input[..|input| - |input[k..]|] == input[..k];
    }
  }

  /** `config_item(name, make)`: `name`, `=`, a value, one line end, with
      spaces and tabs skipped between them as the macro does. */
  function ConfigItemParser<T>(name: string, parseValue: seq<char> -> Option<T>, make: T -> ConfigItem,
                               input: seq<char>): (r: ParseResult<ConfigItem>)
    ensures r.Ok? ==> IsSuffix(r.value.1, input) && |r.value.1| < |input|
  {
    var key :- KeyAndEquals(name, input);
    var value :- ConfigValue(parseValue, key.1);
    var d := SkipSpaces(value.1).value;
    var nl :- Newline(d.1);
    var e := SkipSpaces(nl.1).value;
    ConfigItemSuffix(input, key.1, value.1, d.1, nl.1, e.1);
    Ok((make(value.0), e.1))
  }

  /** The first five elements of `config_item`'s macro: the key and `=`,
      each after skipped spaces and tabs, and the spaces and tabs after
      `=`. */
  function KeyAndEquals(name: string, input: seq<char>): (r: ParseResult<()>)
    ensures r.Ok? ==> IsSuffix(r.value.1, input) && |r.value.1| < |input|
  {
    var a := SkipSpaces(input).value;
    var ident :- Literal(name)(a.1);
    var b := SkipSpaces(ident.1).value;
    var eq :- Literal("=")(b.1);
    var c := SkipSpaces(eq.1).value;
    SuffixTransitive(b.1, ident.1, a.1);
    SuffixTransitive(b.1, a.1, input);
    SuffixTransitive(eq.1, b.1, input);
    SuffixTransitive(c.1, eq.1, input);
    Ok(((), c.1))
  }

  /** The chain of remainders of a configuration line narrows the input. */
  lemma ConfigItemSuffix(s0: seq<char>, s1: seq<char>, s2: seq<char>, s3: seq<char>, s4: seq<char>, s5: seq<char>)
    requires IsSuffix(s1, s0) && |s1| < |s0|
    requires IsSuffix(s2, s1) && IsSuffix(s3, s2) && IsSuffix(s4, s3) && IsSuffix(s5, s4)
    ensures IsSuffix(s5, s0) && |s5| < |s0|
  {
    SuffixTransitive(s2, s1, s0);
    SuffixTransitive(s3, s2, s0);
    SuffixTransitive(s4, s3, s0);
    SuffixTransitive(s5, s4, s0);
  }

  /** `String::from_str`, which never fails. */
  function Text(s: seq<char>): Option<string> {
    Some(s)
  }

  /** The eight configuration lines `parse_config` tries, in its order; the
      six numeric ones convert with `toF64`, which stands for
      `str::parse::<f64>`. */
  function ConfigItems(toF64: seq<char> -> Option<F64>): seq<Parser<ConfigItem>> {
    [ Item("starting_step", toF64, (v: F64) => StartingStep(v)),
      Item("step_multiplier", toF64, (v: F64) => StepMultiplier(v)),
      Item("starting_angle", toF64, (v: F64) => StartingAngle(v)),
      Item("angle_multiplier", toF64, (v: F64) => AngleMultiplier(v)),
      Item("starting_line_width", toF64, (v: F64) => StartingLineWidth(v)),
      Item("line_width_multiplier", toF64, (v: F64) => LineWidthMultiplier(v)),
      Item("background_color", Text, (v: string) => BackgroundColor(v)),
      Item("pen_color", Text, (v: string) => PenColor(v)) ]
  }

  /** `config_item(name, make)` as a parser value; every success consumes. */
  function Item<T>(name: string, parseValue: seq<char> -> Option<T>, make: T -> ConfigItem): (p: Parser<ConfigItem>)
    ensures Consumes(p)
  {
    input => ConfigItemParser(name, parseValue, make, input)
  }

  lemma ConfigItemsConsume(toF64: seq<char> -> Option<F64>)
    ensures Consumes(OneOf(ConfigItems(toF64)))
  {
    var items := ConfigItems(toF64);
    assert forall i :: 0 <= i < |items| ==> Consumes(items[i]);
  }

  /** One arm of the `match` in `parse_config`'s loop: the item's own field
      is overwritten. */
  function ApplyItem(config: RendererConfig, item: ConfigItem): RendererConfig {
    match item
    case StartingStep(v) => config.(startingStep := v)
    case StepMultiplier(v) => config.(stepMultiplier := v)
    case StartingAngle(v) => config.(startingAngle := v)
    case AngleMultiplier(v) => config.(angleMultiplier := v)
    case StartingLineWidth(v) => config.(startingLineWidth := v)
    case LineWidthMultiplier(v) => config.(lineWidthMultiplier := v)
    case BackgroundColor(v) => config.(backgroundColor := v)
    case PenColor(v) => config.(penColor := v)
  }

  /** The loop of `parse_config`: the items applied in order. */
  function ApplyItems(config: RendererConfig, items: seq<ConfigItem>): (r: RendererConfig)
    ensures items != [] ==> Setting(r, KeyOf(items[|items| - 1])) == SettingOf(items[|items| - 1])
    decreases |items|
  {
    if items == [] then config else ApplyItem(ApplyItems(config, items[..|items| - 1]), items[|items| - 1])
  }

  /** `parse_config`: as many configuration lines as parse, each tried
      against the eight keys, applied to `RendererConfig::default()`, which
      is the parameter `defaults`.  It never fails. */
  function ParseConfig(defaults: RendererConfig, toF64: seq<char> -> Option<F64>, input: seq<char>): (r: ParseResult<RendererConfig>)
    ensures r.Ok? && IsSuffix(r.value.1, input)
  {
    ConfigItemsConsume(toF64);
    var items := Many(OneOf(ConfigItems(toF64)))(input).value;
    Ok((ApplyItems(defaults, items.0), items.1))
  }

  /** `parse_config` as written: `many` run by its loops, then the `for`
      loop over the items. */
  method RunParseConfig(defaults: RendererConfig, toF64: seq<char> -> Option<F64>, input: seq<char>)
      returns (r: ParseResult<RendererConfig>)
    ensures r == ParseConfig(defaults, toF64, input)
  {
    ConfigItemsConsume(toF64);
    var parsed := RunAtLeast(0, OneOf(ConfigItems(toF64)), input);
    assert parsed == Many(OneOf(ConfigItems(toF64)))(input);
    var (results, rem) := parsed.value;
    var config := RunApplyItems(defaults, results);
    return Ok((config, rem));
  }

  /** The `for` loop of `parse_config`, overwriting one field of `config`
      per item. */
  method RunApplyItems(defaults: RendererConfig, results: seq<ConfigItem>) returns (config: RendererConfig)
    ensures config == ApplyItems(defaults, results)
  {
    config := defaults;
    for i := 0 to |results|
      invariant config == ApplyItems(defaults, results[..i])
    {
      assert results[..i + 1][..i] == results[..i];
      match results[i] {
        case StartingStep(value) => config := config.(startingStep := value);
        case StepMultiplier(value) => config := config.(stepMultiplier := value);
        case StartingAngle(value) => config := config.(startingAngle := value);
        case AngleMultiplier(value) => config := config.(angleMultiplier := value);
        case StartingLineWidth(value) => config := config.(startingLineWidth := value);
        case LineWidthMultiplier(value) => config := config.(lineWidthMultiplier := value);
        case BackgroundColor(value) => config := config.(backgroundColor := value);
        case PenColor(value) => config := config.(penColor := value);
      }
    }
    assert results[..|results|] == results;
  }

  // The configuration seen key by key

  datatype ConfigKey =
    | StartingStepKey | StepMultiplierKey | StartingAngleKey | AngleMultiplierKey
    | StartingLineWidthKey | LineWidthMultiplierKey | BackgroundColorKey | PenColorKey

  datatype ConfigSetting = Number(f: F64) | Words(s: string)

  function KeyOf(item: ConfigItem): ConfigKey {
    match item
    case StartingStep(_) => StartingStepKey
    case StepMultiplier(_) => StepMultiplierKey
    case StartingAngle(_) => StartingAngleKey
    case AngleMultiplier(_) => AngleMultiplierKey
    case StartingLineWidth(_) => StartingLineWidthKey
    case LineWidthMultiplier(_) => LineWidthMultiplierKey
    case BackgroundColor(_) => BackgroundColorKey
    case PenColor(_) => PenColorKey
  }

  function SettingOf(item: ConfigItem): ConfigSetting {
    if item.BackgroundColor? || item.PenColor? then Words(item.s) else Number(item.f)
  }

  /** The field of `config` that `key` names. */
  function Setting(config: RendererConfig, key: ConfigKey): ConfigSetting {
    match key
    case StartingStepKey => Number(config.startingStep)
    case StepMultiplierKey => Number(config.stepMultiplier)
    case StartingAngleKey => Number(config.startingAngle)
    case AngleMultiplierKey => Number(config.angleMultiplier)
    case StartingLineWidthKey => Number(config.startingLineWidth)
    case LineWidthMultiplierKey => Number(config.lineWidthMultiplier)
    case BackgroundColorKey => Words(config.backgroundColor)
    case PenColorKey => Words(config.penColor)
  }

  /** Each item overwrites its own field and no other. */
  lemma ApplyItemSetting(config: RendererConfig, item: ConfigItem, key: ConfigKey)
    ensures Setting(ApplyItem(config, item), key) == if KeyOf(item) == key then SettingOf(item) else Setting(config, key)
  {
  }

  predicate HasItemFor(items: seq<ConfigItem>, key: ConfigKey) {
    exists i :: 0 <= i < |items| && KeyOf(items[i]) == key
  }

  /** The setting of the last item for `key`. */
  function LastSetting(items: seq<ConfigItem>, key: ConfigKey): ConfigSetting
    requires HasItemFor(items, key)
    decreases |items|
  {
    if KeyOf(items[|items| - 1]) == key then SettingOf(items[|items| - 1])
    else
      assert HasItemFor(items[..|items| - 1], key) by {
        var i :| 0 <= i < |items| && KeyOf(items[i]) == key;
        assert items[..|items| - 1][i] == items[i];
      }
      LastSetting(items[..|items| - 1], key)
  }

  /** Last write wins per key: after the items are applied, every key holds
      the value of its last item, and a key without any item keeps the
      default. */
  lemma {:induction false} ApplyItemsSetting(config: RendererConfig, items: seq<ConfigItem>, key: ConfigKey)
    ensures HasItemFor(items, key) ==> Setting(ApplyItems(config, items), key) == LastSetting(items, key)
    ensures !HasItemFor(items, key) ==> Setting(ApplyItems(config, items), key) == Setting(config, key)
    decreases |items|
  {
    if items != [] {
      var init := items[..|items| - 1];
      ApplyItemsSetting(config, init, key);
      ApplyItemSetting(ApplyItems(config, init), items[|items| - 1], key);
      if KeyOf(items[|items| - 1]) != key {
        if HasItemFor(items, key) {
          var i :| 0 <= i < |items| && KeyOf(items[i]) == key;
          assert init[i] == items[i];
        }
        if HasItemFor(init, key) {
          var i :| 0 <= i < |init| && KeyOf(init[i]) == key;
          assert items[i] == init[i];
        }
      }
    }
  }

  /** With no configuration line at the front, `parse_config` yields the
      defaults and consumes nothing. */
  lemma ConfigDefaults(defaults: RendererConfig, toF64: seq<char> -> Option<F64>, input: seq<char>)
    requires forall i :: 0 <= i < |ConfigItems(toF64)| ==> ConfigItems(toF64)[i](input).Err?
    ensures ParseConfig(defaults, toF64, input) == Ok((defaults, input))
  {
    ConfigItemsConsume(toF64);
    assert OneOf(ConfigItems(toF64))(input).Err?;
  }

  /** A line that cannot begin any of the eight keys is not a configuration
      line, so `parse_config` stops before it with the defaults. */
  lemma NoConfigLine(defaults: RendererConfig, toF64: seq<char> -> Option<F64>, input: seq<char>)
    requires var t := SkipSpaces(input).value.1;
      t == [] || (t[0] != 's' && t[0] != 'a' && t[0] != 'l' && t[0] != 'b' && t[0] != 'p')
    ensures ParseConfig(defaults, toF64, input) == Ok((defaults, input))
  {
    ConfigItemsReject(toF64, input);
    ConfigDefaults(defaults, toF64, input);
  }

  /** None of the eight keys begins with a character other than `s`, `a`,
      `l`, `b` or `p`. */
  lemma ConfigItemsReject(toF64: seq<char> -> Option<F64>, input: seq<char>)
    requires var t := SkipSpaces(input).value.1;
      t == [] || (t[0] != 's' && t[0] != 'a' && t[0] != 'l' && t[0] != 'b' && t[0] != 'p')
    ensures forall i :: 0 <= i < |ConfigItems(toF64)| ==> ConfigItems(toF64)[i](input).Err?
    ensures OneOf(ConfigItems(toF64))(input).Err?
  {
    forall i | 0 <= i < |ConfigItems(toF64)| ensures ConfigItems(toF64)[i](input).Err? {
      ItemAtRejects(toF64, i, input);
    }
  }

  /** The `i`-th of the eight configuration lines rejects text whose first
      character after spaces and tabs begins none of the keys. */
  lemma ItemAtRejects(toF64: seq<char> -> Option<F64>, i: nat, input: seq<char>)
    requires i < 8
    requires var t := SkipSpaces(input).value.1;
      t == [] || (t[0] != 's' && t[0] != 'a' && t[0] != 'l' && t[0] != 'b' && t[0] != 'p')
    ensures ConfigItems(toF64)[i](input).Err?
  {
    if i == 0 {
      StartingStepRejects(toF64, input);
    } else if i == 1 {
      StepMultiplierRejects(toF64, input);
    } else if i == 2 {
      StartingAngleRejects(toF64, input);
    } else if i == 3 {
      AngleMultiplierRejects(toF64, input);
    } else if i == 4 {
      StartingLineWidthRejects(toF64, input);
    } else if i == 5 {
      LineWidthMultiplierRejects(toF64, input);
    } else if i == 6 {
      BackgroundColorRejects(toF64, input);
    } else {
      PenColorRejects(toF64, input);
    }
  }

  // One lemma per configuration key: its item fails where the key is absent.

  lemma StartingStepRejects(toF64: seq<char> -> Option<F64>, input: seq<char>)
    requires var t := SkipSpaces(input).value.1;
      t == [] || (t[0] != 's' && t[0] != 'a' && t[0] != 'l' && t[0] != 'b' && t[0] != 'p')
    ensures ConfigItems(toF64)[0](input).Err?
  {
    KeyRejects("starting_step", input);
  }

  lemma StepMultiplierRejects(toF64: seq<char> -> Option<F64>, input: seq<char>)
    requires var t := SkipSpaces(input).value.1;
      t == [] || (t[0] != 's' && t[0] != 'a' && t[0] != 'l' && t[0] != 'b' && t[0] != 'p')
    ensures ConfigItems(toF64)[1](input).Err?
  {
    KeyRejects("step_multiplier", input);
  }

  lemma StartingAngleRejects(toF64: seq<char> -> Option<F64>, input: seq<char>)
    requires var t := SkipSpaces(input).value.1;
      t == [] || (t[0] != 's' && t[0] != 'a' && t[0] != 'l' && t[0] != 'b' && t[0] != 'p')
    ensures ConfigItems(toF64)[2](input).Err?
  {
    KeyRejects("starting_angle", input);
  }

  lemma AngleMultiplierRejects(toF64: seq<char> -> Option<F64>, input: seq<char>)
    requires var t := SkipSpaces(input).value.1;
      t == [] || (t[0] != 's' && t[0] != 'a' && t[0] != 'l' && t[0] != 'b' && t[0] != 'p')
    ensures ConfigItems(toF64)[3](input).Err?
  {
    KeyRejects("angle_multiplier", input);
  }

  lemma StartingLineWidthRejects(toF64: seq<char> -> Option<F64>, input: seq<char>)
    requires var t := SkipSpaces(input).value.1;
      t == [] || (t[0] != 's' && t[0] != 'a' && t[0] != 'l' && t[0] != 'b' && t[0] != 'p')
    ensures ConfigItems(toF64)[4](input).Err?
  {
    KeyRejects("starting_line_width", input);
  }

  lemma LineWidthMultiplierRejects(toF64: seq<char> -> Option<F64>, input: seq<char>)
    requires var t := SkipSpaces(input).value.1;
      t == [] || (t[0] != 's' && t[0] != 'a' && t[0] != 'l' && t[0] != 'b' && t[0] != 'p')
    ensures ConfigItems(toF64)[5](input).Err?
  {
    KeyRejects("line_width_multiplier", input);
  }

  lemma BackgroundColorRejects(toF64: seq<char> -> Option<F64>, input: seq<char>)
    requires var t := SkipSpaces(input).value.1;
      t == [] || (t[0] != 's' && t[0] != 'a' && t[0] != 'l' && t[0] != 'b' && t[0] != 'p')
    ensures ConfigItems(toF64)[6](input).Err?
  {
    KeyRejects("background_color", input);
  }

  lemma PenColorRejects(toF64: seq<char> -> Option<F64>, input: seq<char>)
    requires var t := SkipSpaces(input).value.1;
      t == [] || (t[0] != 's' && t[0] != 'a' && t[0] != 'l' && t[0] != 'b' && t[0] != 'p')
    ensures ConfigItems(toF64)[7](input).Err?
  {
    KeyRejects("pen_color", input);
  }

  /** The key and `=` are not there when the first character after spaces
      and tabs is not the name's first. */
  lemma KeyRejects(name: string, input: seq<char>)
    requires name != []
    requires var t := SkipSpaces(input).value.1; t == [] || t[0] != name[0]
    ensures KeyAndEquals(name, input).Err?
  {
  }

  /** A configuration line whose first character after spaces and tabs is
      not the key's first character is not that key's line. */
  lemma ItemRejects<T>(name: string, parseValue: seq<char> -> Option<T>, make: T -> ConfigItem, input: seq<char>)
    requires name != []
    requires var t := SkipSpaces(input).value.1; t == [] || t[0] != name[0]
    ensures Item(name, parseValue, make)(input).Err?
  {
  }

  // ---------------------------------------------------------------------
  // The whole definition

  /** Three consecutive elements of `l_system_parser`'s macro: the section
      name, `:` and a line end, each after skipped spaces and tabs. */
  function SectionHeader(name: string, input: seq<char>): (r: ParseResult<()>)
    ensures r.Ok? ==> IsSuffix(r.value.1, input) && |r.value.1| < |input|
  {
    var a := SkipSpaces(input).value;
    var header :- Literal(name)(a.1);
    var b := SkipSpaces(header.1).value;
    var colon :- Literal(":")(b.1);
    var c := SkipSpaces(colon.1).value;
    var nl :- Newline(c.1);
    SuffixTransitive(header.1, a.1, input);
    SuffixTransitive(b.1, header.1, input);
    SuffixTransitive(colon.1, b.1, input);
    SuffixTransitive(c.1, colon.1, input);
    SuffixTransitive(nl.1, c.1, input);
    Ok(((), nl.1))
  }

  /** `l_system_parser`: `render`, `:`, a line end, the configuration lines,
      `rules`, `:`, a line end and the rule lines, with spaces and tabs
      skipped before each element and at the end, as the macro does.
      Whatever follows the last rule line is left unparsed. */
  function LSystemParser(defaults: RendererConfig, toF64: seq<char> -> Option<F64>, input: seq<char>)
      : (r: ParseResult<LSystem>)
    ensures r.Ok? ==> IsSuffix(r.value.1, input) && |r.value.1| < |input|
  {
    var render :- SectionHeader("render", input);
    var a := SkipSpaces(render.1).value;
    var config := ParseConfig(defaults, toF64, a.1).value;
    var rulesHeader :- SectionHeader("rules", config.1);
    var b := SkipSpaces(rulesHeader.1).value;
    var r := WithConfig(config.0, RulesParser(b.1));
    if r.Ok? then
      DefinitionSuffix(input, render.1, a.1, config.1, rulesHeader.1, b.1, RulesParser(b.1).value.1, r.value.1);
      r
    else r
  }

  /** The chain of remainders of a definition narrows the input. */
  lemma DefinitionSuffix(s0: seq<char>, s1: seq<char>, s2: seq<char>, s3: seq<char>, s4: seq<char>,
                         s5: seq<char>, s6: seq<char>, s7: seq<char>)
    requires IsSuffix(s1, s0) && |s1| < |s0|
    requires IsSuffix(s2, s1) && IsSuffix(s3, s2) && IsSuffix(s4, s3) && IsSuffix(s5, s4)
    requires IsSuffix(s6, s5) && IsSuffix(s7, s6)
    ensures IsSuffix(s7, s0) && |s7| < |s0|
  {
    SuffixTransitive(s2, s1, s0);
    SuffixTransitive(s3, s2, s0);
    SuffixTransitive(s4, s3, s0);
    SuffixTransitive(s5, s4, s0);
    SuffixTransitive(s6, s5, s0);
    SuffixTransitive(s7, s6, s0);
  }

  /** The last element of `l_system_parser`: the rule store, if the rule
      lines parse, paired with the configuration, and the spaces and tabs
      after it skipped. */
  function WithConfig(config: RendererConfig, rules: ParseResult<LSystemRules<char>>): (r: ParseResult<LSystem>)
    ensures r.Ok? <==> rules.Ok?
    ensures r.Ok? ==> r.value.0 == LSystem(rules.value.0, config) && IsSuffix(r.value.1, rules.value.1)
  {
    var parsed :- rules;
    var end := SkipSpaces(parsed.1).value;
    Ok((LSystem(parsed.0, config), end.1))
  }

  /** A literal at the front is consumed, no space or tab is skipped before
      it. */
  lemma LiteralAhead(s: string, rest: seq<char>)
    requires s != [] && !IsSpaceOrTab(s[0])
    ensures Literal(s)(s + rest) == Ok((s, rest))
    ensures SkipSpaces(s + rest).value.1 == s + rest
  {
    assert (s + rest)[|s|..] == rest;
    assert TakeWhileCount(s + rest, IsSpaceOrTab) == 0;
  }

  lemma NewlineAhead(rest: seq<char>)
    ensures Newline("\n" + rest) == Ok(((), rest))
    ensures SkipSpaces("\n" + rest).value.1 == "\n" + rest
  {
    assert ("\n" + rest)[1..] == rest;
    assert TakeWhileCount("\n" + rest, IsSpaceOrTab) == 0;
  }

  lemma HeaderAhead(name: string, rest: seq<char>)
    requires name != [] && !IsSpaceOrTab(name[0])
    ensures SectionHeader(name, name + (":" + ("\n" + rest))) == Ok(((), rest))
  {
    LiteralAhead(name, ":" + ("\n" + rest));
    LiteralAhead(":", "\n" + rest);
    NewlineAhead(rest);
  }

  /** The first element decides first: without `render` at the front there
      is no definition, whatever follows. */
  lemma MissingRenderHeader(defaults: RendererConfig, toF64: seq<char> -> Option<F64>, input: seq<char>)
    requires !("render" <= SkipSpaces(input).value.1)
    ensures LSystemParser(defaults, toF64, input) == Err(ExpectingString("render"))
  {
  }

  /** After the two headers, an empty `render:` section leaves the defaults
      and the definition is whatever `rules_parser` makes of the rest. */
  lemma EmptyConfigSection(defaults: RendererConfig, toF64: seq<char> -> Option<F64>, rulesText: seq<char>)
    requires rulesText == [] || !IsSpaceOrTab(rulesText[0])
    ensures LSystemParser(defaults, toF64, "render:\nrules:\n" + rulesText) == WithConfig(defaults, RulesParser(rulesText))
  {
    var rulesSection := "rules" + (":" + ("\n" + rulesText));
    HeadersSplit(rulesText);
    EmptyConfigSteps(defaults, toF64, "render:\nrules:\n" + rulesText, rulesSection, rulesText);
  }

  /** The two headers, element by element. */
  lemma HeadersSplit(rulesText: seq<char>)
    ensures "render:\nrules:\n" + rulesText == "render" + (":" + ("\n" + ("rules" + (":" + ("\n" + rulesText)))))
  {
  }

  lemma EmptyConfigSteps(defaults: RendererConfig, toF64: seq<char> -> Option<F64>, input: seq<char>,
                         rulesSection: seq<char>, rulesText: seq<char>)
    requires rulesText == [] || !IsSpaceOrTab(rulesText[0])
    requires rulesSection == "rules" + (":" + ("\n" + rulesText))
    requires input == "render" + (":" + ("\n" + rulesSection))
    ensures LSystemParser(defaults, toF64, input) == WithConfig(defaults, RulesParser(rulesText))
  {
    HeaderAhead("render", rulesSection);
    LiteralAhead("rules", ":" + ("\n" + rulesText));
    NoConfigLine(defaults, toF64, rulesSection);
    HeaderAhead("rules", rulesText);
    assert TakeWhileCount(rulesText, IsSpaceOrTab) == 0;
    assert SkipSpaces(rulesSection).value.1 == rulesSection;
    LSystemParserChain(defaults, toF64, input, rulesSection, defaults, rulesSection, rulesText);
  }

  /** `l_system_parser` as the chain of its elements, once the headers and
      the configuration have been parsed: the configuration is read after
      the spaces and tabs that follow the `render:` line, and the rule lines
      after those that follow the `rules:` line. */
  lemma LSystemParserChain(defaults: RendererConfig, toF64: seq<char> -> Option<F64>, input: seq<char>,
                           afterRender: seq<char>, config: RendererConfig, afterConfig: seq<char>, afterRules: seq<char>)
    requires SectionHeader("render", input) == Ok(((), afterRender))
    requires ParseConfig(defaults, toF64, SkipSpaces(afterRender).value.1) == Ok((config, afterConfig))
    requires SectionHeader("rules", afterConfig) == Ok(((), afterRules))
    ensures LSystemParser(defaults, toF64, input) == WithConfig(config, RulesParser(SkipSpaces(afterRules).value.1))
  {
  }

  /** A rule line without `=>` makes the whole definition fail with that
      line's error; no L-system is produced. */
  lemma MalformedRuleRejected(defaults: RendererConfig, toF64: seq<char> -> Option<F64>)
    ensures LSystemParser(defaults, toF64, "render:\nrules:\nA BCD\n") == Err(ExpectingString("=>"))
  {
    var line := "A BCD\n";
    assert "render:\nrules:\n" + line == "render:\nrules:\nA BCD\n";
    EmptyConfigSection(defaults, toF64, line);
    MissingSeparator(line);
  }
}
