/** The parser-combinator core of the grammar crate (parser/src/combinator.rs).

    A parser is a total function from the remaining input to either a value
    and the input that is left, or a `ParseError`.  Rust's `&str` slices are
    modelled as `seq<char>`, one character per position, so slicing `[1..]`
    drops exactly one character. */
module Combinator {
  import opened Wrappers

  datatype ParseError =
    | IO
    | ExpectingCharacter(expected: char)
    | ExpectingEOF
    | ExpectingString(literal: string)
    | ExpectingPredicate
    | EndOfInput
    | ExpectingOneOfToParse
    | GenericError
    | Custom(message: string)

  type ParseResult<T> = Result<(T, seq<char>), ParseError>

  type Parser<T> = seq<char> -> ParseResult<T>

  /** `rest` is what is left of `input` after a prefix has been consumed. */
  predicate IsSuffix(rest: seq<char>, input: seq<char>) {
    |rest| <= |input| && input[|input| - |rest|..] == rest
  }

  /** A well-formed parser only ever narrows its input. */
  ghost predicate WellFormed<T>(p: Parser<T>) {
    forall input :: p(input).Ok? ==> IsSuffix(p(input).value.1, input)
  }

  /** A consuming parser is well formed and every success eats at least one
      character; repetition of such a parser terminates. */
  ghost predicate Consumes<T>(p: Parser<T>) {
    WellFormed(p) && forall input :: p(input).Ok? ==> |p(input).value.1| < |input|
  }

  lemma SuffixTransitive(a: seq<char>, b: seq<char>, c: seq<char>)
    requires IsSuffix(a, b) && IsSuffix(b, c)
    ensures IsSuffix(a, c)
  {
    assert c[|c| - |a|..] == c[|c| - |b|..][|b| - |a|..];
  }

  // ---------------------------------------------------------------------
  // Primitives

  /** `character(c)`: matches exactly `c` at the front of the input. */
  function Character(c: char): (p: Parser<char>)
    ensures forall input :: p(input).Ok? <==> |input| > 0 && input[0] == c
    ensures forall input :: p(input).Ok? ==> p(input).value == (c, input[1..])
    ensures forall input :: p(input).Err? ==> p(input).error == ExpectingCharacter(c)
    ensures Consumes(p)
  {
    input => if |input| > 0 && input[0] == c then Ok((c, input[1..])) else Err(ExpectingCharacter(c))
  }

  /** `any(pred)`: one character that satisfies `pred`. */
  function Any(pred: char -> bool): (p: Parser<char>)
    ensures forall input :: input == [] ==> p(input) == Err(EndOfInput)
    ensures forall input :: input != [] && !pred(input[0]) ==> p(input) == Err(ExpectingPredicate)
    ensures forall input :: input != [] && pred(input[0]) ==> p(input) == Ok((input[0], input[1..]))
    ensures Consumes(p)
  {
    input =>
      if input == [] then Err(EndOfInput)
      else if pred(input[0]) then Ok((input[0], input[1..]))
      else Err(ExpectingPredicate)
  }

  /** `literal(s)`: the exact string `s` at the front of the input. */
  function Literal(s: string): (p: Parser<string>)
    ensures forall input :: p(input).Ok? <==> s <= input
    ensures forall input :: p(input).Ok? ==> p(input).value == (s, input[|s|..])
    ensures forall input :: p(input).Err? ==> p(input).error == ExpectingString(s)
    ensures WellFormed(p)
    ensures |s| > 0 ==> Consumes(p)
  {
    input =>
      // the matched slice `&input[..len]` is `s` itself
      if s <= input then Ok((s, input[|s|..])) else Err(ExpectingString(s))
  }

  /** Number of leading characters of `s` that satisfy `pred`
      (`chars().take_while(pred).count()`). */
  function TakeWhileCount(s: seq<char>, pred: char -> bool): (k: nat)
    ensures k <= |s|
    ensures forall i :: 0 <= i < k ==> pred(s[i])
    ensures k == |s| || !pred(s[k])
  {
    if s == [] || !pred(s[0]) then 0 else 1 + TakeWhileCount(s[1..], pred)
  }

  predicate IsSpaceOrTab(c: char) {
    c == ' ' || c == '\t'
  }

  /** `skip_spaces`: drops the leading spaces and tabs; never fails. */
  function SkipSpaces(input: seq<char>): (r: ParseResult<()>)
    ensures r.Ok? && IsSuffix(r.value.1, input)
  {
    Ok(((), input[TakeWhileCount(input, IsSpaceOrTab)..]))
  }

  /** What `skip_spaces` drops is spaces and tabs, and all of them. */
  lemma SkipSpacesSpan(input: seq<char>)
    ensures var rest := SkipSpaces(input).value.1;
      && (forall i :: 0 <= i < |input| - |rest| ==> IsSpaceOrTab(input[i]))
      && (rest == [] || !IsSpaceOrTab(rest[0]))
  {
    var k := TakeWhileCount(input, IsSpaceOrTab);
    assert SkipSpaces(input).value.1 == input[k..];
  }

  /** `skip_spaces` drops a run of spaces and tabs up to the first other
      character. */
  lemma {:induction false} SkipSpacesOver(spaces: seq<char>, rest: seq<char>)
    requires forall i :: 0 <= i < |spaces| ==> IsSpaceOrTab(spaces[i])
    requires rest == [] || !IsSpaceOrTab(rest[0])
    ensures SkipSpaces(spaces + rest).value.1 == rest
    decreases |spaces|
  {
    if spaces == [] {
      assert spaces + rest == rest;
      assert TakeWhileCount(rest, IsSpaceOrTab) == 0;
    } else {
      SkipSpacesOver(spaces[1..], rest);
      assert (spaces + rest)[1..] == spaces[1..] + rest;
      var k := TakeWhileCount(spaces[1..] + rest, IsSpaceOrTab);
      assert (spaces[1..] + rest)[k..] == rest;
      assert (spaces + rest)[k + 1..] == rest;
    }
  }

  /** `eof`: succeeds only on the empty input. */
  function Eof(input: seq<char>): (r: ParseResult<()>)
    ensures r.Ok? <==> input == []
    ensures r.Ok? ==> r.value.1 == input
    ensures r.Err? ==> r.error == ExpectingEOF
  {
    if input == [] then Ok(((), input)) else Err(ExpectingEOF)
  }

  // ---------------------------------------------------------------------
  // Combinators

  /** `optional(p)`: never fails; a failure of `p` becomes `None` at the
      original input. */
  function Optional<T>(p: Parser<T>): (q: Parser<Option<T>>)
    ensures forall input :: q(input).Ok?
    ensures forall input :: p(input).Err? ==> q(input).value == (None, input)
    ensures forall input :: p(input).Ok? ==> q(input).value == (Some(p(input).value.0), p(input).value.1)
    ensures WellFormed(p) ==> WellFormed(q)
  {
    input =>
      match p(input)
      case Ok((value, rem)) => Ok((Some(value), rem))
      case Err(_) => Ok((None, input))
  }

  /** `map(p, f)`: transforms the value of a success. */
  function Map<I, O>(p: Parser<I>, f: I -> O): (q: Parser<O>)
    ensures forall input :: q(input).Ok? <==> p(input).Ok?
    ensures forall input :: p(input).Ok? ==> q(input).value == (f(p(input).value.0), p(input).value.1)
    ensures forall input :: p(input).Err? ==> q(input).error == p(input).error
    ensures WellFormed(p) ==> WellFormed(q)
    ensures Consumes(p) ==> Consumes(q)
  {
    input =>
      match p(input)
      case Ok((v, rest)) => Ok((f(v), rest))
      case Err(e) => Err(e)
  }

  /** `flat_map(p, f)`: runs `p`, then a conversion that may fail; the error
      of either is the error of the whole. */
  function FlatMap<I, O>(p: Parser<I>, f: I -> Result<O, ParseError>): (q: Parser<O>)
    ensures forall input :: q(input).Ok? <==> p(input).Ok? && f(p(input).value.0).Ok?
    ensures forall input :: q(input).Ok? ==> q(input).value == (f(p(input).value.0).value, p(input).value.1)
    ensures forall input :: p(input).Err? ==> q(input).error == p(input).error
    ensures forall input :: p(input).Ok? && f(p(input).value.0).Err? ==> q(input).error == f(p(input).value.0).error
    ensures WellFormed(p) ==> WellFormed(q)
  {
    input =>
      var a :- p(input);
      var b :- f(a.0);
      Ok((b, a.1))
  }

  /** `flat_map` applied: the parser's error, or the conversion's result
      paired with the parser's remainder. */
  lemma FlatMapOf<I, O>(p: Parser<I>, f: I -> Result<O, ParseError>, input: seq<char>)
    ensures FlatMap(p, f)(input) ==
      match p(input)
      case Err(e) => Err(e)
      case Ok((a, rest)) => (match f(a) case Ok(b) => Ok((b, rest)) case Err(e) => Err(e))
  {
  }

  /** `recognize` applied: the parser's error, or the consumed prefix paired
      with the parser's remainder. */
  lemma RecognizeOf<T>(p: Parser<T>, input: seq<char>)
    requires WellFormed(p)
    ensures Recognize(p)(input) ==
      match p(input)
      case Err(e) => Err(e)
      case Ok((_, rest)) => Ok((input[..|input| - |rest|], rest))
  {
  }

  /** `recognize(p)`: the value is the slice of the input that `p` consumed. */
  function Recognize<T>(p: Parser<T>): (q: Parser<seq<char>>)
    requires WellFormed(p)
    ensures forall input :: q(input).Ok? <==> p(input).Ok?
    ensures forall input :: q(input).Ok? ==>
      q(input).value.1 == p(input).value.1 &&
      q(input).value.0 == input[..|input| - |p(input).value.1|] &&
      q(input).value.0 + q(input).value.1 == input
    ensures forall input :: p(input).Err? ==> q(input).error == p(input).error
    ensures WellFormed(q)
    ensures Consumes(p) ==> Consumes(q)
  {
    input =>
      var a :- p(input);
      var matchLen := |input| - |a.1|;
      Ok((input[..matchLen], a.1))
  }

  /** The loop of `one_of`: the first option that succeeds on the original
      input, tried in list order. */
  function FirstSuccess<T>(options: seq<Parser<T>>, input: seq<char>): (r: ParseResult<T>)
    ensures r.Ok? ==> exists i :: 0 <= i < |options| && options[i](input) == r &&
                                  forall j :: 0 <= j < i ==> options[j](input).Err?
    ensures r.Err? ==> r.error == ExpectingOneOfToParse &&
                       forall i :: 0 <= i < |options| ==> options[i](input).Err?
  {
    if options == [] then Err(ExpectingOneOfToParse)
    else if options[0](input).Ok? then options[0](input)
    else
      var r := FirstSuccess(options[1..], input);
      assert r.Ok? ==> exists i :: 0 < i < |options| && options[i](input) == r &&
                                   forall j :: 0 <= j < i ==> options[j](input).Err? by {
        if r.Ok? {
          var i :| 0 <= i < |options[1..]| && options[1..][i](input) == r &&
                   forall j :: 0 <= j < i ==> options[1..][j](input).Err?;
          assert forall j :: 0 <= j < i + 1 ==> options[j](input).Err? by {
            forall j | 0 <= j < i + 1 ensures options[j](input).Err? {
              if j > 0 { assert options[j] == options[1..][j - 1]; }
            }
          }
          assert options[i + 1] == options[1..][i];
        }
      }
      assert r.Err? ==> forall i :: 0 <= i < |options| ==> options[i](input).Err? by {
        if r.Err? {
          forall i | 0 <= i < |options| ensures options[i](input).Err? {
            if i > 0 { assert options[i] == options[1..][i - 1]; }
          }
        }
      }
      r
  }

  /** `one_of(options)`: the first success, tried in order from the original
      input; `ExpectingOneOfToParse` when every option fails (or there is
      none). */
  function OneOf<T>(options: seq<Parser<T>>): (q: Parser<T>)
    ensures forall input :: q(input).Ok? <==> exists i :: 0 <= i < |options| && options[i](input).Ok?
    ensures forall input :: q(input).Ok? ==>
      exists i :: 0 <= i < |options| && options[i](input) == q(input) &&
                  forall j :: 0 <= j < i ==> options[j](input).Err?
    ensures forall input :: q(input).Err? ==> q(input).error == ExpectingOneOfToParse
    ensures (forall i :: 0 <= i < |options| ==> WellFormed(options[i])) ==> WellFormed(q)
    ensures (forall i :: 0 <= i < |options| ==> Consumes(options[i])) ==> Consumes(q)
  {
    input => FirstSuccess(options, input)
  }

  /** The `for` loop of `one_of`, with its early return. */
  method RunOneOf<T>(options: seq<Parser<T>>, input: seq<char>) returns (r: ParseResult<T>)
    ensures r == OneOf(options)(input)
  {
    for i := 0 to |options|
      invariant FirstSuccess(options, input) == FirstSuccess(options[i..], input)
    {
      assert options[i..][1..] == options[i + 1..];
      var attempt := options[i](input);
      if attempt.Ok? {
        return attempt;
      }
    }
    return Err(ExpectingOneOfToParse);
  }

  /** `complete(p)`: `p` followed by end of input. */
  function Complete<T>(p: Parser<T>): (q: Parser<T>)
    ensures forall input :: q(input).Ok? <==> p(input).Ok? && p(input).value.1 == []
    ensures forall input :: q(input).Ok? ==> q(input).value == (p(input).value.0, [])
    ensures forall input :: p(input).Err? ==> q(input).error == p(input).error
    ensures forall input :: p(input).Ok? && p(input).value.1 != [] ==> q(input).error == ExpectingEOF
  {
    input =>
      var a :- p(input);
      var end :- Eof(a.1);
      Ok((a.0, end.1))
  }

  // ---------------------------------------------------------------------
  // Repetition

  /** Running `p` `|values|` times from `input` yields `values`, in order,
      and leaves `rest`. */
  ghost predicate Runs<T>(p: Parser<T>, input: seq<char>, values: seq<T>, rest: seq<char>)
    decreases |values|
  {
    if values == [] then rest == input
    else p(input).Ok? && p(input).value.0 == values[0] && Runs(p, p(input).value.1, values[1..], rest)
  }

  /** A success of `p` followed by a run is a run one value longer. */
  lemma RunsCons<T>(p: Parser<T>, input: seq<char>, v: T, mid: seq<char>, values: seq<T>, rest: seq<char>)
    requires p(input) == Ok((v, mid)) && Runs(p, mid, values, rest)
    ensures Runs(p, input, [v] + values, rest)
  {
    assert ([v] + values)[1..] == values;
  }

  /** Every value of a run satisfies what every success of `p` promises of
      its value. */
  lemma {:induction false} RunsValues<T>(p: Parser<T>, P: T -> bool, input: seq<char>, values: seq<T>, rest: seq<char>)
    requires forall x :: p(x).Ok? ==> P(p(x).value.0)
    requires Runs(p, input, values, rest)
    ensures forall i :: 0 <= i < |values| ==> P(values[i])
    decreases |values|
  {
    if values != [] {
      RunsValues(p, P, p(input).value.1, values[1..], rest);
      forall i | 0 < i < |values| ensures P(values[i]) {
        assert values[i] == values[1..][i - 1];
      }
    }
  }

  /** `at_least(n, p)` as a function: `n` mandatory repetitions, whose first
      failure is the result, then greedy repetition up to the first failure,
      which is discarded. */
  function Repeat<T>(n: nat, p: Parser<T>, input: seq<char>): (r: ParseResult<seq<T>>)
    requires Consumes(p)
    ensures n == 0 ==> r.Ok?
    ensures r.Ok? ==> n <= |r.value.0| && Runs(p, input, r.value.0, r.value.1) && p(r.value.1).Err?
    ensures r.Ok? ==> IsSuffix(r.value.1, input)
    ensures r.Ok? && r.value.0 != [] ==> |r.value.1| < |input|
    decreases |input|
  {
    match p(input)
    case Err(e) => if n > 0 then Err(e) else Ok(([], input))
    case Ok((v, rest)) =>
      match Repeat(if n > 0 then n - 1 else 0, p, rest)
      case Err(e) => Err(e)
      case Ok((vs, rem)) =>
        assert ([v] + vs)[1..] == vs;
        SuffixTransitive(rem, rest, input);
        Ok(([v] + vs, rem))
  }

  /** `at_least(n, p)`. The source loops for ever when `p` can succeed
      without consuming input, so `p` must consume. */
  function AtLeast<T>(n: nat, p: Parser<T>): (q: Parser<seq<T>>)
    requires Consumes(p)
    ensures forall input :: q(input).Ok? ==>
      n <= |q(input).value.0| && Runs(p, input, q(input).value.0, q(input).value.1) && p(q(input).value.1).Err?
    ensures WellFormed(q)
    ensures n > 0 ==> Consumes(q)
  {
    input => Repeat(n, p, input)
  }

  /** `many(p)` is `at_least(0, p)`. */
  function Many<T>(p: Parser<T>): (q: Parser<seq<T>>)
    requires Consumes(p)
    ensures forall input :: q(input).Ok?
    ensures forall input :: Runs(p, input, q(input).value.0, q(input).value.1) && p(q(input).value.1).Err?
    ensures WellFormed(q)
  {
    AtLeast(0, p)
  }

  /** Running a consuming parser from one input is deterministic: a run
      that ends where `p` fails is the one `Repeat` finds.  Both directions of
      `at_least`'s behaviour follow: with at least `n` values it succeeds with
      exactly that run, with fewer it fails with the error that stopped it. */
  lemma {:induction false} RepeatOfRun<T>(n: nat, p: Parser<T>, input: seq<char>, values: seq<T>, rest: seq<char>)
    requires Consumes(p)
    requires Runs(p, input, values, rest) && p(rest).Err?
    ensures Repeat(n, p, input) == if n <= |values| then Ok((values, rest)) else Err(p(rest).error)
    decreases |values|
  {
    if values != [] {
      var next := p(input).value.1;
      RepeatOfRun(if n > 0 then n - 1 else 0, p, next, values[1..], rest);
      assert [values[0]] + values[1..] == values;
    }
  }

  /** When `at_least` fails, fewer than `n` repetitions succeeded and the
      error is that of the attempt that stopped them. */
  lemma {:induction false} RepeatError<T>(n: nat, p: Parser<T>, input: seq<char>)
    requires Consumes(p)
    requires Repeat(n, p, input).Err?
    ensures exists values, rest :: |values| < n && Runs(p, input, values, rest) &&
                                   p(rest) == Err(Repeat(n, p, input).error)
    decreases |input|
  {
    var e := Repeat(n, p, input).error;
    if p(input).Err? {
      assert Runs(p, input, [], input);
    } else {
      var (v, next) := p(input).value;
      RepeatError(n - 1, p, next);
      var values, rest :| |values| < n - 1 && Runs(p, next, values, rest) && p(rest) == Err(e);
      assert ([v] + values)[1..] == values;
      assert Runs(p, input, [v] + values, rest);
    }
  }

  /** Repeating `any(pred)` takes the longest prefix whose characters all
      satisfy `pred`; with fewer than `n` of them the error is the one `any`
      gives where that prefix ends. */
  lemma RepeatAny(n: nat, pred: char -> bool, input: seq<char>)
    ensures var k := TakeWhileCount(input, pred);
      Repeat(n, Any(pred), input) ==
        if n <= k then Ok((input[..k], input[k..]))
        else Err(if k == |input| then EndOfInput else ExpectingPredicate)
  {
    var k := TakeWhileCount(input, pred);
    RunsAny(pred, input);
    assert Any(pred)(input[k..]).Err?;
    RepeatOfRun(n, Any(pred), input, input[..k], input[k..]);
  }

  /** `any(pred)` succeeds on each character of the longest prefix that
      satisfies `pred`. */
  lemma {:induction false} RunsAny(pred: char -> bool, input: seq<char>)
    ensures var k := TakeWhileCount(input, pred);
      Runs(Any(pred), input, input[..k], input[k..])
    decreases |input|
  {
    var k := TakeWhileCount(input, pred);
    if input != [] && pred(input[0]) {
      RunsAny(pred, input[1..]);
      assert k == 1 + TakeWhileCount(input[1..], pred);
      HeadAndSlices(input, k);
      assert input[..k][1..] == input[1..][..k - 1];
      assert Any(pred)(input).value == (input[..k][0], input[1..]);
    } else {
      assert k == 0;
    }
  }

  /** The predicate "is `c`", shared by the statements about repeating
      `character(c)`. */
  function Is(c: char): char -> bool {
    x => x == c
  }

  /** Repeating `character(c)` takes the run of `c`s at the front; with
      fewer than `n` of them the error is `ExpectingCharacter(c)`. */
  lemma RepeatCharacter(n: nat, c: char, input: seq<char>)
    ensures var k := TakeWhileCount(input, Is(c));
      Repeat(n, Character(c), input) ==
        if n <= k then Ok((input[..k], input[k..])) else Err(ExpectingCharacter(c))
  {
    var k := TakeWhileCount(input, Is(c));
    RunsCharacter(c, input);
    assert Character(c)(input[k..]).Err?;
    RepeatOfRun(n, Character(c), input, input[..k], input[k..]);
  }

  /** `character(c)` succeeds on each `c` of the run at the front. */
  lemma {:induction false} RunsCharacter(c: char, input: seq<char>)
    ensures var k := TakeWhileCount(input, Is(c));
      Runs(Character(c), input, input[..k], input[k..])
    decreases |input|
  {
    var k := TakeWhileCount(input, Is(c));
    if input != [] && Is(c)(input[0]) {
      var k1 := TakeWhileCount(input[1..], Is(c));
      RunsCharacter(c, input[1..]);
      assert k == 1 + k1;
      HeadAndSlices(input, k);
      assert Character(c)(input) == Ok((input[0], input[1..]));
      RunsCons(Character(c), input, input[0], input[1..], input[1..][..k1], input[1..][k1..]);
    } else {
      assert k == 0;
    }
  }

  lemma HeadAndSlices(input: seq<char>, k: nat)
    requires 1 <= k <= |input|
    ensures [input[0]] + input[1..][..k - 1] == input[..k]
    ensures input[1..][k - 1..] == input[k..]
  {
  }

  /** The crate's tests of repetition, `map` and `one_of` on `"AAABCD"`:
      `many` and `at_least(2, _)` of `character('A')` take the three `A`s,
      mapping to the length gives 3, and `one_of` of `character('B')` and
      `character('A')` takes one `A`. */
  lemma RepetitionTests()
    ensures Many(Character('A'))("AAABCD") == Ok((['A', 'A', 'A'], "BCD"))
    ensures AtLeast(2, Character('A'))("AAABCD") == Ok((['A', 'A', 'A'], "BCD"))
    ensures Map(Many(Character('A')), (cs: seq<char>) => |cs|)("AAABCD") == Ok((3, "BCD"))
    ensures OneOf([Character('B'), Character('A')])("AAABCD") == Ok(('A', "AABCD"))
  {
    var rest := "BCD";
    var input := "AAA" + rest;
    assert input == "AAABCD";
    RepetitionSteps(input, rest);
  }

  lemma RepetitionSteps(input: seq<char>, rest: seq<char>)
    requires rest == "BCD" && input == "AAA" + rest
    ensures Many(Character('A'))(input) == Ok(("AAA", rest))
    ensures AtLeast(2, Character('A'))(input) == Ok(("AAA", rest))
    ensures Map(Many(Character('A')), (cs: seq<char>) => |cs|)(input) == Ok((3, rest))
    ensures OneOf([Character('B'), Character('A')])(input) == Ok(('A', input[1..]))
  {
    assert input[3..] == rest && input[..3] == "AAA";
    assert TakeWhileCount(input[3..], Is('A')) == 0;
    assert TakeWhileCount(input[2..], Is('A')) == 1;
    assert TakeWhileCount(input[1..], Is('A')) == 2;
    assert TakeWhileCount(input, Is('A')) == 3;
    RepeatCharacter(0, 'A', input);
    RepeatCharacter(2, 'A', input);
    var options := [Character('B'), Character('A')];
    assert options[1..][0] == Character('A') && options[1..][1..] == [];
    assert FirstSuccess(options[1..], input) == Ok(('A', input[1..]));
  }

  /** The crate's tests of `literal` and `any`: `literal("foo")` consumes all
      of `"foo"`, and `any` with a predicate that accepts `A` takes one `A`. */
  lemma PrimitiveTests(alphabetic: char -> bool)
    requires alphabetic('A')
    ensures Literal("foo")("foo") == Ok(("foo", []))
    ensures Any(alphabetic)("AAABCD") == Ok(('A', "AABCD"))
  {
  }

  /** Prefixes the values of a successful repetition result. */
  function Prepend<T>(prefix: seq<T>, r: ParseResult<seq<T>>): ParseResult<seq<T>> {
    match r
    case Ok((vs, rest)) => Ok((prefix + vs, rest))
    case Err(e) => Err(e)
  }

  lemma PrependTwice<T>(a: seq<T>, b: seq<T>, r: ParseResult<seq<T>>)
    ensures Prepend(a, Prepend(b, r)) == Prepend(a + b, r)
  {
    if r.Ok? {
      assert a + (b + r.value.0) == (a + b) + r.value.0;
    }
  }

  /** One step of `Repeat` moves a value of `p` from the pending repetition
      to the values collected so far. */
  lemma RepeatShift<T>(n: nat, p: Parser<T>, input: seq<char>, result: seq<T>, v: T, rest: seq<char>)
    requires Consumes(p) && p(input) == Ok((v, rest))
    ensures Prepend(result, Repeat(n, p, input)) == Prepend(result + [v], Repeat(if n > 0 then n - 1 else 0, p, rest))
  {
    PrependTwice(result, [v], Repeat(if n > 0 then n - 1 else 0, p, rest));
  }

  /** `AtLeast::parse`: the mandatory `while` loop, then the greedy `loop`. */
  method RunAtLeast<T>(n: nat, p: Parser<T>, input: seq<char>) returns (r: ParseResult<seq<T>>)
    requires Consumes(p)
    ensures r == AtLeast(n, p)(input)
  {
    var result: seq<T> := [];
    var source := input;
    var count := n;
    assert Repeat(n, p, input).Ok? ==> [] + Repeat(n, p, input).value.0 == Repeat(n, p, input).value.0;
    while count > 0
      invariant Repeat(n, p, input) == Prepend(result, Repeat(count, p, source))
    {
      var attempt := p(source);
      if attempt.Err? {
        return Err(attempt.error);
      }
      RepeatShift(count, p, source, result, attempt.value.0, attempt.value.1);
      result := result + [attempt.value.0];
      source := attempt.value.1;
      count := count - 1;
    }
    while true
      invariant Repeat(n, p, input) == Prepend(result, Repeat(0, p, source))
      decreases |source|
    {
      var attempt := p(source);
      if attempt.Err? {
        assert result + [] == result;
        break;
      }
      RepeatShift(0, p, source, result, attempt.value.0, attempt.value.1);
      result := result + [attempt.value.0];
      source := attempt.value.1;
    }
    return Ok((result, source));
  }

  // ---------------------------------------------------------------------
  // Sequencing (the `parse_sequence!` and `parse_sequence_ignore_spaces!`
  // macros).  Each use of a macro is written out as the chain of `:-` steps
  // it expands to: every element runs on the remainder of the one before,
  // and the first failure is the result.  The spaces-ignoring form puts a
  // `SkipSpaces` before every element and one more at the end; since
  // `skip_spaces` never fails, its `?` is `.value`.  `Sequence` is the
  // two-element `parse_sequence!`.

  /** `parse_sequence!{ let a = p, let b = q => (a, b) }`. */
  function Sequence<A, B>(p: Parser<A>, q: Parser<B>): (r: Parser<(A, B)>)
    ensures forall input :: r(input).Ok? <==> p(input).Ok? && q(p(input).value.1).Ok?
    ensures forall input :: r(input).Ok? ==>
      r(input).value == ((p(input).value.0, q(p(input).value.1).value.0), q(p(input).value.1).value.1)
    ensures forall input :: p(input).Err? ==> r(input).error == p(input).error
    ensures forall input :: p(input).Ok? && q(p(input).value.1).Err? ==> r(input).error == q(p(input).value.1).error
    ensures WellFormed(p) && WellFormed(q) ==> WellFormed(r)
  {
    input =>
      var a :- p(input);
      var b :- q(a.1);
      Ok(((a.0, b.0), b.1))
  }

  /** The crate's test of `parse_sequence_ignore_spaces!`: `character('A')`,
      `literal("foo")` and `character('C')`, with spaces and tabs skipped
      before each and after the last. */
  function SpacedACFoo(input: seq<char>): ParseResult<(char, char)> {
    var s0 := SkipSpaces(input).value;
    var a :- Character('A')(s0.1);
    var s1 := SkipSpaces(a.1).value;
    var foo :- Literal("foo")(s1.1);
    var s2 := SkipSpaces(foo.1).value;
    var c :- Character('C')(s2.1);
    var s3 := SkipSpaces(c.1).value;
    Ok(((a.0, c.0), s3.1))
  }

  /** `" \t A foo\t C  \t "` parses to `('A', 'C')` and nothing is left. */
  lemma SequenceIgnoreSpacesTest()
    ensures SpacedACFoo(" \t A foo\t C  \t ") == Ok((('A', 'C'), []))
  {
    var tail := "  \t ";
    var afterFoo := "\t " + ("C" + tail);
    var afterA := " " + ("foo" + afterFoo);
    var input := " \t " + ("A" + afterA);
    assert input == " \t A foo\t C  \t ";
    SequenceIgnoreSpacesSteps(input, afterA, afterFoo, tail);
  }

  lemma SequenceIgnoreSpacesSteps(input: seq<char>, afterA: seq<char>, afterFoo: seq<char>, tail: seq<char>)
    requires tail == "  \t " && afterFoo == "\t " + ("C" + tail)
    requires afterA == " " + ("foo" + afterFoo) && input == " \t " + ("A" + afterA)
    ensures SpacedACFoo(input) == Ok((('A', 'C'), []))
  {
    SkipSpacesOver(" \t ", "A" + afterA);
    SkipSpacesOver(" ", "foo" + afterFoo);
    SkipSpacesOver("\t ", "C" + tail);
    SkipSpacesOver(tail, []);
    assert tail + [] == tail;
    var a := Character('A')("A" + afterA);
    assert a == Ok(('A', afterA)) by { assert ("A" + afterA)[1..] == afterA; }
    var foo := Literal("foo")("foo" + afterFoo);
    assert foo == Ok(("foo", afterFoo)) by { assert ("foo" + afterFoo)[3..] == afterFoo; }
    var c := Character('C')("C" + tail);
    assert c == Ok(('C', tail)) by { assert ("C" + tail)[1..] == tail; }
  }

  /** The crate's test of `parse_sequence!`: `character('A')` then
      `character('b')` on `"Ab"` gives `('A', 'b')` and nothing is left. */
  lemma SequenceTest()
    ensures Sequence(Character('A'), Character('b'))("Ab") == Ok((('A', 'b'), []))
  {
  }
}
