/** What the definition parser of parser/src/lib.rs accepts and what it
    yields: rule lines, `key = value` lines and whole definitions, built up
    from the pieces of text each element of the grammar consumes. */
module GrammarAcceptance {
  import opened Wrappers
  import opened Combinator
  import opened LSystemApi
  import opened Grammar

  // ---------------------------------------------------------------------
  // Shapes of text

  /** Only spaces and tabs, what `skip_spaces` drops. */
  predicate SpacesOnly(s: seq<char>) {
    forall i :: 0 <= i < |s| ==> IsSpaceOrTab(s[i])
  }

  /** Only white space, line ends included, what `skip_all_ws` drops. */
  predicate Blank(s: seq<char>) {
    forall i :: 0 <= i < |s| ==> IsWhitespace(s[i])
  }

  /** The text of a production: ASCII-graphic symbols, the first at the
      front, with spaces and tabs between and after them. */
  predicate SymbolsText(s: seq<char>) {
    && s != [] && IsAsciiGraphic(s[0])
    && forall i :: 0 <= i < |s| ==> IsAsciiGraphic(s[i]) || IsSpaceOrTab(s[i])
  }

  /** A line end that `newline` consumes whole: `"\r"` only when no `"\n"`
      follows it, since `"\r\n"` is one line end. */
  predicate LineEnd(nl: seq<char>, rest: seq<char>) {
    nl == "\n" || nl == "\r\n" || (nl == "\r" && !("\n" <= rest))
  }

  /** The ASCII-graphic characters of `s`, in order. */
  function Graphics(s: seq<char>): seq<char>
    decreases |s|
  {
    if s == [] then [] else (if IsAsciiGraphic(s[0]) then [s[0]] else []) + Graphics(s[1..])
  }

  lemma {:induction false} GraphicsAppend(a: seq<char>, b: seq<char>)
    ensures Graphics(a + b) == Graphics(a) + Graphics(b)
    decreases |a|
  {
    if a == [] {
      assert a + b == b;
    } else {
      var first := if IsAsciiGraphic(a[0]) then [a[0]] else [];
      assert (a + b)[0] == a[0];
      assert (a + b)[1..] == a[1..] + b;
      assert Graphics(a + b) == first + Graphics(a[1..] + b);
      GraphicsAppend(a[1..], b);
      assert Graphics(a) == first + Graphics(a[1..]);
    }
  }

  lemma {:induction false} GraphicsOfSpaces(s: seq<char>)
    requires SpacesOnly(s)
    ensures Graphics(s) == []
    decreases |s|
  {
    if s != [] {
      GraphicsOfSpaces(s[1..]);
    }
  }

  lemma {:induction false} GraphicsOfSymbols(s: seq<char>)
    requires forall i :: 0 <= i < |s| ==> IsAsciiGraphic(s[i])
    ensures Graphics(s) == s
    decreases |s|
  {
    if s != [] {
      GraphicsOfSymbols(s[1..]);
    }
  }

  lemma GraphicsAfterSpace(x: seq<char>)
    requires forall i :: 0 <= i < |x| ==> IsAsciiGraphic(x[i])
    ensures Graphics([' '] + x) == x
  {
    GraphicsOfSymbols(x);
    assert ([' '] + x)[1..] == x;
  }

  lemma GraphicsAppend5(x1: seq<char>, x2: seq<char>, x3: seq<char>, x4: seq<char>, x5: seq<char>)
    ensures Graphics(x1 + x2 + x3 + x4 + x5) ==
            Graphics(x1) + Graphics(x2) + Graphics(x3) + Graphics(x4) + Graphics(x5)
  {
    GraphicsAppend(x1, x2);
    GraphicsAppend(x1 + x2, x3);
    GraphicsAppend(x1 + x2 + x3, x4);
    GraphicsAppend(x1 + x2 + x3 + x4, x5);
  }

  /** A prefix whose characters all satisfy `pred`, followed by one that does
      not, is exactly what `TakeWhileCount` counts. */
  lemma {:induction false} CountOver(s: seq<char>, t: seq<char>, pred: char -> bool)
    requires forall i :: 0 <= i < |s| ==> pred(s[i])
    requires t == [] || !pred(t[0])
    ensures TakeWhileCount(s + t, pred) == |s|
    decreases |s|
  {
    if s == [] {
      assert s + t == t;
    } else {
      CountOver(s[1..], t, pred);
      assert (s + t)[1..] == s[1..] + t;
    }
  }

  /** What `TakeWhileCount` counts stops before a character that fails
      `pred`. */
  lemma {:induction false} CountBefore(s: seq<char>, t: seq<char>, pred: char -> bool)
    requires t == [] || !pred(t[0])
    ensures TakeWhileCount(s + t, pred) <= |s|
    decreases |s|
  {
    if s == [] {
      assert s + t == t;
    } else if pred(s[0]) {
      CountBefore(s[1..], t, pred);
      assert (s + t)[1..] == s[1..] + t;
    }
  }

  /** Text that starts with neither a space nor a tab is left as it is by
      `skip_spaces`. */
  lemma NoSpaceAhead(s: seq<char>)
    requires s == [] || !IsSpaceOrTab(s[0])
    ensures SkipSpaces(s).value.1 == s
  {
    assert TakeWhileCount(s, IsSpaceOrTab) == 0;
  }

  /** The leading white space of a rule line, blank lines included, is
      dropped by the `skip_spaces`, `skip_all_ws`, `skip_spaces` at the start
      of `rule_parser`. */
  lemma SkipBlank(lead: seq<char>, x: seq<char>)
    requires Blank(lead)
    requires x == [] || !IsWhitespace(x[0])
    ensures SkipSpaces(SkipAllWs(SkipSpaces(lead + x).value.1).value.1).value.1 == x
  {
    assert x == [] || !IsSpaceOrTab(x[0]);
    CountBefore(lead, x, IsSpaceOrTab);
    var k := TakeWhileCount(lead + x, IsSpaceOrTab);
    var tail := lead[k..];
    SliceOfConcat(lead, x, k);
    forall i | 0 <= i < |tail| ensures IsWhitespace(tail[i]) {
      assert tail[i] == lead[k + i];
    }
    CountOver(tail, x, IsWhitespace);
    SliceOfConcat(tail, x, |tail|);
    assert tail[|tail|..] == [];
    NoSpaceAhead(x);
  }

  /** Dropping `k` characters from `s + t`, with `k` within `s`. */
  lemma SliceOfConcat(s: seq<char>, t: seq<char>, k: nat)
    requires k <= |s|
    ensures (s + t)[k..] == s[k..] + t
  {
  }

  /** `newline` consumes a line end whole, and `skip_spaces` before it skips
      nothing. */
  lemma NewlineOver(nl: seq<char>, rest: seq<char>)
    requires LineEnd(nl, rest)
    ensures Newline(nl + rest) == Ok(((), rest))
    ensures SkipSpaces(nl + rest).value.1 == nl + rest
  {
    if nl == "\n" {
      NewlineAhead(rest);
    } else if nl == "\r\n" {
      CarriageReturnLineFeed(rest);
    } else {
      CarriageReturn(rest);
    }
  }

  lemma CarriageReturnLineFeed(rest: seq<char>)
    ensures Newline("\r\n" + rest) == Ok(((), rest))
    ensures SkipSpaces("\r\n" + rest).value.1 == "\r\n" + rest
  {
    var s := "\r\n" + rest;
    assert s[2..] == rest;
    assert s[0] == '\r';
    NoSpaceAhead(s);
  }

  lemma CarriageReturn(rest: seq<char>)
    requires !("\n" <= rest)
    ensures Newline("\r" + rest) == Ok(((), rest))
    ensures SkipSpaces("\r" + rest).value.1 == "\r" + rest
  {
    var s := "\r" + rest;
    assert s[1..] == rest;
    assert s[0] == '\r';
    assert !("\r\n" <= s);
    NoSpaceAhead(s);
  }

  // ---------------------------------------------------------------------
  // Productions

  /** `parse_symbol` repeated over the text of a production takes one symbol
      per graphic character, in order, and stops at what follows when that
      is neither a symbol nor a space or tab (a line end, say). */
  lemma {:induction false} SymbolRun(body: seq<char>, tail: seq<char>)
    requires SymbolsText(body)
    requires tail == [] || (!IsAsciiGraphic(tail[0]) && !IsSpaceOrTab(tail[0]))
    ensures Runs(ParseSymbol, body + tail, Graphics(body), tail)
    ensures ParseSymbol(tail).Err?
    decreases |body|
  {
    var next := body[NextSymbolAt(body)..];
    SymbolStep(body, tail);
    if next == [] {
      NoSpaceAhead(tail);
      assert next + tail == tail;
    } else {
      SymbolRun(next, tail);
    }
    RunsCons(ParseSymbol, body + tail, body[0], next + tail, Graphics(next), tail);
  }

  /** Where the second symbol of a production's text starts: after the first
      symbol and the spaces and tabs that follow it. */
  function NextSymbolAt(body: seq<char>): (j: nat)
    requires body != []
    ensures 1 <= j <= |body|
  {
    1 + TakeWhileCount(body[1..], IsSpaceOrTab)
  }

  /** One `parse_symbol` over the text of a production: the first symbol,
      with the spaces and tabs after it skipped. */
  lemma SymbolStep(body: seq<char>, tail: seq<char>)
    requires SymbolsText(body)
    requires tail == [] || (!IsAsciiGraphic(tail[0]) && !IsSpaceOrTab(tail[0]))
    ensures var next := body[NextSymbolAt(body)..];
      && ParseSymbol(body + tail) == Ok((body[0], next + tail))
      && Graphics(body) == [body[0]] + Graphics(next)
      && (next == [] || SymbolsText(next))
  {
    SymbolsTextSplit(body, NextSymbolAt(body));
    FirstSymbol(body, tail);
    FirstGraphic(body);
  }

  lemma FirstSymbol(body: seq<char>, tail: seq<char>)
    requires SymbolsText(body)
    requires tail == [] || (!IsAsciiGraphic(tail[0]) && !IsSpaceOrTab(tail[0]))
    ensures ParseSymbol(body + tail) == Ok((body[0], body[NextSymbolAt(body)..] + tail))
  {
    var j := NextSymbolAt(body);
    var gap := body[1..j];
    var next := body[j..];
    SymbolsTextSplit(body, j);
    assert body + tail == [body[0]] + gap + (next + tail);
    ParseSymbolOver(body[0], gap, next + tail);
  }

  /** The first symbol of a production text is its first graphic character. */
  lemma FirstGraphic(body: seq<char>)
    requires SymbolsText(body)
    ensures Graphics(body) == [body[0]] + Graphics(body[NextSymbolAt(body)..])
  {
    var j := NextSymbolAt(body);
    var gap := body[1..j];
    var next := body[j..];
    GapAfterFirst(body);
    HeadGapRest(body, j);
    GraphicsSplit(body[0], gap, next);
  }

  /** A text is its first character, the slice up to `j` and the rest. */
  lemma HeadGapRest(body: seq<char>, j: nat)
    requires 1 <= j <= |body|
    ensures body == [body[0]] + body[1..j] + body[j..]
  {
  }

  /** What `NextSymbolAt` skips after the first character is spaces and
      tabs. */
  lemma GapAfterFirst(body: seq<char>)
    requires body != []
    ensures SpacesOnly(body[1..NextSymbolAt(body)])
  {
    var k := TakeWhileCount(body[1..], IsSpaceOrTab);
    var gap := body[1..1 + k];
    forall i | 0 <= i < |gap| ensures IsSpaceOrTab(gap[i]) {
      assert gap[i] == body[1..][i];
    }
  }

  /** A symbol, spaces and tabs, and more text: the symbol is the first
      graphic character. */
  lemma GraphicsSplit(x: char, gap: seq<char>, next: seq<char>)
    requires IsAsciiGraphic(x) && SpacesOnly(gap)
    ensures Graphics([x] + gap + next) == [x] + Graphics(next)
  {
    GraphicsOne(x);
    GraphicsOfSpaces(gap);
    GraphicsAppend([x], gap);
    assert Graphics([x] + gap) == [x];
    GraphicsAppend([x] + gap, next);
  }

  /** A single graphic character is kept. */
  lemma GraphicsOne(c: char)
    requires IsAsciiGraphic(c)
    ensures Graphics([c]) == [c]
  {
    assert [c][1..] == [];
  }

  /** The text of a production splits after its first symbol into spaces and
      tabs, then either nothing or the text of the rest of the production. */
  lemma SymbolsTextSplit(body: seq<char>, j: nat)
    requires SymbolsText(body) && j == NextSymbolAt(body)
    ensures SpacesOnly(body[1..j])
    ensures body[j..] == [] || SymbolsText(body[j..])
  {
    var next := body[j..];
    if next != [] {
      assert next[0] == body[1..][j - 1];
      forall i | 0 <= i < |next| ensures IsAsciiGraphic(next[i]) || IsSpaceOrTab(next[i]) {
        assert next[i] == body[j + i];
      }
    }
  }

  /** `parse_symbol` takes a graphic character and the spaces and tabs after
      it. */
  lemma ParseSymbolOver(c: char, gap: seq<char>, rest: seq<char>)
    requires IsAsciiGraphic(c) && SpacesOnly(gap)
    requires rest == [] || !IsSpaceOrTab(rest[0])
    ensures ParseSymbol([c] + gap + rest) == Ok((c, rest))
  {
    var input := [c] + gap + rest;
    assert input[1..] == gap + rest;
    NoSpaceAhead(input);
    SkipSpacesOver(gap, rest);
  }

  // ---------------------------------------------------------------------
  // Rule lines

  /** `rule_parser` step by step: when each element of a rule line matches
      where the one before it stopped, the line yields the rule of its symbol
      and its run of symbols, and stops after the spaces and tabs that follow
      the line end. */
  lemma RuleParserChain(input: seq<char>, symbol: char, afterSymbol: seq<char>, afterArrow: seq<char>,
                        values: seq<char>, afterValues: seq<char>, rest: seq<char>)
    requires ParseSymbol(SkipSpaces(SkipAllWs(SkipSpaces(input).value.1).value.1).value.1) == Ok((symbol, afterSymbol))
    requires Literal("=>")(SkipSpaces(afterSymbol).value.1) == Ok(("=>", afterArrow))
    requires |values| >= 1 && Runs(ParseSymbol, SkipSpaces(afterArrow).value.1, values, afterValues)
    requires ParseSymbol(afterValues).Err?
    requires Newline(SkipSpaces(afterValues).value.1) == Ok(((), rest))
    ensures RuleParser(input) == Ok((Rule(symbol, values), SkipSpaces(rest).value.1))
  {
    ParseSymbolConsumes();
    RepeatOfRun(1, ParseSymbol, SkipSpaces(afterArrow).value.1, values, afterValues);
  }

  /** A rule line: blank lines and spaces, a symbol, `=>` with spaces and
      tabs about it, the text of a production and a line end. It yields the
      rule from that symbol to the production's symbols in order, and stops
      after the spaces and tabs that follow the line end. */
  lemma RuleLine(lead: seq<char>, symbol: char, sp1: seq<char>, sp2: seq<char>, body: seq<char>,
                 nl: seq<char>, rest: seq<char>)
    requires Blank(lead) && IsAsciiGraphic(symbol) && SpacesOnly(sp1) && SpacesOnly(sp2)
    requires SymbolsText(body) && LineEnd(nl, rest)
    ensures RuleParser(lead + [symbol] + sp1 + "=>" + sp2 + body + nl + rest) ==
            Ok((Rule(symbol, Graphics(body)), SkipSpaces(rest).value.1))
  {
    var tail := nl + rest;
    var afterArrow := sp2 + (body + tail);
    var afterSymbol := "=>" + afterArrow;
    RuleLineText(lead, [symbol], sp1, sp2, body, nl, rest);
    RuleHead(lead, symbol, sp1, afterSymbol);
    LiteralAhead("=>", afterArrow);
    RuleTail(sp2, body, nl, rest);
    RuleParserChain(lead + ([symbol] + sp1 + afterSymbol), symbol, afterSymbol, afterArrow, Graphics(body), tail, rest);
  }

  /** The text of a rule line regrouped around the `=>`. */
  lemma RuleLineText(lead: seq<char>, head: seq<char>, sp1: seq<char>, sp2: seq<char>, body: seq<char>,
                     nl: seq<char>, rest: seq<char>)
    ensures lead + head + sp1 + "=>" + sp2 + body + nl + rest ==
            lead + (head + sp1 + ("=>" + (sp2 + (body + (nl + rest)))))
  {
  }

  /** The start of a rule line: blank lines and spaces are skipped and the
      symbol is taken with the spaces and tabs after it. */
  lemma RuleHead(lead: seq<char>, symbol: char, sp1: seq<char>, afterSymbol: seq<char>)
    requires Blank(lead) && IsAsciiGraphic(symbol) && SpacesOnly(sp1)
    requires afterSymbol == [] || !IsSpaceOrTab(afterSymbol[0])
    ensures ParseSymbol(SkipSpaces(SkipAllWs(SkipSpaces(lead + ([symbol] + sp1 + afterSymbol)).value.1).value.1).value.1) ==
            Ok((symbol, afterSymbol))
  {
    var x := [symbol] + sp1 + afterSymbol;
    assert x[0] == symbol;
    SkipBlank(lead, x);
    ParseSymbolOver(symbol, sp1, afterSymbol);
  }

  /** The end of a rule line, after `=>`: the symbols of the production, in
      order, then the line end. */
  lemma RuleTail(sp2: seq<char>, body: seq<char>, nl: seq<char>, rest: seq<char>)
    requires SpacesOnly(sp2) && SymbolsText(body) && LineEnd(nl, rest)
    ensures var tail := nl + rest;
      && |Graphics(body)| >= 1 && Runs(ParseSymbol, SkipSpaces(sp2 + (body + tail)).value.1, Graphics(body), tail)
      && ParseSymbol(tail).Err? && Newline(SkipSpaces(tail).value.1) == Ok(((), rest))
  {
    var tail := nl + rest;
    SkipSpacesOver(sp2, body + tail);
    SymbolRun(body, tail);
    FirstGraphic(body);
    NewlineOver(nl, rest);
  }

  /** Blank text holds no rule: `rule_parser` runs out of input looking for
      the symbol. */
  lemma BlankNotRule(lead: seq<char>)
    requires Blank(lead)
    ensures RuleParser(lead) == Err(EndOfInput)
  {
    SkipBlank(lead, []);
    assert lead + [] == lead;
  }

  /** Text without `'\n'` and `'\r'`, the last line of a file included,
      never yields a rule: every rule line is ended by a line end. */
  lemma NoLineEndNoRule(input: seq<char>)
    requires forall i :: 0 <= i < |input| ==> input[i] != '\n' && input[i] != '\r'
    ensures RuleParser(input).Err?
  {
  }

  /** `rule_parser` on the smallest rule line of the source's examples. */
  lemma OneRuleLine()
    ensures RuleParser("A => BCD\n") == Ok((Rule('A', "BCD"), []))
  {
    LineABCD([]);
    assert "A => BCD\n" + [] == "A => BCD\n";
  }

  /** The line `A => BCD` before text that starts with neither a space nor
      a tab, which is what is left. */
  lemma LineABCD(rest: seq<char>)
    requires rest == [] || !IsSpaceOrTab(rest[0])
    ensures RuleParser("A => BCD\n" + rest) == Ok((Rule('A', "BCD"), rest))
  {
    GraphicsOfSymbols("BCD");
    TextABCD(rest);
    NoSpaceAhead(rest);
    RuleLine([], 'A', " ", " ", "BCD", "\n", rest);
  }

  /** The line `B=>AAA`, without spaces, before such text. */
  lemma LineBAAA(rest: seq<char>)
    requires rest == [] || !IsSpaceOrTab(rest[0])
    ensures RuleParser("B=>AAA\n" + rest) == Ok((Rule('B', "AAA"), rest))
  {
    GraphicsOfSymbols("AAA");
    TextBAAA(rest);
    NoSpaceAhead(rest);
    RuleLine([], 'B', [], [], "AAA", "\n", rest);
  }

  /** The line `A => BCD` regrouped around its `=>`. */
  lemma TextABCD(rest: seq<char>)
    ensures [] + ['A'] + " " + "=>" + " " + "BCD" + "\n" + rest == "A => BCD\n" + rest
  {
  }

  /** The line `B=>AAA` regrouped around its `=>`. */
  lemma TextBAAA(rest: seq<char>)
    ensures [] + ['B'] + [] + "=>" + [] + "AAA" + "\n" + rest == "B=>AAA\n" + rest
  {
  }

  // ---------------------------------------------------------------------
  // The rules of `valid_rules_are_parsed`

  /** A line of the source's test whose production has spaces between some
      of its symbols, over any six symbols. */
  lemma SpacedLine(a: char, b: char, c: char, l: char, p: char, d: char, rest: seq<char>)
    requires IsAsciiGraphic(a) && IsAsciiGraphic(b) && IsAsciiGraphic(c)
    requires IsAsciiGraphic(l) && IsAsciiGraphic(p) && IsAsciiGraphic(d)
    requires rest == [] || !IsSpaceOrTab(rest[0])
    ensures RuleParser(['\n', ' ', ' ', ' ', ' ', ' ', ' ', ' ', ' ', a, ' ', '=', '>', ' ',
                        b, c, ' ', l, ' ', l, ' ', p, d, ' ', d, '\n'] + rest) ==
            Ok((Rule(a, [b, c, l, l, p, d, d]), rest))
  {
    SpacedSymbols(b, c, l, p, d);
    SpacedGraphics(b, c, l, p, d);
    SpacedText(a, [b, c, ' ', l, ' ', l, ' ', p, d, ' ', d], rest);
    NoSpaceAhead(rest);
    RuleLine("\n        ", a, " ", " ", [b, c, ' ', l, ' ', l, ' ', p, d, ' ', d], "\n", rest);
  }

  lemma SpacedSymbols(b: char, c: char, l: char, p: char, d: char)
    requires IsAsciiGraphic(b) && IsAsciiGraphic(c) && IsAsciiGraphic(l) && IsAsciiGraphic(p) && IsAsciiGraphic(d)
    ensures SymbolsText([b, c, ' ', l, ' ', l, ' ', p, d, ' ', d])
  {
  }

  lemma SpacedText(a: char, body: seq<char>, rest: seq<char>)
    requires |body| == 11
    ensures "\n        " + [a] + " " + "=>" + " " + body + "\n" + rest ==
            ['\n', ' ', ' ', ' ', ' ', ' ', ' ', ' ', ' ', a, ' ', '=', '>', ' ',
             body[0], body[1], body[2], body[3], body[4], body[5], body[6], body[7], body[8], body[9], body[10], '\n'] + rest
  {
  }

  lemma SpacedGraphics(b: char, c: char, l: char, p: char, d: char)
    requires IsAsciiGraphic(b) && IsAsciiGraphic(c) && IsAsciiGraphic(l) && IsAsciiGraphic(p) && IsAsciiGraphic(d)
    ensures Graphics([b, c, ' ', l, ' ', l, ' ', p, d, ' ', d]) == [b, c, l, l, p, d, d]
  {
    GraphicsOfSymbols([b, c]);
    GraphicsAfterSpace([l]);
    GraphicsAfterSpace([p, d]);
    GraphicsAfterSpace([d]);
    GraphicsAppend5([b, c], [' '] + [l], [' '] + [l], [' '] + [p, d], [' '] + [d]);
    assert [b, c, ' ', l, ' ', l, ' ', p, d, ' ', d] ==
           [b, c] + ([' '] + [l]) + ([' '] + [l]) + ([' '] + [p, d]) + ([' '] + [d]);
    assert [b, c, l, l, p, d, d] == [b, c] + [l] + [l] + [p, d] + [d];
  }

  lemma TestRuleA(rest: seq<char>)
    requires rest == [] || !IsSpaceOrTab(rest[0])
    ensures RuleParser("\n        A => BC [ [ +D D\n" + rest) == Ok((Rule('A', "BC[[+DD"), rest))
  {
    SpacedLine('A', 'B', 'C', '[', '+', 'D', rest);
  }

  lemma TestRuleB(rest: seq<char>)
    requires rest == [] || !IsSpaceOrTab(rest[0])
    ensures RuleParser("\n        B=>AAA\n" + rest) == Ok((Rule('B', "AAA"), rest))
  {
    GraphicsOfSymbols("AAA");
    TextB(rest);
    NoSpaceAhead(rest);
    RuleLine("\n        ", 'B', [], [], "AAA", "\n", rest);
  }

  lemma TestRuleC(rest: seq<char>)
    requires rest == [] || !IsSpaceOrTab(rest[0])
    ensures RuleParser("\n\n        C   =>    DAD\n        " + rest) == Ok((Rule('C', "DAD"), rest))
  {
    GraphicsOfSymbols("DAD");
    TextC(rest);
    SkipSpacesOver("        ", rest);
    RuleLine("\n\n        ", 'C', "   ", "    ", "DAD", "\n", "        " + rest);
  }

  lemma TestRuleD(rest: seq<char>)
    requires rest == [] || !IsSpaceOrTab(rest[0])
    ensures RuleParser("D=> ABC\n" + rest) == Ok((Rule('D', "ABC"), rest))
  {
    GraphicsOfSymbols("ABC");
    TextD(rest);
    NoSpaceAhead(rest);
    RuleLine([], 'D', [], " ", "ABC", "\n", rest);
  }

  lemma TextB(rest: seq<char>)
    ensures "\n        " + ['B'] + [] + "=>" + [] + "AAA" + "\n" + rest == "\n        B=>AAA\n" + rest
  {
  }

  lemma TextC(rest: seq<char>)
    ensures "\n\n        " + ['C'] + "   " + "=>" + "    " + "DAD" + "\n" + ("        " + rest) ==
            "\n\n        C   =>    DAD\n        " + rest
  {
  }

  lemma TextD(rest: seq<char>)
    ensures [] + ['D'] + [] + "=>" + " " + "ABC" + "\n" + rest == "D=> ABC\n" + rest
  {
  }

  /** The source's `valid_rules_are_parsed`: the four indented rule lines,
      with blank lines among them, are the four rules in order, and the
      blank text after them is left over. The test's text, written here line
      by line, ends in a line end and eight spaces; the same holds after any
      blank text that starts on a new line. */
  lemma ValidRulesAreParsed(tail: seq<char>)
    requires Blank(tail) && (tail == [] || !IsSpaceOrTab(tail[0]))
    ensures var input := "\n        A => BC [ [ +D D\n" + ("\n        B=>AAA\n" +
                         ("\n\n        C   =>    DAD\n        " + ("D=> ABC\n" + tail)));
      var rules := [Rule('A', "BC[[+DD"), Rule('B', "AAA"), Rule('C', "DAD"), Rule('D', "ABC")];
      && Repeat(1, RuleParser, input) == Ok((rules, tail))
      && RulesParser(input) == Ok((FromRules(rules), tail))
  {
    var input := "\n        A => BC [ [ +D D\n" + ("\n        B=>AAA\n" +
                 ("\n\n        C   =>    DAD\n        " + ("D=> ABC\n" + tail)));
    var rules := [Rule('A', "BC[[+DD"), Rule('B', "AAA"), Rule('C', "DAD"), Rule('D', "ABC")];
    assert rules == [Rule('A', "BC[[+DD")] + ([Rule('B', "AAA")] + ([Rule('C', "DAD")] + ([Rule('D', "ABC")] + [])));
    TestRun(tail);
    BlankNotRule(tail);
    RuleParserConsumes();
    RepeatOfRun(1, RuleParser, input, rules, tail);
    RulesOfRun(input, rules, tail);
  }

  /** The run of `rule_parser` over the test's lines, from the last one up. */
  lemma TestRunD(tail: seq<char>)
    requires tail == [] || !IsSpaceOrTab(tail[0])
    ensures Runs(RuleParser, "D=> ABC\n" + tail, [Rule('D', "ABC")] + [], tail)
  {
    PrependD(tail, [], tail);
  }

  /** The last two rule lines of the four-rule example as a run. */
  lemma TestRunC(tail: seq<char>)
    requires tail == [] || !IsSpaceOrTab(tail[0])
    ensures Runs(RuleParser, "\n\n        C   =>    DAD\n        " + ("D=> ABC\n" + tail),
                 [Rule('C', "DAD")] + ([Rule('D', "ABC")] + []), tail)
  {
    var next := "D=> ABC\n" + tail;
    assert next == [] || !IsSpaceOrTab(next[0]);
    TestRunD(tail);
    PrependC("D=> ABC\n" + tail, [Rule('D', "ABC")] + [], tail);
  }

  /** The last three rule lines of the four-rule example as a run. */
  lemma TestRunB(tail: seq<char>)
    requires tail == [] || !IsSpaceOrTab(tail[0])
    ensures Runs(RuleParser, "\n        B=>AAA\n" + ("\n\n        C   =>    DAD\n        " + ("D=> ABC\n" + tail)),
                 [Rule('B', "AAA")] + ([Rule('C', "DAD")] + ([Rule('D', "ABC")] + [])), tail)
  {
    var next := "\n\n        C   =>    DAD\n        " + ("D=> ABC\n" + tail);
    assert next == [] || !IsSpaceOrTab(next[0]);
    TestRunC(tail);
    PrependB("\n\n        C   =>    DAD\n        " + ("D=> ABC\n" + tail),
             [Rule('C', "DAD")] + ([Rule('D', "ABC")] + []), tail);
  }

  /** All four rule lines of the four-rule example as a run. */
  lemma TestRun(tail: seq<char>)
    requires tail == [] || !IsSpaceOrTab(tail[0])
    ensures Runs(RuleParser, "\n        A => BC [ [ +D D\n" + ("\n        B=>AAA\n" +
                             ("\n\n        C   =>    DAD\n        " + ("D=> ABC\n" + tail))),
                 [Rule('A', "BC[[+DD")] + ([Rule('B', "AAA")] + ([Rule('C', "DAD")] + ([Rule('D', "ABC")] + []))), tail)
  {
    var next := "\n        B=>AAA\n" + ("\n\n        C   =>    DAD\n        " + ("D=> ABC\n" + tail));
    assert next == [] || !IsSpaceOrTab(next[0]);
    TestRunB(tail);
    PrependA("\n        B=>AAA\n" + ("\n\n        C   =>    DAD\n        " + ("D=> ABC\n" + tail)),
             [Rule('B', "AAA")] + ([Rule('C', "DAD")] + ([Rule('D', "ABC")] + [])), tail);
  }

  /** Each line of the test in front of a run of rule lines that does not
      start with a space or a tab is one more rule at the front of the run. */
  lemma PrependA(next: seq<char>, rules: seq<Rule<char>>, rest: seq<char>)
    requires next == [] || !IsSpaceOrTab(next[0])
    requires Runs(RuleParser, next, rules, rest)
    ensures Runs(RuleParser, "\n        A => BC [ [ +D D\n" + next, [Rule('A', "BC[[+DD")] + rules, rest)
  {
    TestRuleA(next);
    RunsCons(RuleParser, "\n        A => BC [ [ +D D\n" + next, Rule('A', "BC[[+DD"), next, rules, rest);
  }

  lemma PrependB(next: seq<char>, rules: seq<Rule<char>>, rest: seq<char>)
    requires next == [] || !IsSpaceOrTab(next[0])
    requires Runs(RuleParser, next, rules, rest)
    ensures Runs(RuleParser, "\n        B=>AAA\n" + next, [Rule('B', "AAA")] + rules, rest)
  {
    TestRuleB(next);
    RunsCons(RuleParser, "\n        B=>AAA\n" + next, Rule('B', "AAA"), next, rules, rest);
  }

  lemma PrependC(next: seq<char>, rules: seq<Rule<char>>, rest: seq<char>)
    requires next == [] || !IsSpaceOrTab(next[0])
    requires Runs(RuleParser, next, rules, rest)
    ensures Runs(RuleParser, "\n\n        C   =>    DAD\n        " + next, [Rule('C', "DAD")] + rules, rest)
  {
    TestRuleC(next);
    RunsCons(RuleParser, "\n\n        C   =>    DAD\n        " + next, Rule('C', "DAD"), next, rules, rest);
  }

  lemma PrependD(next: seq<char>, rules: seq<Rule<char>>, rest: seq<char>)
    requires next == [] || !IsSpaceOrTab(next[0])
    requires Runs(RuleParser, next, rules, rest)
    ensures Runs(RuleParser, "D=> ABC\n" + next, [Rule('D', "ABC")] + rules, rest)
  {
    TestRuleD(next);
    RunsCons(RuleParser, "D=> ABC\n" + next, Rule('D', "ABC"), next, rules, rest);
  }

  /** `rules_parser` is `from_rules` over what `at_least(1, rule_parser)`
      yields. */
  lemma RulesOfRun(input: seq<char>, rules: seq<Rule<char>>, rest: seq<char>)
    requires Consumes(RuleParser)
    requires Repeat(1, RuleParser, input) == Ok((rules, rest))
    ensures RulesParser(input) == Ok((FromRules(rules), rest))
  {
  }

  // ---------------------------------------------------------------------
  // Configuration lines

  /** The start of `config_item`: the key's name and `=`, each after spaces
      and tabs, and the spaces and tabs after `=`, are what is consumed. */
  lemma KeyLine(name: string, sp0: seq<char>, sp1: seq<char>, sp2: seq<char>, after: seq<char>)
    requires name != [] && !IsSpaceOrTab(name[0])
    requires SpacesOnly(sp0) && SpacesOnly(sp1) && SpacesOnly(sp2)
    requires after == [] || !IsSpaceOrTab(after[0])
    ensures KeyAndEquals(name, sp0 + (name + (sp1 + ("=" + (sp2 + after))))) == Ok(((), after))
  {
    var eq := "=" + (sp2 + after);
    var ident := name + (sp1 + eq);
    assert eq == [] || !IsSpaceOrTab(eq[0]);
    assert ident == [] || !IsSpaceOrTab(ident[0]);
    SkipSpacesOver(sp0, ident);
    LiteralAhead(name, sp1 + eq);
    SkipSpacesOver(sp1, eq);
    LiteralAhead("=", sp2 + after);
    SkipSpacesOver(sp2, after);
    KeyChain(name, sp0 + ident, sp1 + eq, sp2 + after);
  }

  /** `config_item`'s key and `=` as the chain of their elements. */
  lemma KeyChain(name: string, input: seq<char>, afterName: seq<char>, afterEquals: seq<char>)
    requires Literal(name)(SkipSpaces(input).value.1) == Ok((name, afterName))
    requires Literal("=")(SkipSpaces(afterName).value.1) == Ok(("=", afterEquals))
    ensures KeyAndEquals(name, input) == Ok(((), SkipSpaces(afterEquals).value.1))
  {
  }

  /** Text that, after spaces and tabs, does not start with the key's name
      is not that key's line. */
  lemma KeyMissing(name: string, input: seq<char>)
    requires !(name <= SkipSpaces(input).value.1)
    ensures KeyAndEquals(name, input) == Err(ExpectingString(name))
  {
  }

  /** The key's name without `=` after it is an error expecting `=`. */
  lemma EqualsMissing(name: string, sp0: seq<char>, sp1: seq<char>, after: seq<char>)
    requires name != [] && !IsSpaceOrTab(name[0])
    requires SpacesOnly(sp0) && SpacesOnly(sp1)
    requires after == [] || (!IsSpaceOrTab(after[0]) && after[0] != '=')
    ensures KeyAndEquals(name, sp0 + (name + (sp1 + after))) == Err(ExpectingString("="))
  {
    var ident := name + (sp1 + after);
    assert ident == [] || !IsSpaceOrTab(ident[0]);
    SkipSpacesOver(sp0, ident);
    LiteralAhead(name, sp1 + after);
    SkipSpacesOver(sp1, after);
  }

  /** The value of a configuration line is all of its text up to the line
      end, trimmed and converted. */
  lemma ValueBeforeLineEnd<T>(parseValue: seq<char> -> Option<T>, text: seq<char>, tail: seq<char>)
    requires text != [] && forall i :: 0 <= i < |text| ==> NotLineEnd(text[i])
    requires tail == [] || !NotLineEnd(tail[0])
    ensures ConfigValue(parseValue, text + tail) ==
      match ConvertValue(parseValue, text)
      case Ok(v) => Ok((v, tail))
      case Err(e) => Err(e)
  {
    CountOver(text, tail, NotLineEnd);
    ConfigValueBehaviour(parseValue, text + tail);
    assert (text + tail)[..|text|] == text;
    assert (text + tail)[|text|..] == tail;
  }

  /** A well-formed `key = value` line: the name, `=`, the value text and a
      line end, with spaces and tabs around them.  The item is `make` of
      the converted value, trimmed, and the spaces and tabs after the line
      end are skipped; a value that does not convert is the `Custom` error
      with the trimmed text in its message. */
  lemma ConfigLine<T>(name: string, parseValue: seq<char> -> Option<T>, make: T -> ConfigItem,
                      sp0: seq<char>, sp1: seq<char>, sp2: seq<char>, text: seq<char>,
                      nl: seq<char>, sp3: seq<char>, rest: seq<char>)
    requires name != [] && !IsSpaceOrTab(name[0])
    requires SpacesOnly(sp0) && SpacesOnly(sp1) && SpacesOnly(sp2) && SpacesOnly(sp3)
    requires text != [] && !IsSpaceOrTab(text[0]) && forall i :: 0 <= i < |text| ==> NotLineEnd(text[i])
    requires LineEnd(nl, sp3 + rest)
    requires rest == [] || !IsSpaceOrTab(rest[0])
    ensures ConfigItemParser(name, parseValue, make,
                             sp0 + (name + (sp1 + ("=" + (sp2 + (text + (nl + (sp3 + rest)))))))) ==
      match parseValue(Trim(text))
      case Some(v) => Ok((make(v), rest))
      case None => Err(Custom("Invalid config value: '" + Trim(text) + "\n           '"))
  {
    var value := text + (nl + (sp3 + rest));
    assert value == [] || !IsSpaceOrTab(value[0]);
    KeyLine(name, sp0, sp1, sp2, value);
    ConfigLineAfterKey(name, parseValue, make, sp0 + (name + (sp1 + ("=" + (sp2 + value)))), text, nl, sp3, rest);
  }

  /** The rest of a configuration line once its key and `=` are matched. */
  lemma ConfigLineAfterKey<T>(name: string, parseValue: seq<char> -> Option<T>, make: T -> ConfigItem,
                              input: seq<char>, text: seq<char>, nl: seq<char>, sp3: seq<char>, rest: seq<char>)
    requires text != [] && forall i :: 0 <= i < |text| ==> NotLineEnd(text[i])
    requires SpacesOnly(sp3) && LineEnd(nl, sp3 + rest) && (rest == [] || !IsSpaceOrTab(rest[0]))
    requires KeyAndEquals(name, input) == Ok(((), text + (nl + (sp3 + rest))))
    ensures ConfigItemParser(name, parseValue, make, input) ==
      match ConvertValue(parseValue, text)
      case Ok(v) => Ok((make(v), rest))
      case Err(e) => Err(e)
  {
    var tail := nl + (sp3 + rest);
    assert tail == [] || !NotLineEnd(tail[0]);
    ValueBeforeLineEnd(parseValue, text, tail);
    if ConvertValue(parseValue, text).Ok? {
      ConfigLineAccepted(name, parseValue, make, input, text + tail, ConvertValue(parseValue, text).value, nl, sp3, rest);
    } else {
      ConfigItemFails(name, parseValue, make, input, text + tail);
    }
  }

  /** A value that converts: the item is made and the line end and the spaces
      after it are consumed. */
  lemma ConfigLineAccepted<T>(name: string, parseValue: seq<char> -> Option<T>, make: T -> ConfigItem,
                              input: seq<char>, value: seq<char>, v: T, nl: seq<char>, sp3: seq<char>, rest: seq<char>)
    requires SpacesOnly(sp3) && LineEnd(nl, sp3 + rest) && (rest == [] || !IsSpaceOrTab(rest[0]))
    requires KeyAndEquals(name, input) == Ok(((), value))
    requires ConfigValue(parseValue, value) == Ok((v, nl + (sp3 + rest)))
    ensures ConfigItemParser(name, parseValue, make, input) == Ok((make(v), rest))
  {
    LineEndThenSpaces(nl, sp3, rest);
    ConfigItemChain(name, parseValue, make, input, value, v, nl + (sp3 + rest), sp3 + rest, rest);
  }

  /** A line end, then spaces and tabs: `newline` takes the line end and
      `skip_spaces` the spaces and tabs. */
  lemma LineEndThenSpaces(nl: seq<char>, sp3: seq<char>, rest: seq<char>)
    requires SpacesOnly(sp3) && LineEnd(nl, sp3 + rest) && (rest == [] || !IsSpaceOrTab(rest[0]))
    ensures Newline(SkipSpaces(nl + (sp3 + rest)).value.1) == Ok(((), sp3 + rest))
    ensures SkipSpaces(sp3 + rest).value.1 == rest
  {
    SkipSpacesOver(sp3, rest);
    NewlineOver(nl, sp3 + rest);
    assert SkipSpaces(nl + (sp3 + rest)).value.1 == nl + (sp3 + rest);
  }

  /** `config_item` as the chain of its elements. */
  lemma ConfigItemChain<T>(name: string, parseValue: seq<char> -> Option<T>, make: T -> ConfigItem,
                           input: seq<char>, afterKey: seq<char>, v: T, afterValue: seq<char>, afterLine: seq<char>,
                           rest: seq<char>)
    requires KeyAndEquals(name, input) == Ok(((), afterKey))
    requires ConfigValue(parseValue, afterKey) == Ok((v, afterValue))
    requires Newline(SkipSpaces(afterValue).value.1) == Ok(((), afterLine))
    requires SkipSpaces(afterLine).value.1 == rest
    ensures ConfigItemParser(name, parseValue, make, input) == Ok((make(v), rest))
  {
  }

  /** A value that does not convert fails the whole line with its error. */
  lemma ConfigItemFails<T>(name: string, parseValue: seq<char> -> Option<T>, make: T -> ConfigItem,
                           input: seq<char>, afterKey: seq<char>)
    requires KeyAndEquals(name, input) == Ok(((), afterKey))
    requires ConfigValue(parseValue, afterKey).Err?
    ensures ConfigItemParser(name, parseValue, make, input) == Err(ConfigValue(parseValue, afterKey).error)
  {
  }

  /** Text without white space at either end is its own trim. */
  lemma TrimPlain(s: seq<char>)
    requires s != [] && !IsWhitespace(s[0]) && !IsWhitespace(s[|s| - 1])
    ensures Trim(s) == s
  {
    assert TakeWhileCount(s, IsWhitespace) == 0;
    assert TrimStart(s) == s;
  }

  /** The configuration line of the source's example definitions:
      `starting_step = 40.5` is the starting step `str::parse::<f64>` makes
      of `40.5`. */
  lemma StartingStepLine(toF64: seq<char> -> Option<F64>, v: F64, rest: seq<char>)
    requires toF64("40.5") == Some(v)
    requires rest == [] || !IsSpaceOrTab(rest[0])
    ensures ConfigItems(toF64)[0]("starting_step = 40.5\n" + rest) == Ok((StartingStep(v), rest))
  {
    StartingStepParsed(toF64, v, rest);
  }

  /** The same line read by `config_item("starting_step", …)` directly. */
  lemma StartingStepParsed(toF64: seq<char> -> Option<F64>, v: F64, rest: seq<char>)
    requires toF64("40.5") == Some(v)
    requires rest == [] || !IsSpaceOrTab(rest[0])
    ensures ConfigItemParser("starting_step", toF64, (x: F64) => StartingStep(x), "starting_step = 40.5\n" + rest) ==
            Ok((StartingStep(v), rest))
  {
    assert SpacesOnly([]) && SpacesOnly(" ");
    assert forall i :: 0 <= i < |"40.5"| ==> NotLineEnd("40.5"[i]);
    assert LineEnd("\n", [] + rest);
    TrimPlain("40.5");
    StartingStepText(rest);
    ConfigLine("starting_step", toF64, (x: F64) => StartingStep(x), [], " ", " ", "40.5", "\n", [], rest);
  }

  /** The line `starting_step = 40.5` split into its parts. */
  lemma StartingStepText(rest: seq<char>)
    ensures [] + ("starting_step" + (" " + ("=" + (" " + ("40.5" + ("\n" + ([] + rest))))))) ==
            "starting_step = 40.5\n" + rest
  {
  }

  /** `one_of` takes its first option when that one succeeds. */
  lemma OneOfFirst<T>(options: seq<Parser<T>>, input: seq<char>)
    requires options != [] && options[0](input).Ok?
    ensures OneOf(options)(input) == options[0](input)
  {
  }

  /** `many(p)` over one success of `p` followed by a failure of `p` is that
      one value. */
  lemma ManyOfOne<T>(p: Parser<T>, input: seq<char>, v: T, rest: seq<char>)
    requires Consumes(p)
    requires p(input) == Ok((v, rest)) && p(rest).Err?
    ensures Many(p)(input) == Ok(([v], rest))
  {
    RunsCons(p, input, v, rest, [], rest);
    RepeatOfRun(0, p, input, [v] + [], rest);
    assert [v] + [] == [v];
  }

  /** No configuration line starts at text that begins with none of the
      keys' first characters. */
  lemma NoConfigItemAt(toF64: seq<char> -> Option<F64>, rest: seq<char>)
    requires rest == [] || (!IsSpaceOrTab(rest[0]) &&
                            rest[0] != 's' && rest[0] != 'a' && rest[0] != 'l' && rest[0] != 'b' && rest[0] != 'p')
    ensures OneOf(ConfigItems(toF64))(rest).Err?
  {
    NoSpaceAhead(rest);
    ConfigItemsReject(toF64, rest);
  }

  /** `parse_config` over exactly one configuration line: the item is
      applied to the defaults and the text after the line is left. */
  lemma ConfigOfOneItem(defaults: RendererConfig, toF64: seq<char> -> Option<F64>, input: seq<char>,
                        item: ConfigItem, rest: seq<char>)
    requires OneOf(ConfigItems(toF64))(input) == Ok((item, rest))
    requires OneOf(ConfigItems(toF64))(rest).Err?
    ensures ParseConfig(defaults, toF64, input) == Ok((ApplyItem(defaults, item), rest))
  {
    ApplyOneItem(defaults, item);
    ConfigItemsConsume(toF64);
    ManyOfOne(OneOf(ConfigItems(toF64)), input, item, rest);
    ConfigOfItems(defaults, toF64, input, [item], rest);
  }

  /** `parse_config` applies what `many` over the eight keys yields. */
  lemma ConfigOfItems(defaults: RendererConfig, toF64: seq<char> -> Option<F64>, input: seq<char>,
                      items: seq<ConfigItem>, rest: seq<char>)
    requires Consumes(OneOf(ConfigItems(toF64)))
    requires Many(OneOf(ConfigItems(toF64)))(input) == Ok((items, rest))
    ensures ParseConfig(defaults, toF64, input) == Ok((ApplyItems(defaults, items), rest))
  {
  }

  /** Applying a single item to a configuration. */
  lemma ApplyOneItem(config: RendererConfig, item: ConfigItem)
    ensures ApplyItems(config, [item]) == ApplyItem(config, item)
  {
    assert [item][..0] == [];
  }

  /** `parse_config` over the `starting_step` line, before text that begins
      no configuration line: the defaults with the starting step set. */
  lemma OneConfigLine(defaults: RendererConfig, toF64: seq<char> -> Option<F64>, v: F64, rest: seq<char>)
    requires toF64("40.5") == Some(v)
    requires rest == [] || (!IsSpaceOrTab(rest[0]) &&
                            rest[0] != 's' && rest[0] != 'a' && rest[0] != 'l' && rest[0] != 'b' && rest[0] != 'p')
    ensures ParseConfig(defaults, toF64, "starting_step = 40.5\n" + rest) == Ok((defaults.(startingStep := v), rest))
  {
    NoConfigItemAt(toF64, rest);
    StartingStepLine(toF64, v, rest);
    OneOfFirst(ConfigItems(toF64), "starting_step = 40.5\n" + rest);
    ConfigOfOneItem(defaults, toF64, "starting_step = 40.5\n" + rest, StartingStep(v), rest);
  }

  // ---------------------------------------------------------------------
  // Whole definitions

  /** A definition whose `render:` section is the one `starting_step` line:
      the configuration is the defaults with that step, and the definition
      is whatever `rules_parser` makes of the text after `rules:`. */
  lemma ConfiguredSection(defaults: RendererConfig, toF64: seq<char> -> Option<F64>, v: F64, rulesText: seq<char>)
    requires toF64("40.5") == Some(v)
    requires rulesText == [] || !IsSpaceOrTab(rulesText[0])
    ensures LSystemParser(defaults, toF64, "render:\n" + ("starting_step = 40.5\n" + ("rules:\n" + rulesText))) ==
            WithConfig(defaults.(startingStep := v), RulesParser(rulesText))
  {
    var rulesSection := "rules" + (":" + ("\n" + rulesText));
    var configText := "starting_step = 40.5\n" + rulesSection;
    RenderHeaderText("starting_step = 40.5\n" + ("rules:\n" + rulesText));
    RulesHeaderText(rulesText);
    ConfiguredSteps(defaults, toF64, v, "render" + (":" + ("\n" + configText)), configText, rulesSection, rulesText);
  }

  /** The `render:` header split into name, colon and line end. */
  lemma RenderHeaderText(x: seq<char>)
    ensures "render:\n" + x == "render" + (":" + ("\n" + x))
  {
  }

  /** The `rules:` header split into name, colon and line end. */
  lemma RulesHeaderText(x: seq<char>)
    ensures "rules:\n" + x == "rules" + (":" + ("\n" + x))
  {
  }

  /** The configured definition with its texts named part by part. */
  lemma ConfiguredSteps(defaults: RendererConfig, toF64: seq<char> -> Option<F64>, v: F64, input: seq<char>,
                        configText: seq<char>, rulesSection: seq<char>, rulesText: seq<char>)
    requires toF64("40.5") == Some(v)
    requires rulesText == [] || !IsSpaceOrTab(rulesText[0])
    requires rulesSection == "rules" + (":" + ("\n" + rulesText))
    requires configText == "starting_step = 40.5\n" + rulesSection
    requires input == "render" + (":" + ("\n" + configText))
    ensures LSystemParser(defaults, toF64, input) == WithConfig(defaults.(startingStep := v), RulesParser(rulesText))
  {
    ConfiguredHeaders(input, configText, rulesSection, rulesText);
    ConfigPart(defaults, toF64, v, configText, rulesSection);
    LSystemParserChain(defaults, toF64, input, configText, defaults.(startingStep := v), rulesSection, rulesText);
  }

  /** The configuration section of that definition, up to `rules`. */
  lemma ConfigPart(defaults: RendererConfig, toF64: seq<char> -> Option<F64>, v: F64,
                   configText: seq<char>, rest: seq<char>)
    requires toF64("40.5") == Some(v)
    requires rest != [] && (rest[0] == 'r' || rest[0] == '\n')
    requires configText == "starting_step = 40.5\n" + rest
    ensures ParseConfig(defaults, toF64, configText) == Ok((defaults.(startingStep := v), rest))
  {
    assert rest == [] || (!IsSpaceOrTab(rest[0]) &&
                          rest[0] != 's' && rest[0] != 'a' && rest[0] != 'l' && rest[0] != 'b' && rest[0] != 'p');
    OneConfigLine(defaults, toF64, v, rest);
  }

  /** The two section headers of that definition. */
  lemma ConfiguredHeaders(input: seq<char>, configText: seq<char>, rulesSection: seq<char>, rulesText: seq<char>)
    requires rulesText == [] || !IsSpaceOrTab(rulesText[0])
    requires rulesSection == "rules" + (":" + ("\n" + rulesText))
    requires configText == "starting_step = 40.5\n" + rulesSection
    requires input == "render" + (":" + ("\n" + configText))
    ensures SectionHeader("render", input) == Ok(((), configText))
    ensures SkipSpaces(configText).value.1 == configText
    ensures SectionHeader("rules", rulesSection) == Ok(((), rulesText))
    ensures SkipSpaces(rulesText).value.1 == rulesText
    ensures rulesSection != [] && rulesSection[0] == 'r'
  {
    assert rulesSection[0] == 'r';
    assert configText == [] || !IsSpaceOrTab(configText[0]);
    assert "render" != [] && !IsSpaceOrTab("render"[0]);
    assert "rules" != [] && !IsSpaceOrTab("rules"[0]);
    NoSpaceAhead(configText);
    NoSpaceAhead(rulesText);
    HeaderAhead("render", configText);
    HeaderAhead("rules", rulesText);
  }

  /** A whole definition, one configuration line and two rule lines: the
      two rules in order with the starting step set, all of the text used.
      The text is written line by line. */
  lemma ConfiguredDefinition(defaults: RendererConfig, toF64: seq<char> -> Option<F64>, v: F64)
    requires toF64("40.5") == Some(v)
    ensures LSystemParser(defaults, toF64, "render:\n" + ("starting_step = 40.5\n" + ("rules:\n" + ("A => BCD\n" + "B=>AAA\n")))) ==
            Ok((LSystem(FromRules([Rule('A', "BCD"), Rule('B', "AAA")]), defaults.(startingStep := v)), []))
  {
    var rulesText := "A => BCD\n" + "B=>AAA\n";
    assert rulesText == [] || !IsSpaceOrTab(rulesText[0]);
    assert [Rule('A', "BCD"), Rule('B', "AAA")] == [Rule('A', "BCD")] + ([Rule('B', "AAA")] + []);
    NoSpaceAhead([]);
    TwoRules();
    ConfiguredSection(defaults, toF64, v, rulesText);
  }

  /** `rules_parser` over the two rule lines. */
  lemma TwoRules()
    ensures RulesParser("A => BCD\n" + "B=>AAA\n") ==
            Ok((FromRules([Rule('A', "BCD")] + ([Rule('B', "AAA")] + [])), []))
  {
    var rulesText := "A => BCD\n" + "B=>AAA\n";
    var rules := [Rule('A', "BCD")] + ([Rule('B', "AAA")] + []);
    assert Blank([]);
    TwoRuleRun();
    BlankNotRule([]);
    RuleParserConsumes();
    RepeatOfRun(1, RuleParser, rulesText, rules, []);
    RulesOfRun(rulesText, rules, []);
  }

  /** The run of `rule_parser` over the two rule lines. */
  lemma TwoRuleRun()
    ensures Runs(RuleParser, "A => BCD\n" + "B=>AAA\n", [Rule('A', "BCD")] + ([Rule('B', "AAA")] + []), [])
  {
    var next := "B=>AAA\n";
    assert next == [] || !IsSpaceOrTab(next[0]);
    RunBAAA();
    PrependABCD(next, [Rule('B', "AAA")] + [], []);
  }

  /** The line `B=>AAA` alone as a run. */
  lemma RunBAAA()
    ensures Runs(RuleParser, "B=>AAA\n", [Rule('B', "AAA")] + [], [])
  {
    assert "B=>AAA\n" + [] == "B=>AAA\n";
    LineBAAA([]);
    RunsCons(RuleParser, "B=>AAA\n", Rule('B', "AAA"), [], [], []);
  }

  /** The line `A => BCD` in front of a run extends it. */
  lemma PrependABCD(next: seq<char>, rules: seq<Rule<char>>, rest: seq<char>)
    requires next == [] || !IsSpaceOrTab(next[0])
    requires Runs(RuleParser, next, rules, rest)
    ensures Runs(RuleParser, "A => BCD\n" + next, [Rule('A', "BCD")] + rules, rest)
  {
    LineABCD(next);
    RunsCons(RuleParser, "A => BCD\n" + next, Rule('A', "BCD"), next, rules, rest);
  }

  /** The same definition with a blank line before `rules:` is rejected:
      the configuration stops at the blank line and `rules` is not there. */
  lemma BlankLineBeforeRules(defaults: RendererConfig, toF64: seq<char> -> Option<F64>, v: F64)
    requires toF64("40.5") == Some(v)
    ensures LSystemParser(defaults, toF64, "render:\n" + ("starting_step = 40.5\n" + ("\n" + ("rules:\n" + "A => BCD\n")))) ==
            Err(ExpectingString("rules"))
  {
    var afterConfig := "\n" + ("rules:\n" + "A => BCD\n");
    var configText := "starting_step = 40.5\n" + afterConfig;
    RenderHeaderText(configText);
    BlankLineSteps(defaults, toF64, v, "render" + (":" + ("\n" + configText)), configText, afterConfig);
  }

  /** The definition with the blank line, its texts named part by part. */
  lemma BlankLineSteps(defaults: RendererConfig, toF64: seq<char> -> Option<F64>, v: F64, input: seq<char>,
                       configText: seq<char>, afterConfig: seq<char>)
    requires toF64("40.5") == Some(v)
    requires afterConfig == "\n" + ("rules:\n" + "A => BCD\n")
    requires configText == "starting_step = 40.5\n" + afterConfig
    requires input == "render" + (":" + ("\n" + configText))
    ensures LSystemParser(defaults, toF64, input) == Err(ExpectingString("rules"))
  {
    BlankLineHeaders(input, configText, afterConfig);
    ConfigPart(defaults, toF64, v, configText, afterConfig);
    RulesHeaderMissing(defaults, toF64, input, configText, defaults.(startingStep := v), afterConfig);
  }

  /** The `render` header of that definition and the blank line where
      `rules` should be. */
  lemma BlankLineHeaders(input: seq<char>, configText: seq<char>, afterConfig: seq<char>)
    requires afterConfig == "\n" + ("rules:\n" + "A => BCD\n")
    requires configText == "starting_step = 40.5\n" + afterConfig
    requires input == "render" + (":" + ("\n" + configText))
    ensures SectionHeader("render", input) == Ok(((), configText))
    ensures SkipSpaces(configText).value.1 == configText
    ensures !("rules" <= SkipSpaces(afterConfig).value.1)
    ensures afterConfig != [] && afterConfig[0] == '\n'
  {
    assert afterConfig[0] == '\n';
    assert !("rules" <= afterConfig);
    assert configText == [] || !IsSpaceOrTab(configText[0]);
    assert "render" != [] && !IsSpaceOrTab("render"[0]);
    NoSpaceAhead(afterConfig);
    NoSpaceAhead(configText);
    HeaderAhead("render", configText);
  }

  /** After the configuration, text that does not start with `rules` after
      spaces and tabs fails the definition expecting `rules`. */
  lemma RulesHeaderMissing(defaults: RendererConfig, toF64: seq<char> -> Option<F64>, input: seq<char>,
                           afterRender: seq<char>, config: RendererConfig, afterConfig: seq<char>)
    requires SectionHeader("render", input) == Ok(((), afterRender))
    requires ParseConfig(defaults, toF64, SkipSpaces(afterRender).value.1) == Ok((config, afterConfig))
    requires !("rules" <= SkipSpaces(afterConfig).value.1)
    ensures LSystemParser(defaults, toF64, input) == Err(ExpectingString("rules"))
  {
  }

  /** The definition is not required to end after its last rule line: text
      that is no rule line is left over and the parse still succeeds. */
  lemma TrailingTextLeft(defaults: RendererConfig, toF64: seq<char> -> Option<F64>)
    ensures LSystemParser(defaults, toF64, "render:\nrules:\n" + ("A => BCD\n" + "xyz")) ==
            Ok((LSystem(FromRules([Rule('A', "BCD")]), defaults), "xyz"))
  {
    var rulesText := "A => BCD\n" + "xyz";
    assert rulesText == [] || !IsSpaceOrTab(rulesText[0]);
    NoSpaceAhead("xyz");
    OneRuleThenText();
    EmptyConfigSection(defaults, toF64, rulesText);
  }

  /** `rules_parser` over `A => BCD` and a last line without a line end: the
      one rule, and the last line left. */
  lemma OneRuleThenText()
    ensures RulesParser("A => BCD\n" + "xyz") == Ok((FromRules([Rule('A', "BCD")]), "xyz"))
  {
    var rulesText := "A => BCD\n" + "xyz";
    var rules := [Rule('A', "BCD")] + [];
    assert rules == [Rule('A', "BCD")];
    assert "xyz" == [] || !IsSpaceOrTab("xyz"[0]);
    assert forall i :: 0 <= i < |"xyz"| ==> "xyz"[i] != '\n' && "xyz"[i] != '\r';
    RunOfOneLine("xyz");
    NoLineEndNoRule("xyz");
    RuleParserConsumes();
    RulesOfOneRun(rulesText, Rule('A', "BCD"), "xyz");
  }

  /** The line `A => BCD` alone as a run of one rule. */
  lemma RunOfOneLine(rest: seq<char>)
    requires rest == [] || !IsSpaceOrTab(rest[0])
    ensures Runs(RuleParser, "A => BCD\n" + rest, [Rule('A', "BCD")] + [], rest)
  {
    LineABCD(rest);
    RunsCons(RuleParser, "A => BCD\n" + rest, Rule('A', "BCD"), rest, [], rest);
  }

  /** `rules_parser` over one rule line before text that is no rule line. */
  lemma RulesOfOneRun(input: seq<char>, rule: Rule<char>, rest: seq<char>)
    requires Consumes(RuleParser)
    requires Runs(RuleParser, input, [rule] + [], rest) && RuleParser(rest).Err?
    ensures RulesParser(input) == Ok((FromRules([rule]), rest))
  {
    assert [rule] + [] == [rule];
    RepeatOfRun(1, RuleParser, input, [rule], rest);
    RulesOfRun(input, [rule], rest);
  }
}
