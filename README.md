# L-system prototype: a verified model

This project models the core of an L-system prototype written in Rust. A
text file declares render settings and symbol rewrite rules. A small
parser-combinator library reads that file. A rule store maps each symbol to
its production, and a lazy engine expands a start symbol into a
depth-bounded, bracket-balanced stream of `Push`, `Pop` and `Render(symbol)`
events.

The Dafny modules follow the source files:

- `Wrappers` (`wrappers.dfy`): `Option` and `Result`, standing in for Rust's
  types of the same names.
- `Combinator` (`combinator.dfy`) models `parser/src/combinator.rs`. A parser
  is a total function from the remaining input to a value and a remainder,
  or to a `ParseError`. The module holds the primitives (`character`, `any`,
  `literal`, `skip_spaces`, `eof`) and the combinators (`optional`, `map`,
  `flat_map`, `recognize`, `one_of`, `complete`, `at_least`/`many` and the
  two sequencing macros). The loops of `AtLeast::parse` and `one_of` are
  methods, each proved equal to its function.
- `Grammar` (`grammar.dfy`) models `parser/src/lib.rs`. It covers the
  character classes, `non_ws_char`, `parse_symbol`, `skip_all_ws`, `newline`,
  `rule_parser`, `rules_parser`, `decimal`, `config_value`, `config_item`,
  `parse_config` (a method for its `for` loop) and `l_system_parser`.
- `GrammarAcceptance` (`acceptance.dfy`) states what the grammar of
  `parser/src/lib.rs` accepts and yields. It covers rule lines of any
  indentation and spacing, configuration lines, the tests' rule texts, and
  whole definitions, both accepted and rejected. Texts of several lines are
  written as the concatenation of their lines, for example
  `"render:\n" + ("starting_step = 40.5\n" + ("rules:\n" + "A => BCD\n"))`.
  Each line stays literal and the whole is the same string.
- `LSystemApi` (`api.dfy`) models `api/src/lib.rs`. It covers the rule store
  `LSystemRules` and the engine `SymbolIterator`. The engine is a class with
  the source's fields `initial` and `stack` and a `Next` method. `Next` is
  proved against a recursive-descent reference, `Stream`. As a result the
  iterator emits exactly `Stream(rules, maxDepth, start)` and then stops.
  The stack never grows beyond the bound. The events emitted so far contain
  as many more `Push`es than `Pop`s as the stack is high.
- `SystemRules` (`rewriting.dfy`) models `src/system/mod.rs`. It covers the
  flat substitution table `Rules` and its one-round `apply`.
- `LegacyParser` (`legacy.dfy`) models `src/parser/combinator.rs`, the
  earlier `character` parser.

The model follows the code where the code and the format's intended design
differ:

- `l_system_parser` is not wrapped in `complete`. Text after the last rule
  line is left unparsed, not rejected. `Grammar.LSystemParser` returns it as
  the remainder (`GrammarAcceptance.TrailingTextLeft`).
- `parse_config` does not skip blank lines. After the last configuration
  line, only spaces and tabs may come before `rules`. A blank line there
  makes `literal("rules")` fail (`GrammarAcceptance.BlankLineBeforeRules`).
- Configuration values are not restricted to `<digits>.<digits>`.
  `config_value` trims the rest of the line and hands it to `FromStr`. The
  `decimal` parser exists but is never called, and it accepts exactly one
  digit, a dot and one digit (`Grammar.DecimalRejectsTwoDigits`).
- `skip_all_ws` skips Unicode white space (`char::is_whitespace`), while
  `skip_spaces` skips only spaces and tabs.
- The first `Push` of the engine happens whatever the bound. With a bound of
  0 the stack still reaches height 1, so the height bound is
  `DepthBound(maxDepth)`, which is `max(1, maxDepth)`.

## Model

| member | source | states |
|---|---|---|
| `Combinator.Character` | parser/src/combinator.rs:66-73 | succeeds exactly when the input starts with `c`, returning `c` and the input minus one char; otherwise fails with `ExpectingCharacter(c)`; every success consumes input |
| `Combinator.Any` | parser/src/combinator.rs:147-163 | `EndOfInput` on empty input, `ExpectingPredicate` when the predicate rejects the first char, otherwise that char and the rest |
| `Combinator.Literal` | parser/src/combinator.rs:242-254 | succeeds exactly when `s` is a prefix of the input, returning `s` and the input after it; otherwise `ExpectingString(s)` |
| `Combinator.SkipSpaces` | parser/src/combinator.rs:260-263 | never fails and leaves a suffix of the input |
| `Combinator.SkipSpacesSpan` | parser/src/combinator.rs:260-263 | what is skipped is all spaces and tabs, and what is left does not start with one |
| `Combinator.SkipSpacesOver` | parser/src/combinator.rs:260-263 | a run of spaces and tabs followed by another character is skipped entirely |
| `Combinator.Eof` | parser/src/combinator.rs:265-271 | succeeds exactly on the empty input; otherwise `ExpectingEOF` |
| `Combinator.Optional` | parser/src/combinator.rs:25-31 | never fails: `None` with the input unchanged when the inner parser fails, `Some(v)` with its remainder when it succeeds |
| `Combinator.Map` | parser/src/combinator.rs:183-188 | succeeds exactly when the inner parser does, with the value transformed and the same remainder; errors pass through |
| `Combinator.FlatMap` | parser/src/combinator.rs:190-196 | succeeds exactly when the parser and then the conversion succeed; the first error of the two is the result |
| `Combinator.Recognize` | parser/src/combinator.rs:198-205 | the value is the consumed prefix of length `|input| - |rem|`, with `matched + rem == input`; errors pass through |
| `Combinator.FirstSuccess` | parser/src/combinator.rs:218-228 | the result is the first option, in list order, that succeeds on the original input; `ExpectingOneOfToParse` exactly when all fail |
| `Combinator.OneOf` | parser/src/combinator.rs:218-228 | succeeds exactly when some option does, with the first success unchanged; otherwise `ExpectingOneOfToParse`, also for an empty list |
| `Combinator.RunOneOf` | parser/src/combinator.rs:218-228 | the early-return loop of `one_of` computes `OneOf(options)(input)` |
| `Combinator.Complete` | parser/src/combinator.rs:273-279 | succeeds exactly when the inner parser succeeds with an empty remainder; a non-empty remainder gives `ExpectingEOF` |
| `Combinator.Repeat` | parser/src/combinator.rs:97-130 | on success at least `n` values, produced by running the parser in order, and the parser fails on the remainder (greedy); `n == 0` never fails |
| `Combinator.AtLeast` | parser/src/combinator.rs:93-95 | every success is a run of at least `n` values after which the parser fails; well formed, and consuming when `n > 0` |
| `Combinator.Many` | parser/src/combinator.rs:76-78 | never fails; its result is a run of the parser up to its first failure |
| `Combinator.RepeatOfRun` | parser/src/combinator.rs:97-130 | given the maximal run from the input, `at_least(n, p)` returns exactly that run when it has at least `n` values, and otherwise the error that stopped it |
| `Combinator.RepeatError` | parser/src/combinator.rs:102-115 | a failure of `at_least` comes from one of the first `n` attempts, with that attempt's error |
| `Combinator.RepeatAny` | parser/src/combinator.rs:97-163 | repeating `any(pred)` takes the longest prefix satisfying `pred`, or fails with `EndOfInput`/`ExpectingPredicate` when it is shorter than `n` |
| `Combinator.RepeatCharacter` | parser/src/combinator.rs:97-130 | repeating `character(c)` takes the run of `c`s at the front, or fails with `ExpectingCharacter(c)` when it is shorter than `n` |
| `Combinator.RunAtLeast` | parser/src/combinator.rs:98-130 | the `while` loop and the greedy `loop` of `AtLeast::parse` compute `AtLeast(n, p)(input)` |
| `Combinator.RepetitionTests` | parser/src/combinator.rs:363-419 | on `"AAABCD"`, `many` and `at_least(2, _)` of `character('A')` give `['A','A','A']` and `"BCD"`, mapping to length gives 3, and `one_of([character('B'), character('A')])` gives `'A'` and `"AABCD"` |
| `Combinator.PrimitiveTests` | parser/src/combinator.rs:315-394 | `literal("foo")` consumes all of `"foo"`; `any` with a predicate accepting `A` gives `('A', "AABCD")` on `"AAABCD"` |
| `Combinator.Sequence` | parser/src/combinator.rs:281-293 | the sequence succeeds exactly when both elements succeed in turn on the advancing remainder; the first failure is the result |
| `Combinator.SequenceTest` | parser/src/combinator.rs:337-348 | `character('A')` then `character('b')` on `"Ab"` gives `('A','b')` with nothing left |
| `Combinator.SequenceIgnoreSpacesTest` | parser/src/combinator.rs:295-335 | the spaces-skipping sequence of `character('A')`, `literal("foo")`, `character('C')` on `" \t A foo\t C  \t "` gives `('A','C')` with nothing left |
| `Grammar.NonWsChar` | parser/src/lib.rs:128-135 | `EndOfInput` on empty input, `ExpectingPredicate` when the first char is not ASCII-graphic, otherwise exactly one char consumed |
| `Grammar.GraphicIsNotWhitespace` | parser/src/lib.rs:130 | an ASCII-graphic char is never white space, a space, a tab, CR or LF |
| `Grammar.ParseSymbol` | parser/src/lib.rs:137-143 | succeeds exactly when the first char after spaces and tabs is ASCII-graphic, returning it with the following spaces and tabs skipped |
| `Grammar.SkipAllWs` | parser/src/lib.rs:145-148 | never fails and leaves a suffix of the input |
| `Grammar.SkipAllWsSpan` | parser/src/lib.rs:145-148 | what is skipped is all white space, and what is left does not start with white space |
| `Grammar.Newline` | parser/src/lib.rs:150-156 | every accepted line end is consumed and leaves a suffix of the input |
| `Grammar.NewlineIsOneOf` | parser/src/lib.rs:150-156 | `map(one_of([literal("\n"), literal("\r\n"), literal("\r")]), _)` accepts exactly `"\n"`, `"\r\n"` or `"\r"` at the front, consuming 1, 2 or 1 chars, and fails with `ExpectingOneOfToParse` on anything else |
| `Grammar.RuleParser` | parser/src/lib.rs:158-168 | on success the rule's left side is one ASCII-graphic char, its production is non-empty and all ASCII-graphic, input was consumed, and the input holds a line end |
| `Grammar.NoSeparator` | parser/src/lib.rs:158-168 | when the symbol read after the leading white space is not followed by `=>` after spaces and tabs, the line fails with `ExpectingString("=>")`, however it is indented |
| `Grammar.MissingSeparator` | parser/src/lib.rs:158-172 | the line `"A BCD\n"` fails with `ExpectingString("=>")` under `rule_parser`, and so does `rules_parser` |
| `Grammar.RulesParser` | parser/src/lib.rs:170-172 | a success consumes input and leaves a suffix of it |
| `Grammar.RulesParserBehaviour` | parser/src/lib.rs:170-172 | fails with the first rule line's error when that line fails; otherwise yields `from_rules` of the greedy run of at least one rule, in order |
| `Grammar.Decimal` | parser/src/lib.rs:40-47 | a success leaves a suffix of the input |
| `Grammar.DecimalPattern` | parser/src/lib.rs:41-45 | a successful match leaves a suffix of the input |
| `Grammar.DecimalBehaviour` | parser/src/lib.rs:40-47 | accepts exactly one digit, `.`, one digit, three chars, and converts them; otherwise fails with the first mismatching element's error |
| `Grammar.DecimalRejectsTwoDigits` | parser/src/lib.rs:40-47 | `decimal` fails on `"40.5"` with `ExpectingString(".")` |
| `Grammar.TrimEndSpan` | parser/src/lib.rs:52 | trimming the end removes exactly a white-space suffix |
| `Grammar.TrimSpan` | parser/src/lib.rs:52 | the trimmed text is the input minus leading and trailing white space and neither starts nor ends with white space |
| `Grammar.RestOfLine` | parser/src/lib.rs:50 | `recognize(at_least(1, any(not a line end)))` returns the longest prefix without CR or LF and the rest; on an empty prefix it fails with `EndOfInput` or `ExpectingPredicate` |
| `Grammar.ConfigValue` | parser/src/lib.rs:49-59 | a successful value leaves a suffix of the input |
| `Grammar.ConfigValueBehaviour` | parser/src/lib.rs:49-59 | takes the whole rest of the line, never its line end; an empty rest fails with `EndOfInput` or `ExpectingPredicate`; otherwise the trimmed text is converted and a failed conversion is the `Custom` message |
| `Grammar.KeyAndEquals` | parser/src/lib.rs:74-78 | a successful key and `=` consume input and leave a suffix; what is matched is stated by `GrammarAcceptance.KeyLine`, `KeyMissing` and `EqualsMissing` |
| `Grammar.ConfigItemParser` | parser/src/lib.rs:74-83 | a successful configuration line consumes input and leaves a suffix; which item a line yields is stated by `GrammarAcceptance.ConfigLine` |
| `Grammar.ItemRejects` | parser/src/lib.rs:74-83 | a line whose first char after spaces and tabs differs from the key's first char is not that key's line |
| `Grammar.KeyRejects` | parser/src/lib.rs:74-78 | text whose first char after spaces and tabs differs from the key's first char fails the key and `=` |
| `Grammar.ItemAtRejects` | parser/src/lib.rs:101-110 | each of the eight configuration items rejects a line that begins with none of `s`, `a`, `l`, `b`, `p` after spaces and tabs |
| `Grammar.ConfigItemsReject` | parser/src/lib.rs:100-111 | a line that begins with none of `s`, `a`, `l`, `b`, `p` after spaces and tabs is rejected by all eight configuration items, and so by their `one_of` |
| `Grammar.ParseConfig` | parser/src/lib.rs:100-126 | never fails and leaves a suffix of the input |
| `Grammar.RunParseConfig` | parser/src/lib.rs:100-126 | `many(one_of(...))` followed by the `for` loop computes `ParseConfig` |
| `Grammar.ApplyItems` | parser/src/lib.rs:112-124 | after applying a non-empty list of items, the last item's key holds the last item's value |
| `Grammar.RunApplyItems` | parser/src/lib.rs:112-124 | the `for` loop that overwrites fields computes `ApplyItems(defaults, results)` |
| `Grammar.ApplyItemSetting` | parser/src/lib.rs:113-123 | each item overwrites its own field and leaves every other field unchanged |
| `Grammar.ApplyItemsSetting` | parser/src/lib.rs:112-124 | last write wins: every key holds its last item's value, and a key without items keeps the default |
| `Grammar.ConfigDefaults` | parser/src/lib.rs:100-126 | when no configuration line parses, the result is exactly the defaults and nothing is consumed |
| `Grammar.NoConfigLine` | parser/src/lib.rs:100-126 | a line that cannot start any of the eight keys ends the configuration with the defaults |
| `Grammar.SectionHeader` | parser/src/lib.rs:23-25 | a successful header (name, `:`, line end, each after spaces and tabs) consumes input and leaves a suffix |
| `Grammar.WithConfig` | parser/src/lib.rs:30-32 | succeeds exactly when the rule lines do, with the L-system of those rules and the configuration, and leaves what they leave |
| `Grammar.LSystemParser` | parser/src/lib.rs:21-34 | a successful definition consumes input and leaves a suffix |
| `Grammar.LSystemParserChain` | parser/src/lib.rs:21-34 | once `render`, `:`, newline, the configuration after spaces and tabs, `rules`, `:` and newline have parsed, the result is the rule lines' result, after spaces and tabs, paired with the configuration |
| `Grammar.MissingRenderHeader` | parser/src/lib.rs:21-34 | without `render` at the front the whole parse fails with `ExpectingString("render")`, whatever follows |
| `Grammar.EmptyConfigSection` | parser/src/lib.rs:21-34 | with an empty `render:` section the configuration is the default and the definition is whatever `rules_parser` yields |
| `Grammar.MalformedRuleRejected` | parser/src/lib.rs:21-34 | a definition whose rule line lacks `=>` fails with `ExpectingString("=>")`; no L-system is produced |
| `GrammarAcceptance.SkipBlank` | parser/src/lib.rs:158-160 | blank lines, spaces and tabs before a rule line are all dropped by the leading `skip_spaces`, `skip_all_ws` and `skip_spaces` |
| `GrammarAcceptance.NewlineOver` | parser/src/lib.rs:150-156 | `"\n"`, `"\r\n"` and a `"\r"` not followed by `"\n"` are each consumed whole by `newline`, and `skip_spaces` before them skips nothing |
| `GrammarAcceptance.SymbolRun` | parser/src/lib.rs:137-143 | over production symbols separated by spaces and tabs, repeated `parse_symbol` yields exactly the graphic characters in order and then fails at the line end |
| `GrammarAcceptance.RuleParserChain` | parser/src/lib.rs:158-168 | once the symbol, `=>`, at least one production symbol and the line end have parsed, the rule is that symbol and those symbols, with spaces and tabs after the line end skipped |
| `GrammarAcceptance.RuleLine` | parser/src/lib.rs:158-168 | every rule line (blank lines and spaces, a symbol, `=>` with spaces and tabs about it, production symbols, a line end) yields the rule from that symbol to the production's graphic characters in order, and stops after the spaces and tabs that follow the line end |
| `GrammarAcceptance.BlankNotRule` | parser/src/lib.rs:158-168 | text of white space only is no rule line: `EndOfInput` |
| `GrammarAcceptance.NoLineEndNoRule` | parser/src/lib.rs:158-168 | text without `'\n'` or `'\r'` never yields a rule |
| `GrammarAcceptance.OneRuleLine` | parser/src/lib.rs:158-168 | `"A => BCD\n"` yields the rule from `A` to `BCD` with nothing left |
| `GrammarAcceptance.ValidRulesAreParsed` | parser/src/lib.rs:198-218 | the test's four indented rule lines, blank lines between them, yield its four expected rules in order under `at_least(1, rule_parser)` and `rules_parser`, and leave the trailing blank text |
| `GrammarAcceptance.TwoRules` | parser/src/lib.rs:170-172 | `rules_parser` over `"A => BCD\n"` and `"B=>AAA\n"` gives `from_rules` of both rules in order, with nothing left |
| `GrammarAcceptance.KeyLine` | parser/src/lib.rs:74-78 | spaces and tabs, the key, spaces and tabs, `=`, spaces and tabs are matched and consumed, leaving the value's text |
| `GrammarAcceptance.KeyMissing` | parser/src/lib.rs:74-78 | without the key after spaces and tabs the line fails with `ExpectingString(name)` |
| `GrammarAcceptance.EqualsMissing` | parser/src/lib.rs:74-78 | a key not followed by `=` after spaces and tabs fails with `ExpectingString("=")` |
| `GrammarAcceptance.ConfigLine` | parser/src/lib.rs:49-83 | a line `name = value` with any spacing and any line end yields `make` of the trimmed value's conversion, and stops after the spaces and tabs that follow the line end; a value that does not convert fails with the `Custom` message |
| `GrammarAcceptance.StartingStepLine` | parser/src/lib.rs:102 | `"starting_step = 40.5\n"` yields `StartingStep(v)` where `v` is the conversion of `40.5` |
| `GrammarAcceptance.NoConfigItemAt` | parser/src/lib.rs:101-110 | text that begins with none of `s`, `a`, `l`, `b`, `p` is no configuration line |
| `GrammarAcceptance.ConfigOfItems` | parser/src/lib.rs:100-126 | `parse_config` applies the items of `many(one_of(...))` to the defaults and leaves its remainder |
| `GrammarAcceptance.OneConfigLine` | parser/src/lib.rs:100-126 | `parse_config` over one `starting_step = 40.5` line returns the defaults with the starting step set, and stops at the next line |
| `GrammarAcceptance.ConfiguredSection` | parser/src/lib.rs:21-34 | `render:`, one configuration line and `rules:` give the rule lines' result paired with the defaults with the starting step set |
| `GrammarAcceptance.ConfiguredDefinition` | parser/src/lib.rs:21-34 | the definition `render:`, `starting_step = 40.5`, `rules:`, `A => BCD`, `B=>AAA` yields both rules in order with the starting step set, and uses the whole text |
| `GrammarAcceptance.BlankLineBeforeRules` | parser/src/lib.rs:21-34 | the same definition with a blank line before `rules:` fails with `ExpectingString("rules")` |
| `GrammarAcceptance.TrailingTextLeft` | parser/src/lib.rs:21-34 | text after the last rule line that is no rule line is left over, and the definition still succeeds |
| `LSystemApi.LSystemRules.New` | api/src/lib.rs:31-35 | a fresh store maps every symbol to itself |
| `LSystemApi.LSystemRules.Add` | api/src/lib.rs:50-53 | after `add(k, p)`, `apply(k) == p` and `apply(j)` is unchanged for every `j != k` |
| `LSystemApi.LSystemRules.AddRule` | api/src/lib.rs:45-48 | `add_rule` has the effect of `add` on the rule's two halves |
| `LSystemApi.LSystemRules.Apply` | api/src/lib.rs:55-59 | total: the stored production for a key, `[s]` otherwise |
| `LSystemApi.FromRules` | api/src/lib.rs:37-43 | the store built from a non-empty list maps the last rule's symbol to its production |
| `LSystemApi.FromRulesApply` | api/src/lib.rs:37-43 | after `from_rules`, a symbol maps to the production of its last rule, and a symbol without a rule to itself |
| `LSystemApi.FromRulesAppendRule` | api/src/lib.rs:37-48 | building from a list plus one rule is adding that rule to the store built from the list |
| `LSystemApi.BuildFromRules` | api/src/lib.rs:37-43 | the `for` loop of `from_rules` computes the left fold `FromRules(rs)` |
| `LSystemApi.ExpandBalanced` | api/src/lib.rs:107-121 | the events of one symbol's expansion hold as many `Pop`s as `Push`es |
| `LSystemApi.ExpandAllBalanced` | api/src/lib.rs:107-121 | the events of a frame's expansion hold as many `Pop`s as `Push`es |
| `LSystemApi.StreamBalanced` | api/src/lib.rs:97-123 | the whole stream of an iterator holds as many `Pop`s as `Push`es |
| `LSystemApi.PendingOnTop` | api/src/lib.rs:81-90 | a frame on top of the stack yields its symbols' events at the stack's height, then `Pop`, then what the frames below yield |
| `LSystemApi.PopStep` | api/src/lib.rs:81-90 | popping an exhausted top frame yields `Pop`, then what the frames below yield |
| `LSystemApi.PushStep` | api/src/lib.rs:108-113 | a symbol taken below the bound yields `Push`, then what the stack with its production on top yields |
| `LSystemApi.RenderStep` | api/src/lib.rs:114-117 | a symbol taken at the bound yields `Render(symbol)`, then what the rest of the stack yields |
| `LSystemApi.PendingStep` | api/src/lib.rs:104-121 | one step of the explicit stack agrees with recursive descent: an exhausted frame gives `Pop`, a symbol below the bound `Push` and a frame of its production, a symbol at the bound `Render(symbol)` |
| `LSystemApi.StartOutput` | api/src/lib.rs:99-102 | the first `Push` followed by the frame `[start]` is the whole stream |
| `LSystemApi.SymbolIterator.constructor` | api/src/lib.rs:61-68 | a fresh iterator has `initial = Some(start)` and an empty stack, and its coming events are `Stream(rules, maxDepth, start)` |
| `LSystemApi.SymbolIterator.PopSymbol` | api/src/lib.rs:81-90 | yields the top frame's next symbol and advances it; an exhausted top frame is popped and yields `None` |
| `LSystemApi.SymbolIterator.PushStart` | api/src/lib.rs:99-102 | the first pull takes the start symbol, pushes the frame `[start]` and emits `Push`, the head of the coming events |
| `LSystemApi.SymbolIterator.Advance` | api/src/lib.rs:104-121 | a pull on a non-empty stack emits the head of the coming events: `Push` only below the bound, `Render` only at it, `Pop` only for an exhausted frame |
| `LSystemApi.SymbolIterator.Next` | api/src/lib.rs:97-123 | emits the head of the coming events or `None` when none are left; keeps the depth bound and `Push`es minus `Pop`s equal to the stack height; `Push` only below the bound, `Render` only at it, `Pop` only for an exhausted frame |
| `LSystemApi.SymbolIterator.Take` | api/src/lib.rs:94-123 | `n` pulls return the first `min(n, remaining)` coming events |
| `LSystemApi.SymbolIterator.Collect` | api/src/lib.rs:94-123 | pulling until `None` terminates, returns every coming event and leaves the stack empty |
| `LSystemApi.EmptyOutput` | api/src/lib.rs:104-105 | nothing is left to emit exactly when the start frame was pushed and the stack is empty again |
| `LSystemApi.ExampleExpansion` | api/src/lib.rs:140-159 | rules `a->bc`, `b->c`, `c->abc`, bound 3, start `c` expand to the sixteen events of the test |
| `LSystemApi.ExampleTake` | api/src/lib.rs:140-159 | `symbol_iterator(3, 'c').take(36)` returns those sixteen events and the iterator is exhausted |
| `SystemRules.Rules.constructor` | src/system/mod.rs:21-23 | a fresh table has no substitution |
| `SystemRules.Rules.Get` | src/system/mod.rs:39-47 | the stored substitution when the variable is a key, `[v]` otherwise |
| `SystemRules.Rules.Insert` | src/system/mod.rs:25-27 | the new substitution replaces any earlier one for that variable; every other variable keeps its own |
| `SystemRules.Rules.Apply` | src/system/mod.rs:29-37 | the fold with its inner push loop computes `Rewrite(substitutions, word)` |
| `SystemRules.RewriteAppend` | src/system/mod.rs:29-37 | `apply(u + v) == apply(u) + apply(v)` |
| `SystemRules.RewriteIsConcatenation` | src/system/mod.rs:29-37 | `apply(w)` is the in-order concatenation of `get(x)` for each `x` in `w` |
| `SystemRules.RewriteSingle` | src/system/mod.rs:29-47 | a one-variable word rewrites to that variable's substitution |
| `SystemRules.RewriteIdentity` | src/system/mod.rs:21-47 | with an empty table `apply` is the identity on every word |
| `SystemRules.FreshRulesApply` | src/system/mod.rs:21-37 | `Rules::new()` followed by `apply` returns the word unchanged |
| `SystemRules.ExampleRounds` | src/system/mod.rs:25-37 | with `a->bc`, `b->c`, `c->abc`, one round turns `c` into `abc` and `abc` into `bccabc` |
| `LegacyParser.Character.Parse` | src/parser/combinator.rs:28-36 | succeeds exactly when the input starts with the character, returning it and the rest; otherwise, empty input included, `ExpectingCharacter(c)` |
| `LegacyParser.CharacterParser` | src/parser/combinator.rs:24-36 | `character(c)` builds a parser that agrees with the combinator crate's `character(c)` on every input: the same successes, value and remainder, and `ExpectingCharacter(c)` where both fail |
| `LegacyParser.ParseACharacter` | src/parser/combinator.rs:42-51 | `character('A')` on `"ABCD"` gives `('A', "BCD")` |

## Left out

- File I/O and error mapping are not modelled: `parse` and `to_parse_error` (parser/src/lib.rs:11-19, 36-38). The model starts from the text.
- `float_config_item` and `string_config_item` (parser/src/lib.rs:85-98) are not modelled. Nothing calls them.
- `str::parse::<f64>` is the parameter `toF64`. An `f64` is kept as its bit pattern (`F64`), with no arithmetic.
- `String::from_str` never fails, so it is the function `Text`.
- `RendererConfig::default()` is the parameter `defaults`. Its values are not defined in the modelled files.
- `RendererConfig` and `LSystem` are imported from the api crate, but their definitions are not in api/src/lib.rs. They are modelled from their use in parser/src/lib.rs.
- Slices are sequences of `char`, one per position. Rust's byte slicing `&input[1..]` after a multi-byte character (non-ASCII input) would panic; that is not modelled.
- `Combinator.Repeat`: requires a consuming parser (every success shortens the input). The source's loop never ends for a parser that succeeds without consuming. The same requirement holds for `Combinator.AtLeast`, `Combinator.Many`, `Combinator.RunAtLeast` and the lemmas about them.
- `Combinator.Recognize`: requires a well-formed parser (its remainder is a suffix of its input). That is what `input.len() - rem.len()` presumes.
- The count `n` of `at_least` is a `u8` in the source and a `nat` here. The values used (0, 1 and 2) are far below 256.
- The `parse_sequence!` and `parse_sequence_ignore_spaces!` macros are variadic. `Combinator.Sequence` is the two-element `parse_sequence!`, and each other use of a macro is written out as the chain of steps it expands to.
- The Rust test `valid_rules_are_parsed` (parser/src/lib.rs:198-218) calls a `parse_rules` that is not defined in the file. Its expectation is stated of `rules_parser` instead (`GrammarAcceptance.ValidRulesAreParsed`).
- The test `valid_renderer_config_is_parsed` (parser/src/lib.rs:183-196) asserts nothing and is not modelled.
- The `Renderer` trait (api/src/lib.rs:126-132) and every renderer are external consumers of the event stream and are not modelled.
- The lifetime of the borrowed rule store in `SymbolIterator` is not modelled. The store is a constant field, which matches its read-only use.
- An iteration count for repeated `apply` rounds is not modelled. `src/main.rs` calls a `generation` that is not defined in the shown files.
