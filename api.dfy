/** The api crate (api/src/lib.rs): the rule store and the bounded lazy
    production engine `SymbolIterator`, which expands a start symbol one
    structural event per call of `Next`, with an explicit stack of frames in
    place of recursive descent. */
module LSystemApi {
  import opened Wrappers

  datatype RendererInstruction<T> = Push | Pop | Render(symbol: T)

  datatype Rule<T> = Rule(matchInput: T, productions: seq<T>)

  /** The rule store: a map from symbol to production, total through the
      identity fallback of `Apply`.  `add` consumes the store and returns it,
      so it is modelled as a value update. */
  datatype LSystemRules<T(==,!new)> = LSystemRules(rules: map<T, seq<T>>) {

    /** `LSystemRules::new`. */
    static function New(): (r: LSystemRules<T>)
      ensures forall s :: r.Apply(s) == [s]
    {
      LSystemRules(map[])
    }

    /** `add`: the new production for `matchInput` replaces any earlier one;
        every other symbol is unaffected. */
    function Add(matchInput: T, productions: seq<T>): (r: LSystemRules<T>)
      ensures r.Apply(matchInput) == productions
      ensures forall s :: s != matchInput ==> r.Apply(s) == Apply(s)
    {
      LSystemRules(rules[matchInput := productions])
    }

    /** `add_rule`: `add` of the rule's two halves. */
    function AddRule(rule: Rule<T>): (r: LSystemRules<T>)
      ensures r.Apply(rule.matchInput) == rule.productions
      ensures forall s :: s != rule.matchInput ==> r.Apply(s) == Apply(s)
    {
      Add(rule.matchInput, rule.productions)
    }

    /** `apply`: the stored production, or the symbol on its own. */
    function Apply(symbol: T): (r: seq<T>)
      ensures symbol in rules ==> r == rules[symbol]
      ensures symbol !in rules ==> r == [symbol]
    {
      if symbol in rules then rules[symbol] else [symbol]
    }
  }

  /** `from_rules`: folds `add_rule` over the rules, left to right, from an
      empty store. */
  function FromRules<T(==,!new)>(rs: seq<Rule<T>>): (r: LSystemRules<T>)
    ensures rs != [] ==> r.Apply(rs[|rs| - 1].matchInput) == rs[|rs| - 1].productions
    decreases |rs|
  {
    if rs == [] then LSystemRules.New() else FromRules(rs[..|rs| - 1]).AddRule(rs[|rs| - 1])
  }

  /** Whether some rule of `rs` is for `symbol`. */
  predicate HasRuleFor<T(==,!new)>(rs: seq<Rule<T>>, symbol: T) {
    exists i :: 0 <= i < |rs| && rs[i].matchInput == symbol
  }

  /** The production of the last rule of `rs` for `symbol`. */
  function LastProduction<T(==,!new)>(rs: seq<Rule<T>>, symbol: T): seq<T>
    requires HasRuleFor(rs, symbol)
    decreases |rs|
  {
    if rs[|rs| - 1].matchInput == symbol then rs[|rs| - 1].productions
    else
      assert HasRuleFor(rs[..|rs| - 1], symbol) by {
        var i :| 0 <= i < |rs| && rs[i].matchInput == symbol;
        assert rs[..|rs| - 1][i] == rs[i];
      }
      LastProduction(rs[..|rs| - 1], symbol)
  }

  /** Last write wins: after `from_rules`, a symbol maps to the production of
      the last rule for it, and a symbol with no rule maps to itself. */
  lemma {:induction false} FromRulesApply<T(!new)>(rs: seq<Rule<T>>, symbol: T)
    ensures HasRuleFor(rs, symbol) ==> FromRules(rs).Apply(symbol) == LastProduction(rs, symbol)
    ensures !HasRuleFor(rs, symbol) ==> FromRules(rs).Apply(symbol) == [symbol]
    decreases |rs|
  {
    if rs != [] {
      var init := rs[..|rs| - 1];
      FromRulesApply(init, symbol);
      if rs[|rs| - 1].matchInput != symbol {
        if HasRuleFor(rs, symbol) {
          var i :| 0 <= i < |rs| && rs[i].matchInput == symbol;
          assert init[i] == rs[i];
        }
        if HasRuleFor(init, symbol) {
          var i :| 0 <= i < |init| && init[i].matchInput == symbol;
          assert rs[i] == init[i];
        }
      }
    }
  }

  /** Building from a list with one more rule at its end is adding that rule
      to the store built from the list; so one bulk `from_rules` and rule by
      rule insertion agree. */
  lemma {:induction false} FromRulesAppendRule<T(!new)>(rs: seq<Rule<T>>, rule: Rule<T>)
    ensures FromRules(rs + [rule]) == FromRules(rs).AddRule(rule)
  {
    assert (rs + [rule])[..|rs + [rule]| - 1] == rs;
  }

  /** The `for` loop of `from_rules`, reassigning `system`. */
  method BuildFromRules<T(==,!new)>(rs: seq<Rule<T>>) returns (system: LSystemRules<T>)
    ensures system == FromRules(rs)
  {
    system := LSystemRules.New();
    for i := 0 to |rs|
      invariant system == FromRules(rs[..i])
    {
      assert rs[..i + 1] == rs[..i] + [rs[i]];
      FromRulesAppendRule(rs[..i], rs[i]);
      system := system.AddRule(rs[i]);
    }
    assert rs[..|rs|] == rs;
  }

  // ---------------------------------------------------------------------
  // Reference semantics: recursive descent

  /** The event stream of one symbol taken from the top frame while the
      stack holds `height` frames: below the bound its production is pushed
      and expanded one level deeper, at the bound it is rendered as it is. */
  function Expand<T(==,!new)>(rules: LSystemRules<T>, maxDepth: nat, symbol: T, height: nat): seq<RendererInstruction<T>>
    decreases if height < maxDepth then maxDepth - height else 0, 0
  {
    if height < maxDepth then [Push] + ExpandAll(rules, maxDepth, rules.Apply(symbol), height + 1) + [Pop]
    else [Render(symbol)]
  }

  /** The event streams of a frame's symbols, one after the other. */
  function ExpandAll<T(==,!new)>(rules: LSystemRules<T>, maxDepth: nat, symbols: seq<T>, height: nat): seq<RendererInstruction<T>>
    decreases if height < maxDepth then maxDepth - height else 0, |symbols|
  {
    if symbols == [] then [] else Expand(rules, maxDepth, symbols[0], height) + ExpandAll(rules, maxDepth, symbols[1..], height)
  }

  /** The whole stream of a fresh iterator: the frame `[start]` is pushed,
      expanded at height 1, and popped. */
  function Stream<T(==,!new)>(rules: LSystemRules<T>, maxDepth: nat, start: T): seq<RendererInstruction<T>> {
    [Push] + ExpandAll(rules, maxDepth, [start], 1) + [Pop]
  }

  /** What an explicit stack of frames (bottom first) still has to emit: the
      top frame's symbols at the current height, its `Pop`, then the frames
      below. */
  function Pending<T(==,!new)>(rules: LSystemRules<T>, maxDepth: nat, stack: seq<seq<T>>): seq<RendererInstruction<T>>
    decreases |stack|
  {
    if stack == [] then []
    else ExpandAll(rules, maxDepth, stack[|stack| - 1], |stack|) + [Pop] + Pending(rules, maxDepth, stack[..|stack| - 1])
  }

  function Pushes<T>(events: seq<RendererInstruction<T>>): nat
    decreases |events|
  {
    if events == [] then 0 else Pushes(events[..|events| - 1]) + (if events[|events| - 1].Push? then 1 else 0)
  }

  function Pops<T>(events: seq<RendererInstruction<T>>): nat
    decreases |events|
  {
    if events == [] then 0 else Pops(events[..|events| - 1]) + (if events[|events| - 1].Pop? then 1 else 0)
  }

  lemma {:induction false} CountsAppend<T>(a: seq<RendererInstruction<T>>, b: seq<RendererInstruction<T>>)
    ensures Pushes(a + b) == Pushes(a) + Pushes(b)
    ensures Pops(a + b) == Pops(a) + Pops(b)
    decreases |b|
  {
    if b == [] {
      assert a + b == a;
    } else {
      var b' := b[..|b| - 1];
      CountsAppend(a, b');
      assert (a + b)[..|a + b| - 1] == a + b';
    }
  }

  /** Every symbol's expansion is bracket balanced. */
  lemma {:induction false} ExpandBalanced<T(!new)>(rules: LSystemRules<T>, maxDepth: nat, symbol: T, height: nat)
    ensures Pushes(Expand(rules, maxDepth, symbol, height)) == Pops(Expand(rules, maxDepth, symbol, height))
    decreases if height < maxDepth then maxDepth - height else 0, 0
  {
    if height < maxDepth {
      var inner := ExpandAll(rules, maxDepth, rules.Apply(symbol), height + 1);
      ExpandAllBalanced(rules, maxDepth, rules.Apply(symbol), height + 1);
      CountsAppend([Push], inner);
      CountsAppend([Push] + inner, [Pop]);
      assert Pushes<T>([Push]) == 1 && Pops<T>([Push]) == 0;
      assert Pushes<T>([Pop]) == 0 && Pops<T>([Pop]) == 1;
    } else {
      assert Pushes<T>([Render(symbol)]) == 0 && Pops<T>([Render(symbol)]) == 0;
    }
  }

  lemma {:induction false} ExpandAllBalanced<T(!new)>(rules: LSystemRules<T>, maxDepth: nat, symbols: seq<T>, height: nat)
    ensures Pushes(ExpandAll(rules, maxDepth, symbols, height)) == Pops(ExpandAll(rules, maxDepth, symbols, height))
    decreases if height < maxDepth then maxDepth - height else 0, |symbols|
  {
    if symbols != [] {
      ExpandBalanced(rules, maxDepth, symbols[0], height);
      ExpandAllBalanced(rules, maxDepth, symbols[1..], height);
      CountsAppend(Expand(rules, maxDepth, symbols[0], height), ExpandAll(rules, maxDepth, symbols[1..], height));
    }
  }

  /** Bracket balance: the whole stream has as many `Pop`s as `Push`es. */
  lemma StreamBalanced<T(!new)>(rules: LSystemRules<T>, maxDepth: nat, start: T)
    ensures Pushes(Stream(rules, maxDepth, start)) == Pops(Stream(rules, maxDepth, start))
  {
    var inner := ExpandAll(rules, maxDepth, [start], 1);
    ExpandAllBalanced(rules, maxDepth, [start], 1);
    CountsAppend([Push], inner);
    CountsAppend([Push] + inner, [Pop]);
    assert Pushes<T>([Push]) == 1 && Pops<T>([Push]) == 0;
    assert Pushes<T>([Pop]) == 0 && Pops<T>([Pop]) == 1;
  }

  /** One step of the explicit stack against recursive descent: popping an
      exhausted frame emits `Pop`; a symbol below the bound emits `Push` and
      becomes a frame of its production; a symbol at the bound is rendered. */
  lemma PendingStep<T(!new)>(rules: LSystemRules<T>, maxDepth: nat, stack: seq<seq<T>>)
    requires stack != []
    ensures var h := |stack|; var top := stack[h - 1]; var below := stack[..h - 1];
      && (top == [] ==> Pending(rules, maxDepth, stack) == [Pop] + Pending(rules, maxDepth, below))
      && (top != [] && h < maxDepth ==>
            Pending(rules, maxDepth, stack) ==
            [Push] + Pending(rules, maxDepth, below + [top[1..]] + [rules.Apply(top[0])]))
      && (top != [] && h >= maxDepth ==>
            Pending(rules, maxDepth, stack) == [Render(top[0])] + Pending(rules, maxDepth, below + [top[1..]]))
  {
    var h := |stack|;
    var top := stack[h - 1];
    var below := stack[..h - 1];
    if top == [] {
      PopStep(rules, maxDepth, stack, below);
    } else if h < maxDepth {
      PushStep(rules, maxDepth, stack, below + [top[1..]], below + [top[1..]] + [rules.Apply(top[0])], top[0]);
    } else {
      RenderStep(rules, maxDepth, stack, below + [top[1..]], top[0]);
    }
  }

  /** A frame on top of `below` produces its symbols' events at height
      `|below| + 1`, then its `Pop`, then what `below` produces. */
  lemma PendingOnTop<T(!new)>(rules: LSystemRules<T>, maxDepth: nat, below: seq<seq<T>>, frame: seq<T>)
    ensures Pending(rules, maxDepth, below + [frame]) ==
      ExpandAll(rules, maxDepth, frame, |below| + 1) + [Pop] + Pending(rules, maxDepth, below)
  {
    var stack := below + [frame];
    assert stack[..|stack| - 1] == below && stack[|stack| - 1] == frame;
  }

  lemma PushRegroup<T>(inner: seq<RendererInstruction<T>>, later: seq<RendererInstruction<T>>,
                       below: seq<RendererInstruction<T>>)
    ensures ([Push] + inner + [Pop] + later) + [Pop] + below == [Push] + (inner + [Pop] + (later + [Pop] + below))
  {
  }

  /** Popping an exhausted top frame: `Pop`, then what the frames below
      still have to produce. */
  lemma PopStep<T(!new)>(rules: LSystemRules<T>, maxDepth: nat, before: seq<seq<T>>, after: seq<seq<T>>)
    requires before != [] && before[|before| - 1] == [] && after == before[..|before| - 1]
    ensures Pending(rules, maxDepth, before) == [Pop] + Pending(rules, maxDepth, after)
  {
    assert ExpandAll(rules, maxDepth, before[|before| - 1], |before|) == [];
  }

  /** Taking the top frame's next symbol below the bound: `Push`, then what
      the stack with the symbol's production on top still has to produce. */
  lemma PushStep<T(!new)>(rules: LSystemRules<T>, maxDepth: nat, before: seq<seq<T>>, popped: seq<seq<T>>,
                          after: seq<seq<T>>, symbol: T)
    requires before != [] && before[|before| - 1] != [] && symbol == before[|before| - 1][0]
    requires popped == before[..|before| - 1] + [before[|before| - 1][1..]]
    requires |before| < maxDepth && after == popped + [rules.Apply(symbol)]
    ensures Pending(rules, maxDepth, before) == [Push] + Pending(rules, maxDepth, after)
  {
    var h := |before|;
    var top := before[h - 1];
    var below := before[..h - 1];
    assert before == below + [top];
    PendingOnTop(rules, maxDepth, below, top);
    PendingOnTop(rules, maxDepth, below, top[1..]);
    PendingOnTop(rules, maxDepth, popped, rules.Apply(symbol));
    var inner := ExpandAll(rules, maxDepth, rules.Apply(symbol), h + 1);
    var later := ExpandAll(rules, maxDepth, top[1..], h);
    assert Expand(rules, maxDepth, symbol, h) == [Push] + inner + [Pop];
    assert ExpandAll(rules, maxDepth, top, h) == [Push] + inner + [Pop] + later;
    PushRegroup(inner, later, Pending(rules, maxDepth, below));
  }

  /** Taking the top frame's next symbol at the bound: `Render(symbol)`, then
      what the rest of the stack still has to produce. */
  lemma RenderStep<T(!new)>(rules: LSystemRules<T>, maxDepth: nat, before: seq<seq<T>>, after: seq<seq<T>>, symbol: T)
    requires before != [] && before[|before| - 1] != [] && symbol == before[|before| - 1][0]
    requires after == before[..|before| - 1] + [before[|before| - 1][1..]]
    requires |before| >= maxDepth
    ensures Pending(rules, maxDepth, before) == [Render(symbol)] + Pending(rules, maxDepth, after)
  {
    var h := |before|;
    var top := before[h - 1];
    var below := before[..h - 1];
    assert before == below + [top];
    assert after == below + [top[1..]];
    PendingOnTop(rules, maxDepth, below, top);
    PendingOnTop(rules, maxDepth, below, top[1..]);
    var later := ExpandAll(rules, maxDepth, top[1..], h);
    assert Expand(rules, maxDepth, symbol, h) == [Render(symbol)];
    assert ExpandAll(rules, maxDepth, top, h) == [Render(symbol)] + later;
    RenderRegroup(Render(symbol), later, Pending(rules, maxDepth, below));
  }

  lemma RenderRegroup<T>(event: RendererInstruction<T>, later: seq<RendererInstruction<T>>,
                         below: seq<RendererInstruction<T>>)
    ensures ([event] + later) + [Pop] + below == [event] + (later + [Pop] + below)
  {
  }

  /** Bookkeeping of one returned event: the history grows by the event, the
      remaining stream shrinks by it, and the stack height follows it. */
  lemma EmitOne<T>(emitted: seq<RendererInstruction<T>>, event: RendererInstruction<T>,
                   out: seq<RendererInstruction<T>>, out': seq<RendererInstruction<T>>,
                   height: nat, height': nat, stream: seq<RendererInstruction<T>>)
    requires out == [event] + out' && emitted + out == stream
    requires Pushes(emitted) == Pops(emitted) + height
    requires height' == if event.Push? then height + 1 else if event.Pop? then height - 1 else height
    ensures (emitted + [event]) + out' == stream
    ensures Pushes(emitted + [event]) == Pops(emitted + [event]) + height'
  {
    assert (emitted + [event]) + out' == emitted + out;
    assert (emitted + [event])[..|emitted|] == emitted;
  }

  /** Bookkeeping of one pulled event: what was returned and what is still
      to come still make up the whole stream. */
  lemma TakeOne<T>(events: seq<RendererInstruction<T>>, event: RendererInstruction<T>,
                   before: seq<RendererInstruction<T>>, after: seq<RendererInstruction<T>>,
                   all: seq<RendererInstruction<T>>)
    requires events + before == all && before == [event] + after
    ensures (events + [event]) + after == all
  {
    assert (events + [event]) + after == events + before;
  }

  /** When the pulls stop, either `n` events were returned or nothing is left:
      the events are the first `min(n, |all|)` of the stream. */
  lemma TakePrefix<T>(events: seq<RendererInstruction<T>>, rest: seq<RendererInstruction<T>>,
                      all: seq<RendererInstruction<T>>, n: nat)
    requires events + rest == all && |events| <= n
    requires |events| < n ==> rest == []
    ensures events == all[..if n < |all| then n else |all|]
    ensures rest == all[|events|..]
  {
    assert all[..|events|] == events;
  }

  /** A fresh iterator's first `Push` followed by its one frame `[start]`
      is the whole stream. */
  lemma StartOutput<T(!new)>(rules: LSystemRules<T>, maxDepth: nat, start: T)
    ensures [Push] + Pending(rules, maxDepth, [] + [[start]]) == Stream(rules, maxDepth, start)
  {
    assert [] + [[start]] == [[start]];
    assert [[start]][..0] == [];
    assert Pending(rules, maxDepth, [[start]]) == ExpandAll(rules, maxDepth, [start], 1) + [Pop];
  }

  /** The stack height the engine never exceeds: the first frame is pushed
      whatever the bound, later ones only below it. */
  function DepthBound(maxDepth: nat): nat {
    if maxDepth == 0 then 1 else maxDepth
  }

  // ---------------------------------------------------------------------
  // The engine

  class SymbolIterator<T(==,!new)> {
    var initial: Option<T>
    /** The frames, bottom first; each holds the symbols its cursor has not
        yet produced. */
    var stack: seq<seq<T>>
    const rules: LSystemRules<T>
    const maxDepth: nat

    ghost const start: T
    /** Every event the iterator returns, in order: `Stream(rules, maxDepth, start)`. */
    ghost const total: seq<RendererInstruction<T>>
    /** The events returned so far. */
    ghost var emitted: seq<RendererInstruction<T>>
    /** The events still to be returned. */
    ghost var coming: seq<RendererInstruction<T>>

    /** The events the iterator has still to return. */
    ghost function Output(): seq<RendererInstruction<T>>
      reads this
    {
      if initial.Some? then [Push] + Pending(rules, maxDepth, stack + [[initial.value]])
      else Pending(rules, maxDepth, stack)
    }

    ghost predicate Valid()
      reads this
    {
      && |stack| <= DepthBound(maxDepth)
      && (initial.Some? ==> initial.value == start && stack == [] && emitted == [])
      && Pushes(emitted) == Pops(emitted) + |stack|
      && coming == Output()
      && emitted + coming == total
    }

    /** `LSystemRules::symbol_iterator(max_stack_depth, start_symbol)`. */
    constructor (rules: LSystemRules<T>, maxDepth: nat, start: T)
      ensures Valid()
      ensures this.rules == rules && this.maxDepth == maxDepth && this.start == start
      ensures initial == Some(start) && stack == [] && emitted == []
      ensures total == Stream(rules, maxDepth, start) && coming == total
    {
      this.rules := rules;
      this.maxDepth := maxDepth;
      this.start := start;
      initial := Some(start);
      stack := [];
      emitted := [];
      StartOutput(rules, maxDepth, start);
      total := Stream(rules, maxDepth, start);
      coming := total;
    }

    /** `pop_symbol`: the next symbol of the top frame; an exhausted top frame
        is popped instead, and yields `None`. */
    method PopSymbol() returns (symbol: Option<T>)
      modifies this`stack
      ensures old(stack) == [] ==> symbol.None? && stack == []
      ensures old(stack) != [] && old(stack)[|old(stack)| - 1] == [] ==>
        symbol.None? && stack == old(stack)[..|old(stack)| - 1]
      ensures old(stack) != [] && old(stack)[|old(stack)| - 1] != [] ==>
        var top := old(stack)[|old(stack)| - 1];
        symbol == Some(top[0]) && stack == old(stack)[..|old(stack)| - 1] + [top[1..]]
    {
      if stack != [] && stack[|stack| - 1] != [] {
        var top := stack[|stack| - 1];
        symbol := Some(top[0]);
        stack := stack[..|stack| - 1] + [top[1..]];
      } else {
        symbol := None;
        if stack != [] {
          stack := stack[..|stack| - 1];
        }
      }
    }

    /** The first `next`: the start symbol becomes the first frame, and
        `Push` is returned. */
    method PushStart()
      requires Valid() && initial.Some?
      modifies this
      ensures Valid()
      ensures old(coming) != [] && old(coming)[0] == Push && coming == old(coming)[1..]
      ensures emitted == old(emitted) + [Push]
      ensures initial.None? && stack == [[old(initial).value]]
    {
      ghost var out := Output();
      var s := initial.value;
      initial := None;
      stack := stack + [[s]];
      EmitOne(emitted, Push, out, Output(), 0, 1, total);
      emitted := emitted + [Push];
      coming := Output();
    }

    /** Every later `next` on a non-empty stack: an exhausted top frame is
        popped and gives `Pop`; otherwise the top frame's next symbol is
        pushed as a frame of its production while the stack is below the
        bound, and rendered once it is at the bound. */
    method Advance() returns (event: RendererInstruction<T>)
      requires Valid() && initial.None? && stack != []
      modifies this
      ensures Valid()
      ensures old(coming) != [] && event == old(coming)[0] && coming == old(coming)[1..]
      ensures emitted == old(emitted) + [event]
      ensures event == Push ==> |old(stack)| < maxDepth
      ensures event.Render? ==> |stack| >= maxDepth
      ensures event == Pop ==> old(stack)[|old(stack)| - 1] == []
    {
      ghost var out := Output();
      ghost var before := stack;
      var symbol := PopSymbol();
      if symbol.Some? {
        if |stack| < maxDepth {
          ghost var popped := stack;
          var production := rules.Apply(symbol.value);
          stack := stack + [production];
          event := Push;
          PushStep(rules, maxDepth, before, popped, stack, symbol.value);
        } else {
          event := Render(symbol.value);
          RenderStep(rules, maxDepth, before, stack, symbol.value);
        }
      } else {
        event := Pop;
        PopStep(rules, maxDepth, before, stack);
      }
      EmitOne(emitted, event, out, Output(), |before|, |stack|, total);
      emitted := emitted + [event];
      coming := Output();
    }

    /** `next`: one structural event, or `None` once the stack is empty.
        The event is the head of what was still to come, so the iterator
        returns exactly `Stream(rules, maxDepth, start)`, then `None` for
        ever; the stack stays within `DepthBound(maxDepth)` and the events
        returned so far have `|stack|` more `Push`es than `Pop`s. */
    method Next() returns (event: Option<RendererInstruction<T>>)
      requires Valid()
      modifies this
      ensures Valid()
      ensures old(coming) == [] ==> event.None? && coming == []
      ensures old(coming) != [] ==> event == Some(old(coming)[0]) && coming == old(coming)[1..]
      ensures event.Some? ==> emitted == old(emitted) + [event.value]
      ensures event.None? ==> emitted == old(emitted)
      ensures event == Some(Push) && old(initial).None? ==> |old(stack)| < maxDepth
      ensures event.Some? && event.value.Render? ==> |stack| >= maxDepth
      ensures event == Some(Pop) ==> old(stack)[|old(stack)| - 1] == []
    {
      if initial.Some? {
        PushStart();
        return Some(Push);
      }
      if stack == [] {
        return None;
      }
      var e := Advance();
      event := Some(e);
    }

    /** `take(n).collect()`: at most `n` events, stopping early at the end of
        the stream. */
    method Take(n: nat) returns (events: seq<RendererInstruction<T>>)
      requires Valid()
      modifies this
      ensures Valid()
      ensures events == old(coming)[..if n < |old(coming)| then n else |old(coming)|]
      ensures coming == old(coming)[|events|..]
    {
      ghost var all := coming;
      events := [];
      var i := 0;
      while i < n
        invariant Valid()
        invariant i == |events| <= n
        invariant events + coming == all
      {
        ghost var before := coming;
        var event := Next();
        if event.None? {
          break;
        }
        TakeOne(events, event.value, before, coming, all);
        events := events + [event.value];
        i := i + 1;
      }
      TakePrefix(events, coming, all, n);
    }

    /** Pulling until `None`: the loop ends because every event shortens what
        is still to come, and it returns the whole remaining stream. */
    method Collect() returns (events: seq<RendererInstruction<T>>)
      requires Valid()
      modifies this
      ensures Valid()
      ensures events == old(coming) && coming == []
      ensures initial.None? && stack == []
    {
      ghost var all := coming;
      events := [];
      while true
        invariant Valid()
        invariant events + coming == all
        decreases |coming|
      {
        ghost var before := coming;
        var event := Next();
        if event.None? {
          break;
        }
        TakeOne(events, event.value, before, coming, all);
        events := events + [event.value];
      }
      assert events + [] == events;
      EmptyOutput(this);
    }
  }

  /** Nothing is left to come exactly when the start frame has been pushed
      and every frame popped again. */
  lemma EmptyOutput<T(!new)>(it: SymbolIterator<T>)
    ensures it.Output() == [] <==> it.initial.None? && it.stack == []
  {
    if it.initial.None? && it.stack != [] {
      var s := it.stack;
      assert Pending(it.rules, it.maxDepth, s)[|ExpandAll(it.rules, it.maxDepth, s[|s| - 1], |s|)|] == Pop;
    }
  }

  // ---------------------------------------------------------------------
  // The rule system of the crate's own test

  function ExampleRules(): LSystemRules<char> {
    LSystemRules.New().Add('a', ['b', 'c']).Add('b', ['c']).Add('c', ['a', 'b', 'c'])
  }

  function ExampleStream(): seq<RendererInstruction<char>> {
    [Push, Push, Push, Render('b'), Render('c'), Pop, Push, Render('c'), Pop,
     Push, Render('a'), Render('b'), Render('c'), Pop, Pop, Pop]
  }

  /** Rules `a -> bc`, `b -> c`, `c -> abc`, bound 3, start `c`: the sixteen
      events of the test. */
  lemma ExampleExpansion()
    ensures Stream(ExampleRules(), 3, 'c') == ExampleStream()
  {
    var r := ExampleRules();
    assert r.Apply('a') == ['b', 'c'] && r.Apply('b') == ['c'] && r.Apply('c') == ['a', 'b', 'c'];
    assert ExpandAll(r, 3, ['b', 'c'], 3) == [Render('b'), Render('c')];
    assert ExpandAll(r, 3, ['c'], 3) == [Render('c')];
    assert ExpandAll(r, 3, ['a', 'b', 'c'], 3) == [Render('a'), Render('b'), Render('c')];
    var ea := Expand(r, 3, 'a', 2);
    var eb := Expand(r, 3, 'b', 2);
    var ec := Expand(r, 3, 'c', 2);
    assert ea == [Push, Render('b'), Render('c'), Pop];
    assert eb == [Push, Render('c'), Pop];
    assert ec == [Push, Render('a'), Render('b'), Render('c'), Pop];
    assert ExpandAll(r, 3, ['a', 'b', 'c'], 2) == ea + eb + ec;
    assert ExpandAll(r, 3, ['c'], 1) == [Push] + (ea + eb + ec) + [Pop];
  }

  /** The test itself: `symbol_iterator(3, 'c').take(36).collect()` returns
      the sixteen events, and the iterator is then exhausted. */
  method ExampleTake() returns (events: seq<RendererInstruction<char>>, it: SymbolIterator<char>)
    ensures events == ExampleStream()
    ensures it.Valid() && it.coming == []
  {
    it := new SymbolIterator(ExampleRules(), 3, 'c');
    ExampleExpansion();
    events := it.Take(36);
  }
}
