/** The flat rewriting rules of the prototype binary (src/system/mod.rs): a
    table of substitutions, one per variable, and one global rewriting round
    that replaces every variable of a word by its substitution. */
module SystemRules {

  /** `Variable`: one symbol of a word. */
  datatype Variable = Variable(symbol: char)

  /** `Word`: a sequence of variables. */
  type Word = seq<Variable>

  /** What a variable rewrites to under `substitutions`: its entry, or the
      variable on its own when it has none. */
  function Substitution(substitutions: map<Variable, Word>, variable: Variable): Word {
    if variable in substitutions then substitutions[variable] else [variable]
  }

  /** One rewriting round, as the left fold of `apply`: the word without its
      last variable is rewritten first, then the last variable's
      substitution is appended. */
  function Rewrite(substitutions: map<Variable, Word>, word: Word): Word
    decreases |word|
  {
    if word == [] then [] else Rewrite(substitutions, word[..|word| - 1]) + Substitution(substitutions, word[|word| - 1])
  }

  /** The same round read from the front: the first variable's substitution,
      then the rest of the word rewritten. */
  function RewriteFromFront(substitutions: map<Variable, Word>, word: Word): Word
    decreases |word|
  {
    if word == [] then [] else Substitution(substitutions, word[0]) + RewriteFromFront(substitutions, word[1..])
  }

  /** Rewriting distributes over concatenation: a round is a homomorphism
      of words. */
  lemma {:induction false} RewriteAppend(substitutions: map<Variable, Word>, u: Word, v: Word)
    ensures Rewrite(substitutions, u + v) == Rewrite(substitutions, u) + Rewrite(substitutions, v)
    decreases |v|
  {
    if v == [] {
      assert u + v == u;
    } else {
      var init := v[..|v| - 1];
      RewriteAppend(substitutions, u, init);
      assert (u + v)[..|u + v| - 1] == u + init;
      assert (u + v)[|u + v| - 1] == v[|v| - 1];
    }
  }

  /** The left fold and the reading from the front agree: `apply` is the
      in-order concatenation of the substitutions of the word's variables. */
  lemma {:induction false} RewriteIsConcatenation(substitutions: map<Variable, Word>, word: Word)
    ensures Rewrite(substitutions, word) == RewriteFromFront(substitutions, word)
    decreases |word|
  {
    if word != [] {
      RewriteIsConcatenation(substitutions, word[1..]);
      RewriteAppend(substitutions, [word[0]], word[1..]);
      assert [word[0]] + word[1..] == word;
      assert [word[0]][..0] == [];
    }
  }

  /** Without any substitution, a round changes nothing. */
  lemma {:induction false} RewriteIdentity(word: Word)
    ensures Rewrite(map[], word) == word
    decreases |word|
  {
    if word != [] {
      RewriteIdentity(word[..|word| - 1]);
      assert word[..|word| - 1] + [word[|word| - 1]] == word;
    }
  }

  /** A variable's substitution is what a round makes of the variable alone. */
  lemma RewriteSingle(substitutions: map<Variable, Word>, variable: Variable)
    ensures Rewrite(substitutions, [variable]) == Substitution(substitutions, variable)
  {
    assert [variable][..0] == [];
  }

  /** `Rules`: the substitution table, updated in place by `insert`. */
  class Rules {
    var substitutions: map<Variable, Word>

    /** `Rules::new`: an empty table. */
    constructor ()
      ensures substitutions == map[]
    {
      substitutions := map[];
    }

    /** `get`: the stored substitution, or `[variable]` when there is none. */
    function Get(variable: Variable): (w: Word)
      reads this
      ensures variable in substitutions ==> w == substitutions[variable]
      ensures variable !in substitutions ==> w == [variable]
    {
      Substitution(substitutions, variable)
    }

    /** `insert`: the new substitution for `variable` replaces any earlier
        one; every other variable keeps its own. */
    method Insert(variable: Variable, substitution: Word)
      modifies this
      ensures substitutions == old(substitutions)[variable := substitution]
      ensures Get(variable) == substitution
      ensures forall v :: v != variable ==> Get(v) == old(Get(v))
    {
      substitutions := substitutions[variable := substitution];
    }

    /** `apply`: the fold over the word, each substitution pushed onto the
        accumulator one variable at a time. */
    method Apply(word: Word) returns (result: Word)
      ensures result == Rewrite(substitutions, word)
    {
      result := [];
      for i := 0 to |word|
        invariant result == Rewrite(substitutions, word[..i])
      {
        var substitution := Get(word[i]);
        ghost var before := result;
        for j := 0 to |substitution|
          invariant result == before + substitution[..j]
        {
          result := result + [substitution[j]];
        }
        assert substitution[..|substitution|] == substitution;
        assert word[..i + 1][..i] == word[..i];
      }
      assert word[..|word|] == word;
    }
  }

  /** A fresh table leaves every word as it is. */
  method FreshRulesApply(word: Word) returns (result: Word)
    ensures result == word
  {
    var rules := new Rules();
    result := rules.Apply(word);
    RewriteIdentity(word);
  }

  /** The rules `a -> bc`, `b -> c`, `c -> abc`: one round turns `c` into
      `abc`, and `abc` into `bccabc`, which is also two rounds from `c`. */
  method ExampleRounds() returns (once: Word, twice: Word)
    ensures once == [Variable('a'), Variable('b'), Variable('c')]
    ensures twice == [Variable('b'), Variable('c'), Variable('c'), Variable('a'), Variable('b'), Variable('c')]
  {
    var a, b, c := Variable('a'), Variable('b'), Variable('c');
    var rules := new Rules();
    rules.Insert(a, [b, c]);
    rules.Insert(b, [c]);
    rules.Insert(c, [a, b, c]);
    once := rules.Apply([c]);
    RewriteSingle(rules.substitutions, c);
    twice := rules.Apply(once);
    RewriteIsConcatenation(rules.substitutions, once);
    var subs := rules.substitutions;
    assert once[1..] == [b, c] && once[1..][1..] == [c] && once[1..][1..][1..] == [];
    assert RewriteFromFront(subs, [c]) == Substitution(subs, c);
    assert RewriteFromFront(subs, [b, c]) == Substitution(subs, b) + Substitution(subs, c);
  }
}
