/** The first parser of the prototype binary (src/parser/combinator.rs): a
    single primitive, `character`, and an error type with three cases. */
module LegacyParser {
  import opened Wrappers
  import Combinator

  datatype ParseError = IO | ExpectingCharacter(expected: char) | GenericError

  /** `Character`: the parser that matches one fixed character. */
  datatype Character = Character(characterToMatch: char) {

    /** `Parser::parse` for `Character`: the character and the input after
        it when the input starts with it, `ExpectingCharacter` otherwise
        (the empty input included). */
    function Parse(input: seq<char>): (r: Result<(char, seq<char>), ParseError>)
      ensures r.Ok? <==> |input| > 0 && input[0] == characterToMatch
      ensures r.Ok? ==> r.value == (characterToMatch, input[1..]) && [r.value.0] + r.value.1 == input
      ensures r.Err? ==> r.error == ExpectingCharacter(characterToMatch)
    {
      if |input| > 0 && input[0] == characterToMatch then Ok((characterToMatch, input[1..]))
      else Err(ExpectingCharacter(characterToMatch))
    }
  }

  /** `character(c)`: the parser for `c`.  It agrees with the combinator
      crate's `character(c)` on every input: the same successes with the
      same value and remainder, and `ExpectingCharacter(c)` where both
      fail. */
  function CharacterParser(characterToMatch: char): (p: Character)
    ensures forall input :: p.Parse(input).Ok? <==> Combinator.Character(characterToMatch)(input).Ok?
    ensures forall input :: p.Parse(input).Ok? ==>
      p.Parse(input).value == Combinator.Character(characterToMatch)(input).value
    ensures forall input :: p.Parse(input).Err? ==>
      && p.Parse(input).error == ExpectingCharacter(characterToMatch)
      && Combinator.Character(characterToMatch)(input) == Err(Combinator.ExpectingCharacter(characterToMatch))
  {
    Character(characterToMatch)
  }

  /** The module's test: `character('A')` on `"ABCD"` gives `('A', "BCD")`. */
  lemma ParseACharacter()
    ensures CharacterParser('A').Parse("ABCD") == Ok(('A', "BCD"))
  {
  }
}
