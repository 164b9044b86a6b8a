/** The tokenizer of src/parse/tokenizer.js and the parser of
    src/parse/statement.js together: the tokens `nextToken` reads from a
    text, fed to `parse` (src/parse/parser.js), give the clauses of that
    text. */
module Pipeline {
  import opened Common
  import opened CharCodes
  import opened Whitespace
  import opened TokenTypes
  import opened LexSpec
  import opened LexFacts
  import opened Nodes
  import opened Parsing
  import opened ParseFacts

  /** `nextToken` at one of `( ) [ ] , &` reads that character as a token
      of the matching type, starting and ending where the character does. */
  lemma StructuralNext(input: seq<CodeUnit>, isIdentifierStart: int -> bool, st: TState)
    requires st.pos < |input| && IsStructural(input[st.pos])
    ensures NextTokenSpec(input, isIdentifierStart, st)
         == Ok(TState(st.pos + 1, Some(st.pos), Some(st.pos + 1), Some(StructuralType(input[st.pos])), Undefined))
  {
    SkipSpaceStopsAtOnce(input, st.pos);
    StructuralTokenAdvancesOne(input, isIdentifierStart, st.(start := Some(st.pos)));
  }

  /** `nextToken` at a lone digit, followed by one of `( ) [ ] , &` or by
      the end of the text, reads the number that digit stands for. */
  lemma DigitNext(input: seq<CodeUnit>, isIdentifierStart: int -> bool, st: TState)
    requires st.pos < |input| && IsDigit(input[st.pos])
    requires st.pos + 1 == |input| || IsStructural(input[st.pos + 1])
    ensures NextTokenSpec(input, isIdentifierStart, st)
         == Ok(TState(st.pos + 1, Some(st.pos), Some(st.pos + 1), Some(Num), NumValue((input[st.pos] - digit0) as real)))
  {
    var p := st.pos;
    SkipSpaceStopsAtOnce(input, p);
    var st1 := st.(start := Some(p));
    RadixOfPrefixLetters(CharCodeAt(input, p + 1));
    DigitDispatch(input, isIdentifierStart, st1);
    assert RunEnd(input, p + 1, 10) == p + 1;
    assert RunEnd(input, p, 10) == p + 1;
    ReadNumberInteger(input, p);
    assert input[p..p + 1] == [input[p]];
    assert DigitValues(input[p..p + 1]) == [input[p] - digit0];
    assert PositionalValue([input[p] - digit0], 10) == input[p] - digit0;
  }

  /** The text `[1,5)`. */
  const HALF_OPEN: seq<CodeUnit> := [leftSquareBracket, digit1, comma, digit5, rightParenthesis]

  /** Its one clause: from 1 inclusive to 5 exclusive. */
  const HALF_OPEN_CLAUSE: Clause := Clause(true, Value(NumValue(1.0)), Value(NumValue(5.0)), false)

  /** One `next()` on `[1,5)`, as a function of the tokenizer's state. */
  function HalfOpenStep(isIdentifierStart: int -> bool): (step: TState -> Result<TState>)
    ensures forall st :: step(st) == NextTokenAnywhere(HALF_OPEN, isIdentifierStart, st)
  {
    st => NextTokenAnywhere(HALF_OPEN, isIdentifierStart, st)
  }

  /** The states `nextToken` goes through on `[1,5)`: its five characters
      are five tokens, then `eof`. */
  const HALF_OPEN_STATES: seq<TState> :=
    [TState(1, Some(0), Some(1), Some(BracketL), Undefined),
     TState(2, Some(1), Some(2), Some(Num), NumValue(1.0)),
     TState(3, Some(2), Some(3), Some(Comma), Undefined),
     TState(4, Some(3), Some(4), Some(Num), NumValue(5.0)),
     TState(5, Some(4), Some(5), Some(ParenR), Undefined),
     TState(5, Some(5), Some(5), Some(Eof), Undefined)]

  /** The state before `HALF_OPEN_STATES[i]`. */
  function HalfOpenBefore(i: nat): TState
    requires i < |HALF_OPEN_STATES|
  {
    if i == 0 then INITIAL else HALF_OPEN_STATES[i - 1]
  }

  /** The punctuation tokens: `[`, `,` and `)`. */
  lemma HalfOpenPunctuation(isIdentifierStart: int -> bool, i: nat)
    requires i in {0, 2, 4}
    ensures NextTokenSpec(HALF_OPEN, isIdentifierStart, HalfOpenBefore(i)) == Ok(HALF_OPEN_STATES[i])
  {
    StructuralNext(HALF_OPEN, isIdentifierStart, HalfOpenBefore(i));
  }

  /** The two bounds, then `eof` at the end. */
  lemma HalfOpenNumbersAndEnd(isIdentifierStart: int -> bool, i: nat)
    requires i in {1, 3, 5}
    ensures NextTokenSpec(HALF_OPEN, isIdentifierStart, HalfOpenBefore(i)) == Ok(HALF_OPEN_STATES[i])
  {
    if i == 5 {
      NextTokenAtEnd(HALF_OPEN, isIdentifierStart, HalfOpenBefore(i));
    } else {
      DigitNext(HALF_OPEN, isIdentifierStart, HalfOpenBefore(i));
    }
  }

  lemma HalfOpenChain(isIdentifierStart: int -> bool)
    ensures HalfOpenStep(isIdentifierStart)(INITIAL) == Ok(HALF_OPEN_STATES[0])
    ensures Chain(HalfOpenStep(isIdentifierStart), HALF_OPEN_STATES)
  {
    var step := HalfOpenStep(isIdentifierStart);
    HalfOpenPunctuation(isIdentifierStart, 0);
    forall i | 0 <= i < |HALF_OPEN_STATES| - 1
      ensures step(HALF_OPEN_STATES[i]) == Ok(HALF_OPEN_STATES[i + 1])
    {
      assert HalfOpenBefore(i + 1) == HALF_OPEN_STATES[i];
      if i % 2 == 0 {
        HalfOpenNumbersAndEnd(isIdentifierStart, i + 1);
      } else {
        HalfOpenPunctuation(isIdentifierStart, i + 1);
      }
    }
  }

  /** Those states spell the tokens of the clause from 1 inclusive to 5 exclusive. */
  lemma HalfOpenSpelled()
    ensures Spells(HALF_OPEN_STATES, ProgramToks([HALF_OPEN_CLAUSE]))
  {
    assert ProgramToks([HALF_OPEN_CLAUSE])
        == [Tok(BracketL, Undefined), Tok(Num, NumValue(1.0)), Tok(Comma, Undefined),
            Tok(Num, NumValue(5.0)), Tok(ParenR, Undefined), Tok(Eof, Undefined)];
  }

  /** `parse` on `[1,5)` gives the one clause from 1 inclusive to 5
      exclusive, and stops at the `eof` token at the end of the text. */
  lemma HalfOpenParses(isIdentifierStart: int -> bool, fuel: nat)
    requires fuel >= 1
    ensures ParseSpec(HalfOpenStep(isIdentifierStart), INITIAL, fuel)
         == Ok(([HALF_OPEN_CLAUSE], TState(5, Some(5), Some(5), Some(Eof), Undefined)))
  {
    HalfOpenChain(isIdentifierStart);
    HalfOpenSpelled();
    ParseRoundTrip(HalfOpenStep(isIdentifierStart), INITIAL, HALF_OPEN_STATES, [HALF_OPEN_CLAUSE], fuel);
  }
}
