/** What the scanning rules of src/parse/tokenizer.js add up to, stated on
    the specification functions of `LexSpec` (and so, through their
    contracts, on the methods of `Lexer.Tokenizer`). */
module LexFacts {
  import opened Common
  import opened CharCodes
  import opened Whitespace
  import opened TokenTypes
  import opened LexSpec

  // ---------------------------------------------------------------- getTokenFromCode

  /** Each of `( ) [ ] , &` is one token: `pos` moves by exactly one, the
      token ends there, its type is labelled with that very character, and its
      value is undefined. */
  lemma StructuralTokenAdvancesOne(input: seq<CodeUnit>, isIdentifierStart: int -> bool, st: TState)
    requires st.pos < |input| && IsStructural(input[st.pos])
    ensures CodePointAtPos(input, st.pos) == input[st.pos]
    ensures GetTokenFromCodeSpec(input, isIdentifierStart, st, input[st.pos])
            == Ok(st.(pos := st.pos + 1, end := Some(st.pos + 1),
                      tokType := Some(StructuralType(input[st.pos])), value := Undefined))
    ensures Label(StructuralType(input[st.pos])) == [input[st.pos] as char]
  {
  }

  /** Any other code that is not a digit leaves the whole state unchanged. */
  lemma OtherCodeChangesNothing(input: seq<CodeUnit>, isIdentifierStart: int -> bool, st: TState, code: int)
    requires st.pos < |input| && code == CodePointAtPos(input, st.pos)
    requires !IsStructural(code) && !IsDigit(code)
    ensures GetTokenFromCodeSpec(input, isIdentifierStart, st, code) == Ok(st)
  {
  }

  /** `0x`/`0X`, `0o`/`0O` and `0b`/`0B` select radix 16, 8 and 2; every other
      code after a `0` selects none. */
  lemma RadixOfPrefixLetters(code: int)
    ensures RadixOfPrefix(code) == 16 <==> code == 'x' as int || code == 'X' as int
    ensures RadixOfPrefix(code) == 8 <==> code == 'o' as int || code == 'O' as int
    ensures RadixOfPrefix(code) == 2 <==> code == 'b' as int || code == 'B' as int
    ensures RadixOfPrefix(code) in {0, 2, 8, 16}
  {
  }

  /** A `0` followed by a prefix letter is read by `readRadixNumber`; any other
      digit by `readNumber`. */
  lemma DigitDispatch(input: seq<CodeUnit>, isIdentifierStart: int -> bool, st: TState)
    requires st.pos < |input| && IsDigit(input[st.pos])
    ensures var radix := if input[st.pos] == digit0 then RadixOfPrefix(CharCodeAt(input, st.pos + 1)) else 0;
            GetTokenFromCodeSpec(input, isIdentifierStart, st, input[st.pos])
              == if radix != 0 then Finished(st, ReadRadixNumberSpec(input, isIdentifierStart, st.pos, radix))
                 else Finished(st, ReadNumberSpec(input, st.pos))
  {
  }

  // ---------------------------------------------------------------- nextToken

  /** At the end of the input `nextToken` finishes an `eof` token without
      moving `pos`. */
  lemma NextTokenAtEnd(input: seq<CodeUnit>, isIdentifierStart: int -> bool, st: TState)
    requires st.pos == |input|
    ensures NextTokenSpec(input, isIdentifierStart, st)
            == Ok(TState(|input|, Some(|input|), Some(|input|), Some(Eof), Undefined))
  {
  }

  /** Once at `eof`, every further `nextToken` gives the same state again. */
  lemma EofIsStable(input: seq<CodeUnit>, isIdentifierStart: int -> bool, st: TState)
    requires st == TState(|input|, Some(|input|), Some(|input|), Some(Eof), Undefined)
    ensures NextTokenSpec(input, isIdentifierStart, st) == Ok(st)
  {
    NextTokenAtEnd(input, isIdentifierStart, st);
  }

  /** A remainder made only of spaces and line terminators is skipped to its end. */
  lemma {:induction false} SkipRunOverSkippable(input: seq<CodeUnit>, pos: nat)
    requires pos <= |input|
    requires forall k :: pos <= k < |input| ==> IsSkippable(input[k])
    ensures SkipRunFrom(input, pos) == Stop(|input|)
    decreases |input| - pos
  {
    if pos < |input| {
      var ch := input[pos];
      assert ch != slash;
      if ch == carriageReturn && CharCodeAt(input, pos + 1) == lineFeed {
        SkipRunOverSkippable(input, pos + 2);
      } else {
        SkipRunOverSkippable(input, pos + 1);
      }
    }
  }

  /** So `nextToken` over such a remainder gives `eof` at the end of the input. */
  lemma NextTokenOverSkippable(input: seq<CodeUnit>, isIdentifierStart: int -> bool, st: TState)
    requires st.pos <= |input|
    requires forall k :: st.pos <= k < |input| ==> IsSkippable(input[k])
    ensures NextTokenSpec(input, isIdentifierStart, st)
            == Ok(TState(|input|, Some(st.pos), Some(|input|), Some(Eof), Undefined))
  {
    SkipRunOverSkippable(input, st.pos);
  }

  /** `skipSpace` succeeds at a position where it stops at once. */
  lemma SkipSpaceStopsAtOnce(input: seq<CodeUnit>, pos: nat)
    requires pos <= |input| && StopsAt(input, pos)
    ensures SkipSpaceSpec(input, pos) == Skipped(pos)
  {
    if pos < |input| {
      Whitespace.IsWhitespaceIsEcmaWhiteSpace(input[pos]);
    }
  }

  /** A block comment closed by a `*` `/` is skipped: the scan goes on just past
      the first `*` `/` at or after the opener's end. */
  lemma BlockCommentSkipped(input: seq<CodeUnit>, pos: nat)
    requires pos + 1 < |input| && input[pos] == slash && input[pos + 1] == asterisk
    requires IndexOf(input, CLOSE_COMMENT, pos + 2) != -1
    ensures var e := IndexOf(input, CLOSE_COMMENT, pos + 2);
            e + 2 <= |input| && input[e] == asterisk && input[e + 1] == slash
            && SkipRunFrom(input, pos) == SkipRunFrom(input, e + 2)
  {
    var e := IndexOf(input, CLOSE_COMMENT, pos + 2);
    assert input[e..e + 2] == CLOSE_COMMENT;
    assert input[e] == input[e..e + 2][0];
    assert input[e + 1] == input[e..e + 2][1];
  }

  /** An unterminated block comment does not fail: the scan restarts from the
      second code unit of the input. */
  lemma UnterminatedCommentRestarts(input: seq<CodeUnit>, pos: nat)
    requires pos + 1 < |input| && input[pos] == slash && input[pos + 1] == asterisk
    requires IndexOf(input, CLOSE_COMMENT, pos + 2) == -1
    requires SkipRunFrom(input, 1).Stop?
    ensures SkipSpaceSpec(input, pos) == Skipped(SkipRunFrom(input, 1).pos)
  {
  }

  // ---------------------------------------------------------------- readRadixNumber

  lemma {:induction false} RemoveUnitsKeeps(units: seq<CodeUnit>, drop: set<int>)
    requires forall k :: 0 <= k < |units| ==> units[k] !in drop
    ensures RemoveUnits(units, drop) == units
  {
    if units != [] {
      RemoveUnitsKeeps(units[1..], drop);
    }
  }

  lemma {:induction false} RemoveUnitsAppend(a: seq<CodeUnit>, b: seq<CodeUnit>, drop: set<int>)
    ensures RemoveUnits(a + b, drop) == RemoveUnits(a, drop) + RemoveUnits(b, drop)
  {
    if a != [] {
      assert (a + b)[1..] == a[1..] + b;
      RemoveUnitsAppend(a[1..], b, drop);
    } else {
      assert a + b == b;
    }
  }

  /** `readRadixNumber` fails when the prefix is followed by no digit, when
      the run of digits ends at an underscore, or when an `m` follows it. */
  lemma ReadRadixNumberFails(input: seq<CodeUnit>, isIdentifierStart: int -> bool, start: nat, radix: nat)
    requires start + 2 <= |input| && radix in {2, 8, 16}
    requires var e := RunEnd(input, start + 2, radix);
             e == start + 2 || CharCodeAt(input, e) == underscore || CharCodeAt(input, e) == lowercaseM
    ensures ReadRadixNumberSpec(input, isIdentifierStart, start, radix) == Err(LexError)
  {
    ReadIntValue(input, start + 2, radix);
  }

  /** Otherwise, without a suffix and unless an identifier starts right after
      the literal, it reads the positional value of the digits. */
  lemma ReadRadixNumberValue(input: seq<CodeUnit>, isIdentifierStart: int -> bool, start: nat, radix: nat)
    requires start + 2 <= |input| && radix in {2, 8, 16}
    requires var e := RunEnd(input, start + 2, radix);
             e > start + 2 && CharCodeAt(input, e) !in {underscore, lowercaseN, lowercaseM}
    ensures var e := RunEnd(input, start + 2, radix);
            ReadRadixNumberSpec(input, isIdentifierStart, start, radix)
              == if isIdentifierStart(CodePointAtPos(input, e)) then Err(LexError)
                 else Ok(Lexeme(Some(Num), NumValue(PositionalValue(DigitValues(input[start + 2..e]), radix) as real), e))
  {
    ReadIntValue(input, start + 2, radix);
  }

  /** The digits of a radix literal, and its prefix, are neither `_` nor `n`. */
  lemma RadixLiteralText(input: seq<CodeUnit>, start: nat, e: nat, radix: nat)
    requires start + 2 <= e < |input| && radix in {2, 8, 16} && input[e] == lowercaseN
    requires input[start] == digit0 && RadixOfPrefix(input[start + 1]) == radix
    requires forall k :: start + 2 <= k < e ==> IsRadixDigit(input[k], radix)
    ensures RemoveUnits(input[start..e + 1], {underscore, lowercaseN}) == input[start..e]
  {
    var drop := {underscore, lowercaseN};
    forall k | start <= k < e
      ensures input[k] !in drop
    {
      if k >= start + 2 {
        DigitValueIsStandard(input[k], radix);
      }
    }
    assert input[start..e + 1] == input[start..e] + [input[e]];
    RemoveUnitsAppend(input[start..e], [input[e]], drop);
    RemoveUnitsKeeps(input[start..e], drop);
    assert RemoveUnits([input[e]], drop) == [];
  }

  /** With an `n` suffix it reads a bigint whose text is the literal without the `n`. */
  lemma ReadRadixNumberBigInt(input: seq<CodeUnit>, isIdentifierStart: int -> bool, start: nat, radix: nat)
    requires start + 2 <= |input| && radix in {2, 8, 16}
    requires input[start] == digit0 && RadixOfPrefix(input[start + 1]) == radix
    requires var e := RunEnd(input, start + 2, radix);
             e > start + 2 && CharCodeAt(input, e) == lowercaseN
    ensures var e := RunEnd(input, start + 2, radix);
            ReadRadixNumberSpec(input, isIdentifierStart, start, radix)
              == if isIdentifierStart(CodePointAtPos(input, e + 1)) then Err(LexError)
                 else Ok(Lexeme(Some(BigInt), Text(input[start..e]), e + 1))
  {
    var e := RunEnd(input, start + 2, radix);
    ReadIntValue(input, start + 2, radix);
    BigIntFromRead(input, isIdentifierStart, start, radix, PositionalValue(DigitValues(input[start + 2..e]), radix), e);
    RadixLiteralText(input, start, e, radix);
  }

  /** The same, from the `readInt` result. */
  lemma BigIntFromRead(input: seq<CodeUnit>, isIdentifierStart: int -> bool, start: nat, radix: nat, total: nat, e: nat)
    requires start + 2 <= |input|
    requires ReadIntSpec(input, start + 2, radix, false) == IntRead(Some(total), e) && CharCodeAt(input, e) == lowercaseN
    ensures ReadRadixNumberSpec(input, isIdentifierStart, start, radix)
              == if isIdentifierStart(CodePointAtPos(input, e + 1)) then Err(LexError)
                 else Ok(Lexeme(Some(BigInt), Text(RemoveUnits(input[start..e + 1], {underscore, lowercaseN})), e + 1))
  {
  }

  // ---------------------------------------------------------------- readNumber

  /** An integer part of two or more digits that starts with `0` and has no 8
      or 9 is read in base eight, and no fraction or exponent after it is read:
      the token ends with the digits. */
  lemma ReadNumberOctal(input: seq<CodeUnit>, start: nat)
    requires start < |input| && input[start] == digit0
    requires var e := RunEnd(input, start, 10);
             e - start >= 2 && !HasEightOrNine(input[start..e])
             && CharCodeAt(input, e) !in {underscore, lowercaseN, lowercaseM}
    ensures var e := RunEnd(input, start, 10);
            ReadNumberSpec(input, start)
              == Ok(Lexeme(Some(Num), NumValue(PositionalValue(DigitValues(input[start..e]), 8) as real), e))
  {
    var e := RunEnd(input, start, 10);
    ReadIntValue(input, start, 10);
    HornerIsPositional(DigitValues(input[start..e]), 8);
  }

  /** A decimal integer with nothing after it that `readNumber` reads on is
      its positional value in base ten. */
  lemma ReadNumberInteger(input: seq<CodeUnit>, start: nat)
    requires start < |input| && IsDigit(input[start])
    requires var e := RunEnd(input, start, 10);
             !(input[start] == digit0 && e - start >= 2 && !HasEightOrNine(input[start..e]))
             && CharCodeAt(input, e) !in {underscore, dot, uppercaseE, lowercaseE, lowercaseN, lowercaseM}
    ensures var e := RunEnd(input, start, 10);
            ReadNumberSpec(input, start)
              == Ok(Lexeme(Some(Num), NumValue(PositionalValue(DigitValues(input[start..e]), 10) as real), e))
  {
    var e := RunEnd(input, start, 10);
    ReadIntValue(input, start, 10);
    assert IsRadixDigit(input[start], 10);
    var v := PositionalValue(DigitValues(input[start..e]), 10);
    assert ReadIntSpec(input, start, 10, false) == IntRead(Some(v), e);
    var parts := NumberParts(start, e, v, false, 0, 0, false, None);
    assert ReadNumberSpec(input, start) == NumberFraction(input, start, e, v, false);
    assert NumberFraction(input, start, e, v, false) == NumberExponent(input, parts, e);
    assert NumberExponent(input, parts, e) == Ok(NumberSuffix(input, parts, e));
    assert DecimalValue(v, 0, 0, false, None) == v as real;
  }

  /** Text of the form `int.frac`, with an integer part that is not octal
      (so `0.5` and `08.5` too) and any number of fraction digits (`1.` reads
      as 1), reads as `int + frac / 10^|frac|`. */
  lemma ReadNumberFraction(input: seq<CodeUnit>, start: nat, e1: nat, e2: nat)
    requires start < |input| && IsDigit(input[start])
    requires e1 == RunEnd(input, start, 10) && CharCodeAt(input, e1) == dot
    requires !(input[start] == digit0 && e1 - start >= 2 && !HasEightOrNine(input[start..e1]))
    requires e2 == RunEnd(input, e1 + 1, 10)
    requires CharCodeAt(input, e2) != underscore
    requires CharCodeAt(input, e2) != uppercaseE && CharCodeAt(input, e2) != lowercaseE
    requires CharCodeAt(input, e2) != lowercaseN && CharCodeAt(input, e2) != lowercaseM
    ensures ReadNumberSpec(input, start)
              == Ok(Lexeme(Some(Num), NumValue(PositionalValue(DigitValues(input[start..e1]), 10) as real
                                               + PositionalValue(DigitValues(input[e1 + 1..e2]), 10) as real
                                                 / Pow10(e2 - (e1 + 1))), e2))
  {
    assert IsRadixDigit(input[start], 10);
    ReadIntValue(input, start, 10);
    ReadIntValue(input, e1 + 1, 10);
    var f := PositionalValue(DigitValues(input[e1 + 1..e2]), 10);
    FractionDigits(input, e1, e2);
    FractionFromReads(input, start, PositionalValue(DigitValues(input[start..e1]), 10), e1,
                      if e2 == e1 + 1 then None else Some(f), f, e2);
  }

  /** The same, from the two `readInt` results. */
  lemma FractionFromReads(input: seq<CodeUnit>, start: nat, v: nat, e1: nat, read: Option<nat>, frac: nat, e2: nat)
    requires start < |input| && IsDigit(input[start])
    requires ReadIntSpec(input, start, 10, false) == IntRead(Some(v), e1)
    requires !(input[start] == digit0 && e1 - start >= 2 && !HasEightOrNine(input[start..e1]))
    requires CharCodeAt(input, e1) == dot && ReadIntSpec(input, e1 + 1, 10, false) == IntRead(read, e2)
    requires frac == if read.Some? then read.value else 0
    requires CharCodeAt(input, e2) != uppercaseE && CharCodeAt(input, e2) != lowercaseE
    requires CharCodeAt(input, e2) != lowercaseN && CharCodeAt(input, e2) != lowercaseM
    ensures ReadNumberSpec(input, start)
              == Ok(Lexeme(Some(Num), NumValue(v as real + frac as real / Pow10(e2 - (e1 + 1))), e2))
  {
    assert ReadNumberSpec(input, start) == NumberFraction(input, start, e1, v, false);
    NumberFractionReads(input, start, e1, v, read, e2);
    var parts := NumberParts(start, e1, v, false, frac, e2 - (e1 + 1), false, None);
    NumberExponentSkips(input, parts, e2);
    NumberSuffixNone(input, parts, e2);
  }

  /** Where the digits of an exponent start: after `e` or `E` and an optional sign. */
  function ExponentStart(input: seq<CodeUnit>, p: nat): nat {
    if CharCodeAt(input, p + 1) == plusSign || CharCodeAt(input, p + 1) == dash then p + 2 else p + 1
  }

  /** `e[+-]digits` with no suffix after it scales the scanned mantissa by ten
      to the power of the exponent, negated after `-`. */
  lemma ExponentFromReads(input: seq<CodeUnit>, parts: NumberParts, p2: nat, exp: nat, p3: nat)
    requires PartsFit(input, parts, p2) && !parts.isOctal
    requires CharCodeAt(input, p2) == uppercaseE || CharCodeAt(input, p2) == lowercaseE
    requires ExponentStart(input, p2) <= |input|
    requires ReadIntSpec(input, ExponentStart(input, p2), 10, false) == IntRead(Some(exp), p3)
    requires CharCodeAt(input, p3) != lowercaseN && CharCodeAt(input, p3) != lowercaseM
    ensures NumberExponent(input, parts, p2)
              == Ok(Lexeme(Some(Num), NumValue(DecimalValue(parts.intPart, parts.frac, parts.fracLen,
                                                            CharCodeAt(input, p2 + 1) == dash, Some(exp))), p3))
  {
    NumberExponentReads(input, parts, p2, ExponentStart(input, p2));
    NumberSuffixNone(input, parts.(negExp := CharCodeAt(input, p2 + 1) == dash, exp := Some(exp)), p3);
  }

  /** Text of the form `int e[+-]exp` (`1e3`, `5E-2`), with a non-octal integer
      part and digits in the exponent, reads as `int * 10^(+-exp)`. */
  lemma ReadNumberExponent(input: seq<CodeUnit>, start: nat, e1: nat, s: nat, e3: nat, v: nat, x: nat)
    requires start < |input| && IsDigit(input[start])
    requires e1 == RunEnd(input, start, 10)
    requires CharCodeAt(input, e1) == uppercaseE || CharCodeAt(input, e1) == lowercaseE
    requires !(input[start] == digit0 && e1 - start >= 2 && !HasEightOrNine(input[start..e1]))
    requires s == ExponentStart(input, e1) && s <= |input|
    requires e3 == RunEnd(input, s, 10) && e3 > s
    requires CharCodeAt(input, e3) != underscore && CharCodeAt(input, e3) != lowercaseN && CharCodeAt(input, e3) != lowercaseM
    requires v == PositionalValue(DigitValues(input[start..e1]), 10) && x == PositionalValue(DigitValues(input[s..e3]), 10)
    ensures ReadNumberSpec(input, start) == Ok(Lexeme(Some(Num), NumValue(v as real * Pow10(Signed(input, e1, x))), e3))
  {
    assert IsRadixDigit(input[start], 10);
    ReadIntValue(input, start, 10);
    ReadIntValue(input, s, 10);
    ExponentAfterInteger(input, start, v, e1, x, e3);
  }

  /** The exponent `exp` as written after `e` at `p`: negated after `-`. */
  function Signed(input: seq<CodeUnit>, p: nat, exp: nat): int {
    if CharCodeAt(input, p + 1) == dash then -(exp as int) else exp as int
  }

  /** The same, from the two `readInt` results. */
  lemma ExponentAfterInteger(input: seq<CodeUnit>, start: nat, v: nat, e1: nat, x: nat, e3: nat)
    requires start < |input| && IsDigit(input[start])
    requires ReadIntSpec(input, start, 10, false) == IntRead(Some(v), e1)
    requires CharCodeAt(input, e1) == uppercaseE || CharCodeAt(input, e1) == lowercaseE
    requires !(input[start] == digit0 && e1 - start >= 2 && !HasEightOrNine(input[start..e1]))
    requires ExponentStart(input, e1) <= |input|
    requires ReadIntSpec(input, ExponentStart(input, e1), 10, false) == IntRead(Some(x), e3)
    requires CharCodeAt(input, e3) != lowercaseN && CharCodeAt(input, e3) != lowercaseM
    ensures ReadNumberSpec(input, start) == Ok(Lexeme(Some(Num), NumValue(v as real * Pow10(Signed(input, e1, x))), e3))
  {
    var parts := NumberParts(start, e1, v, false, 0, 0, false, None);
    assert ReadNumberSpec(input, start) == NumberFraction(input, start, e1, v, false);
    assert NumberFraction(input, start, e1, v, false) == NumberExponent(input, parts, e1);
    ExponentFromReads(input, parts, e1, x, e3);
    DecimalScaled(input, e1, v, 0, 0, x);
    assert v as real + 0 as real / Pow10(0) == v as real;
  }

  /** No fraction digits are worth 0. */
  lemma FractionDigits(input: seq<CodeUnit>, e1: nat, e2: nat)
    requires e1 + 1 <= e2 <= |input|
    ensures e2 == e1 + 1 ==> PositionalValue(DigitValues(input[e1 + 1..e2]), 10) == 0
  {
    if e2 == e1 + 1 {
      assert input[e1 + 1..e2] == [];
    }
  }

  /** Text of the form `int.frac e[+-]exp` (`2.5e-1`, or `1.e5`) reads as the decimal
      value of its three digit runs, which `DecimalScaled` shows to be
      `(int + frac / 10^|frac|) * 10^(+-exp)`. */
  lemma ReadNumberFractionExponent(input: seq<CodeUnit>, start: nat, e1: nat, e2: nat, s: nat, e3: nat, v: nat, f: nat, x: nat)
    requires start < |input| && IsDigit(input[start])
    requires e1 == RunEnd(input, start, 10) && CharCodeAt(input, e1) == dot
    requires !(input[start] == digit0 && e1 - start >= 2 && !HasEightOrNine(input[start..e1]))
    requires e2 == RunEnd(input, e1 + 1, 10)
    requires CharCodeAt(input, e2) == uppercaseE || CharCodeAt(input, e2) == lowercaseE
    requires s == ExponentStart(input, e2) && s <= |input|
    requires e3 == RunEnd(input, s, 10) && e3 > s
    requires CharCodeAt(input, e3) != underscore && CharCodeAt(input, e3) != lowercaseN && CharCodeAt(input, e3) != lowercaseM
    requires v == PositionalValue(DigitValues(input[start..e1]), 10) && f == PositionalValue(DigitValues(input[e1 + 1..e2]), 10)
    requires x == PositionalValue(DigitValues(input[s..e3]), 10)
    ensures ReadNumberSpec(input, start)
              == Ok(Lexeme(Some(Num), NumValue(DecimalValue(v, f, e2 - (e1 + 1), CharCodeAt(input, e2 + 1) == dash, Some(x))), e3))
  {
    assert IsRadixDigit(input[start], 10);
    ReadIntValue(input, start, 10);
    ReadIntValue(input, e1 + 1, 10);
    ReadIntValue(input, s, 10);
    FractionDigits(input, e1, e2);
    ExponentAfterFraction(input, start, v, e1, if e2 == e1 + 1 then None else Some(f), f, e2, x, e3);
  }

  /** The decimal value of `int.frac e[+-]exp`, with the sign written after
      the `e` at `p`, is `(int + frac / 10^|frac|) * 10^(+-exp)`. */
  lemma DecimalScaled(input: seq<CodeUnit>, p: nat, intPart: nat, frac: nat, fracLen: nat, exp: nat)
    ensures DecimalValue(intPart, frac, fracLen, CharCodeAt(input, p + 1) == dash, Some(exp))
            == (intPart as real + frac as real / Pow10(fracLen)) * Pow10(Signed(input, p, exp))
  {
  }

  /** The same, from the three `readInt` results. */
  lemma ExponentAfterFraction(input: seq<CodeUnit>, start: nat, v: nat, e1: nat, read: Option<nat>, f: nat, e2: nat, x: nat, e3: nat)
    requires start < |input| && IsDigit(input[start])
    requires ReadIntSpec(input, start, 10, false) == IntRead(Some(v), e1)
    requires !(input[start] == digit0 && e1 - start >= 2 && !HasEightOrNine(input[start..e1]))
    requires CharCodeAt(input, e1) == dot && ReadIntSpec(input, e1 + 1, 10, false) == IntRead(read, e2)
    requires f == if read.Some? then read.value else 0
    requires CharCodeAt(input, e2) == uppercaseE || CharCodeAt(input, e2) == lowercaseE
    requires ExponentStart(input, e2) <= |input|
    requires ReadIntSpec(input, ExponentStart(input, e2), 10, false) == IntRead(Some(x), e3)
    requires CharCodeAt(input, e3) != lowercaseN && CharCodeAt(input, e3) != lowercaseM
    ensures ReadNumberSpec(input, start)
              == Ok(Lexeme(Some(Num), NumValue(DecimalValue(v, f, e2 - (e1 + 1), CharCodeAt(input, e2 + 1) == dash, Some(x))), e3))
  {
    var parts := NumberParts(start, e1, v, false, f, e2 - (e1 + 1), false, None);
    ExponentFromReads(input, parts, e2, x, e3);
    FractionThenExponent(input, start, v, e1, read, f, e2);
  }

  /** After a non-octal integer part and a fraction, `readNumber` goes on to the exponent. */
  lemma FractionThenExponent(input: seq<CodeUnit>, start: nat, v: nat, e1: nat, read: Option<nat>, f: nat, e2: nat)
    requires start < |input| && IsDigit(input[start])
    requires ReadIntSpec(input, start, 10, false) == IntRead(Some(v), e1)
    requires !(input[start] == digit0 && e1 - start >= 2 && !HasEightOrNine(input[start..e1]))
    requires CharCodeAt(input, e1) == dot && ReadIntSpec(input, e1 + 1, 10, false) == IntRead(read, e2)
    requires f == if read.Some? then read.value else 0
    ensures ReadNumberSpec(input, start) == NumberExponent(input, NumberParts(start, e1, v, false, f, e2 - (e1 + 1), false, None), e2)
  {
    assert ReadNumberSpec(input, start) == NumberFraction(input, start, e1, v, false);
    NumberFractionReads(input, start, e1, v, read, e2);
  }

  /** Decimal digits followed by `n` read as a bigint, and followed by `m` as a
      token of undefined type (the source has no `decimal` type); either way
      the token's text is the digits and it ends after the suffix. */
  lemma ReadNumberSuffixed(input: seq<CodeUnit>, start: nat, e1: nat)
    requires start < |input| && IsDigit(input[start])
    requires e1 == RunEnd(input, start, 10)
    requires CharCodeAt(input, e1) == lowercaseN || CharCodeAt(input, e1) == lowercaseM
    ensures ReadNumberSpec(input, start)
              == Ok(Lexeme(if CharCodeAt(input, e1) == lowercaseN then Some(BigInt) else None, Text(input[start..e1]), e1 + 1))
  {
    assert IsRadixDigit(input[start], 10);
    ReadIntValue(input, start, 10);
    SuffixAfterInteger(input, start, PositionalValue(DigitValues(input[start..e1]), 10), e1);
  }

  /** The same, from the `readInt` result. */
  lemma SuffixAfterInteger(input: seq<CodeUnit>, start: nat, v: nat, e1: nat)
    requires start < |input| && IsDigit(input[start])
    requires ReadIntSpec(input, start, 10, false) == IntRead(Some(v), e1)
    requires e1 == RunEnd(input, start, 10)
    requires CharCodeAt(input, e1) == lowercaseN || CharCodeAt(input, e1) == lowercaseM
    ensures ReadNumberSpec(input, start)
              == Ok(Lexeme(if CharCodeAt(input, e1) == lowercaseN then Some(BigInt) else None, Text(input[start..e1]), e1 + 1))
  {
    var isOctal := e1 - start >= 2 && input[start] == digit0 && !HasEightOrNine(input[start..e1]);
    var parts := NumberParts(start, e1, v, isOctal, 0, 0, false, None);
    assert ReadNumberSpec(input, start) == NumberFraction(input, start, e1, v, isOctal);
    assert NumberFraction(input, start, e1, v, isOctal) == NumberExponent(input, parts, e1);
    NumberExponentSkips(input, parts, e1);
    DigitsKeptBySuffixRemoval(input, start, e1);
  }

  /** Removing `_`, `m` and `n` from decimal digits and one suffix leaves the digits. */
  lemma DigitsKeptBySuffixRemoval(input: seq<CodeUnit>, start: nat, e1: nat)
    requires start <= e1 < |input| && (input[e1] == lowercaseN || input[e1] == lowercaseM)
    requires forall k :: start <= k < e1 ==> IsRadixDigit(input[k], 10)
    ensures RemoveUnits(input[start..e1 + 1], {underscore, lowercaseM, lowercaseN}) == input[start..e1]
  {
    var drop := {underscore, lowercaseM, lowercaseN};
    forall k | start <= k < e1
      ensures input[k] !in drop
    {
      DigitValueIsStandard(input[k], 10);
    }
    assert input[start..e1 + 1] == input[start..e1] + [input[e1]];
    RemoveUnitsAppend(input[start..e1], [input[e1]], drop);
    RemoveUnitsKeeps(input[start..e1], drop);
    assert RemoveUnits([input[e1]], drop) == [];
  }

  /** `0.5`: a leading `0` alone does not make the integer part octal. */
  lemma PointFiveRead()
    ensures ReadNumberSpec([digit0, dot, digit5], 0) == Ok(Lexeme(Some(Num), NumValue(0.5), 3))
  {
    var input := [digit0, dot, digit5];
    assert RunEnd(input, 1, 10) == 1;
    assert RunEnd(input, 0, 10) == 1;
    assert RunEnd(input, 3, 10) == 3;
    assert RunEnd(input, 2, 10) == 3;
    assert input[0..1] == [digit0] && input[2..3] == [digit5];
    assert DigitValues([digit0]) == [0] && DigitValues([digit5]) == [5];
    ReadNumberFraction(input, 0, 1, 3);
  }

  /** `1e3` reads as a thousand. */
  lemma ThousandRead()
    ensures ReadNumberSpec([digit1, lowercaseE, digit3], 0) == Ok(Lexeme(Some(Num), NumValue(1000.0), 3))
  {
    var input := [digit1, lowercaseE, digit3];
    assert RunEnd(input, 1, 10) == 1;
    assert RunEnd(input, 0, 10) == 1;
    assert RunEnd(input, 3, 10) == 3;
    assert RunEnd(input, 2, 10) == 3;
    assert ExponentStart(input, 1) == 2;
    assert input[0..1] == [digit1] && input[2..3] == [digit3];
    assert DigitValues([digit1]) == [1] && DigitValues([digit3]) == [3];
    ReadNumberExponent(input, 0, 1, 2, 3, 1, 3);
    assert Pow10(3) == 1000.0;
  }

  /** `5n` reads as the bigint `5`, ending after the `n`. */
  lemma BigIntRead()
    ensures ReadNumberSpec([digit5, lowercaseN], 0) == Ok(Lexeme(Some(BigInt), Text([digit5]), 2))
  {
    var input := [digit5, lowercaseN];
    assert RunEnd(input, 1, 10) == 1;
    assert RunEnd(input, 0, 10) == 1;
    assert input[0..1] == [digit5];
    ReadNumberSuffixed(input, 0, 1);
  }
}
