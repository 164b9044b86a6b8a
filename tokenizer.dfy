/** Class `Tokenizer` of src/parse/tokenizer.js. The fields are those of the
    source's `state` object; every method advances `pos` in place and is
    proved to reach the state, or the error, that the like-named function of
    module `LexSpec` computes from the state it started in. */
module Lexer {
  import opened Common
  import opened CharCodes
  import opened Whitespace
  import opened TokenTypes
  import opened LexSpec

  /** Always true: it names a state for the link between `Tokenizer.step`
      and `NextTokenAnywhere`, which is used only where a proof names it. */
  ghost predicate Named(st: TState) {
    true
  }

  class Tokenizer {
    const input: seq<CodeUnit>
    /** `isIdentifierStart` of `./identifier`, which is not part of this model. */
    const isIdentifierStart: int -> bool
    /** One `next()` as a function of the state: `NextTokenAnywhere` on the
        input. Callers see it only through `Next`, `Eat` and `StepIs`. */
    ghost const step: TState -> Result<TState>

    var pos: nat
    var start: Option<nat>
    var end: Option<nat>
    var tokType: Option<TokenType>
    var value: TokenValue
    /** Read by `finishNode`; no method of the tokenizer ever assigns it. */
    var lastTokEnd: Option<nat>

    ghost predicate Valid()
      reads this
    {
      pos <= |input| && lastTokEnd.None?
      && forall st {:trigger Named(st)} :: Named(st) ==> step(st) == NextTokenAnywhere(input, isIdentifierStart, st)
    }

    /** `step` at a given state. */
    lemma StepIs(st: TState)
      requires Valid()
      ensures step(st) == NextTokenAnywhere(input, isIdentifierStart, st)
    {
      assert Named(st);
    }

    function State(): TState
      reads this
    {
      TState(pos, start, end, tokType, value)
    }

    /** The method ended as `spec` says: in its state, or with its error. */
    ghost predicate Reached(spec: Result<TState>, r: Outcome)
      reads this
    {
      match spec
      case Ok(st) => r == Pass && State() == st
      case Err(e) => r == Fail(e)
    }

    constructor(input: seq<CodeUnit>, isIdentifierStart: int -> bool)
      ensures Valid() && State() == INITIAL
      ensures this.input == input && this.isIdentifierStart == isIdentifierStart
      ensures forall st :: step(st) == NextTokenAnywhere(input, isIdentifierStart, st)
    {
      this.input := input;
      this.isIdentifierStart := isIdentifierStart;
      step := (st: TState) => NextTokenAnywhere(input, isIdentifierStart, st);
      pos := 0;
      start, end, tokType, value := None, None, None, Undefined;
      lastTokEnd := None;
    }

    method Next() returns (r: Outcome)
      requires Valid()
      modifies this
      ensures Valid()
      ensures Reached(step(old(State())), r)
    {
      StepIs(State());
      r := NextToken();
    }

    /** Advances only when the current token has type `t`, and says whether it did. */
    method Eat(t: TokenType) returns (ate: bool, r: Outcome)
      requires Valid()
      modifies this
      ensures Valid()
      ensures ate == old(Match(t))
      ensures ate ==> Reached(step(old(State())), r)
      ensures !ate ==> r == Pass && State() == old(State())
    {
      if Match(t) {
        r := Next();
        ate := true;
      } else {
        ate, r := false, Pass;
      }
    }

    predicate Match(t: TokenType)
      reads this
    {
      tokType == Some(t)
    }

    method NextToken() returns (r: Outcome)
      requires Valid()
      modifies this
      ensures Valid()
      ensures Reached(NextTokenSpec(input, isIdentifierStart, old(State())), r)
    {
      start := Some(pos);
      r := SkipSpace();
      if r.Fail? {
        return;
      }
      if pos >= |input| {
        FinishToken(Some(Eof), Undefined);
        return;
      }
      r := GetTokenFromCode(CodePointAtPos(input, pos));
    }

    method GetTokenFromCode(code: int) returns (r: Outcome)
      requires Valid() && pos < |input| && code == CodePointAtPos(input, pos)
      modifies this
      ensures Valid()
      ensures Reached(GetTokenFromCodeSpec(input, isIdentifierStart, old(State()), code), r)
    {
      r := Pass;
      if code == leftParenthesis {
        pos := pos + 1;
        FinishToken(Some(ParenL), Undefined);
      } else if code == rightParenthesis {
        pos := pos + 1;
        FinishToken(Some(ParenR), Undefined);
      } else if code == leftSquareBracket {
        pos := pos + 1;
        FinishToken(Some(BracketL), Undefined);
      } else if code == rightSquareBracket {
        pos := pos + 1;
        FinishToken(Some(BracketR), Undefined);
      } else if code == comma {
        pos := pos + 1;
        FinishToken(Some(Comma), Undefined);
      } else if code == ampersand {
        pos := pos + 1;
        FinishToken(Some(BitwiseAND), Undefined);
      } else if IsDigit(code) {
        // `case digit0` falls through to the other digits unless a prefix follows
        var next := CharCodeAt(input, pos + 1);
        if code == digit0 && (next == lowercaseX || next == uppercaseX) {
          r := ReadRadixNumber(16);
        } else if code == digit0 && (next == lowercaseO || next == uppercaseO) {
          r := ReadRadixNumber(8);
        } else if code == digit0 && (next == lowercaseB || next == uppercaseB) {
          r := ReadRadixNumber(2);
        } else {
          r := ReadNumber();
        }
      }
    }

    method ReadRadixNumber(radix: nat) returns (r: Outcome)
      requires Valid() && pos + 2 <= |input|
      modifies this
      ensures Valid()
      ensures Reached(Finished(old(State()), ReadRadixNumberSpec(input, isIdentifierStart, old(pos), radix)), r)
    {
      var start := pos;
      var isBigInt := false;
      pos := pos + 2;
      var val;
      val, r := ReadInt(radix, false);
      if r.Fail? {
        return;
      }
      if val.None? {
        return Fail(LexError);
      }
      var next := CharCodeAt(input, pos);
      if next == lowercaseN {
        pos := pos + 1;
        isBigInt := true;
      } else if next == lowercaseM {
        return Fail(LexError);
      }
      if isIdentifierStart(CodePointAtPos(input, pos)) {
        return Fail(LexError);
      }
      if isBigInt {
        FinishToken(Some(BigInt), Text(RemoveUnits(input[start..pos], {underscore, lowercaseN})));
        return;
      }
      FinishToken(Some(Num), NumValue(val.value as real));
    }

    /** `readInt(radix, undefined, undefined, allowNumSeparator)`: `total` is
        the number read, or None for `null`. */
    method ReadInt(radix: nat, allowNumSeparator: bool) returns (total: Option<nat>, r: Outcome)
      requires Valid()
      modifies this
      ensures Valid()
      ensures match ReadIntSpec(input, old(pos), radix, allowNumSeparator)
              case IntThrows => r == Fail(LexError)
              case IntRead(t, e) => r == Pass && total == t && State() == old(State()).(pos := e)
    {
      total := None;
      var start := pos;
      var sum: nat := 0;
      while true
        invariant start <= pos <= |input| && lastTokEnd == old(lastTokEnd)
        invariant State() == old(State()).(pos := pos)
        invariant ReadIntFrom(input, pos, radix, allowNumSeparator, sum)
                  == ReadIntFrom(input, start, radix, allowNumSeparator, 0)
        decreases |input| - pos
      {
        var code := CharCodeAt(input, pos);
        if code == underscore {
          var prev := CharCodeAt(input, pos - 1);
          var next := CharCodeAt(input, pos + 1);
          if next !in AllowedSiblings(radix) {
            return None, Fail(LexError);
          } else if prev in ForbiddenSiblings(radix) || next in ForbiddenSiblings(radix) || next == NaN {
            return None, Fail(LexError);
          }
          if !allowNumSeparator {
            return None, Fail(LexError);
          }
          pos := pos + 1;
          continue;
        }
        var val := DigitValue(code);   // None stands for `Infinity`
        if val.None? || val.value >= radix {
          break;
        }
        pos := pos + 1;
        sum := Shift(sum, radix, val.value);
      }
      total := if pos == start then None else Some(sum);
      r := Pass;
    }

    /** `readNumber(false)`, entered at a decimal digit: the integer part and
        the octal test. The rest of the method is `ReadNumberFraction`,
        `ReadNumberExponent` and `FinishNumber`, one per stage of the scan. */
    method ReadNumber() returns (r: Outcome)
      requires Valid() && pos < |input| && IsDigit(input[pos])
      modifies this
      ensures Valid()
      ensures Reached(Finished(old(State()), ReadNumberSpec(input, old(pos))), r)
    {
      var start := pos;
      assert IsRadixDigit(input[start], 10);
      var intTotal;
      intTotal, r := ReadInt(10, false);
      if r.Fail? {
        return;
      }
      var hasLeadingZero := pos - start >= 2 && input[start] == digit0;
      var isOctal := false;
      if hasLeadingZero {
        isOctal := !HasEightOrNine(input[start..pos]);
      }
      r := ReadNumberFraction(start, intTotal.value, isOctal);
    }

    /** `.digits`, unless the integer part is octal. */
    method ReadNumberFraction(start: nat, intPart: nat, isOctal: bool) returns (r: Outcome)
      requires Valid() && start < pos
      modifies this
      ensures Valid()
      ensures Reached(Finished(old(State()), NumberFraction(input, start, old(pos), intPart, isOctal)), r)
    {
      var intEnd := pos;
      var next := CharCodeAt(input, pos);
      var fracTotal: Option<nat> := None;
      var fracLen := 0;
      if next == dot && !isOctal {
        pos := pos + 1;
        fracTotal, r := ReadInt(10, false);
        if r.Fail? {
          return;
        }
        fracLen := pos - (intEnd + 1);
      }
      var frac := if fracTotal.Some? then fracTotal.value else 0;
      r := ReadNumberExponent(NumberParts(start, intEnd, intPart, isOctal, frac, fracLen, false, None));
    }

    /** `e[+-]digits`, unless the integer part is octal. */
    method ReadNumberExponent(parts: NumberParts) returns (r: Outcome)
      requires Valid() && PartsFit(input, parts, pos) && !parts.negExp && parts.exp.None?
      modifies this
      ensures Valid()
      ensures Reached(Finished(old(State()), NumberExponent(input, parts, old(pos))), r)
    {
      var fracEnd := pos;
      var next := CharCodeAt(input, pos);
      var negative := false;
      var expTotal: Option<nat> := None;
      if (next == uppercaseE || next == lowercaseE) && !parts.isOctal {
        pos := pos + 1;
        next := CharCodeAt(input, pos);
        if next == plusSign || next == dash {
          negative := next == dash;
          pos := pos + 1;
        }
        NumberExponentReads(input, parts, fracEnd, pos);
        expTotal, r := ReadInt(10, false);
        if r.Fail? {
          return;
        }
      }
      r := FinishNumber(parts.(negExp := negative, exp := expTotal));
    }

    /** The `n` or `m` suffix, then the token. */
    method FinishNumber(parts: NumberParts) returns (r: Outcome)
      requires Valid() && PartsFit(input, parts, pos)
      modifies this
      ensures Valid()
      ensures Reached(Finished(old(State()), Ok(NumberSuffix(input, parts, old(pos)))), r)
    {
      var isBigInt, isDecimal := false, false;
      var next := CharCodeAt(input, pos);
      if next == lowercaseN {
        pos := pos + 1;
        isBigInt := true;
      }
      if next == lowercaseM {
        pos := pos + 1;
        isDecimal := true;
      }
      // the `isIdentifierStart` test here has its `raise` commented out
      var str := RemoveUnits(input[parts.start..pos], {underscore, lowercaseM, lowercaseN});
      r := Pass;
      if isBigInt {
        FinishToken(Some(BigInt), Text(str));
        return;
      }
      if isDecimal {
        FinishToken(None, Text(str));   // `tt.decimal` is undefined
        return;
      }
      // `parseInt(str, 8)` or `parseFloat(str)`: the value of the parts the scan read
      var val := if parts.isOctal then Horner(DigitValues(input[parts.start..parts.intEnd]), 8) as real
                 else DecimalValue(parts.intPart, parts.frac, parts.fracLen, parts.negExp, parts.exp);
      FinishToken(Some(Num), NumValue(val));
    }

    method FinishToken(t: Option<TokenType>, val: TokenValue)
      requires Valid()
      modifies this
      ensures Valid()
      ensures State() == FinishTokenSpec(old(State()), t, val)
    {
      end := Some(pos);
      tokType := t;
      value := val;
    }

    /** Moves past the first `*` `/` at or after the opener's end; with none,
        `indexOf` gives -1 and `pos` becomes 1. */
    method SkipBlockComment()
      requires Valid() && pos + 2 <= |input|
      modifies this
      ensures Valid()
      ensures State() == old(State()).(pos := (IndexOf(input, CLOSE_COMMENT, old(pos) + 2) + 2) as nat)
    {
      var start := pos;
      var e := IndexOf(input, CLOSE_COMMENT, start + 2);
      pos := (e + 2) as nat;
    }

    /** Once past the opener, the loop condition calls `isNewLine`, which
        tokenizer.js never imports. */
    method SkipLineComment(startSkip: nat) returns (r: Outcome)
      requires Valid() && pos + startSkip <= |input|
      modifies this
      ensures Valid()
      ensures old(pos) + startSkip < |input| ==> r == Fail(ReferenceError)
      ensures old(pos) + startSkip == |input| ==> r == Pass && State() == old(State()).(pos := |input|)
    {
      pos := pos + startSkip;
      if pos < |input| {
        return Fail(ReferenceError);
      }
      r := Pass;
    }

    method SkipSpace() returns (r: Outcome)
      requires Valid()
      modifies this
      ensures Valid()
      ensures match SkipSpaceSpec(input, old(pos))
              case Skipped(p) => r == Pass && State() == old(State()).(pos := p)
              case SkipFails(e) => r == Fail(e)
    {
      // Set once an unterminated comment has sent `pos` back to 1; meeting
      // another one after that would repeat the same steps for ever.
      var restarted := false;
      while pos < |input|
        invariant Valid()
        invariant State() == old(State()).(pos := pos)
        invariant !restarted ==> SkipRunFrom(input, pos) == SkipRunFrom(input, old(pos))
        invariant restarted ==> SkipRunFrom(input, old(pos)) == Unterminated && 2 <= |input|
        invariant restarted ==> SkipRunFrom(input, pos) == SkipRunFrom(input, 1)
        decreases if restarted then 0 else 1, |input| - pos
      {
        var ch := input[pos];
        if ch == space || ch == nonBreakingSpace || ch == tab {
          pos := pos + 1;
        } else if ch == carriageReturn || ch == lineFeed || ch == lineSeparator || ch == paragraphSeparator {
          if ch == carriageReturn && CharCodeAt(input, pos + 1) == lineFeed {
            pos := pos + 1;
          }
          pos := pos + 1;
        } else if ch == slash {
          var next := CharCodeAt(input, pos + 1);
          if next == asterisk {
            var closed := IndexOf(input, CLOSE_COMMENT, pos + 2) != -1;
            if !closed && restarted {
              return Fail(Hangs);
            }
            SkipBlockComment();
            restarted := restarted || !closed;
          } else if next == slash {
            r := SkipLineComment(2);
            if r.Fail? {
              return;
            }
          } else {
            break;
          }
        } else if IsWhitespace(ch) {
          pos := pos + 1;
        } else {
          break;
        }
      }
      r := Pass;
    }
  }
}
