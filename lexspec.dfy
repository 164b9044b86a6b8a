/** The Babel-derived tokenizer of src/parse/tokenizer.js, written as pure
    functions of the input and the tokenizer state. Each function here is the
    specification that the like-named method of class `Lexer.Tokenizer`
    is proved against, and the lemmas below state what the source's scanning
    rules add up to.

    Input is a sequence of UTF-16 code units, as a JavaScript string is. */
module LexSpec {
  import opened Common
  import opened CharCodes
  import opened Whitespace
  import opened TokenTypes

  type CodeUnit = c: int | 0 <= c < 0x1_0000

  /** `charCodeAt` returns NaN past either end of the string; -1 stands for it.
      Every use the source makes of such a code is an equality test or a
      comparison against a non-negative code, and NaN and -1 both fail those. */
  const NaN: int := -1

  function CharCodeAt(input: seq<CodeUnit>, i: int): int {
    if 0 <= i < |input| then input[i] else NaN
  }

  /** What `state.value` holds: nothing, a number, or a slice of the input. */
  datatype TokenValue = Undefined | NumValue(n: real) | Text(units: seq<CodeUnit>)

  /** The fields of the tokenizer's `state` object that the source reads or writes.
      `start` and `end` are undefined until the first token. */
  datatype TState = TState(pos: nat, start: Option<nat>, end: Option<nat>,
                           tokType: Option<TokenType>, value: TokenValue)

  const INITIAL: TState := TState(0, None, None, None, Undefined)

  /** `finishToken(type, val)`: the token ends at the current position. */
  function FinishTokenSpec(st: TState, tokType: Option<TokenType>, val: TokenValue): (r: TState)
    ensures r.pos == st.pos && r.end == Some(st.pos) && r.start == st.start
  {
    st.(end := Some(st.pos), tokType := tokType, value := val)
  }

  // ---------------------------------------------------------------- code points

  /** `(cp & 0xfc00) === 0xd800`; for a 16-bit code the mask keeps the top six
      bits, so it is `cp / 0x400 == 0xD800 / 0x400` (see `MaskIsDivMod`). */
  predicate IsLeadSurrogate(cp: int) { 0 <= cp < 0x1_0000 && cp / 0x400 == 0xD800 / 0x400 }
  predicate IsTrailSurrogate(cp: int) { 0 <= cp < 0x1_0000 && cp / 0x400 == 0xDC00 / 0x400 }

  lemma MaskIsDivMod(b: bv16)
    ensures b & 0xFC00 == (b / 0x400) * 0x400
    ensures b & 0x3FF == b % 0x400
  {
  }

  /** `codePointAtPos`: a lead surrogate followed by a trail surrogate is read as
      one code point, `0x10000 + ((lead & 0x3ff) << 10) + (trail & 0x3ff)`. */
  function CodePointAtPos(input: seq<CodeUnit>, pos: int): (cp: int)
    ensures -1 <= cp <= 0x10FFFF
    ensures cp == -1 <==> !(0 <= pos < |input|)
    ensures cp > 0xFFFF ==> 0 <= pos && pos + 1 < |input| && IsLeadSurrogate(input[pos]) && IsTrailSurrogate(input[pos + 1])
  {
    var cp := CharCodeAt(input, pos);
    if IsLeadSurrogate(cp) && pos + 1 < |input| && IsTrailSurrogate(input[pos + 1]) then
      0x10000 + (cp % 0x400) * 0x400 + input[pos + 1] % 0x400
    else
      cp
  }

  /** Section 2.1 of RFC 2781: a supplementary code point as two code units. */
  function EncodeUtf16(c: int): (units: seq<CodeUnit>)
    requires 0x10000 <= c <= 0x10FFFF
  {
    [0xD800 + (c - 0x10000) / 0x400, 0xDC00 + (c - 0x10000) % 0x400]
  }

  /** Section 2.2 of RFC 2781: the pair is decoded back to the code point, and
      a code unit that is not a surrogate stands for itself. */
  lemma CodePointAtPosDecodesUtf16(c: int, rest: seq<CodeUnit>)
    requires 0 <= c <= 0x10FFFF && !(0xD800 <= c <= 0xDFFF)
    ensures c < 0x10000 ==> CodePointAtPos([c as CodeUnit] + rest, 0) == c
    ensures c >= 0x10000 ==> CodePointAtPos(EncodeUtf16(c) + rest, 0) == c
  {
  }

  /** A lone surrogate, or a lead surrogate at the end of the input, is returned as it is. */
  lemma CodePointAtPosUnpaired(input: seq<CodeUnit>, pos: nat)
    requires pos < |input|
    requires !IsLeadSurrogate(input[pos]) || pos + 1 == |input| || !IsTrailSurrogate(input[pos + 1])
    ensures CodePointAtPos(input, pos) == input[pos]
  {
  }

  // ---------------------------------------------------------------- readInt

  /** The digit value `readInt` gives a code: letters count from ten upward
      (`code - lowercaseA + lineFeed`), and anything else is `Infinity` (None). */
  function DigitValue(code: int): Option<nat> {
    if code >= lowercaseA then Some(code - lowercaseA + lineFeed)
    else if code >= uppercaseA then Some(code - uppercaseA + lineFeed)
    else if IsDigit(code) then Some(code - digit0)
    else None
  }

  predicate IsRadixDigit(code: int, radix: nat) {
    DigitValue(code).Some? && DigitValue(code).value < radix
  }

  /** The conventional digit alphabets: 0-9, and a-f / A-F in base sixteen. */
  function StandardDigit(code: int): Option<nat> {
    if '0' as int <= code <= '9' as int then Some(code - '0' as int)
    else if 'a' as int <= code <= 'f' as int then Some(code - 'a' as int + 10)
    else if 'A' as int <= code <= 'F' as int then Some(code - 'A' as int + 10)
    else None
  }

  /** For the four radixes the tokenizer uses, `readInt` accepts exactly the
      conventional digits of that radix, with their conventional values. */
  lemma DigitValueIsStandard(code: int, radix: nat)
    requires radix == 2 || radix == 8 || radix == 10 || radix == 16
    ensures IsRadixDigit(code, radix) <==> (StandardDigit(code).Some? && StandardDigit(code).value < radix)
    ensures IsRadixDigit(code, radix) ==> DigitValue(code) == StandardDigit(code)
  {
  }

  const FORBIDDEN_DEC_BIN_OCT: seq<int> :=
    [dot, uppercaseB, uppercaseE, uppercaseO, underscore, lowercaseB, lowercaseE, lowercaseO]
  const FORBIDDEN_HEX: seq<int> := [dot, uppercaseX, underscore, lowercaseX]
  const ALLOWED_BIN: seq<int> := [digit0, digit1]
  const ALLOWED_OCT: seq<int> := ALLOWED_BIN + [digit2, digit3, digit4, digit5, digit6, digit7]
  const ALLOWED_DEC: seq<int> := ALLOWED_OCT + [digit8, digit9]
  const ALLOWED_HEX: seq<int> := ALLOWED_DEC +
    [uppercaseA, uppercaseB, uppercaseC, uppercaseD, uppercaseE, uppercaseF,
     lowercaseA, lowercaseB, lowercaseC, lowercaseD, lowercaseE, lowercaseF]

  function ForbiddenSiblings(radix: nat): seq<int> {
    if radix == 16 then FORBIDDEN_HEX else FORBIDDEN_DEC_BIN_OCT
  }

  function AllowedSiblings(radix: nat): seq<int> {
    if radix == 16 then ALLOWED_HEX
    else if radix == 10 then ALLOWED_DEC
    else if radix == 8 then ALLOWED_OCT
    else ALLOWED_BIN
  }

  /** One Horner step, `total * radix + v`. */
  function Shift(total: nat, radix: nat, v: nat): nat {
    total * radix + v
  }

  /** Where the loop of `readInt` stops, and the running `total`. */
  datatype IntScan = ScanThrows | Scanned(end: nat, total: nat)

  /** The loop of `readInt(radix, undefined, undefined, allowNumSeparator)` from
      `pos` with `total` accumulated so far. */
  function ReadIntFrom(input: seq<CodeUnit>, pos: nat, radix: nat, allowNumSeparator: bool, total: nat): (r: IntScan)
    requires pos <= |input|
    ensures r.Scanned? ==> pos <= r.end <= |input|
    decreases |input| - pos
  {
    var code := CharCodeAt(input, pos);
    if code == underscore then
      var prev := CharCodeAt(input, pos - 1);
      var next := CharCodeAt(input, pos + 1);
      if next !in AllowedSiblings(radix) then ScanThrows
      else if prev in ForbiddenSiblings(radix) || next in ForbiddenSiblings(radix) || next == NaN then ScanThrows
      else if !allowNumSeparator then ScanThrows
      else ReadIntFrom(input, pos + 1, radix, allowNumSeparator, total)
    else if IsRadixDigit(code, radix) then
      ReadIntFrom(input, pos + 1, radix, allowNumSeparator, Shift(total, radix, DigitValue(code).value))
    else
      Scanned(pos, total)
  }

  /** `readInt`'s result: the new position, and the total, or `null` (None) when
      nothing was consumed; or the error it throws. */
  datatype IntRead = IntThrows | IntRead(total: Option<nat>, end: nat)

  function ReadIntSpec(input: seq<CodeUnit>, start: nat, radix: nat, allowNumSeparator: bool): (r: IntRead)
    requires start <= |input|
    ensures r.IntRead? ==> start <= r.end <= |input| && (r.total.None? <==> r.end == start)
  {
    match ReadIntFrom(input, start, radix, allowNumSeparator, 0)
    case ScanThrows => IntThrows
    case Scanned(e, total) => IntRead(if e == start then None else Some(total), e)
  }

  /** End of the maximal run of radix digits starting at `pos`. */
  function RunEnd(input: seq<CodeUnit>, pos: nat, radix: nat): (e: nat)
    requires pos <= |input|
    ensures pos <= e <= |input|
    ensures forall k :: pos <= k < e ==> IsRadixDigit(input[k], radix)
    ensures e == |input| || !IsRadixDigit(input[e], radix)
    decreases |input| - pos
  {
    if pos < |input| && IsRadixDigit(input[pos], radix) then RunEnd(input, pos + 1, radix) else pos
  }

  /** The value of a code known to be a digit. */
  function DigitOf(code: int): (v: nat)
    ensures DigitValue(code).Some? ==> v == DigitValue(code).value
  {
    if DigitValue(code).Some? then DigitValue(code).value else 0
  }

  function DigitValues(units: seq<CodeUnit>): (ds: seq<nat>)
    ensures |ds| == |units|
    ensures forall k :: 0 <= k < |ds| ==> ds[k] == DigitOf(units[k])
  {
    if units == [] then [] else [DigitOf(units[0])] + DigitValues(units[1..])
  }

  function Pow(b: nat, n: nat): (p: nat)
    ensures b > 0 ==> p > 0
  {
    if n == 0 then 1 else b * Pow(b, n - 1)
  }

  /** The Horner recurrence `total * radix + val`, folded from the left. */
  function Horner(ds: seq<nat>, radix: nat): nat {
    if ds == [] then 0 else Horner(ds[..|ds| - 1], radix) * radix + ds[|ds| - 1]
  }

  /** Positional notation: the digit at index i weighs radix^(n-1-i). */
  function PositionalValue(ds: seq<nat>, radix: nat): nat {
    if ds == [] then 0 else ds[0] * Pow(radix, |ds| - 1) + PositionalValue(ds[1..], radix)
  }

  lemma {:induction false} HornerIsPositional(ds: seq<nat>, radix: nat)
    ensures Horner(ds, radix) == PositionalValue(ds, radix)
    decreases |ds|
  {
    if ds != [] {
      var n := |ds|;
      if n == 1 {
        assert ds[..0] == [];
      } else {
        var init := ds[..n - 1];
        var tail := ds[1..][..n - 2];
        assert init[1..] == tail;
        assert ds[1..][n - 2] == ds[n - 1];
        HornerIsPositional(init, radix);
        HornerIsPositional(ds[1..], radix);
        HornerIsPositional(tail, radix);
        var a, p, q, d := ds[0], Pow(radix, n - 2), PositionalValue(tail, radix), ds[n - 1];
        assert Horner(init, radix) == a * p + q;
        assert Horner(ds, radix) == (a * p + q) * radix + d;
        assert Horner(ds[1..], radix) == q * radix + d;
        assert Pow(radix, n - 1) == radix * p;
        Regroup(a, p, q, radix, d);
      }
    }
  }

  lemma Regroup(a: nat, p: nat, q: nat, r: nat, d: nat)
    ensures (a * p + q) * r + d == a * (r * p) + (q * r + d)
  {
    calc {
      (a * p + q) * r + d;
      a * p * r + q * r + d;
      a * (r * p) + (q * r + d);
    }
  }

  /** A number of n digits below radix is below radix^n. */
  lemma {:induction false} HornerBound(ds: seq<nat>, radix: nat)
    requires radix > 0 && forall k :: 0 <= k < |ds| ==> ds[k] < radix
    ensures Horner(ds, radix) < Pow(radix, |ds|)
    decreases |ds|
  {
    if ds != [] {
      var init := ds[..|ds| - 1];
      HornerBound(init, radix);
      var h, p, d := Horner(init, radix), Pow(radix, |init|), ds[|ds| - 1];
      assert Horner(ds, radix) == h * radix + d;
      assert Pow(radix, |ds|) == radix * p;
      NextDigitBound(h, p, d, radix);
    }
  }

  lemma NextDigitBound(h: nat, p: nat, d: nat, r: nat)
    requires h < p && d < r
    ensures h * r + d < r * p
  {
    MulMonotone(h + 1, p, r);
    assert (h + 1) * r == h * r + r;
  }

  lemma MulMonotone(a: nat, b: nat, c: nat)
    requires a <= b
    ensures a * c <= b * c
  {
  }

  /** The loop's own form of the recurrence: `total` is carried along and
      each digit does `total = total * radix + val`. */
  function HornerFrom(total: nat, ds: seq<nat>, radix: nat): nat
    decreases |ds|
  {
    if ds == [] then total else HornerFrom(total * radix + ds[0], ds[1..], radix)
  }

  lemma {:induction false} HornerFromSnoc(total: nat, ds: seq<nat>, d: nat, radix: nat)
    ensures HornerFrom(total, ds + [d], radix) == HornerFrom(total, ds, radix) * radix + d
    decreases |ds|
  {
    if ds != [] {
      assert (ds + [d])[1..] == ds[1..] + [d];
      HornerFromSnoc(total * radix + ds[0], ds[1..], d, radix);
    }
  }

  /** Carrying the total from zero computes the Horner value. */
  lemma {:induction false} HornerFromZero(ds: seq<nat>, radix: nat)
    ensures HornerFrom(0, ds, radix) == Horner(ds, radix)
    decreases |ds|
  {
    if ds != [] {
      var init := ds[..|ds| - 1];
      assert ds == init + [ds[|ds| - 1]];
      HornerFromZero(init, radix);
      HornerFromSnoc(0, init, ds[|ds| - 1], radix);
    }
  }

  /** The accumulator of `ReadIntFrom` after consuming a run of digits. */
  lemma {:induction false} ReadIntFromRun(input: seq<CodeUnit>, pos: nat, radix: nat, total: nat)
    requires pos <= |input| && radix <= 16
    requires CharCodeAt(input, RunEnd(input, pos, radix)) != underscore
    ensures var e := RunEnd(input, pos, radix);
            ReadIntFrom(input, pos, radix, false, total)
              == Scanned(e, HornerFrom(total, DigitValues(input[pos..e]), radix))
    decreases |input| - pos
  {
    var e := RunEnd(input, pos, radix);
    if pos < |input| && IsRadixDigit(input[pos], radix) {
      var v := DigitValue(input[pos]).value;
      assert input[pos] != underscore;
      var next := Shift(total, radix, v);
      assert ReadIntFrom(input, pos, radix, false, total) == ReadIntFrom(input, pos + 1, radix, false, next);
      ReadIntFromRun(input, pos + 1, radix, next);
      var rest := DigitValues(input[pos + 1..e]);
      DigitValuesStep(input, pos, e);
      assert ([v] + rest)[1..] == rest;
      assert HornerFrom(total, [v] + rest, radix) == HornerFrom(next, rest, radix);
    } else {
      assert input[pos..e] == [];
    }
  }

  lemma DigitValuesStep(input: seq<CodeUnit>, pos: nat, e: nat)
    requires pos < e <= |input|
    ensures DigitValues(input[pos..e]) == [DigitOf(input[pos])] + DigitValues(input[pos + 1..e])
  {
    assert input[pos..e][1..] == input[pos + 1..e];
  }

  /** `readInt(radix)` as every call site in tokenizer.js makes it (no
      separators allowed): it consumes the maximal run of digits below the
      radix and returns their positional value, or `null` if the run is empty;
      it throws exactly when the run is stopped by an underscore. */
  lemma ReadIntValue(input: seq<CodeUnit>, start: nat, radix: nat)
    requires start <= |input| && radix <= 16
    ensures var e := RunEnd(input, start, radix);
            ReadIntSpec(input, start, radix, false)
              == if CharCodeAt(input, e) == underscore then IntThrows
                 else IntRead(if e == start then None
                              else Some(PositionalValue(DigitValues(input[start..e]), radix)), e)
  {
    var e := RunEnd(input, start, radix);
    if CharCodeAt(input, e) == underscore {
      ReadIntThrowsAtUnderscore(input, start, radix, 0);
    } else {
      ReadIntFromRun(input, start, radix, 0);
      HornerFromZero(DigitValues(input[start..e]), radix);
      HornerIsPositional(DigitValues(input[start..e]), radix);
    }
  }

  /** Without `allowNumSeparator` the first underscore reached throws, whatever
      its neighbours are. */
  lemma {:induction false} ReadIntThrowsAtUnderscore(input: seq<CodeUnit>, pos: nat, radix: nat, total: nat)
    requires pos <= |input| && radix <= 16
    requires CharCodeAt(input, RunEnd(input, pos, radix)) == underscore
    ensures ReadIntFrom(input, pos, radix, false, total) == ScanThrows
    decreases |input| - pos
  {
    if pos < |input| && IsRadixDigit(input[pos], radix) {
      ReadIntThrowsAtUnderscore(input, pos + 1, radix, total * radix + DigitValue(input[pos]).value);
    }
  }

  // ---------------------------------------------------------------- numbers

  /** Removes every code unit in `drop` (the source's `.replace(/[_n]/g, '')`). */
  function RemoveUnits(units: seq<CodeUnit>, drop: set<int>): (r: seq<CodeUnit>)
    ensures |r| <= |units|
    ensures forall k :: 0 <= k < |r| ==> r[k] !in drop
  {
    if units == [] then []
    else (if units[0] in drop then [] else [units[0]]) + RemoveUnits(units[1..], drop)
  }

  /** A finished token: its type, value and end position. */
  datatype Lexeme = Lexeme(tokType: Option<TokenType>, value: TokenValue, end: nat)

  /** `readRadixNumber(radix)`, entered at the `0` of a `0x`/`0o`/`0b` prefix. */
  function ReadRadixNumberSpec(input: seq<CodeUnit>, isIdentifierStart: int -> bool, start: nat, radix: nat): (r: Result<Lexeme>)
    requires start + 2 <= |input|
    ensures r.Ok? ==> start + 2 < r.value.end <= |input|
  {
    match ReadIntSpec(input, start + 2, radix, false)
    case IntThrows => Err(LexError)
    case IntRead(total, pos) =>
      if total.None? then Err(LexError)
      else
        var next := CharCodeAt(input, pos);
        var isBigInt := next == lowercaseN;
        var end := if isBigInt then pos + 1 else pos;
        if !isBigInt && next == lowercaseM then Err(LexError)
        else if isIdentifierStart(CodePointAtPos(input, end)) then Err(LexError)
        else if isBigInt then
          Ok(Lexeme(Some(BigInt), Text(RemoveUnits(input[start..end], {underscore, lowercaseN})), end))
        else
          Ok(Lexeme(Some(Num), NumValue(total.value as real), end))
  }

  /** The value `parseFloat` reads from `int[.frac][e[+-]exp]`: an exponent
      without digits is not part of the longest valid prefix and is ignored. */
  function DecimalValue(intPart: nat, frac: nat, fracLen: nat, negExp: bool, exp: Option<nat>): real {
    var m := intPart as real + frac as real / Pow10(fracLen);
    match exp
    case None => m
    case Some(e) => m * Pow10(if negExp then -(e as int) else e as int)
  }

  predicate HasEightOrNine(units: seq<CodeUnit>) {
    exists k :: 0 <= k < |units| && (units[k] == digit8 || units[k] == digit9)
  }

  /** `readNumber(false)`, entered at a decimal digit: the integer part. An
      integer part of two or more digits that starts with `0` and has no 8 or 9
      is octal. */
  function ReadNumberSpec(input: seq<CodeUnit>, start: nat): (r: Result<Lexeme>)
    requires start < |input| && IsDigit(input[start])
    ensures r.Ok? ==> start < r.value.end <= |input|
  {
    assert IsRadixDigit(input[start], 10);
    var i1 := ReadIntSpec(input, start, 10, false);
    if i1.IntThrows? then Err(LexError)
    else
      var p1 := i1.end;
      var hasLeadingZero := p1 - start >= 2 && input[start] == digit0;
      var isOctal := hasLeadingZero && !HasEightOrNine(input[start..p1]);
      NumberFraction(input, start, p1, i1.total.value, isOctal)
  }

  /** The scanned parts of a decimal literal `int[.frac][e[+-]exp]`. */
  datatype NumberParts = NumberParts(start: nat, intEnd: nat, intPart: nat, isOctal: bool,
                                     frac: nat, fracLen: nat, negExp: bool, exp: Option<nat>)

  /** `.digits`, read only when the integer part is not octal. */
  function NumberFraction(input: seq<CodeUnit>, start: nat, p1: nat, intPart: nat, isOctal: bool): (r: Result<Lexeme>)
    requires start < p1 <= |input|
    ensures r.Ok? ==> start < r.value.end <= |input|
  {
    if CharCodeAt(input, p1) == dot && !isOctal then
      match ReadIntSpec(input, p1 + 1, 10, false)
      case IntThrows => Err(LexError)
      case IntRead(frac, p2) =>
        NumberExponent(input, NumberParts(start, p1, intPart, isOctal,
                                          if frac.Some? then frac.value else 0, p2 - (p1 + 1), false, None), p2)
    else
      NumberExponent(input, NumberParts(start, p1, intPart, isOctal, 0, 0, false, None), p1)
  }

  /** The fraction branch of `NumberFraction`, unfolded. */
  lemma NumberFractionReads(input: seq<CodeUnit>, start: nat, p1: nat, intPart: nat, frac: Option<nat>, p2: nat)
    requires start < p1 <= |input| && CharCodeAt(input, p1) == dot
    requires ReadIntSpec(input, p1 + 1, 10, false) == IntRead(frac, p2)
    ensures NumberFraction(input, start, p1, intPart, false)
            == NumberExponent(input, NumberParts(start, p1, intPart, false,
                                                 if frac.Some? then frac.value else 0, p2 - (p1 + 1), false, None), p2)
  {
  }

  predicate PartsFit(input: seq<CodeUnit>, parts: NumberParts, p: nat) {
    parts.start < parts.intEnd <= p <= |input|
  }

  /** `e[+-]digits`, read only when the integer part is not octal. */
  function NumberExponent(input: seq<CodeUnit>, parts: NumberParts, p2: nat): (r: Result<Lexeme>)
    requires PartsFit(input, parts, p2)
    ensures r.Ok? ==> parts.start < r.value.end <= |input|
  {
    var next := CharCodeAt(input, p2);
    if (next == uppercaseE || next == lowercaseE) && !parts.isOctal then
      var sign := CharCodeAt(input, p2 + 1);
      var expStart := if sign == plusSign || sign == dash then p2 + 2 else p2 + 1;
      match ReadIntSpec(input, expStart, 10, false)
      case IntThrows => Err(LexError)
      case IntRead(exp, p3) => Ok(NumberSuffix(input, parts.(negExp := sign == dash, exp := exp), p3))
    else
      Ok(NumberSuffix(input, parts, p2))
  }

  /** The exponent branch of `NumberExponent`, unfolded at `expStart`. */
  lemma NumberExponentReads(input: seq<CodeUnit>, parts: NumberParts, p2: nat, expStart: nat)
    requires PartsFit(input, parts, p2) && !parts.isOctal
    requires CharCodeAt(input, p2) == uppercaseE || CharCodeAt(input, p2) == lowercaseE
    requires expStart == if CharCodeAt(input, p2 + 1) == plusSign || CharCodeAt(input, p2 + 1) == dash
                         then p2 + 2 else p2 + 1
    ensures expStart <= |input|
    ensures ReadIntSpec(input, expStart, 10, false).IntThrows? ==> NumberExponent(input, parts, p2) == Err(LexError)
    ensures match ReadIntSpec(input, expStart, 10, false)
            case IntThrows => true
            case IntRead(exp, p3) =>
              PartsFit(input, parts, p3) &&
              NumberExponent(input, parts, p2)
                == Ok(NumberSuffix(input, parts.(negExp := CharCodeAt(input, p2 + 1) == dash, exp := exp), p3))
  {
  }

  /** Without `e` or `E` next, or after an octal integer part, no exponent is read. */
  lemma NumberExponentSkips(input: seq<CodeUnit>, parts: NumberParts, p2: nat)
    requires PartsFit(input, parts, p2)
    requires parts.isOctal || (CharCodeAt(input, p2) != uppercaseE && CharCodeAt(input, p2) != lowercaseE)
    ensures NumberExponent(input, parts, p2) == Ok(NumberSuffix(input, parts, p2))
  {
  }

  /** At most one of the `n` and `m` suffixes: both tests read the same `next`. */
  function NumberSuffix(input: seq<CodeUnit>, parts: NumberParts, p3: nat): (r: Lexeme)
    requires PartsFit(input, parts, p3)
    ensures parts.start < r.end <= |input|
  {
    var next := CharCodeAt(input, p3);
    var end := if next == lowercaseN || next == lowercaseM then p3 + 1 else p3;
    var str := RemoveUnits(input[parts.start..end], {underscore, lowercaseM, lowercaseN});
    if next == lowercaseN then Lexeme(Some(BigInt), Text(str), end)
    else if next == lowercaseM then Lexeme(None, Text(str), end)   // `tt.decimal` does not exist
    else Lexeme(Some(Num), NumValue(PartsValue(input, parts)), end)
  }

  /** Without a suffix the token is a `num` holding the scanned value. */
  lemma NumberSuffixNone(input: seq<CodeUnit>, parts: NumberParts, p3: nat)
    requires PartsFit(input, parts, p3)
    requires CharCodeAt(input, p3) != lowercaseN && CharCodeAt(input, p3) != lowercaseM
    ensures NumberSuffix(input, parts, p3) == Lexeme(Some(Num), NumValue(PartsValue(input, parts)), p3)
  {
  }

  /** `parseInt(str, 8)` of an octal integer part, `parseFloat(str)` otherwise. */
  function PartsValue(input: seq<CodeUnit>, parts: NumberParts): real
    requires parts.start <= parts.intEnd <= |input|
  {
    if parts.isOctal then Horner(DigitValues(input[parts.start..parts.intEnd]), 8) as real
    else DecimalValue(parts.intPart, parts.frac, parts.fracLen, parts.negExp, parts.exp)
  }

  /** The state once a scanned number is finished as the current token. */
  function Finished(st: TState, lexeme: Result<Lexeme>): (r: Result<TState>)
    ensures r.Ok? <==> lexeme.Ok?
    ensures r.Ok? ==> r.value.pos == lexeme.value.end && r.value.end == Some(lexeme.value.end)
                      && r.value.tokType == lexeme.value.tokType && r.value.value == lexeme.value.value
  {
    match lexeme
    case Ok(l) => Ok(FinishTokenSpec(st.(pos := l.end), l.tokType, l.value))
    case Err(e) => Err(e)
  }

  // ---------------------------------------------------------------- skipSpace

  predicate OccursAt(s: seq<CodeUnit>, pat: seq<CodeUnit>, j: int) {
    0 <= j && j + |pat| <= |s| && s[j..j + |pat|] == pat
  }

  /** The first index `k >= from` at which `pat` occurs, or -1 (`indexOf`). */
  function IndexOf(s: seq<CodeUnit>, pat: seq<CodeUnit>, from: nat): (k: int)
    requires |pat| > 0
    ensures k == -1 || (from <= k && OccursAt(s, pat, k))
    ensures k == -1 ==> forall j :: from <= j ==> !OccursAt(s, pat, j)
    ensures k != -1 ==> forall j :: from <= j < k ==> !OccursAt(s, pat, j)
    decreases |s| - from
  {
    if from + |pat| > |s| then -1
    else if OccursAt(s, pat, from) then from
    else IndexOf(s, pat, from + 1)
  }

  const CLOSE_COMMENT: seq<CodeUnit> := [asterisk, slash]

  /** A code unit the skip loop steps over on its own. */
  predicate IsSkippable(code: int) {
    IsWhitespace(code) || IsNewLine(code)
  }

  /** One pass of the skip loop: it stops, or meets a block comment with no
      `*` `/` after it, or calls `skipLineComment` where that would throw. */
  datatype SkipRun = Stop(pos: nat) | Unterminated | LineComment

  predicate StopsAt(input: seq<CodeUnit>, p: nat) {
    p >= |input| ||
    (!IsSkippable(input[p]) && !(input[p] == slash && (CharCodeAt(input, p + 1) == asterisk || CharCodeAt(input, p + 1) == slash)))
  }

  function SkipRunFrom(input: seq<CodeUnit>, pos: nat): (r: SkipRun)
    requires pos <= |input|
    ensures r.Stop? ==> pos <= r.pos <= |input| && StopsAt(input, r.pos)
    ensures r.Unterminated? ==> |input| >= 2
    decreases |input| - pos
  {
    if pos >= |input| then Stop(pos)
    else
      var ch := input[pos];
      if ch == space || ch == nonBreakingSpace || ch == tab then SkipRunFrom(input, pos + 1)
      else if ch == carriageReturn then
        if CharCodeAt(input, pos + 1) == lineFeed then SkipRunFrom(input, pos + 2) else SkipRunFrom(input, pos + 1)
      else if ch == lineFeed || ch == lineSeparator || ch == paragraphSeparator then SkipRunFrom(input, pos + 1)
      else if ch == slash then
        var next := CharCodeAt(input, pos + 1);
        if next == asterisk then
          var e := IndexOf(input, CLOSE_COMMENT, pos + 2);
          if e == -1 then Unterminated else SkipRunFrom(input, e + 2)
        else if next == slash then
          // skipLineComment(2): reaching its loop calls the undeclared isNewLine
          if pos + 2 < |input| then LineComment else Stop(pos + 2)
        else Stop(pos)
      else if IsWhitespace(ch) then SkipRunFrom(input, pos + 1)
      else Stop(pos)
  }

  datatype SkipOutcome = Skipped(pos: nat) | SkipFails(error: Error)

  /** `skipSpace` from `pos`. An unterminated block comment sets `pos` to
      `-1 + 2`, and the loop goes on from there; meeting an unterminated
      comment again after that repeats the same steps forever. */
  function SkipSpaceSpec(input: seq<CodeUnit>, pos: nat): (r: SkipOutcome)
    requires pos <= |input|
    ensures r.Skipped? ==> r.pos <= |input| && StopsAt(input, r.pos)
  {
    match SkipRunFrom(input, pos)
    case Stop(p) => Skipped(p)
    case LineComment => SkipFails(ReferenceError)
    case Unterminated =>
      match SkipRunFrom(input, 1)
      case Stop(p) => Skipped(p)
      case LineComment => SkipFails(ReferenceError)
      case Unterminated => SkipFails(Hangs)
  }

  // ---------------------------------------------------------------- tokens

  predicate IsStructural(code: int) {
    code == leftParenthesis || code == rightParenthesis || code == leftSquareBracket
    || code == rightSquareBracket || code == comma || code == ampersand
  }

  function StructuralType(code: int): TokenType
    requires IsStructural(code)
  {
    if code == leftParenthesis then ParenL
    else if code == rightParenthesis then ParenR
    else if code == leftSquareBracket then BracketL
    else if code == rightSquareBracket then BracketR
    else if code == comma then Comma
    else BitwiseAND
  }

  function RadixOfPrefix(code: int): nat {
    if code == lowercaseX || code == uppercaseX then 16
    else if code == lowercaseO || code == uppercaseO then 8
    else if code == lowercaseB || code == uppercaseB then 2
    else 0
  }

  /** `getTokenFromCode(code)` with `code` read at `st.pos`. A code that no
      `case` lists leaves the state as it is. */
  function GetTokenFromCodeSpec(input: seq<CodeUnit>, isIdentifierStart: int -> bool, st: TState, code: int): (r: Result<TState>)
    requires st.pos < |input| && code == CodePointAtPos(input, st.pos)
    ensures r.Ok? ==> st.pos <= r.value.pos <= |input|
    ensures r.Ok? ==> (r.value.pos == st.pos <==> !IsStructural(code) && !IsDigit(code))
    ensures r.Ok? && IsStructural(code) ==> r.value.pos == st.pos + 1
  {
    if IsStructural(code) then
      Ok(FinishTokenSpec(st.(pos := st.pos + 1), Some(StructuralType(code)), Undefined))
    else if IsDigit(code) then
      var radix := if code == digit0 then RadixOfPrefix(CharCodeAt(input, st.pos + 1)) else 0;
      Finished(st, if radix != 0 then ReadRadixNumberSpec(input, isIdentifierStart, st.pos, radix)
                   else ReadNumberSpec(input, st.pos))
    else
      Ok(st)
  }

  /** `nextToken()` from any position: past the end of the input the skip loop
      is not entered and an `eof` token is finished where `pos` is. */
  function NextTokenAnywhere(input: seq<CodeUnit>, isIdentifierStart: int -> bool, st: TState): Result<TState> {
    if st.pos <= |input| then NextTokenSpec(input, isIdentifierStart, st)
    else Ok(FinishTokenSpec(st.(start := Some(st.pos)), Some(Eof), Undefined))
  }

  /** `nextToken()`: skip, then finish an `eof` token or read one from the code point. */
  function NextTokenSpec(input: seq<CodeUnit>, isIdentifierStart: int -> bool, st: TState): (r: Result<TState>)
    requires st.pos <= |input|
    ensures r.Ok? ==> r.value.pos <= |input|
  {
    var st1 := st.(start := Some(st.pos));
    match SkipSpaceSpec(input, st.pos)
    case SkipFails(e) => Err(e)
    case Skipped(p) =>
      if p >= |input| then Ok(FinishTokenSpec(st1.(pos := p), Some(Eof), Undefined))
      else
        GetTokenFromCodeSpec(input, isIdentifierStart, st1.(pos := p), CodePointAtPos(input, p))
  }
}
