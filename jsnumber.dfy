/** The JavaScript numbers that src/range.js and the comparison rules of
    src/index.js compute with: `NaN`, the two infinities, and finite values,
    which the model keeps exact. `Number(text)` follows StringToNumber of
    ECMA-262 (section 7.1.4.1.1) for decimal texts. */
module JsNumbers {
  import opened Common
  import opened Whitespace

  datatype Num = NaN | NegInf | PosInf | Finite(r: real)

  /** `a < b`: false whenever either side is `NaN`. */
  predicate Less(a: Num, b: Num) {
    match a
    case NaN => false
    case NegInf => b.Finite? || b.PosInf?
    case Finite(x) => (b.Finite? && x < b.r) || b.PosInf?
    case PosInf => false
  }

  /** `a <= b`: false whenever either side is `NaN`. */
  predicate LessEq(a: Num, b: Num) {
    !a.NaN? && !b.NaN? && (a == b || Less(a, b))
  }

  /** Off `NaN` the comparisons are a total order, and `NaN` compares false with everything. */
  lemma OrderTotal(a: Num, b: Num)
    ensures !a.NaN? && !b.NaN? ==> (LessEq(a, b) <==> !Less(b, a))
    ensures a.NaN? || b.NaN? ==> !Less(a, b) && !LessEq(a, b) && !Less(b, a) && !LessEq(b, a)
  {
  }

  function Negate(n: Num): (m: Num)
    ensures m.NaN? <==> n.NaN?
  {
    match n
    case NaN => NaN
    case NegInf => PosInf
    case PosInf => NegInf
    case Finite(x) => Finite(-x)
  }

  /** The white space of `\s`, of `String.prototype.trim` and of
      StringToNumber: the WhiteSpace and LineTerminator code points. */
  predicate IsSpace(c: char) {
    IsWhitespace(c as int) || IsNewLine(c as int)
  }

  predicate IsDigitChar(c: char) {
    '0' <= c <= '9'
  }

  /** The index of the first character of `s` at or after `i` that is not white space. */
  function LeadEnd(s: string, i: nat): (e: nat)
    requires i <= |s|
    ensures i <= e <= |s|
    ensures forall k :: i <= k < e ==> IsSpace(s[k])
    ensures e == |s| || !IsSpace(s[e])
    decreases |s| - i
  {
    if i < |s| && IsSpace(s[i]) then LeadEnd(s, i + 1) else i
  }

  /** The index just after the last character of `s[..j]` that is not white space. */
  function TrailStart(s: string, j: nat): (e: nat)
    requires j <= |s|
    ensures e <= j
    ensures forall k :: e <= k < j ==> IsSpace(s[k])
    ensures e == 0 || !IsSpace(s[e - 1])
  {
    if j > 0 && IsSpace(s[j - 1]) then TrailStart(s, j - 1) else j
  }

  /** `s.trim()`. */
  function Trim(s: string): (t: string)
    ensures t == [] || (!IsSpace(t[0]) && !IsSpace(t[|t| - 1]))
  {
    var i := LeadEnd(s, 0);
    var j := TrailStart(s, |s|);
    if j <= i then [] else s[i..j]
  }

  /** A text with no white space at either end is its own trim. */
  lemma TrimUnspaced(s: string)
    requires s == [] || (!IsSpace(s[0]) && !IsSpace(s[|s| - 1]))
    ensures Trim(s) == s
  {
  }

  /** Trimming removes exactly the white space at the two ends. */
  lemma TrimRemovesEnds(s: string)
    ensures exists i, j :: 0 <= i <= j <= |s| && Trim(s) == s[i..j]
                           && (forall k :: 0 <= k < i ==> IsSpace(s[k]))
                           && (forall k :: j <= k < |s| ==> IsSpace(s[k]))
  {
    var i := LeadEnd(s, 0);
    var j := TrailStart(s, |s|);
    if j <= i {
      assert Trim(s) == s[i..i];
      assert i == |s|;
    } else {
      assert Trim(s) == s[i..j];
    }
  }

  function DigitRunEnd(s: string, i: nat): (e: nat)
    requires i <= |s|
    ensures i <= e <= |s|
    ensures forall k :: i <= k < e ==> IsDigitChar(s[k])
    ensures e == |s| || !IsDigitChar(s[e])
    decreases |s| - i
  {
    if i < |s| && IsDigitChar(s[i]) then DigitRunEnd(s, i + 1) else i
  }

  /** `Number(s)`: white space around the literal is ignored, the empty
      text is 0, a sign may precede an unsigned literal. */
  function StringToNumber(s: string): Num {
    var t := Trim(s);
    if t == [] then Finite(0.0)
    else if t[0] == '-' then Negate(UnsignedNumber(t[1..]))
    else if t[0] == '+' then UnsignedNumber(t[1..])
    else UnsignedNumber(t)
  }

  /** `Infinity`, or digits with at most one `.` and at least one digit,
      then an optional exponent `e`/`E`, sign, digits; anything else is `NaN`. */
  function UnsignedNumber(t: string): Num {
    if t == "Infinity" then PosInf
    else
      var i1 := DigitRunEnd(t, 0);
      var hasDot := i1 < |t| && t[i1] == '.';
      var i2 := if hasDot then DigitRunEnd(t, i1 + 1) else i1;
      if i1 == 0 && i2 <= 1 then NaN
      else WithExponent(t, i2, DecimalOf(t[..i1], if hasDot then t[i1 + 1..i2] else []))
  }

  /** The value of the digits `a`, a dot and the digits `b`. */
  function DecimalOf(a: string, b: string): real
    requires AllDigits(a) && AllDigits(b)
  {
    DigitsValue(a) as real + DigitsValue(b) as real / Pow10(|b|)
  }

  /** The rest of an unsigned literal from `i`, after the mantissa `m`:
      nothing, or an exponent that runs to the end of the text. */
  function WithExponent(t: string, i: nat, m: real): Num
    requires i <= |t|
  {
    if i < |t| && (t[i] == 'e' || t[i] == 'E') then
      var negative := i + 1 < |t| && t[i + 1] == '-';
      var es := if i + 1 < |t| && (t[i + 1] == '-' || t[i + 1] == '+') then i + 2 else i + 1;
      var ee := DigitRunEnd(t, es);
      if ee == es || ee != |t| then NaN
      else
        var e := DigitsValue(t[es..ee]);
        Finite(m * Pow10(if negative then -(e as int) else e as int))
    else if i != |t| then NaN
    else Finite(m)
  }

  /** The decimal text of a natural number reads back as that number. */
  lemma NatToStringNumber(n: nat)
    ensures StringToNumber(NatToString(n)) == Finite(n as real)
  {
    var s := NatToString(n);
    IntegerNumber(s);
    NatToStringRoundTrip(n);
  }

  lemma {:induction false} DigitRunIsAll(s: string, i: nat)
    requires i <= |s| && forall k :: i <= k < |s| ==> IsDigitChar(s[k])
    ensures DigitRunEnd(s, i) == |s|
    decreases |s| - i
  {
    if i < |s| {
      DigitRunIsAll(s, i + 1);
    }
  }

  predicate AllDigits(s: string) {
    forall k :: 0 <= k < |s| ==> IsDigitChar(s[k])
  }

  /** Digits, a dot and digits read as the decimal fraction. */
  lemma DecimalNumber(a: string, b: string)
    requires a != [] && AllDigits(a) && AllDigits(b)
    ensures StringToNumber(a + "." + b) == Finite(DecimalOf(a, b))
  {
    var t := a + "." + b;
    DecimalRuns(a, b);
    DecimalFromRuns(t, |a|, a, b);
  }

  /** Where the digit runs of `a + "." + b` end. */
  lemma DecimalRuns(a: string, b: string)
    requires a != [] && AllDigits(a) && AllDigits(b)
    ensures var t := a + "." + b;
            StringToNumber(t) == UnsignedNumber(t) && t[..|a|] == a && t[|a|] == '.' && t[|a| + 1..] == b
            && DigitRunEnd(t, 0) == |a| && DigitRunEnd(t, |a| + 1) == |t|
  {
    var t := a + "." + b;
    assert t[..|a|] == a;
    assert t[|a| + 1..] == b;
    assert IsDigitChar(t[|t| - 1]) || t[|t| - 1] == '.' by {
      if b != [] {
        assert t[|t| - 1] == b[|b| - 1];
      }
    }
    StartsWithDigit(t);
    DigitRunStops(t, 0, |a|);
    DigitRunIsAll(t, |a| + 1);
  }

  lemma DecimalFromRuns(t: string, i1: nat, a: string, b: string)
    requires i1 < |t| && AllDigits(a) && AllDigits(b) && a != []
    requires StringToNumber(t) == UnsignedNumber(t) && t[..i1] == a && t[i1] == '.' && t[i1 + 1..] == b
    requires DigitRunEnd(t, 0) == i1 && DigitRunEnd(t, i1 + 1) == |t|
    ensures StringToNumber(t) == Finite(DecimalOf(a, b))
  {
    assert t != "Infinity" by {
      assert t[0] == a[0];
    }
    assert t[i1 + 1..|t|] == b;
  }

  lemma NotSpace(c: char)
    requires IsDigitChar(c) || c == '.'
    ensures !IsSpace(c)
  {
  }

  /** A text that starts with a digit is read by `UnsignedNumber` as it is. */
  lemma StartsWithDigit(t: string)
    requires t != [] && IsDigitChar(t[0]) && (IsDigitChar(t[|t| - 1]) || t[|t| - 1] == '.')
    ensures StringToNumber(t) == UnsignedNumber(t) && t != "Infinity"
  {
    NotSpace(t[0]);
    NotSpace(t[|t| - 1]);
    TrimUnspaced(t);
    assert t[0] != "Infinity"[0];
  }

  lemma {:induction false} DigitRunStops(s: string, i: nat, e: nat)
    requires i <= e <= |s| && (forall k :: i <= k < e ==> IsDigitChar(s[k])) && (e == |s| || !IsDigitChar(s[e]))
    ensures DigitRunEnd(s, i) == e
    decreases e - i
  {
    if i < e {
      DigitRunStops(s, i + 1, e);
    }
  }

  /** A run of digits reads as its value. */
  lemma IntegerNumber(t: string)
    requires t != [] && AllDigits(t)
    ensures StringToNumber(t) == Finite(DigitsValue(t) as real)
  {
    StartsWithDigit(t);
    DigitRunIsAll(t, 0);
    assert t[..|t|] == t;
  }

  /** Two dots after a leading digit make the text `NaN`. */
  lemma TwoDotsNaN(t: string, i1: nat, j: nat)
    requires 0 < i1 < j < |t| && t[i1] == '.' && t[j] == '.'
    requires forall k :: 0 <= k < |t| ==> IsDigitChar(t[k]) || t[k] == '.'
    requires forall k :: 0 <= k < i1 ==> IsDigitChar(t[k])
    ensures StringToNumber(t) == NaN
  {
    StartsWithDigit(t);
    DigitRunStops(t, 0, i1);
    var i2 := DigitRunEnd(t, i1 + 1);
    assert i2 <= j && t[i2] == '.';
  }

  /** A text of white space only reads as 0. */
  lemma SpaceNumber(t: string)
    requires forall k :: 0 <= k < |t| ==> IsSpace(t[k])
    ensures StringToNumber(t) == Finite(0.0)
  {
    var i := LeadEnd(t, 0);
    assert i == |t|;
  }
}
