/** The range-expression engine of src/range.js: `parse` turns the text into
    tokens, `analysis` turns the tokens into intervals and rejects a clause
    whose lower bound is not below its upper bound, `check` asks whether some
    interval holds a value, and `validate` chains the three. */
module Ranges {
  import opened Common
  import opened JsNumbers

  // ---------------------------------------------------------------- tokens

  datatype Kind = OpenParen | CloseParen | OpenBracket | CloseBracket | Comma | Number | Whitespace | Sep

  datatype Token = Token(kind: Kind, value: string)

  /** The characters `/[0-9\.]/` accepts, which continue a number. */
  predicate IsNumberChar(c: char) {
    IsDigitChar(c) || c == '.'
  }

  /** The kind of the one-character token `c` yields, if it yields one. */
  function MarkOf(c: char): (k: Option<Kind>)
    ensures k.Some? ==> k.value !in {Number, Whitespace}
  {
    if c == '(' then Some(OpenParen)
    else if c == ')' then Some(CloseParen)
    else if c == '[' then Some(OpenBracket)
    else if c == ']' then Some(CloseBracket)
    else if c == ',' then Some(Comma)
    else if c == '&' then Some(Sep)
    else None
  }

  /** End of the maximal run of number characters from `i`. */
  function NumberRunEnd(code: string, i: nat): (e: nat)
    requires i <= |code|
    ensures i <= e <= |code|
    ensures forall k :: i <= k < e ==> IsNumberChar(code[k])
    ensures e == |code| || !IsNumberChar(code[e])
    decreases |code| - i
  {
    if i < |code| && IsNumberChar(code[i]) then NumberRunEnd(code, i + 1) else i
  }

  /** Where the scan resumes after the character at `i`: past the whole run
      when it starts a number or white space, else at the next character. */
  function After(code: string, i: nat): (j: nat)
    requires i < |code|
    ensures i < j <= |code|
  {
    if MarkOf(code[i]).Some? then i + 1
    else if IsDigitChar(code[i]) then NumberRunEnd(code, i + 1)
    else if IsSpace(code[i]) then LeadEnd(code, i + 1)
    else i + 1
  }

  /** The tokens the character at `i` (with its run) yields. */
  function Emitted(code: string, i: nat, keepWhitespace: bool): seq<Token>
    requires i < |code|
  {
    var c := code[i];
    if c == '(' then [Token(OpenParen, [c])]
    else if c == ')' then [Token(CloseParen, [c])]
    else if c == '[' then [Token(OpenBracket, [c])]
    else if c == ']' then [Token(CloseBracket, [c])]
    else if c == ',' then [Token(Comma, [c])]
    else if IsDigitChar(c) then [Token(Number, code[i..After(code, i)])]
    else if IsSpace(c) then (if keepWhitespace then [Token(Whitespace, code[i..After(code, i)])] else [])
    else if c == '&' then [Token(Sep, [c])]
    else []
  }

  /** The tokens `parse` pushes from index `i` on: one per punctuation
      character, one per maximal number run, one per white-space run when
      `keepWhitespace` (the source's `options.whitespace`), none for any
      other character. */
  function TokensFrom(code: string, i: nat, keepWhitespace: bool): seq<Token>
    decreases |code| - i
  {
    if i >= |code| then [] else Emitted(code, i, keepWhitespace) + TokensFrom(code, After(code, i), keepWhitespace)
  }

  /** What `parse(code)` returns: never more tokens than the text has characters. */
  function Tokens(code: string, keepWhitespace: bool): (tokens: seq<Token>)
    ensures |tokens| <= |code|
  {
    TokenCount(code, 0, keepWhitespace);
    TokensFrom(code, 0, keepWhitespace)
  }

  /** Each character, with the run it starts, yields at most one token. */
  lemma {:induction false} TokenCount(code: string, i: nat, keepWhitespace: bool)
    requires i <= |code|
    ensures |TokensFrom(code, i, keepWhitespace)| <= |code| - i
    decreases |code| - i
  {
    if i < |code| {
      TokenCount(code, After(code, i), keepWhitespace);
    }
  }

  /** One turn of the scan: the tokens so far and those still to come. */
  lemma ScanStep(code: string, start: nat, i: nat, keepWhitespace: bool, before: seq<Token>, tokens: seq<Token>)
    requires start < |code| && (i == After(code, start) || (i == |code| + 1 && After(code, start) == |code|))
    requires tokens == before + Emitted(code, start, keepWhitespace)
    ensures tokens + TokensFrom(code, i, keepWhitespace) == before + TokensFrom(code, start, keepWhitespace)
  {
    assert TokensFrom(code, i, keepWhitespace) == TokensFrom(code, After(code, start), keepWhitespace);
  }

  /** The inner loop of a number token: the value from `start` and the
      index `parse` resumes from, less one (the loop's `i--`, or the end). */
  method NumberRun(code: string, start: nat) returns (value: string, last: nat)
    requires start < |code| && IsDigitChar(code[start])
    ensures var e := NumberRunEnd(code, start + 1);
            value == code[start..e] && (last + 1 == e || (last == |code| && e == |code|))
  {
    value := [code[start]];
    last := start + 1;
    while last < |code|
      invariant start < last <= |code| && value == code[start..last]
      invariant NumberRunEnd(code, start + 1) == NumberRunEnd(code, last)
    {
      if IsNumberChar(code[last]) {
        value := value + [code[last]];
        last := last + 1;
      } else {
        last := last - 1;
        break;
      }
    }
  }

  /** The inner loop of a white-space token, as `NumberRun`. */
  method SpaceRun(code: string, start: nat) returns (value: string, last: nat)
    requires start < |code| && IsSpace(code[start])
    ensures var e := LeadEnd(code, start + 1);
            value == code[start..e] && (last + 1 == e || (last == |code| && e == |code|))
  {
    value := [code[start]];
    last := start + 1;
    while last < |code|
      invariant start < last <= |code| && value == code[start..last]
      invariant LeadEnd(code, start + 1) == LeadEnd(code, last)
    {
      if IsSpace(code[last]) {
        value := value + [code[last]];
        last := last + 1;
      } else {
        last := last - 1;
        break;
      }
    }
  }

  /** `parse(code, {whitespace: keepWhitespace})`. A number or white-space
      token is pushed once its value is complete: the source pushes the
      object first and appends to its value afterwards, which gives the same
      array since nothing reads it in between. */
  method Parse(code: string, keepWhitespace: bool) returns (tokens: seq<Token>)
    ensures tokens == Tokens(code, keepWhitespace)
  {
    tokens := [];
    var i := 0;
    while i < |code|
      invariant i <= |code| + 1
      invariant tokens + TokensFrom(code, i, keepWhitespace) == Tokens(code, keepWhitespace)
      decreases |code| + 1 - i
    {
      ghost var before := tokens;
      ghost var start := i;
      var c := code[i];
      if c == '(' {
        tokens := tokens + [Token(OpenParen, [c])];
      } else if c == ')' {
        tokens := tokens + [Token(CloseParen, [c])];
      } else if c == '[' {
        tokens := tokens + [Token(OpenBracket, [c])];
      } else if c == ']' {
        tokens := tokens + [Token(CloseBracket, [c])];
      } else if c == ',' {
        tokens := tokens + [Token(Comma, [c])];
      } else if IsDigitChar(c) {
        var value;
        value, i := NumberRun(code, i);
        tokens := tokens + [Token(Number, value)];
      } else if IsSpace(c) {
        var value;
        value, i := SpaceRun(code, i);
        if keepWhitespace {
          tokens := tokens + [Token(Whitespace, value)];
        }
      } else if c == '&' {
        tokens := tokens + [Token(Sep, [c])];
      }
      assert tokens == before + Emitted(code, start, keepWhitespace);
      assert i + 1 == After(code, start) || (i == |code| && After(code, start) == |code|);
      i := i + 1;
      ScanStep(code, start, i, keepWhitespace, before, tokens);
    }
  }

  // ------------------------------------------------------- facts on tokens

  lemma Assoc<T>(x: seq<T>, p: seq<T>, q: seq<T>)
    ensures x + (p + q) == (x + p) + q
  {
  }

  lemma SliceSplit<T>(s: seq<T>, i: nat, e: nat)
    requires i <= e <= |s|
    ensures s[i..] == s[i..e] + s[e..]
  {
  }

  lemma SliceCons<T>(s: seq<T>, i: nat, e: nat)
    requires i < e <= |s|
    ensures s[i..e] == [s[i]] + s[i + 1..e]
  {
  }

  /** The kinds of the punctuation tokens of `ts`, in order. */
  function Marks(ts: seq<Token>): seq<Kind> {
    if ts == [] then []
    else (if ts[0].kind == Number || ts[0].kind == Whitespace then [] else [ts[0].kind]) + Marks(ts[1..])
  }

  /** The punctuation characters of `s` as token kinds, in order. */
  function MarksOf(s: string): seq<Kind> {
    if s == [] then [] else (if MarkOf(s[0]).Some? then [MarkOf(s[0]).value] else []) + MarksOf(s[1..])
  }

  lemma {:induction false} MarksAppend(a: seq<Token>, b: seq<Token>)
    ensures Marks(a + b) == Marks(a) + Marks(b)
  {
    if a != [] {
      assert (a + b)[1..] == a[1..] + b;
      MarksAppend(a[1..], b);
    } else {
      assert a + b == b;
    }
  }

  lemma {:induction false} MarksOfAppend(a: string, b: string)
    ensures MarksOf(a + b) == MarksOf(a) + MarksOf(b)
  {
    if a != [] {
      assert (a + b)[1..] == a[1..] + b;
      MarksOfAppend(a[1..], b);
    } else {
      assert a + b == b;
    }
  }

  /** A text without punctuation characters has no marks. */
  lemma {:induction false} MarksOfNone(s: string)
    requires forall k :: 0 <= k < |s| ==> MarkOf(s[k]).None?
    ensures MarksOf(s) == []
  {
    if s != [] {
      MarksOfNone(s[1..]);
    }
  }

  lemma SpaceIsNoMark(c: char)
    requires IsSpace(c)
    ensures MarkOf(c).None? && !IsNumberChar(c)
  {
  }

  /** The marks of what one character emits are those of the text it spans. */
  lemma EmittedMarks(code: string, i: nat, keepWhitespace: bool)
    requires i < |code|
    ensures Marks(Emitted(code, i, keepWhitespace)) == MarksOf(code[i..After(code, i)])
  {
    var e := After(code, i);
    if MarkOf(code[i]).Some? {
      assert code[i..e] == [code[i]];
    } else if IsDigitChar(code[i]) || IsSpace(code[i]) {
      forall k | 0 <= k < e - i
        ensures MarkOf(code[i..e][k]).None?
      {
        if IsSpace(code[i + k]) {
          SpaceIsNoMark(code[i + k]);
        }
      }
      MarksOfNone(code[i..e]);
    } else {
      assert code[i..e] == [code[i]];
    }
  }

  /** Each of `( ) [ ] , &` yields exactly one token of its kind, and these
      tokens come in the order of their characters. */
  lemma {:induction false} MarksFrom(code: string, i: nat, keepWhitespace: bool)
    requires i <= |code|
    ensures Marks(TokensFrom(code, i, keepWhitespace)) == MarksOf(code[i..])
    decreases |code| - i
  {
    if i < |code| {
      var e := After(code, i);
      MarksFrom(code, e, keepWhitespace);
      MarksAppend(Emitted(code, i, keepWhitespace), TokensFrom(code, e, keepWhitespace));
      EmittedMarks(code, i, keepWhitespace);
      SliceSplit(code, i, e);
      MarksOfAppend(code[i..e], code[e..]);
    }
  }

  lemma PunctuationInOrder(code: string, keepWhitespace: bool)
    ensures Marks(Tokens(code, keepWhitespace)) == MarksOf(code)
  {
    MarksFrom(code, 0, keepWhitespace);
    assert code[0..] == code;
  }

  /** The shapes of the tokens: a single punctuation character, a digit
      followed by digits and dots, or white space. */
  predicate WellFormed(t: Token) {
    match t.kind
    case Number => t.value != [] && IsDigitChar(t.value[0]) && forall k :: 0 <= k < |t.value| ==> IsNumberChar(t.value[k])
    case Whitespace => t.value != [] && forall k :: 0 <= k < |t.value| ==> IsSpace(t.value[k])
    case _ => |t.value| == 1 && MarkOf(t.value[0]) == Some(t.kind)
  }

  lemma {:induction false} WellFormedFrom(code: string, i: nat, keepWhitespace: bool)
    ensures forall k :: 0 <= k < |TokensFrom(code, i, keepWhitespace)| ==> WellFormed(TokensFrom(code, i, keepWhitespace)[k])
    decreases |code| - i
  {
    if i < |code| {
      var e := After(code, i);
      WellFormedFrom(code, e, keepWhitespace);
      var head := Emitted(code, i, keepWhitespace);
      var rest := TokensFrom(code, e, keepWhitespace);
      assert forall k :: 0 <= k < |head| ==> WellFormed(head[k]);
      assert TokensFrom(code, i, keepWhitespace) == head + rest;
    }
  }

  lemma TokensWellFormed(code: string, keepWhitespace: bool)
    ensures forall k :: 0 <= k < |Tokens(code, keepWhitespace)| ==> WellFormed(Tokens(code, keepWhitespace)[k])
  {
    WellFormedFrom(code, 0, keepWhitespace);
  }

  /** The tokens that are not white space. */
  function Solid(ts: seq<Token>): (r: seq<Token>)
    ensures |r| <= |ts|
  {
    if ts == [] then []
    else (if ts[0].kind == Whitespace then [] else [ts[0]]) + Solid(ts[1..])
  }

  lemma {:induction false} SolidAppend(a: seq<Token>, b: seq<Token>)
    ensures Solid(a + b) == Solid(a) + Solid(b)
  {
    if a != [] {
      assert (a + b)[1..] == a[1..] + b;
      SolidAppend(a[1..], b);
    } else {
      assert a + b == b;
    }
  }

  lemma {:induction false} DropWhitespaceFrom(code: string, i: nat)
    ensures TokensFrom(code, i, false) == Solid(TokensFrom(code, i, true))
    decreases |code| - i
  {
    if i < |code| {
      var e := After(code, i);
      DropWhitespaceFrom(code, e);
      SolidAppend(Emitted(code, i, true), TokensFrom(code, e, true));
    }
  }

  /** White-space tokens are the only difference `options.whitespace` makes. */
  lemma DropWhitespace(code: string)
    ensures Tokens(code, false) == Solid(Tokens(code, true))
  {
    DropWhitespaceFrom(code, 0);
  }

  /** The token values, concatenated. */
  function Values(ts: seq<Token>): string {
    if ts == [] then [] else ts[0].value + Values(ts[1..])
  }

  lemma {:induction false} ValuesAppend(a: seq<Token>, b: seq<Token>)
    ensures Values(a + b) == Values(a) + Values(b)
  {
    if a != [] {
      assert (a + b)[1..] == a[1..] + b;
      ValuesAppend(a[1..], b);
    } else {
      assert a + b == b;
    }
  }

  /** Whether the character at `k` follows a digit through a run of dots and
      digits, so that a `.` there belongs to a number token. */
  predicate InNumber(code: string, k: nat)
    requires k <= |code|
  {
    k > 0 && (IsDigitChar(code[k - 1]) || (code[k - 1] == '.' && InNumber(code, k - 1)))
  }

  /** Whether the character at `k` ends up in some token's value when white
      space is kept. */
  predicate Kept(code: string, k: nat)
    requires k < |code|
  {
    MarkOf(code[k]).Some? || IsDigitChar(code[k]) || IsSpace(code[k]) || (code[k] == '.' && InNumber(code, k))
  }

  /** The characters of `code` from `i` on that some token keeps. */
  function KeptFrom(code: string, i: nat): string
    decreases |code| - i
  {
    if i >= |code| then [] else (if Kept(code, i) then [code[i]] else []) + KeptFrom(code, i + 1)
  }

  lemma {:induction false} KeptRun(code: string, i: nat, e: nat)
    requires i <= e <= |code| && forall k :: i <= k < e ==> Kept(code, k)
    ensures KeptFrom(code, i) == code[i..e] + KeptFrom(code, e)
    decreases e - i
  {
    if i < e {
      KeptRun(code, i + 1, e);
      assert Kept(code, i);
      assert KeptFrom(code, i) == [code[i]] + KeptFrom(code, i + 1);
      SliceCons(code, i, e);
      Assoc([code[i]], code[i + 1..e], KeptFrom(code, e));
    }
  }

  lemma {:induction false} DotsInNumber(code: string, i: nat, j: nat)
    requires i < |code| && i < j <= NumberRunEnd(code, i + 1) && IsDigitChar(code[i])
    ensures InNumber(code, j)
    decreases j
  {
    if j - 1 > i && !IsDigitChar(code[j - 1]) {
      DotsInNumber(code, i, j - 1);
    }
  }

  /** What one character emits keeps exactly the characters it spans, and
      the scan resumes at a character that is not a `.` of a number. */
  lemma EmittedValues(code: string, i: nat)
    requires i < |code| && (code[i] != '.' || !InNumber(code, i))
    ensures var e := After(code, i);
            KeptFrom(code, i) == Values(Emitted(code, i, true)) + KeptFrom(code, e)
            && (e == |code| || code[e] != '.' || !InNumber(code, e))
  {
    if MarkOf(code[i]).Some? {
      MarkValues(code, i);
    } else if IsDigitChar(code[i]) {
      NumberValues(code, i);
    } else if IsSpace(code[i]) {
      SpaceValues(code, i);
    } else {
      SkippedValues(code, i);
    }
  }

  /** A punctuation character is its own token. */
  lemma MarkValues(code: string, i: nat)
    requires i < |code| && MarkOf(code[i]).Some?
    ensures var e := After(code, i);
            KeptFrom(code, i) == Values(Emitted(code, i, true)) + KeptFrom(code, e)
            && (e == |code| || code[e] != '.' || !InNumber(code, e))
  {
    KeptRun(code, i, i + 1);
    OneValue(Emitted(code, i, true)[0]);
  }

  /** A character no rule takes emits nothing and is not kept. */
  lemma SkippedValues(code: string, i: nat)
    requires i < |code| && (code[i] != '.' || !InNumber(code, i))
    requires MarkOf(code[i]).None? && !IsDigitChar(code[i]) && !IsSpace(code[i])
    ensures var e := After(code, i);
            KeptFrom(code, i) == Values(Emitted(code, i, true)) + KeptFrom(code, e)
            && (e == |code| || code[e] != '.' || !InNumber(code, e))
  {
  }

  /** A number token keeps its digits and dots, and the scan resumes past them. */
  lemma NumberValues(code: string, i: nat)
    requires i < |code| && IsDigitChar(code[i])
    ensures var e := After(code, i);
            KeptFrom(code, i) == Values(Emitted(code, i, true)) + KeptFrom(code, e)
            && (e == |code| || code[e] != '.' || !InNumber(code, e))
  {
    var e := After(code, i);
    forall k | i < k < e
      ensures Kept(code, k)
    {
      if !IsDigitChar(code[k]) {
        DotsInNumber(code, i, k);
      }
    }
    KeptRun(code, i, e);
    OneValue(Token(Number, code[i..e]));
  }

  lemma OneValue(t: Token)
    ensures Values([t]) == t.value
  {
    assert [t][1..] == [];
  }

  /** A white-space token keeps its run, and the scan resumes past it. */
  lemma SpaceValues(code: string, i: nat)
    requires i < |code| && IsSpace(code[i])
    ensures var e := After(code, i);
            KeptFrom(code, i) == Values(Emitted(code, i, true)) + KeptFrom(code, e)
            && (e == |code| || code[e] != '.' || !InNumber(code, e))
  {
    var e := After(code, i);
    KeptRun(code, i, e);
    SpaceIsNoMark(code[e - 1]);
    assert IsSpace(code[i]) && !IsDigitChar(code[i]) && MarkOf(code[i]).None?;
    OneValue(Token(Whitespace, code[i..e]));
  }

  lemma {:induction false} ValuesFrom(code: string, i: nat)
    requires i <= |code| && (i == |code| || code[i] != '.' || !InNumber(code, i))
    ensures Values(TokensFrom(code, i, true)) == KeptFrom(code, i)
    decreases |code| - i
  {
    if i < |code| {
      var e := After(code, i);
      EmittedValues(code, i);
      ValuesFrom(code, e);
      ValuesAppend(Emitted(code, i, true), TokensFrom(code, e, true));
    }
  }

  /** With white space kept, the token values spell the input without the
      characters `parse` skips. */
  lemma ValuesSpellInput(code: string)
    ensures Values(Tokens(code, true)) == KeptFrom(code, 0)
  {
    ValuesFrom(code, 0);
  }

  // ------------------------------------------------------------ intervals

  /** The value of one side of an interval: never set, one of the two
      infinities `analysis` writes, or the value of a token. */
  datatype Bound = Unset | NegInfinity | PosInfinity | Text(text: string)

  /** One side: `inclusive` (the source's `include`) is absent until `analysis` sets it. */
  datatype Side = Side(inclusive: Option<bool>, value: Bound)

  datatype Extreme = Extreme(min: Side, max: Side)

  /** The `{min: {}, max: {}}` a clause starts from. */
  const Blank := Extreme(Side(None, Unset), Side(None, Unset))

  predicate IsOpener(k: Kind) { k == OpenParen || k == OpenBracket }

  /** The kinds whose name contains `close`. */
  predicate IsCloser(k: Kind) { k == CloseParen || k == CloseBracket }

  /** The kinds whose name contains `bracket`. */
  predicate HasBracket(k: Kind) { k == OpenBracket || k == CloseBracket }

  predicate Truthy(b: Option<bool>) { b == Some(true) }

  /** What the token `ts[0]` does to the clause under construction; reading
      the type of a token past the end is a TypeError. */
  function Turn(ts: seq<Token>, current: Extreme): (r: Result<Extreme>)
    requires ts != []
    ensures r.Err? ==> r == Err(TypeError) && |ts| <= 2
    ensures r.Ok? ==> r.value.min == current.min || r.value.max == current.max
  {
    var t := ts[0];
    if IsOpener(t.kind) then
      if |ts| < 2 then Err(TypeError)
      else Ok(current.(min := Side(Some(t.kind == OpenBracket), if ts[1].kind == Comma then NegInfinity else Text(ts[1].value))))
    else if t.kind == Comma then
      if |ts| < 2 then Err(TypeError)
      else if IsCloser(ts[1].kind) then Ok(current.(max := Side(None, PosInfinity)))
      else if ts[1].kind == Number then
        if |ts| < 3 then Err(TypeError)
        else Ok(current.(max := Side(Some(HasBracket(ts[2].kind)), Text(ts[1].value))))
      else Ok(current.(max := Side(None, Unset)))
    else Ok(current)
  }

  /** Whether `ts[0]` completes a clause: a closer that is last or followed by `&`. */
  predicate Closes(ts: seq<Token>)
    requires ts != []
  {
    IsCloser(ts[0].kind) && (|ts| == 1 || ts[1].kind == Sep)
  }

  /** The first loop of `analysis` over the tokens `ts` still to come. */
  function Collect(ts: seq<Token>, current: Extreme, extremes: seq<Extreme>): Result<seq<Extreme>>
    decreases |ts|
  {
    if ts == [] then Ok(extremes)
    else
      var next :- Turn(ts, current);
      if Closes(ts) then Collect(ts[1..], Blank, extremes + [next])
      else Collect(ts[1..], next, extremes)
  }

  /** `Number(bound.value)`. */
  function BoundNumber(b: Bound): Num {
    match b
    case Unset => NaN
    case NegInfinity => NegInf
    case PosInfinity => PosInf
    case Text(s) => StringToNumber(s)
  }

  /** `'' + bound.value`. */
  function Render(b: Bound): string {
    match b
    case Unset => "undefined"
    case NegInfinity => "-Infinity"
    case PosInfinity => "Infinity"
    case Text(s) => s
  }

  /** The clause as the error message shows it. */
  function Rendered(e: Extreme): string {
    (if Truthy(e.min.inclusive) then "[" else "(") + Render(e.min.value) + ", "
      + Render(e.max.value) + (if Truthy(e.max.inclusive) then "]" else ")")
  }

  /** `Number(min.value) >= Number(max.value)`. */
  predicate Disordered(e: Extreme) {
    LessEq(BoundNumber(e.max.value), BoundNumber(e.min.value))
  }

  /** The second loop of `analysis`, from clause `i` on. */
  function OrderCheck(es: seq<Extreme>, i: nat): (r: Outcome)
    ensures r.Fail? ==> r.error.RangeError? && i < |es|
    decreases |es| - i
  {
    if i >= |es| then Pass
    else if Disordered(es[i]) then Fail(RangeError("Range Error at " + NatToString(i) + " for " + Rendered(es[i])))
    else OrderCheck(es, i + 1)
  }

  /** What `analysis(tokens)` returns or throws. */
  function Intervals(tokens: seq<Token>): (r: Result<seq<Extreme>>)
    ensures r.Err? ==> r.error == TypeError || r.error.RangeError?
  {
    CollectFails(tokens, Blank, []);
    var es :- Collect(tokens, Blank, []);
    var ordered := OrderCheck(es, 0);
    if ordered.Fail? then Err(ordered.error) else Ok(es)
  }

  /** `analysis(tokens)`. */
  method Analysis(tokens: seq<Token>) returns (r: Result<seq<Extreme>>)
    ensures r == Intervals(tokens)
  {
    var extremes := [];
    var current := Blank;
    var i := 0;
    while i < |tokens|
      invariant i <= |tokens|
      invariant Collect(tokens[i..], current, extremes) == Collect(tokens, Blank, [])
    {
      assert tokens[i..][1..] == tokens[i + 1..];
      var token := tokens[i];
      if token.kind == OpenParen || token.kind == OpenBracket {
        if i + 1 >= |tokens| {
          return Err(TypeError);
        }
        var nextToken := tokens[i + 1];
        current := current.(min := Side(Some(token.kind == OpenBracket), Unset));
        if nextToken.kind == Comma {
          current := current.(min := current.min.(value := NegInfinity));
        } else {
          current := current.(min := current.min.(value := Text(nextToken.value)));
        }
      }
      if token.kind == Comma {
        if i + 1 >= |tokens| {
          return Err(TypeError);
        }
        var nextToken := tokens[i + 1];
        current := current.(max := Side(None, Unset));
        if nextToken.kind == CloseParen || nextToken.kind == CloseBracket {
          current := current.(max := current.max.(value := PosInfinity));
        } else if nextToken.kind == Number {
          if i + 2 >= |tokens| {
            return Err(TypeError);
          }
          var nextNextToken := tokens[i + 2];
          current := current.(max := Side(Some(HasBracket(nextNextToken.kind)), Text(nextToken.value)));
        }
      }
      if token.kind == CloseParen || token.kind == CloseBracket {
        if i + 1 >= |tokens| || tokens[i + 1].kind == Sep {
          extremes := extremes + [current];
          current := Blank;
        }
      }
      i := i + 1;
    }
    var k := 0;
    while k < |extremes|
      invariant k <= |extremes|
      invariant OrderCheck(extremes, k) == OrderCheck(extremes, 0)
    {
      var e := extremes[k];
      if LessEq(BoundNumber(e.max.value), BoundNumber(e.min.value)) {
        return Err(RangeError("Range Error at " + NatToString(k) + " for " + Rendered(e)));
      }
      k := k + 1;
    }
    r := Ok(extremes);
  }

  // ---------------------------------------------------- facts on intervals

  /** The token lists on which `analysis` reads a type past the end: the
      last token is an opener or a comma, or the last two are a comma and a
      number. */
  predicate Dangles(ts: seq<Token>) {
    (|ts| >= 1 && (IsOpener(ts[|ts| - 1].kind) || ts[|ts| - 1].kind == Comma))
    || (|ts| >= 2 && ts[|ts| - 2].kind == Comma && ts[|ts| - 1].kind == Number)
  }

  /** The first loop of `analysis` throws exactly on dangling token lists,
      and then a TypeError. */
  lemma {:induction false} CollectFails(ts: seq<Token>, current: Extreme, extremes: seq<Extreme>)
    ensures Collect(ts, current, extremes).Err? <==> Dangles(ts)
    ensures Collect(ts, current, extremes).Err? ==> Collect(ts, current, extremes).error == TypeError
    decreases |ts|
  {
    if ts != [] {
      var r := Turn(ts, current);
      if r.Ok? {
        var rest := ts[1..];
        if Closes(ts) {
          CollectFails(rest, Blank, extremes + [r.value]);
        } else {
          CollectFails(rest, r.value, extremes);
        }
        if |ts| >= 2 {
          assert rest[|rest| - 1] == ts[|ts| - 1];
        }
        if |ts| >= 3 {
          assert rest[|rest| - 2] == ts[|ts| - 2];
        }
      }
    }
  }

  /** The number of closers that are last or followed by `&`. */
  function Closings(ts: seq<Token>): nat {
    if ts == [] then 0 else (if Closes(ts) then 1 else 0) + Closings(ts[1..])
  }

  /** One interval is appended per closer that is last or followed by `&`,
      after those already collected. */
  lemma {:induction false} CollectCount(ts: seq<Token>, current: Extreme, extremes: seq<Extreme>)
    ensures var r := Collect(ts, current, extremes);
            r.Ok? ==> |r.value| == |extremes| + Closings(ts) && r.value[..|extremes|] == extremes
    decreases |ts|
  {
    if ts != [] && Turn(ts, current).Ok? {
      var next := Turn(ts, current).value;
      if Closes(ts) {
        CollectCount(ts[1..], Blank, extremes + [next]);
        var r := Collect(ts, current, extremes);
        if r.Ok? {
          assert r.value[..|extremes|] == r.value[..|extremes| + 1][..|extremes|];
        }
      } else {
        CollectCount(ts[1..], next, extremes);
      }
    }
  }

  /** A clause in its usual shape: `(` or `[`, an optional lower number, a
      comma, an optional upper number, `)` or `]`. */
  datatype Clause = Clause(lowInclusive: bool, low: Option<string>, high: Option<string>, highInclusive: bool)

  function ClauseTokens(c: Clause): seq<Token> {
    [if c.lowInclusive then Token(OpenBracket, "[") else Token(OpenParen, "(")]
    + (if c.low.Some? then [Token(Number, c.low.value)] else [])
    + [Token(Comma, ",")]
    + (if c.high.Some? then [Token(Number, c.high.value)] else [])
    + [if c.highInclusive then Token(CloseBracket, "]") else Token(CloseParen, ")")]
  }

  /** The interval such a clause denotes: the lower end is inclusive iff the
      opener is `[` and is -Infinity when no number precedes the comma; an
      upper end with no number is +Infinity with `include` unset, otherwise
      inclusive iff the closer is `]`. */
  function Expected(c: Clause): Extreme {
    Extreme(Side(Some(c.lowInclusive), if c.low.Some? then Text(c.low.value) else NegInfinity),
            if c.high.Some? then Side(Some(c.highInclusive), Text(c.high.value)) else Side(None, PosInfinity))
  }

  lemma CollectStep(ts: seq<Token>, current: Extreme, extremes: seq<Extreme>)
    requires ts != [] && Turn(ts, current).Ok? && !Closes(ts)
    ensures Collect(ts, current, extremes) == Collect(ts[1..], Turn(ts, current).value, extremes)
  {
  }

  /** A closer appends the interval when nothing or `&` follows it. */
  lemma CloserCollect(closer: Token, rest: seq<Token>, e: Extreme, extremes: seq<Extreme>)
    requires IsCloser(closer.kind)
    ensures Collect([closer] + rest, e, extremes)
            == if rest == [] || rest[0].kind == Sep then Collect(rest, Blank, extremes + [e])
               else Collect(rest, e, extremes)
  {
    var ts := [closer] + rest;
    assert ts[1..] == rest;
    assert ts[0] == closer && (rest != [] ==> ts[1] == rest[0]);
  }

  /** From the comma on, a clause sets the upper end of its interval. */
  lemma CommaCollect(c: Clause, rest: seq<Token>, e1: Extreme, extremes: seq<Extreme>)
    requires e1.min == Expected(c).min
    ensures var closer := if c.highInclusive then Token(CloseBracket, "]") else Token(CloseParen, ")");
            var highT := if c.high.Some? then [Token(Number, c.high.value)] else [];
            Collect([Token(Comma, ",")] + highT + [closer] + rest, e1, extremes)
              == Collect([closer] + rest, Expected(c), extremes)
  {
    var closer := if c.highInclusive then Token(CloseBracket, "]") else Token(CloseParen, ")");
    var highT := if c.high.Some? then [Token(Number, c.high.value)] else [];
    var ts4 := [closer] + rest;
    var ts3 := highT + ts4;
    var ts2 := [Token(Comma, ",")] + ts3;
    assert [Token(Comma, ",")] + highT + [closer] + rest == ts2;
    if c.high.Some? {
      assert ts2[1] == Token(Number, c.high.value) && ts2[2] == closer;
    } else {
      assert ts2[1] == closer;
    }
    var e2 := Turn(ts2, e1).value;
    assert e2 == Expected(c);
    CollectStep(ts2, e1, extremes);
    assert ts2[1..] == ts3;
    if c.high.Some? {
      CollectStep(ts3, e2, extremes);
      assert ts3[1..] == ts4;
    }
  }

  /** An opener and the optional lower number set the lower end. */
  lemma OpenerCollect(c: Clause, ts2: seq<Token>, current: Extreme, extremes: seq<Extreme>)
    requires ts2 != [] && ts2[0].kind == Comma
    ensures var opener := if c.lowInclusive then Token(OpenBracket, "[") else Token(OpenParen, "(");
            var lowT := if c.low.Some? then [Token(Number, c.low.value)] else [];
            Collect([opener] + lowT + ts2, current, extremes)
              == Collect(ts2, current.(min := Expected(c).min), extremes)
  {
    var opener := if c.lowInclusive then Token(OpenBracket, "[") else Token(OpenParen, "(");
    var lowT := if c.low.Some? then [Token(Number, c.low.value)] else [];
    var ts1 := lowT + ts2;
    var ts0 := [opener] + ts1;
    assert [opener] + lowT + ts2 == ts0;
    var e1 := Turn(ts0, current).value;
    assert e1 == current.(min := Expected(c).min);
    CollectStep(ts0, current, extremes);
    assert ts0[1..] == ts1;
    if c.low.Some? {
      CollectStep(ts1, e1, extremes);
      assert ts1[1..] == ts2;
    } else {
      assert ts1 == ts2;
    }
  }

  /** The tokens of a clause turn whatever was being built into the clause's
      interval, which is appended when what follows is nothing or `&`. */
  lemma ClauseCollect(c: Clause, rest: seq<Token>, current: Extreme, extremes: seq<Extreme>)
    ensures Collect(ClauseTokens(c) + rest, current, extremes)
            == if rest == [] || rest[0].kind == Sep then Collect(rest, Blank, extremes + [Expected(c)])
               else Collect(rest, Expected(c), extremes)
  {
    var opener := if c.lowInclusive then Token(OpenBracket, "[") else Token(OpenParen, "(");
    var closer := if c.highInclusive then Token(CloseBracket, "]") else Token(CloseParen, ")");
    var lowT := if c.low.Some? then [Token(Number, c.low.value)] else [];
    var highT := if c.high.Some? then [Token(Number, c.high.value)] else [];
    var ts2 := [Token(Comma, ",")] + highT + [closer] + rest;
    assert ClauseTokens(c) + rest == [opener] + lowT + ts2;
    OpenerCollect(c, ts2, current, extremes);
    var e1 := current.(min := Expected(c).min);
    CommaCollect(c, rest, e1, extremes);
    assert Collect(ClauseTokens(c) + rest, current, extremes) == Collect([closer] + rest, Expected(c), extremes);
    CloserCollect(closer, rest, Expected(c), extremes);
  }

  /** Clauses joined by `&`. */
  function Joined(cs: seq<Clause>): seq<Token> {
    if cs == [] then []
    else ClauseTokens(cs[0]) + (if |cs| == 1 then [] else [Token(Sep, "&")] + Joined(cs[1..]))
  }

  function ExpectedAll(cs: seq<Clause>): (es: seq<Extreme>)
    ensures |es| == |cs| && forall k :: 0 <= k < |cs| ==> es[k] == Expected(cs[k])
  {
    if cs == [] then [] else [Expected(cs[0])] + ExpectedAll(cs[1..])
  }

  /** Clauses joined by `&` give their intervals, in order. */
  lemma {:induction false} JoinedCollect(cs: seq<Clause>, current: Extreme, extremes: seq<Extreme>)
    ensures Collect(Joined(cs), current, extremes) == Ok(extremes + ExpectedAll(cs))
    decreases |cs|
  {
    if |cs| == 1 {
      ClauseCollect(cs[0], [], current, extremes);
      assert Joined(cs) == ClauseTokens(cs[0]) + [];
      assert ExpectedAll(cs) == [Expected(cs[0])];
    } else if |cs| > 1 {
      var rest := [Token(Sep, "&")] + Joined(cs[1..]);
      ClauseCollect(cs[0], rest, current, extremes);
      var more := extremes + [Expected(cs[0])];
      CollectStep(rest, Blank, more);
      assert rest[1..] == Joined(cs[1..]);
      JoinedCollect(cs[1..], Blank, more);
      assert more + ExpectedAll(cs[1..]) == extremes + ExpectedAll(cs);
    } else {
      assert extremes + [] == extremes;
    }
  }

  /** Two clauses with no `&` between them give one interval, the second's:
      the first closer is followed by neither `&` nor the end. */
  lemma UnseparatedClauses(c1: Clause, c2: Clause)
    ensures Collect(ClauseTokens(c1) + ClauseTokens(c2), Blank, []) == Ok([Expected(c2)])
  {
    var ts2 := ClauseTokens(c2);
    assert ts2 != [] && ts2[0].kind != Sep;
    ClauseCollect(c1, ts2, Blank, []);
    ClauseCollect(c2, [], Expected(c1), []);
    assert ts2 + [] == ts2;
    assert [] + [Expected(c2)] == [Expected(c2)];
  }

  /** The second loop of `analysis` reports the first disordered clause, by
      its index and rendering, and passes when there is none. */
  lemma {:induction false} FirstDisorderReported(es: seq<Extreme>, i: nat)
    requires i <= |es|
    ensures OrderCheck(es, i) == Pass <==> forall k :: i <= k < |es| ==> !Disordered(es[k])
    ensures OrderCheck(es, i).Fail? ==>
              exists k :: i <= k < |es| && Disordered(es[k]) && (forall m :: i <= m < k ==> !Disordered(es[m]))
                          && OrderCheck(es, i).error == RangeError("Range Error at " + NatToString(k) + " for " + Rendered(es[k]))
    decreases |es| - i
  {
    if i < |es| {
      if Disordered(es[i]) {
        assert OrderCheck(es, i).error == RangeError("Range Error at " + NatToString(i) + " for " + Rendered(es[i]));
      } else {
        FirstDisorderReported(es, i + 1);
        if OrderCheck(es, i).Fail? {
          var k :| i + 1 <= k < |es| && Disordered(es[k]) && (forall m :: i + 1 <= m < k ==> !Disordered(es[m]))
                   && OrderCheck(es, i + 1).error == RangeError("Range Error at " + NatToString(k) + " for " + Rendered(es[k]));
          assert forall m :: i <= m < k ==> !Disordered(es[m]);
        }
      }
    }
  }

  /** The lower end is below the upper end, or one of them is `NaN`. */
  predicate Proper(e: Extreme) {
    BoundNumber(e.min.value).NaN? || BoundNumber(e.max.value).NaN? || Less(BoundNumber(e.min.value), BoundNumber(e.max.value))
  }

  /** `analysis` throws a TypeError exactly on dangling token lists; on the
      others it throws exactly when some clause is disordered, and every
      interval it returns has its lower end below its upper end unless one
      of them is `NaN`. */
  lemma IntervalsOutcome(tokens: seq<Token>)
    ensures Dangles(tokens) <==> Intervals(tokens) == Err(TypeError)
    ensures !Dangles(tokens) ==>
              (Collect(tokens, Blank, []).Ok?
               && (Intervals(tokens).Ok? <==> forall k :: 0 <= k < |Collect(tokens, Blank, []).value| ==> !Disordered(Collect(tokens, Blank, []).value[k])))
    ensures Intervals(tokens).Ok? ==>
              forall k :: 0 <= k < |Intervals(tokens).value| ==> Proper(Intervals(tokens).value[k])
  {
    CollectFails(tokens, Blank, []);
    var c := Collect(tokens, Blank, []);
    if c.Ok? {
      FirstDisorderReported(c.value, 0);
      if OrderCheck(c.value, 0).Fail? {
        assert OrderCheck(c.value, 0).error.RangeError?;
      }
      forall k | 0 <= k < |c.value| && !Disordered(c.value[k])
        ensures Proper(c.value[k])
      {
        OrderTotal(BoundNumber(c.value[k].max.value), BoundNumber(c.value[k].min.value));
      }
    }
  }

  /** Equal bounds fail whatever the brackets are. */
  lemma EqualBoundsRejected(s: string, lowInclusive: bool, highInclusive: bool)
    requires !StringToNumber(s).NaN?
    ensures Intervals(ClauseTokens(Clause(lowInclusive, Some(s), Some(s), highInclusive)))
              == Err(RangeError("Range Error at 0 for " + (if lowInclusive then "[" else "(") + s + ", " + s + (if highInclusive then "]" else ")")))
  {
    var c := Clause(lowInclusive, Some(s), Some(s), highInclusive);
    JoinedCollect([c], Blank, []);
    assert Joined([c]) == ClauseTokens(c) + [] == ClauseTokens(c);
    var e := Expected(c);
    assert [] + ExpectedAll([c]) == [e];
    assert Collect(ClauseTokens(c), Blank, []) == Ok([e]);
    assert Disordered(e);
    assert e.min == Side(Some(lowInclusive), Text(s)) && e.max == Side(Some(highInclusive), Text(s));
    var open := if lowInclusive then "[" else "(";
    var close := if highInclusive then "]" else ")";
    assert Rendered(e) == open + s + ", " + s + close;
    assert "Range Error at " + NatToString(0) + " for " == "Range Error at 0 for " by {
      assert NatToString(0) == "0";
    }
    ConcatAssoc("Range Error at 0 for ", open, s, ", ", close);
  }

  lemma ConcatAssoc(x: string, a: string, s: string, m: string, b: string)
    ensures x + (a + s + m + s + b) == x + a + s + m + s + b
  {
  }

  lemma DotSplit(s: string, i: nat)
    requires i < |s| && s[i] == '.'
    ensures s == s[..i] + "." + s[i + 1..]
  {
  }

  /** The value `Number` gives a number token's text: the exact decimal when
      it holds at most one dot, `NaN` when it holds two or more. */
  lemma NumberTokenValue(s: string)
    requires WellFormed(Token(Number, s))
    ensures var i := DigitRunEnd(s, 0);
            StringToNumber(s)
              == if i == |s| then Finite(DigitsValue(s) as real)
                 else if AllDigits(s[i + 1..]) then Finite(DecimalOf(s[..i], s[i + 1..]))
                 else NaN
  {
    var i := DigitRunEnd(s, 0);
    if i == |s| {
      IntegerNumber(s);
    } else if AllDigits(s[i + 1..]) {
      DecimalToken(s, i);
    } else {
      DoubleDotToken(s, i);
    }
  }

  /** A number token with one dot is its decimal fraction. */
  lemma DecimalToken(s: string, i: nat)
    requires WellFormed(Token(Number, s))
    requires i == DigitRunEnd(s, 0) < |s| && AllDigits(s[i + 1..])
    ensures StringToNumber(s) == Finite(DecimalOf(s[..i], s[i + 1..]))
  {
    assert IsNumberChar(s[i]);
    DotSplit(s, i);
    DecimalNumber(s[..i], s[i + 1..]);
  }

  /** A number token with a second dot is `NaN`. */
  lemma DoubleDotToken(s: string, i: nat)
    requires WellFormed(Token(Number, s))
    requires i == DigitRunEnd(s, 0) < |s| && !AllDigits(s[i + 1..])
    ensures StringToNumber(s) == NaN
  {
    var k :| 0 <= k < |s[i + 1..]| && !IsDigitChar(s[i + 1..][k]);
    TwoDotsNaN(s, i, i + 1 + k);
  }

  // ------------------------------------------------------------ membership

  /** Whether the interval admits `value`: non-strict at an inclusive end,
      strict otherwise; every comparison with `NaN` is false. */
  predicate Admits(e: Extreme, value: Num) {
    var lo := BoundNumber(e.min.value);
    var hi := BoundNumber(e.max.value);
    (if Truthy(e.min.inclusive) then LessEq(lo, value) else Less(lo, value))
    && (if Truthy(e.max.inclusive) then LessEq(value, hi) else Less(value, hi))
  }

  /** The `reduce` of `check` from the accumulator `prev` on. The callback's
      `current` is a fresh variable on each call and undefined where it is
      read, so each interval is tested on its own. */
  function Reduce(value: Num, es: seq<Extreme>, prev: bool): (b: bool)
    ensures b <==> prev || exists k :: 0 <= k < |es| && Admits(es[k], value)
  {
    if es == [] then prev
    else
      assert forall k :: 0 < k < |es| ==> es[1..][k - 1] == es[k];
      Reduce(value, es[1..], prev || Admits(es[0], value))
  }

  /** `check(value, congregate)`: whether some interval admits the value;
      false for an empty list. */
  function Check(value: Num, congregate: seq<Extreme>): (b: bool)
    ensures b <==> exists k :: 0 <= k < |congregate| && Admits(congregate[k], value)
  {
    Reduce(value, congregate, false)
  }

  /** The intervals of a list made of two parts are the union of theirs. */
  lemma CheckUnion(value: Num, a: seq<Extreme>, b: seq<Extreme>)
    ensures Check(value, a + b) == (Check(value, a) || Check(value, b))
  {
    if Check(value, a) {
      var k :| 0 <= k < |a| && Admits(a[k], value);
      assert (a + b)[k] == a[k];
    }
    if Check(value, b) {
      var k :| 0 <= k < |b| && Admits(b[k], value);
      assert (a + b)[|a| + k] == b[k];
    }
    if Check(value, a + b) {
      var k :| 0 <= k < |a + b| && Admits((a + b)[k], value);
      if k < |a| {
        assert (a + b)[k] == a[k];
      } else {
        assert (a + b)[k] == b[k - |a|];
      }
    }
  }

  /** What the exported `validate(value, range)` returns or throws: the
      range text is parsed without white-space tokens. */
  function Validation(value: Num, range: string): (r: Result<bool>)
    ensures r.Err? <==> Intervals(Tokens(range, false)).Err?
    ensures r.Err? ==> r.error == Intervals(Tokens(range, false)).error
    ensures r.Ok? ==> (r.value <==> exists k :: 0 <= k < |Intervals(Tokens(range, false)).value|
                                               && Admits(Intervals(Tokens(range, false)).value[k], value))
  {
    var congregate :- Intervals(Tokens(range, false));
    Ok(Check(value, congregate))
  }

  /** `validate(value, range)`. */
  method Validate(value: Num, range: string) returns (r: Result<bool>)
    ensures r == Validation(value, range)
  {
    var tokens := Parse(range, false);
    var congregate :- Analysis(tokens);
    r := Ok(Check(value, congregate));
  }

  // ------------------------------------------------- from text to intervals

  /** Two texts whose tokens do not run into each other: one of them is
      empty, or a punctuation character stands at the seam. */
  predicate Clean(a: string, b: string) {
    a == [] || b == [] || MarkOf(a[|a| - 1]).Some? || MarkOf(b[0]).Some?
  }

  lemma MarkIsSolid(c: char)
    requires MarkOf(c).Some?
    ensures !IsNumberChar(c) && !IsSpace(c)
  {
  }

  lemma {:induction false} NumberRunShift(a: string, b: string, j: nat)
    requires j <= |b|
    ensures NumberRunEnd(a + b, |a| + j) == |a| + NumberRunEnd(b, j)
    decreases |b| - j
  {
    if j < |b| {
      assert (a + b)[|a| + j] == b[j];
      if IsNumberChar(b[j]) {
        NumberRunShift(a, b, j + 1);
      }
    }
  }

  lemma {:induction false} SpaceRunShift(a: string, b: string, j: nat)
    requires j <= |b|
    ensures LeadEnd(a + b, |a| + j) == |a| + LeadEnd(b, j)
    decreases |b| - j
  {
    if j < |b| {
      assert (a + b)[|a| + j] == b[j];
      if IsSpace(b[j]) {
        SpaceRunShift(a, b, j + 1);
      }
    }
  }

  /** A prefix does not change the tokens of what follows it. */
  lemma {:induction false} TokensShift(a: string, b: string, j: nat, keepWhitespace: bool)
    requires j <= |b|
    ensures TokensFrom(a + b, |a| + j, keepWhitespace) == TokensFrom(b, j, keepWhitespace)
    decreases |b| - j
  {
    if j < |b| {
      var e := After(b, j);
      EmittedShift(a, b, j, keepWhitespace);
      TokensShift(a, b, e, keepWhitespace);
    }
  }

  /** One step of the scan is the same with a prefix before it. */
  lemma EmittedShift(a: string, b: string, j: nat, keepWhitespace: bool)
    requires j < |b|
    ensures After(a + b, |a| + j) == |a| + After(b, j)
    ensures Emitted(a + b, |a| + j, keepWhitespace) == Emitted(b, j, keepWhitespace)
  {
    AfterShift(a, b, j);
    var e := After(b, j);
    assert (a + b)[|a| + j] == b[j];
    assert (a + b)[|a| + j..|a| + e] == b[j..e];
  }

  lemma AfterShift(a: string, b: string, j: nat)
    requires j < |b|
    ensures After(a + b, |a| + j) == |a| + After(b, j)
  {
    assert (a + b)[|a| + j] == b[j];
    NumberRunShift(a, b, j + 1);
    SpaceRunShift(a, b, j + 1);
  }

  lemma {:induction false} NumberRunKeep(a: string, b: string, j: nat)
    requires j <= |a| && (b == [] || !IsNumberChar(b[0]) || (j < |a| && !IsNumberChar(a[|a| - 1])))
    ensures NumberRunEnd(a + b, j) == NumberRunEnd(a, j)
    decreases |a| - j
  {
    if j < |a| {
      assert (a + b)[j] == a[j];
      if IsNumberChar(a[j]) {
        NumberRunKeep(a, b, j + 1);
      }
    } else if b != [] {
      assert (a + b)[j] == b[0];
    }
  }

  lemma {:induction false} SpaceRunKeep(a: string, b: string, j: nat)
    requires j <= |a| && (b == [] || !IsSpace(b[0]) || (j < |a| && !IsSpace(a[|a| - 1])))
    ensures LeadEnd(a + b, j) == LeadEnd(a, j)
    decreases |a| - j
  {
    if j < |a| {
      assert (a + b)[j] == a[j];
      if IsSpace(a[j]) {
        SpaceRunKeep(a, b, j + 1);
      }
    } else if b != [] {
      assert (a + b)[j] == b[0];
    }
  }

  /** Before the seam of clean texts, a run ends at the same place in
      `a + b` as in `a`. */
  lemma AppendAfter(a: string, b: string, i: nat)
    requires i < |a| && Clean(a, b)
    ensures (a + b)[i] == a[i] && After(a + b, i) == After(a, i)
  {
    assert (a + b)[i] == a[i];
    if a != [] && MarkOf(a[|a| - 1]).Some? {
      MarkIsSolid(a[|a| - 1]);
    }
    if b != [] && MarkOf(b[0]).Some? {
      MarkIsSolid(b[0]);
    }
    if IsDigitChar(a[i]) && MarkOf(a[i]).None? {
      NumberRunKeep(a, b, i + 1);
    }
    if IsSpace(a[i]) && MarkOf(a[i]).None? && !IsDigitChar(a[i]) {
      SpaceRunKeep(a, b, i + 1);
    }
  }

  /** Before the seam of clean texts, each character emits the same tokens
      in `a + b` as in `a`. */
  lemma AppendStep(a: string, b: string, i: nat, keepWhitespace: bool)
    requires i < |a| && Clean(a, b)
    ensures TokensFrom(a + b, i, keepWhitespace) == Emitted(a, i, keepWhitespace) + TokensFrom(a + b, After(a, i), keepWhitespace)
  {
    AppendAfter(a, b, i);
    var e := After(a, i);
    assert (a + b)[i..e] == a[i..e];
    assert Emitted(a + b, i, keepWhitespace) == Emitted(a, i, keepWhitespace);
  }

  lemma {:induction false} TokensFromAppend(a: string, b: string, i: nat, keepWhitespace: bool)
    requires i <= |a| && Clean(a, b)
    ensures TokensFrom(a + b, i, keepWhitespace) == TokensFrom(a, i, keepWhitespace) + TokensFrom(b, 0, keepWhitespace)
    decreases |a| - i
  {
    if i == |a| {
      TokensShift(a, b, 0, keepWhitespace);
      assert TokensFrom(a, i, keepWhitespace) == [];
      assert [] + TokensFrom(b, 0, keepWhitespace) == TokensFrom(b, 0, keepWhitespace);
    } else {
      AppendStep(a, b, i, keepWhitespace);
      var e := After(a, i);
      var x := Emitted(a, i, keepWhitespace);
      TokensFromAppend(a, b, e, keepWhitespace);
      var p := TokensFrom(a, e, keepWhitespace);
      var q := TokensFrom(b, 0, keepWhitespace);
      assert TokensFrom(a, i, keepWhitespace) == x + p;
      Assoc(x, p, q);
    }
  }

  /** Texts that meet at a punctuation character tokenize separately. */
  lemma TokensAppend(a: string, b: string, keepWhitespace: bool)
    requires Clean(a, b)
    ensures Tokens(a + b, keepWhitespace) == Tokens(a, keepWhitespace) + Tokens(b, keepWhitespace)
  {
    TokensFromAppend(a, b, 0, keepWhitespace);
  }

  lemma {:induction false} NumberRunAll(s: string, j: nat)
    requires j <= |s| && forall k :: j <= k < |s| ==> IsNumberChar(s[k])
    ensures NumberRunEnd(s, j) == |s|
    decreases |s| - j
  {
    if j < |s| {
      NumberRunAll(s, j + 1);
    }
  }

  /** A number text is one number token. */
  lemma NumberTextTokens(s: string)
    requires WellFormed(Token(Number, s))
    ensures Tokens(s, false) == [Token(Number, s)]
  {
    NumberRunAll(s, 1);
    assert s[0..|s|] == s;
    assert After(s, 0) == |s|;
    assert TokensFrom(s, 0, false) == Emitted(s, 0, false) + TokensFrom(s, |s|, false);
  }

  /** A clause written out, with its numbers as text. */
  function ClauseText(c: Clause): string {
    (if c.lowInclusive then "[" else "(") + (if c.low.Some? then c.low.value else "") + ","
      + (if c.high.Some? then c.high.value else "") + (if c.highInclusive then "]" else ")")
  }

  /** Its numbers are number texts. */
  predicate Numeric(c: Clause) {
    (c.low.Some? ==> WellFormed(Token(Number, c.low.value)))
    && (c.high.Some? ==> WellFormed(Token(Number, c.high.value)))
  }

  lemma ClauseTextTokens(c: Clause)
    requires Numeric(c)
    ensures Tokens(ClauseText(c), false) == ClauseTokens(c)
  {
    var o := if c.lowInclusive then "[" else "(";
    var l := if c.low.Some? then c.low.value else "";
    var h := if c.high.Some? then c.high.value else "";
    var cl := if c.highInclusive then "]" else ")";
    if c.low.Some? {
      NumberTextTokens(l);
    }
    if c.high.Some? {
      NumberTextTokens(h);
    }
    MarkTokens(o[0]);
    MarkTokens(',');
    MarkTokens(cl[0]);
    assert [o[0]] == o && [cl[0]] == cl;
    FiveTokens(o, l, ",", h, cl);
    assert ClauseText(c) == o + l + "," + h + cl;
  }

  /** Text cut by single punctuation characters is tokenized piece by piece. */
  lemma FiveTokens(o: string, l: string, m: string, h: string, cl: string)
    requires |o| == 1 && MarkOf(o[0]).Some?
    requires |m| == 1 && MarkOf(m[0]).Some?
    requires |cl| == 1 && MarkOf(cl[0]).Some?
    ensures Tokens(o + l + m + h + cl, false)
         == Tokens(o, false) + Tokens(l, false) + Tokens(m, false) + Tokens(h, false) + Tokens(cl, false)
  {
    TokensAppend(o, l, false);
    TokensAppend(o + l, m, false);
    assert (o + l + m)[|o + l + m| - 1] == m[0];
    TokensAppend(o + l + m, h, false);
    TokensAppend(o + l + m + h, cl, false);
  }

  lemma MarkTokens(c: char)
    requires MarkOf(c).Some?
    ensures Tokens([c], false) == [Token(MarkOf(c).value, [c])]
  {
    assert [c][0] == c;
    assert After([c], 0) == 1;
    assert Emitted([c], 0, false) == [Token(MarkOf(c).value, [c])];
    assert TokensFrom([c], 0, false) == Emitted([c], 0, false) + TokensFrom([c], 1, false);
  }

  lemma ClauseTextEnds(c: Clause)
    ensures ClauseText(c) != [] && MarkOf(ClauseText(c)[|ClauseText(c)| - 1]).Some?
  {
    var t := ClauseText(c);
    assert t[|t| - 1] == (if c.highInclusive then ']' else ')');
  }

  /** Clauses written out and joined by `&`. */
  function JoinedText(cs: seq<Clause>): string {
    if cs == [] then ""
    else ClauseText(cs[0]) + (if |cs| == 1 then "" else "&" + JoinedText(cs[1..]))
  }

  lemma {:induction false} JoinedTextTokens(cs: seq<Clause>)
    requires forall k :: 0 <= k < |cs| ==> Numeric(cs[k])
    ensures Tokens(JoinedText(cs), false) == Joined(cs)
    decreases |cs|
  {
    if cs != [] {
      ClauseTextTokens(cs[0]);
      if |cs| == 1 {
        assert JoinedText(cs) == ClauseText(cs[0]);
      } else {
        var head := ClauseText(cs[0]);
        var tail := JoinedText(cs[1..]);
        JoinedTextTokens(cs[1..]);
        MarkTokens('&');
        assert "&" == ['&'];
        TokensAppend("&", tail, false);
        ClauseTextEnds(cs[0]);
        TokensAppend(head, "&" + tail, false);
        assert JoinedText(cs) == head + ("&" + tail);
      }
    }
  }

  /** `validate` on clauses written out and joined by `&`: it throws the
      RangeError of the first disordered clause if there is one, and
      otherwise tells whether some clause's interval admits the value. */
  lemma ValidateJoined(value: Num, cs: seq<Clause>, range: string)
    requires range == JoinedText(cs) && forall k :: 0 <= k < |cs| ==> Numeric(cs[k])
    ensures Validation(value, range).Err? <==> exists k :: 0 <= k < |cs| && Disordered(Expected(cs[k]))
    ensures Validation(value, range).Ok? ==>
              (Validation(value, range).value <==> exists k :: 0 <= k < |cs| && Admits(Expected(cs[k]), value))
  {
    var es := ExpectedAll(cs);
    JoinedTextTokens(cs);
    JoinedIntervals(cs, Tokens(range, false));
    FirstDisorderReported(es, 0);
  }

  /** `[5,1]` is rejected at its first clause, with the clause as it is shown. */
  lemma DisorderedText()
    ensures Intervals(Tokens("[5,1]", false)) == Err(RangeError("Range Error at 0 for " + "[5, 1]"))
  {
    var c := Clause(true, Some("5"), Some("1"), true);
    assert JoinedText([c]) == "[5,1]";
    JoinedTextTokens([c]);
    JoinedIntervals([c], Tokens("[5,1]", false));
    var e := Expected(c);
    assert ExpectedAll([c]) == [e];
    FiveOneDisordered(e);
    var text := "Range Error at " + NatToString(0) + " for " + Rendered(e);
    assert OrderCheck([e], 0) == Fail(RangeError(text));
    FirstClauseMessage();
  }

  /** The message prefix for the first clause. */
  lemma FirstClauseMessage()
    ensures "Range Error at " + NatToString(0) + " for " == "Range Error at 0 for "
  {
    assert NatToString(0) == "0";
  }

  lemma FiveOneDisordered(e: Extreme)
    requires e == Extreme(Side(Some(true), Text("5")), Side(Some(true), Text("1")))
    ensures Disordered(e) && Rendered(e) == "[5, 1]"
  {
    IntegerNumber("5");
    IntegerNumber("1");
    assert Render(e.min.value) == "5" && Render(e.max.value) == "1";
    assert "[" + "5" + ", " + "1" + "]" == "[5, 1]";
  }

  lemma JoinedIntervals(cs: seq<Clause>, tokens: seq<Token>)
    requires tokens == Joined(cs)
    ensures Intervals(tokens)
            == if OrderCheck(ExpectedAll(cs), 0).Fail? then Err(OrderCheck(ExpectedAll(cs), 0).error) else Ok(ExpectedAll(cs))
  {
    JoinedCollect(cs, Blank, []);
    var es := ExpectedAll(cs);
    assert [] + es == es;
  }
}
