/** `format` of src/index.js: fills `{0}`, `{1}`, … in a template with the
    text of the parameters, one index after the other, every occurrence.
    `String.prototype.replace` with a global pattern is `ReplaceAll`, which
    is characterised against an independent split-and-join reading. */
module Formats {
  import opened Common

  // ---------------------------------------------------------------------------
  // Replacing every occurrence of a pattern
  // ---------------------------------------------------------------------------

  /** `s.replace(/pat/g, () => rep)`: the matches are found from left to right,
      do not overlap, and the inserted text is not searched again. */
  function ReplaceAll(s: string, pat: string, rep: string): string
    requires pat != []
    decreases |s|
  {
    if |s| < |pat| then s
    else if s[..|pat|] == pat then rep + ReplaceAll(s[|pat|..], pat, rep)
    else [s[0]] + ReplaceAll(s[1..], pat, rep)
  }

  /** A replacement no longer than the pattern never lengthens the text, and
      one no shorter never shortens it. */
  lemma {:induction false} ReplaceLength(s: string, pat: string, rep: string)
    requires pat != []
    ensures |rep| <= |pat| ==> |ReplaceAll(s, pat, rep)| <= |s|
    ensures |rep| >= |pat| ==> |ReplaceAll(s, pat, rep)| >= |s|
    decreases |s|
  {
    if |s| >= |pat| {
      if s[..|pat|] == pat {
        ReplaceLength(s[|pat|..], pat, rep);
      } else {
        ReplaceLength(s[1..], pat, rep);
      }
    }
  }

  /** `s.split(pat)`: the pieces between the matches found by the same
      left-to-right scan. There is always at least one piece. */
  function Split(s: string, pat: string): (pieces: seq<string>)
    requires pat != []
    ensures |pieces| >= 1
    decreases |s|
  {
    if |s| < |pat| then [s]
    else if s[..|pat|] == pat then [""] + Split(s[|pat|..], pat)
    else
      var rest := Split(s[1..], pat);
      [[s[0]] + rest[0]] + rest[1..]
  }

  /** `pieces.join(sep)`. */
  function Join(pieces: seq<string>, sep: string): string {
    if pieces == [] then ""
    else if |pieces| == 1 then pieces[0]
    else pieces[0] + sep + Join(pieces[1..], sep)
  }

  /** The pattern occurs in `t` starting at index `j`. */
  predicate OccursAt(t: string, pat: string, j: int) {
    0 <= j && j + |pat| <= |t| && t[j..j + |pat|] == pat
  }

  ghost predicate Contains(t: string, pat: string) {
    exists j :: OccursAt(t, pat, j)
  }

  lemma JoinCons(p: string, rest: seq<string>, sep: string)
    requires rest != []
    ensures Join([p] + rest, sep) == p + sep + Join(rest, sep)
  {
    assert ([p] + rest)[1..] == rest;
  }

  /** Putting a text in front of the first piece puts it in front of the join. */
  lemma JoinPrefix(c: string, rest: seq<string>, sep: string)
    requires rest != []
    ensures Join([c + rest[0]] + rest[1..], sep) == c + Join(rest, sep)
  {
    if |rest| > 1 {
      JoinCons(c + rest[0], rest[1..], sep);
      JoinCons(rest[0], rest[1..], sep);
      assert [rest[0]] + rest[1..] == rest;
    } else {
      assert [c + rest[0]] + rest[1..] == [c + rest[0]];
    }
  }

  /** Replacing every match is joining the pieces between the matches with the replacement. */
  lemma {:induction false} ReplaceAllIsJoinOfSplit(s: string, pat: string, rep: string)
    requires pat != []
    ensures ReplaceAll(s, pat, rep) == Join(Split(s, pat), rep)
    decreases |s|
  {
    if |s| < |pat| {
    } else if s[..|pat|] == pat {
      ReplaceAllIsJoinOfSplit(s[|pat|..], pat, rep);
      JoinCons("", Split(s[|pat|..], pat), rep);
      assert "" + rep == rep;
    } else {
      ReplaceAllIsJoinOfSplit(s[1..], pat, rep);
      JoinPrefix([s[0]], Split(s[1..], pat), rep);
    }
  }

  /** Replacing a pattern by itself changes nothing. */
  lemma {:induction false} ReplaceBySelf(s: string, pat: string)
    requires pat != []
    ensures ReplaceAll(s, pat, pat) == s
    decreases |s|
  {
    if |s| < |pat| {
    } else if s[..|pat|] == pat {
      ReplaceBySelf(s[|pat|..], pat);
      assert s[..|pat|] + s[|pat|..] == s;
    } else {
      ReplaceBySelf(s[1..], pat);
      assert [s[0]] + s[1..] == s;
    }
  }

  /** Split loses nothing: joining the pieces with the pattern gives the text back. */
  lemma SplitJoinRoundTrip(s: string, pat: string)
    requires pat != []
    ensures Join(Split(s, pat), pat) == s
  {
    ReplaceAllIsJoinOfSplit(s, pat, pat);
    ReplaceBySelf(s, pat);
  }

  /** The first piece is where the text starts. */
  lemma {:induction false} FirstPieceIsPrefix(s: string, pat: string)
    requires pat != []
    ensures |Split(s, pat)[0]| <= |s| && Split(s, pat)[0] == s[..|Split(s, pat)[0]|]
    decreases |s|
  {
    if |s| < |pat| {
    } else if s[..|pat|] == pat {
    } else {
      FirstPieceIsPrefix(s[1..], pat);
    }
  }

  /** A text whose start is not the pattern, and whose tail from the second
      character does not contain it, does not contain it. */
  lemma ConsFree(c: char, t: string, pat: string, s: string)
    requires pat != [] && !Contains(t, pat)
    requires |[c] + t| <= |s| && [c] + t == s[..|[c] + t|]
    requires |s| >= |pat| ==> s[..|pat|] != pat
    ensures !Contains([c] + t, pat)
  {
    var u := [c] + t;
    forall j | 0 < j && j + |pat| <= |u|
      ensures !OccursAt(u, pat, j)
    {
      assert u[j..j + |pat|] == t[j - 1..j - 1 + |pat|];
      assert !OccursAt(t, pat, j - 1);
    }
  }

  /** No piece contains the pattern: every occurrence was a split point. */
  lemma {:induction false} PiecesFree(s: string, pat: string)
    requires pat != []
    ensures forall k :: 0 <= k < |Split(s, pat)| ==> !Contains(Split(s, pat)[k], pat)
    decreases |s|
  {
    var pieces := Split(s, pat);
    if |s| < |pat| {
      assert pieces == [s];
    } else if s[..|pat|] == pat {
      PiecesFree(s[|pat|..], pat);
      assert !Contains("", pat);
    } else {
      var rest := Split(s[1..], pat);
      PiecesFree(s[1..], pat);
      FirstPieceIsPrefix(s[1..], pat);
      ConsFree(s[0], rest[0], pat, s);
      assert pieces == [[s[0]] + rest[0]] + rest[1..];
      forall k | 0 <= k < |pieces|
        ensures !Contains(pieces[k], pat)
      {
        if k > 0 {
          assert pieces[k] == rest[k];
        }
      }
    }
  }

  /** A text in which the pattern's first character never appears is left alone. */
  lemma {:induction false} ReplaceAbsent(s: string, pat: string, rep: string)
    requires pat != [] && forall k :: 0 <= k < |s| ==> s[k] != pat[0]
    ensures ReplaceAll(s, pat, rep) == s
    decreases |s|
  {
    if |s| >= |pat| {
      assert s[..|pat|][0] != pat[0];
      ReplaceAbsent(s[1..], pat, rep);
      assert [s[0]] + s[1..] == s;
    }
  }

  /** A text in which the pattern's first character never appears is one piece. */
  lemma {:induction false} SplitAbsent(s: string, pat: string)
    requires pat != [] && forall k :: 0 <= k < |s| ==> s[k] != pat[0]
    ensures Split(s, pat) == [s]
    decreases |s|
  {
    if |s| >= |pat| {
      assert s[..|pat|][0] != pat[0];
      SplitAbsent(s[1..], pat);
      assert [s[0]] + s[1..] == s;
    }
  }

  /** The first piece ends at the first match when nothing before it could start one. */
  lemma {:induction false} SplitAtFirst(a: string, pat: string, b: string)
    requires pat != [] && forall k :: 0 <= k < |a| ==> a[k] != pat[0]
    ensures Split(a + pat + b, pat) == [a] + Split(b, pat)
    decreases |a|
  {
    var s := a + pat + b;
    if a == [] {
      assert s == pat + b && s[..|pat|] == pat && s[|pat|..] == b;
    } else {
      assert s[..|pat|][0] == a[0];
      assert s[1..] == a[1..] + pat + b;
      SplitAtFirst(a[1..], pat, b);
      assert [s[0]] + a[1..] == a;
    }
  }

  /** The first match is replaced where it is, when nothing before it could start one. */
  lemma {:induction false} ReplaceAtFirst(a: string, pat: string, b: string, rep: string)
    requires pat != [] && forall k :: 0 <= k < |a| ==> a[k] != pat[0]
    ensures ReplaceAll(a + pat + b, pat, rep) == a + rep + ReplaceAll(b, pat, rep)
    decreases |a|
  {
    var s := a + pat + b;
    if a == [] {
      assert s == pat + b && s[..|pat|] == pat && s[|pat|..] == b;
    } else {
      assert s[..|pat|][0] == a[0];
      assert s[1..] == a[1..] + pat + b;
      ReplaceAtFirst(a[1..], pat, b, rep);
      var rest := ReplaceAll(b, pat, rep);
      assert ReplaceAll(s, pat, rep) == [a[0]] + (a[1..] + rep + rest);
      assert [a[0]] + (a[1..] + rep + rest) == a + rep + rest;
    }
  }

  // ---------------------------------------------------------------------------
  // format(source, params)
  // ---------------------------------------------------------------------------

  /** The arguments `format` is called with after its template. */
  datatype Arg = Undefined | Null | Str(s: string) | Strs(items: seq<string>)

  /** What `format` returns: the curried function of a one-argument call
      (`format(source)`), or the filled text. */
  datatype Formatted = Curried(source: string) | Done(text: string)

  /** `String(a)`, as the replacement callback's value is made a string. */
  function Text(a: Arg): (t: string)
    ensures a.Str? ==> t == a.s
  {
    match a
    case Undefined => "undefined"
    case Null => "null"
    case Str(s) => s
    case Strs(items) => Join(items, ",")
  }

  function Texts(args: seq<Arg>): (ts: seq<string>)
    ensures |ts| == |args|
    ensures forall k :: 0 <= k < |args| ==> ts[k] == Text(args[k])
  {
    if args == [] then [] else [Text(args[0])] + Texts(args[1..])
  }

  /** The placeholder of index `i`: `{i}`. */
  function Placeholder(i: nat): (p: string)
    ensures |p| >= 3 && p[0] == '{' && p[|p| - 1] == '}'
  {
    "{" + NatToString(i) + "}"
  }

  /** The list the `forEach` runs over: an array argument as it is, several
      arguments packed into one array, a single other value wrapped. */
  function ParamTexts(args: seq<Arg>): (ps: seq<string>)
    requires args != []
  {
    if args[0].Strs? then args[0].items
    else if |args| > 1 then Texts(args)
    else [Text(args[0])]
  }

  /** The template after the replacements for the indices `i`, `i + 1`, … of `params`. */
  function Substituted(text: string, params: seq<string>, i: nat): string
    requires i <= |params|
    decreases |params| - i
  {
    if i == |params| then text
    else Substituted(ReplaceAll(text, Placeholder(i), params[i]), params, i + 1)
  }

  /** What `format(source, args…)` computes. */
  function Formatting(source: string, args: seq<Arg>): (r: Result<Formatted>)
    ensures r.Err? <==> args != [] && args[0].Null?
    ensures r.Ok? && r.value.Curried? ==> args == [] && r.value.source == source
  {
    if args == [] then Ok(Curried(source))
    else if args[0].Undefined? then Ok(Done(source))
    else if args[0].Null? then Err(TypeError)
    else Ok(Done(Substituted(source, ParamTexts(args), 0)))
  }

  /** src/index.js `format`: the `forEach` reassigns `source` once per parameter. */
  method Format(source: string, args: seq<Arg>) returns (r: Result<Formatted>)
    ensures r == Formatting(source, args)
  {
    if |args| == 0 {
      return Ok(Curried(source));
    }
    if args[0].Undefined? {
      return Ok(Done(source));
    }
    if args[0].Null? {
      // `params.constructor` on `null`
      return Err(TypeError);
    }
    var params := ParamTexts(args);
    var text := source;
    var i := 0;
    while i < |params|
      invariant i <= |params|
      invariant Substituted(text, params, i) == Substituted(source, params, 0)
    {
      text := ReplaceAll(text, Placeholder(i), params[i]);
      i := i + 1;
    }
    return Ok(Done(text));
  }

  // ---------------------------------------------------------------------------
  // Properties of format
  // ---------------------------------------------------------------------------

  function Strings(xs: seq<string>): (args: seq<Arg>)
    ensures |args| == |xs| && forall k :: 0 <= k < |xs| ==> args[k] == Str(xs[k])
  {
    if xs == [] then [] else [Str(xs[0])] + Strings(xs[1..])
  }

  /** Several text arguments fill the template as the one array of them does. */
  lemma ArgumentsArePacked(source: string, xs: seq<string>)
    requires |xs| > 1
    ensures Formatting(source, Strings(xs)) == Formatting(source, [Strs(xs)])
  {
    assert Texts(Strings(xs)) == xs;
  }

  /** A single text argument is wrapped into a one-element array. */
  lemma SingleArgumentIsWrapped(source: string, x: string)
    ensures Formatting(source, [Str(x)]) == Formatting(source, [Strs([x])])
  {
  }

  /** A template without `{` comes back unchanged, whatever the parameters. */
  lemma {:induction false} NoPlaceholderUnchanged(text: string, params: seq<string>, i: nat)
    requires i <= |params| && forall k :: 0 <= k < |text| ==> text[k] != '{'
    ensures Substituted(text, params, i) == text
    decreases |params| - i
  {
    if i < |params| {
      ReplaceAbsent(text, Placeholder(i), params[i]);
      NoPlaceholderUnchanged(text, params, i + 1);
    }
  }

  lemma FormatWithoutPlaceholder(source: string, args: seq<Arg>)
    requires args != [] && !args[0].Null?
    requires forall k :: 0 <= k < |source| ==> source[k] != '{'
    ensures Formatting(source, args) == Ok(Done(source))
  {
    if !args[0].Undefined? {
      NoPlaceholderUnchanged(source, ParamTexts(args), 0);
    }
  }

  /** `{0}` alone becomes the first parameter, whatever that parameter holds. */
  lemma FirstPlaceholderFilled(p: string, more: seq<string>)
    ensures Formatting("{0}", [Strs([p] + more)]) == Ok(Done(Substituted(p, [p] + more, 1)))
    ensures Formatting("{0}", [Strs([p])]) == Ok(Done(p))
  {
    var pat := Placeholder(0);
    assert pat == "{0}";
    assert "{0}"[..|pat|] == pat;
    assert "{0}"[|pat|..] == "";
    assert ReplaceAll("{0}", pat, p) == p + ReplaceAll("", pat, p);
    assert p + "" == p;
    assert Substituted(p, [p], 1) == p;
  }

  /** Text put in by an earlier replacement is searched by the later ones:
      `format('{0}', '{1}', 'x')` gives `x`. */
  lemma EarlierReplacementRescanned()
    ensures Formatting("{0}", [Str("{1}"), Str("x")]) == Ok(Done("x"))
  {
    var ps := ParamTexts([Str("{1}"), Str("x")]);
    assert ps == ["{1}", "x"];
    FirstPlaceholderFilled("{1}", ["x"]);
    assert ["{1}"] + ["x"] == ps;
    var p1 := Placeholder(1);
    assert p1 == "{1}";
    assert "{1}"[..|p1|] == p1;
    assert "{1}"[|p1|..] == "";
    assert ReplaceAll("{1}", p1, "x") == "x" + ReplaceAll("", p1, "x");
    assert "x" + "" == "x";
  }
}
