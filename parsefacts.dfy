/** What the parser of src/parse/statement.js and src/parse/parser.js adds up
    to: a list of intervals written out as tokens, `[` or `(`, the bounds and
    a comma, then `]` or `)`, joined by `&` and ended by `eof`, is read back
    by `ParseSpec` as that very list. The lemmas take the tokenizer as a
    `step` function, so they hold for whatever lexer produces those tokens. */
module ParseFacts {
  import opened Common
  import opened TokenTypes
  import opened LexSpec
  import opened Lexer
  import opened Nodes
  import opened Parsing

  /** A token as the parser sees it: its type and its value. */
  datatype Tok = Tok(tokType: TokenType, value: TokenValue)

  /** A clause that has a written form: a lower bound that is not `Infinity`,
      an upper bound that is not `-Infinity`, and not both bounds open. */
  predicate Writable(c: Clause) {
    !c.min.PosInfinity? && !c.max.NegInfinity? && !(c.min.NegInfinity? && c.max.PosInfinity?)
  }

  /** The tokens of one clause: `[,5)`, `[1]` or `(1,5]` as the case may be. */
  function ClauseToks(c: Clause): (toks: seq<Tok>)
    requires Writable(c)
    ensures 3 <= |toks| <= 5
  {
    var opener := Tok(if c.minInclude then BracketL else ParenL, Undefined);
    var closer := Tok(if c.maxInclude then BracketR else ParenR, Undefined);
    if c.min.NegInfinity? then [opener, Tok(Comma, Undefined), Tok(Num, c.max.v), closer]
    else if c.max.PosInfinity? then [opener, Tok(Num, c.min.v), closer]
    else [opener, Tok(Num, c.min.v), Tok(Comma, Undefined), Tok(Num, c.max.v), closer]
  }

  /** The tokens of a whole text: the clauses joined by `&`, then `eof`. */
  function ProgramToks(cs: seq<Clause>): (toks: seq<Tok>)
    requires forall k :: 0 <= k < |cs| ==> Writable(cs[k])
    ensures |toks| > 0 && toks[|toks| - 1] == Tok(Eof, Undefined)
  {
    if cs == [] then [Tok(Eof, Undefined)]
    else if |cs| == 1 then ClauseToks(cs[0]) + [Tok(Eof, Undefined)]
    else ClauseToks(cs[0]) + [Tok(BitwiseAND, Undefined)] + ProgramToks(cs[1..])
  }

  /** Each state of `ss` is `step` of the one before. */
  ghost predicate Chain(step: TState -> Result<TState>, ss: seq<TState>) {
    forall i :: 0 <= i < |ss| - 1 ==> step(ss[i]) == Ok(ss[i + 1])
  }

  /** A position a proof names; `Spells` is used only at the positions a
      proof names, so that not every state in sight is compared. */
  ghost predicate At(i: int) {
    true
  }

  /** The current tokens of the states `ss` are `toks`. */
  ghost predicate Spells(ss: seq<TState>, toks: seq<Tok>) {
    |ss| == |toks|
    && forall i {:trigger At(i)} :: At(i) && 0 <= i < |ss| ==>
         ss[i].tokType == Some(toks[i].tokType) && ss[i].value == toks[i].value
  }

  lemma ChainSuffix(step: TState -> Result<TState>, ss: seq<TState>, k: nat)
    requires Chain(step, ss) && k <= |ss|
    ensures Chain(step, ss[k..]) && Chain(step, ss[..k])
  {
    forall i | 0 <= i < |ss[k..]| - 1
      ensures step(ss[k..][i]) == Ok(ss[k..][i + 1])
    {
      assert ss[k..][i] == ss[k + i] && ss[k..][i + 1] == ss[k + i + 1];
    }
  }

  lemma SpellsSplit(ss: seq<TState>, a: seq<Tok>, b: seq<Tok>)
    requires Spells(ss, a + b)
    ensures Spells(ss[..|a|], a) && Spells(ss[|a|..], b)
  {
    forall i | At(i) && 0 <= i < |a|
      ensures ss[..|a|][i].tokType == Some(a[i].tokType) && ss[..|a|][i].value == a[i].value
    {
      assert ss[..|a|][i] == ss[i] && (a + b)[i] == a[i];
    }
    forall i | At(i) && 0 <= i < |b|
      ensures ss[|a|..][i].tokType == Some(b[i].tokType) && ss[|a|..][i].value == b[i].value
    {
      assert At(|a| + i);
      assert ss[|a|..][i] == ss[|a| + i] && (a + b)[|a| + i] == b[i];
    }
  }

  /** A clause's tokens, read from its opener, give back the clause and
      leave the parser at the token after the closer. */
  lemma ClauseRoundTrip(step: TState -> Result<TState>, ss: seq<TState>, c: Clause)
    requires Writable(c) && Chain(step, ss)
    requires |ss| == |ClauseToks(c)| + 1 && Spells(ss[..|ss| - 1], ClauseToks(c))
    ensures ClauseSpec(step, ss[0]) == Ok((c, ss[|ss| - 1]))
  {
    var toks := ClauseToks(c);
    assert forall i :: 0 <= i < |toks| ==> ss[..|ss| - 1][i] == ss[i];
    assert At(0) && At(1) && At(2) && At(3) && At(4);
    assert step(ss[0]) == Ok(ss[1]) && step(ss[1]) == Ok(ss[2]) && step(ss[2]) == Ok(ss[3]);
    if |ss| > 4 {
      assert step(ss[3]) == Ok(ss[4]);
    }
    if |ss| > 5 {
      assert step(ss[4]) == Ok(ss[5]);
    }
  }

  /** The tokens after the first clause: `eof`, or `&` and the other clauses. */
  function AfterFirst(cs: seq<Clause>): (toks: seq<Tok>)
    requires cs != [] && forall k :: 0 <= k < |cs| ==> Writable(cs[k])
    ensures ProgramToks(cs) == ClauseToks(cs[0]) + toks
  {
    if |cs| == 1 then [Tok(Eof, Undefined)] else [Tok(BitwiseAND, Undefined)] + ProgramToks(cs[1..])
  }

  /** The first clause of a written list is read from the first state, and
      leaves the parser at the `&` or `eof` after it. */
  lemma FirstClauseRead(clause: TState -> Result<(Clause, TState)>, step: TState -> Result<TState>,
                        ss: seq<TState>, cs: seq<Clause>) returns (n: nat)
    requires cs != [] && forall k :: 0 <= k < |cs| ==> Writable(cs[k])
    requires ReadsClauses(clause, step) && Chain(step, ss) && Spells(ss, ProgramToks(cs))
    ensures n == |ClauseToks(cs[0])| && n < |ss|
    ensures clause(ss[0]) == Ok((cs[0], ss[n]))
    ensures Spells(ss[n..], AfterFirst(cs))
  {
    var toks := ClauseToks(cs[0]);
    n := |toks|;
    SpellsSplit(ss, toks, AfterFirst(cs));
    ChainSuffix(step, ss, n + 1);
    assert ss[..n + 1][..n] == ss[..n];
    ClauseRoundTrip(step, ss[..n + 1], cs[0]);
    assert Named(ss[0]);
  }

  /** After a clause that is not the last: the parser is at an `&`, and the
      token after it, where the next clause starts, is not `eof`. */
  predicate Joined(step: TState -> Result<TState>, amp: TState, next: TState) {
    amp.tokType == Some(BitwiseAND) && step(amp) == Ok(next) && next.tokType != Some(Eof)
  }

  /** After a clause that is not the last, the loop eats the `&`, sees that
      the next token is not `eof`, and goes on at the next clause. */
  lemma AmpersandContinues(step: TState -> Result<TState>, ss: seq<TState>, cs: seq<Clause>, n: nat)
    requires |cs| > 1 && forall k :: 0 <= k < |cs| ==> Writable(cs[k])
    requires Chain(step, ss) && n < |ss|
    requires Spells(ss[n..], AfterFirst(cs))
    ensures n + 1 < |ss| && Spells(ss[n + 1..], ProgramToks(cs[1..]))
    ensures Joined(step, ss[n], ss[n + 1])
  {
    assert AfterFirst(cs) == [Tok(BitwiseAND, Undefined)] + ProgramToks(cs[1..]);
    SpellsSplit(ss[n..], [Tok(BitwiseAND, Undefined)], ProgramToks(cs[1..]));
    assert ss[n..][1..] == ss[n + 1..];
    assert At(0) && ss[n..][0] == ss[n];
    assert ProgramToks(cs[1..])[0] == ClauseToks(cs[1..][0])[0];
    assert ss[n + 1..][0] == ss[n + 1];
  }

  /** A turn that ends at a token other than `&` is the loop's last. */
  lemma LoopStops(clause: TState -> Result<(Clause, TState)>, step: TState -> Result<TState>, st: TState,
                  c: Clause, s: TState, fuel: nat, done: seq<Clause>)
    requires fuel > 0 && clause(st) == Ok((c, s)) && s.tokType != Some(BitwiseAND)
    ensures StatementsSpec(clause, step, st, Eof, fuel, done) == Ok((done + [c], s))
  {
    assert TurnSpec(clause, step, st, Eof) == Ok((c, s, false));
  }

  /** A turn whose clause ends at `&`, followed by a token other than `eof`,
      hands the loop on to that token. */
  lemma LoopGoesOn(clause: TState -> Result<(Clause, TState)>, step: TState -> Result<TState>, st: TState,
                   c: Clause, amp: TState, next: TState, fuel: nat, done: seq<Clause>)
    requires fuel > 0 && clause(st) == Ok((c, amp)) && amp.tokType == Some(BitwiseAND)
    requires step(amp) == Ok(next) && next.tokType != Some(Eof)
    ensures StatementsSpec(clause, step, st, Eof, fuel, done) == StatementsSpec(clause, step, next, Eof, fuel - 1, done + [c])
  {
    assert TurnSpec(clause, step, st, Eof) == Ok((c, next, true));
  }

  /** The states from `k` on: still a chain, and ending where `ss` does. */
  lemma Tail(step: TState -> Result<TState>, ss: seq<TState>, k: nat) returns (rest: seq<TState>)
    requires Chain(step, ss) && k < |ss|
    ensures rest == ss[k..] && Chain(step, rest)
    ensures 0 < |rest| && rest[0] == ss[k] && rest[|rest| - 1] == ss[|ss| - 1]
  {
    ChainSuffix(step, ss, k);
    rest := ss[k..];
  }

  lemma SuffixSplit(cs: seq<Clause>, k: nat)
    requires k < |cs|
    ensures cs[k..] == [cs[k]] + cs[k + 1..]
  {
  }

  lemma AppendSuffix(done: seq<Clause>, cs: seq<Clause>, k: nat)
    requires k < |cs|
    ensures done + [cs[k]] + cs[k + 1..] == done + cs[k..]
  {
    SuffixSplit(cs, k);
    assert done + [cs[k]] + cs[k + 1..] == done + ([cs[k]] + cs[k + 1..]);
  }

  /** The statement loop, for any clause reader: when the i-th clause is read
      from `starts[i]` and ends at `ends[i]`, each `&` leads to the next
      clause and the last clause is not followed by `&`, the loop started at
      the k-th clause reads it and all the clauses after it, one turn each. */
  lemma {:induction false} Turns(clause: TState -> Result<(Clause, TState)>, step: TState -> Result<TState>,
                                 starts: seq<TState>, ends: seq<TState>, cs: seq<Clause>, k: nat,
                                 fuel: nat, done: seq<Clause>)
    requires k < |cs| && |cs| - k <= fuel && |starts| == |cs| && |ends| == |cs|
    requires forall i :: 0 <= i < |cs| ==> clause(starts[i]) == Ok((cs[i], ends[i]))
    requires forall i :: 0 <= i < |cs| - 1 ==> Joined(step, ends[i], starts[i + 1])
    requires ends[|cs| - 1].tokType != Some(BitwiseAND)
    ensures StatementsSpec(clause, step, starts[k], Eof, fuel, done) == Ok((done + cs[k..], ends[|cs| - 1]))
    decreases |cs| - k
  {
    if k == |cs| - 1 {
      LoopStops(clause, step, starts[k], cs[k], ends[k], fuel, done);
      assert cs[k..] == [cs[k]];
    } else {
      assert Joined(step, ends[k], starts[k + 1]);
      LoopGoesOn(clause, step, starts[k], cs[k], ends[k], starts[k + 1], fuel, done);
      Turns(clause, step, starts, ends, cs, k + 1, fuel - 1, done + [cs[k]]);
      AppendSuffix(done, cs, k);
    }
  }

  /** After the only clause come `eof` and the end of the states. */
  lemma OnlyClause(ss: seq<TState>, cs: seq<Clause>, n: nat)
    requires |cs| == 1 && Writable(cs[0]) && n < |ss| && Spells(ss[n..], AfterFirst(cs))
    ensures n == |ss| - 1 && ss[n].tokType == Some(Eof)
  {
    assert AfterFirst(cs) == [Tok(Eof, Undefined)];
    assert At(0) && ss[n..][0] == ss[n];
  }

  /** A clause that is not the last is read up to an `&`, and the states
      after that `&` spell the other clauses. */
  lemma NextClause(clause: TState -> Result<(Clause, TState)>, step: TState -> Result<TState>,
                   ss: seq<TState>, cs: seq<Clause>) returns (n: nat, rest: seq<TState>)
    requires |cs| > 1 && forall k :: 0 <= k < |cs| ==> Writable(cs[k])
    requires ReadsClauses(clause, step) && Chain(step, ss) && Spells(ss, ProgramToks(cs))
    ensures n + 1 < |ss| && clause(ss[0]) == Ok((cs[0], ss[n]))
    ensures Chain(step, rest) && Spells(rest, ProgramToks(cs[1..]))
    ensures 0 < |rest| && Joined(step, ss[n], rest[0]) && rest[|rest| - 1] == ss[|ss| - 1]
  {
    n := FirstClauseRead(clause, step, ss, cs);
    AmpersandContinues(step, ss, cs, n);
    rest := Tail(step, ss, n + 1);
  }

  /** One more clause in front: its start and end go in front of the others'. */
  lemma ConsReads(clause: TState -> Result<(Clause, TState)>, a: TState, b: TState, c: Clause,
                  starts: seq<TState>, ends: seq<TState>, cs: seq<Clause>)
    requires |starts| == |cs| && |ends| == |cs| && clause(a) == Ok((c, b))
    requires forall i :: 0 <= i < |cs| ==> clause(starts[i]) == Ok((cs[i], ends[i]))
    ensures forall i :: 0 <= i < |cs| + 1 ==> clause(([a] + starts)[i]) == Ok((([c] + cs)[i], ([b] + ends)[i]))
  {
    forall i | 0 <= i < |cs| + 1
      ensures clause(([a] + starts)[i]) == Ok((([c] + cs)[i], ([b] + ends)[i]))
    {
      if i > 0 {
        assert ([a] + starts)[i] == starts[i - 1] && ([c] + cs)[i] == cs[i - 1] && ([b] + ends)[i] == ends[i - 1];
      }
    }
  }

  /** ... and the `&` after it leads to the first of the others. */
  lemma ConsJoined(step: TState -> Result<TState>, a: TState, b: TState, starts: seq<TState>, ends: seq<TState>)
    requires 0 < |starts| && |ends| == |starts| && Joined(step, b, starts[0])
    requires forall i :: 0 <= i < |starts| - 1 ==> Joined(step, ends[i], starts[i + 1])
    ensures forall i :: 0 <= i < |starts| ==> Joined(step, ([b] + ends)[i], ([a] + starts)[i + 1])
  {
    forall i | 0 <= i < |starts|
      ensures Joined(step, ([b] + ends)[i], ([a] + starts)[i + 1])
    {
      assert ([a] + starts)[i + 1] == starts[i];
      if i > 0 {
        assert ([b] + ends)[i] == ends[i - 1];
      }
    }
  }

  /** Where each written clause starts and ends among the states that spell
      the tokens of a list of clauses. */
  lemma {:induction false} Positions(clause: TState -> Result<(Clause, TState)>, step: TState -> Result<TState>,
                                     ss: seq<TState>, cs: seq<Clause>)
    returns (starts: seq<TState>, ends: seq<TState>)
    requires cs != [] && forall k :: 0 <= k < |cs| ==> Writable(cs[k])
    requires ReadsClauses(clause, step) && Chain(step, ss) && Spells(ss, ProgramToks(cs))
    ensures |starts| == |cs| && |ends| == |cs| && starts[0] == ss[0]
    ensures forall i :: 0 <= i < |cs| ==> clause(starts[i]) == Ok((cs[i], ends[i]))
    ensures forall i :: 0 <= i < |cs| - 1 ==> Joined(step, ends[i], starts[i + 1])
    ensures ends[|cs| - 1].tokType != Some(BitwiseAND) && ends[|cs| - 1] == ss[|ss| - 1]
    decreases |cs|
  {
    if |cs| == 1 {
      var n := FirstClauseRead(clause, step, ss, cs);
      OnlyClause(ss, cs, n);
      starts, ends := [ss[0]], [ss[n]];
    } else {
      var n, rest := NextClause(clause, step, ss, cs);
      var s1, e1 := Positions(clause, step, rest, cs[1..]);
      ConsReads(clause, ss[0], ss[n], cs[0], s1, e1, cs[1..]);
      ConsJoined(step, ss[0], ss[n], s1, e1);
      assert [cs[0]] + cs[1..] == cs;
      starts, ends := [ss[0]] + s1, [ss[n]] + e1;
    }
  }

  lemma ClauseOfReads(step: TState -> Result<TState>)
    ensures ReadsClauses(ClauseOf(step), step)
  {
  }

  /** The statement loop reads the tokens of a non-empty list of clauses,
      one turn per clause, when it is allowed that many turns. */
  lemma StatementsRoundTrip(step: TState -> Result<TState>, ss: seq<TState>, cs: seq<Clause>,
                            fuel: nat, done: seq<Clause>)
    requires cs != [] && |cs| <= fuel && forall k :: 0 <= k < |cs| ==> Writable(cs[k])
    requires Chain(step, ss) && Spells(ss, ProgramToks(cs))
    ensures StatementsSpec(ClauseOf(step), step, ss[0], Eof, fuel, done) == Ok((done + cs, ss[|ss| - 1]))
  {
    ClauseOfReads(step);
    var starts, ends := Positions(ClauseOf(step), step, ss, cs);
    Turns(ClauseOf(step), step, starts, ends, cs, 0, fuel, done);
    assert cs[0..] == cs;
  }

  /** `parse` reads back the clauses that were written out, starting from the
      state before the first token. */
  lemma ParseRoundTrip(step: TState -> Result<TState>, st: TState, ss: seq<TState>, cs: seq<Clause>, fuel: nat)
    requires cs != [] && |cs| <= fuel && forall k :: 0 <= k < |cs| ==> Writable(cs[k])
    requires Spells(ss, ProgramToks(cs)) && Chain(step, ss) && step(st) == Ok(ss[0])
    ensures ParseSpec(step, st, fuel) == Ok((cs, ss[|ss| - 1]))
  {
    StatementsRoundTrip(step, ss, cs, fuel, []);
    assert [] + cs == cs;
  }

  /** The first clause is read at once: a parse that fails, or runs out of
      turns, has the error of its first clause when that one fails. */
  lemma FirstClauseError(step: TState -> Result<TState>, st: TState, fuel: nat, e: Error)
    requires fuel > 0 && step(st).Ok? && ClauseSpec(step, step(st).value) == Err(e)
    ensures ParseSpec(step, st, fuel) == Err(e)
  {
  }

  /** A token the tokenizer does not move past keeps the loop turning: when
      a clause ends on an `&` whose next token is the clause's own opener
      state again, every allowance of turns runs out. */
  lemma {:induction false} StuckLoopNeverEnds(step: TState -> Result<TState>, st: TState, c: Clause, amp: TState,
                                              fuel: nat, done: seq<Clause>)
    requires ClauseSpec(step, st) == Ok((c, amp)) && amp.tokType == Some(BitwiseAND)
    requires step(amp) == Ok(st) && st.tokType != Some(Eof)
    ensures StatementsSpec(ClauseOf(step), step, st, Eof, fuel, done) == Err(OutOfFuel)
    decreases fuel
  {
    if fuel > 0 {
      LoopGoesOn(ClauseOf(step), step, st, c, amp, st, fuel, done);
      StuckLoopNeverEnds(step, st, c, amp, fuel - 1, done + [c]);
    }
  }
}
