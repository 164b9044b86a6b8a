/** The interval parser of src/parse/statement.js and src/parse/parser.js.
    The source's `Parser` extends `StatementParser`, `NodeUtil` and
    `Tokenizer`, so all their methods share one `this`; here the methods take
    that tokenizer as `t`. Each method is proved against the specification
    function of the same stage, and the lemmas at the end state what those
    functions promise. */
module Parsing {
  import opened Common
  import opened TokenTypes
  import opened LexSpec
  import opened Lexer
  import opened Nodes

  /** The four properties `parseStatementContent` gives a node. */
  datatype Clause = Clause(minInclude: bool, min: Bound, max: Bound, maxInclude: bool)

  /** The node is a finished clause node holding `c`. */
  ghost predicate Holds(node: Node, c: Clause)
    reads node
  {
    node.nodeType == Some("AA") && node.end.None?
    && node.minInclude == Some(c.minInclude) && node.min == Some(c.min)
    && node.max == Some(c.max) && node.maxInclude == Some(c.maxInclude)
    && node.body.None? && node.program.None?
  }

  ghost predicate BuiltFrom(nodes: seq<Node>, cs: seq<Clause>)
    reads nodes
  {
    |nodes| == |cs| && forall i :: 0 <= i < |nodes| ==> Holds(nodes[i], cs[i])
  }

  // ---------------------------------------------------------------- specification

  /** `parseStatementContent` from token state `st`: the clause and the
      state after it. Every failure is a failure of `nextToken`. */
  function ClauseSpec(step: TState -> Result<TState>, st: TState): (r: Result<(Clause, TState)>)
    ensures r.Ok? ==> r.value.0.minInclude == (st.tokType == Some(BracketL))
  {
    var minInclude := st.tokType == Some(BracketL);
    var s1 :- step(st);
    if s1.tokType == Some(Comma) then
      var s2 :- step(s1);
      var s3 :- step(s2);
      var s4 :- step(s3);
      Ok((Clause(minInclude, NegInfinity, Value(s2.value), s3.tokType == Some(BracketR)), s4))
    else
      var s2 :- step(s1);
      if s2.tokType == Some(Comma) then
        var s3 :- step(s2);
        if s3.tokType != Some(Num) then
          var s4 :- step(s3);
          Ok((Clause(minInclude, Value(s1.value), PosInfinity, s3.tokType == Some(BracketR)), s4))
        else
          var s4 :- step(s3);
          var s5 :- step(s4);
          Ok((Clause(minInclude, Value(s1.value), Value(s3.value), s4.tokType == Some(BracketR)), s5))
      else
        var s3 :- step(s2);
        Ok((Clause(minInclude, Value(s1.value), PosInfinity, s2.tokType == Some(BracketR)), s3))
  }

  /** `ClauseSpec` as a function value, for the stages below. */
  function ClauseOf(step: TState -> Result<TState>): (clause: TState -> Result<(Clause, TState)>)
    ensures forall st :: clause(st) == ClauseSpec(step, st)
  {
    st => ClauseSpec(step, st)
  }

  /** `clause` is `ClauseSpec` over `step`: the methods below take the clause
      reader as a ghost parameter with this link, which a proof uses at a
      state it names. */
  ghost predicate ReadsClauses(clause: TState -> Result<(Clause, TState)>, step: TState -> Result<TState>) {
    forall st {:trigger Named(st)} :: Named(st) ==> clause(st) == ClauseSpec(step, st)
  }

  /** One turn of the `do … while (eat(&) && !match(end))` of
      `parseStatement`: a clause, then `eat(&)`; the last component says
      whether the loop goes on. */
  function TurnSpec(clause: TState -> Result<(Clause, TState)>, step: TState -> Result<TState>, st: TState, end: TokenType)
    : (r: Result<(Clause, TState, bool)>)
    ensures r.Ok? && r.value.2 ==> r.value.1.tokType != Some(end)
  {
    var (c, s1) :- clause(st);
    if s1.tokType != Some(BitwiseAND) then Ok((c, s1, false))
    else
      var s2 :- step(s1);
      Ok((c, s2, s2.tokType != Some(end)))
  }

  /** The whole loop, allowed at most `fuel` more turns, after the clauses
      `done`: the source's loop need not end (a code no `case` lists leaves
      the `&` token current for ever). */
  function StatementsSpec(clause: TState -> Result<(Clause, TState)>, step: TState -> Result<TState>, st: TState,
                          end: TokenType, fuel: nat, done: seq<Clause>)
    : (r: Result<(seq<Clause>, TState)>)
    ensures r.Ok? ==> |done| < |r.value.0| <= |done| + fuel && r.value.0[..|done|] == done
    decreases fuel
  {
    if fuel == 0 then Err(OutOfFuel)
    else
      var (c, s, more) :- TurnSpec(clause, step, st, end);
      if !more then Ok((done + [c], s)) else StatementsSpec(clause, step, s, end, fuel - 1, done + [c])
  }

  /** `parse`: the first token is read, then the statements up to `eof`. */
  function ParseSpec(step: TState -> Result<TState>, st: TState, fuel: nat)
    : (r: Result<(seq<Clause>, TState)>)
  {
    var s1 :- step(st);
    StatementsSpec(ClauseOf(step), step, s1, Eof, fuel, [])
  }

  /** One unfolding of `StatementsSpec` once some fuel is left. */
  lemma StatementsUnfold(clause: TState -> Result<(Clause, TState)>, step: TState -> Result<TState>, st: TState,
                         end: TokenType, fuel: nat, done: seq<Clause>)
    requires fuel > 0
    ensures match TurnSpec(clause, step, st, end)
            case Ok((c, s, more)) =>
              StatementsSpec(clause, step, st, end, fuel, done)
              == if more then StatementsSpec(clause, step, s, end, fuel - 1, done + [c]) else Ok((done + [c], s))
            case Err(e) => StatementsSpec(clause, step, st, end, fuel, done) == Err(e)
  {
  }

  // ---------------------------------------------------------------- methods

  method ParseStatementContent(t: Tokenizer) returns (node: Node, r: Outcome)
    requires t.Valid()
    modifies t
    ensures t.Valid() && fresh(node)
    ensures match ClauseSpec(t.step, old(t.State()))
            case Ok((c, st)) => r == Pass && t.State() == st && Holds(node, c)
            case Err(e) => r == Fail(e)
  {
    node := StartNode();
    node.minInclude := Some(t.tokType == Some(BracketL));
    r := t.Next();
    if r.Fail? {
      return;
    }
    if t.Match(Comma) {
      node.min := Some(NegInfinity);
      r := t.Next();
      if r.Fail? {
        return;
      }
      node.max := Some(Value(t.value));
      r := t.Next();
      if r.Fail? {
        return;
      }
      node.maxInclude := Some(t.tokType == Some(BracketR));
    } else {
      node.min := Some(Value(t.value));
      r := t.Next();
      if r.Fail? {
        return;
      }
      var ate;
      ate, r := t.Eat(Comma);
      if r.Fail? {
        return;
      }
      if ate {
        if t.tokType != Some(Num) {
          node.max := Some(PosInfinity);
          node.maxInclude := Some(t.tokType == Some(BracketR));
        } else {
          node.max := Some(Value(t.value));
          r := t.Next();
          if r.Fail? {
            return;
          }
          node.maxInclude := Some(t.tokType == Some(BracketR));
        }
      } else {
        node.max := Some(PosInfinity);
        node.maxInclude := Some(t.tokType == Some(BracketR));
      }
    }
    r := t.Next();
    if r.Fail? {
      return;
    }
    var _ := FinishNode(t, node, "AA");
  }

  /** One turn: the clause node is pushed on `owner.body`, then `eat(&)`.
      The ghost `added` and `clauses` are the nodes pushed so far and the
      clauses they hold. */
  method ParseTurn(t: Tokenizer, owner: Node, end: TokenType, ghost clause: TState -> Result<(Clause, TState)>,
                   ghost added: seq<Node>, ghost clauses: seq<Clause>)
    returns (node: Node, more: bool, r: Outcome)
    requires t.Valid() && owner.body.Some? && ReadsClauses(clause, t.step)
    requires owner !in added && BuiltFrom(added, clauses)
    modifies t, owner`body
    ensures t.Valid()
    ensures match TurnSpec(clause, t.step, old(t.State()), end)
            case Ok((c, st, goOn)) =>
              r == Pass && t.State() == st && more == goOn
              && fresh(node) && owner !in added + [node] && BuiltFrom(added + [node], clauses + [c])
              && owner.body == Some(old(owner.body.value) + [node])
            case Err(e) => r == Fail(e)
  {
    more := false;
    assert Named(t.State());
    node, r := ParseStatementContent(t);
    if r.Fail? {
      return;
    }
    owner.body := Some(owner.body.value + [node]);
    var ate;
    ate, r := t.Eat(BitwiseAND);
    if r.Fail? {
      return;
    }
    more := ate && !t.Match(end);
  }

  /** Appends the clauses to `owner.body`, the array the source passes as `body`. */
  method ParseStatement(t: Tokenizer, owner: Node, end: TokenType, fuel: nat, ghost clause: TState -> Result<(Clause, TState)>)
    returns (r: Outcome, ghost added: seq<Node>)
    requires t.Valid() && owner.body.Some? && ReadsClauses(clause, t.step)
    modifies t, owner`body
    ensures t.Valid()
    ensures match StatementsSpec(clause, t.step, old(t.State()), end, fuel, [])
            case Ok((cs, st)) =>
              r == Pass && t.State() == st && owner.body == Some(old(owner.body.value) + added)
              && fresh(added)
              && BuiltFrom(added, cs)
            case Err(e) => r == Fail(e)
  {
    ghost var spec := StatementsSpec(clause, t.step, t.State(), end, fuel, []);
    ghost var clauses: seq<Clause> := [];
    added := [];
    var budget := fuel;
    assert owner.body.value + added == owner.body.value;
    while true
      invariant t.Valid()
      invariant owner.body == Some(old(owner.body.value) + added)
      invariant fresh(added)
      invariant owner !in added
      invariant BuiltFrom(added, clauses)
      invariant spec == StatementsSpec(clause, t.step, t.State(), end, budget, clauses)
      decreases budget
    {
      if budget == 0 {
        r := Fail(OutOfFuel);
        return;
      }
      ghost var turn := TurnSpec(clause, t.step, t.State(), end);
      StatementsUnfold(clause, t.step, t.State(), end, budget, clauses);
      var node, more;
      node, more, r := ParseTurn(t, owner, end, clause, added, clauses);
      if r.Fail? {
        return;
      }
      ghost var c := turn.value.0;
      assert old(owner.body.value) + (added + [node]) == (old(owner.body.value) + added) + [node];
      added, clauses := added + [node], clauses + [c];
      if !more {
        break;
      }
      budget := budget - 1;
    }
    r := Pass;
  }

  /** `parseBlockBody`: `node.body` becomes a new array that receives the
      clauses (`topLevel` is unused and left out). */
  method ParseBlockBody(t: Tokenizer, node: Node, end: TokenType, fuel: nat, ghost clause: TState -> Result<(Clause, TState)>)
    returns (r: Outcome, ghost added: seq<Node>)
    requires t.Valid() && ReadsClauses(clause, t.step)
    modifies t, node`body
    ensures t.Valid()
    ensures match StatementsSpec(clause, t.step, old(t.State()), end, fuel, [])
            case Ok((cs, st)) =>
              r == Pass && t.State() == st && node.body == Some(added)
              && fresh(added)
              && BuiltFrom(added, cs)
            case Err(e) => r == Fail(e)
  {
    node.body := Some([]);
    r, added := ParseStatement(t, node, end, fuel, clause);
    assert [] + added == added;
  }

  /** `parseProgram`: the block body, then the node is finished as `Program`. */
  method ParseProgram(t: Tokenizer, program: Node, end: TokenType, fuel: nat, ghost clause: TState -> Result<(Clause, TState)>)
    returns (result: Node, r: Outcome, ghost added: seq<Node>)
    requires t.Valid() && ReadsClauses(clause, t.step)
    modifies t, program
    ensures t.Valid() && result == program
    ensures match StatementsSpec(clause, t.step, old(t.State()), end, fuel, [])
            case Ok((cs, st)) =>
              r == Pass && t.State() == st
              && program.nodeType == Some("Program") && program.end.None? && program.program == old(program.program)
              && program.body == Some(added)
              && fresh(added)
              && BuiltFrom(added, cs)
            case Err(e) => r == Fail(e)
  {
    result := program;
    r, added := ParseBlockBody(t, program, end, fuel, clause);
    if r.Fail? {
      return;
    }
    result := FinishNode(t, program, "Program");
  }

  /** `parseTopLevel`: `file.program` is the finished program, and `file` is
      finished as `File`. */
  method ParseTopLevel(t: Tokenizer, file: Node, program: Node, fuel: nat, ghost clause: TState -> Result<(Clause, TState)>)
    returns (result: Node, r: Outcome, ghost added: seq<Node>)
    requires t.Valid() && ReadsClauses(clause, t.step) && file != program
    modifies t, file, program
    ensures t.Valid() && result == file
    ensures match StatementsSpec(clause, t.step, old(t.State()), Eof, fuel, [])
            case Ok((cs, st)) =>
              r == Pass && t.State() == st
              && file.nodeType == Some("File") && file.end.None? && file.program == Some(program)
              && file.body == old(file.body)
              && program.nodeType == Some("Program") && program.end.None? && program.program == old(program.program)
              && program.body == Some(added)
              && fresh(added)
              && BuiltFrom(added, cs)
            case Err(e) => r == Fail(e)
  {
    result := file;
    var p;
    p, r, added := ParseProgram(t, program, Eof, fuel, clause);
    if r.Fail? {
      return;
    }
    file.program := Some(p);
    result := FinishNode(t, file, "File");
  }

  /** `parse`: two new nodes, the first token, then the top level. The result
      is the file node; its program's body holds the clauses. */
  method Parse(t: Tokenizer, fuel: nat) returns (file: Node, r: Outcome, ghost program: Node, ghost added: seq<Node>)
    requires t.Valid()
    modifies t
    ensures t.Valid() && fresh(file)
    ensures match ParseSpec(t.step, old(t.State()), fuel)
            case Ok((cs, st)) =>
              r == Pass && t.State() == st
              && file.nodeType == Some("File") && file.end.None? && file.program == Some(program)
              && fresh(program) && program != file
              && program.nodeType == Some("Program") && program.end.None?
              && program.body == Some(added)
              && fresh(added)
              && BuiltFrom(added, cs)
            case Err(e) => r == Fail(e)
  {
    file := StartNode();
    var p := StartNode();
    program := p;
    added := [];
    t.StepIs(t.State());
    r := t.NextToken();
    if r.Fail? {
      return;
    }
    ghost var clause := ClauseOf(t.step);
    file, r, added := ParseTopLevel(t, file, p, fuel, clause);
  }
}
