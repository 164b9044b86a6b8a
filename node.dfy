/** The syntax-tree nodes of src/parse/node.js and src/parse/statement.js.
    A node is an empty JavaScript object that the parser fills in place; here
    every property it may receive is a field that starts out undefined
    (None). */
module Nodes {
  import opened Common
  import opened LexSpec
  import opened Lexer

  /** A bound stored in `node.min` or `node.max`: `-Infinity`, `Infinity`,
      or the `value` of a token. */
  datatype Bound = NegInfinity | PosInfinity | Value(v: TokenValue)

  class Node {
    var nodeType: Option<string>
    var end: Option<nat>
    var minInclude: Option<bool>
    var min: Option<Bound>
    var max: Option<Bound>
    var maxInclude: Option<bool>
    var body: Option<seq<Node>>
    var program: Option<Node>

    predicate IsEmpty()
      reads this
    {
      nodeType.None? && end.None? && minInclude.None? && min.None? && max.None?
      && maxInclude.None? && body.None? && program.None?
    }

    constructor ()
      ensures IsEmpty()
    {
      nodeType, end, minInclude, min, max, maxInclude, body, program := None, None, None, None, None, None, None, None;
    }
  }

  /** A new empty node on every call. */
  method StartNode() returns (node: Node)
    ensures fresh(node) && node.IsEmpty()
  {
    node := new Node();
  }

  /** Sets the node's type and end and nothing else, and returns the node itself. */
  method FinishNodeAt(node: Node, nodeType: string, pos: Option<nat>) returns (r: Node)
    modifies node
    ensures r == node
    ensures node.nodeType == Some(nodeType) && node.end == pos
    ensures node.minInclude == old(node.minInclude) && node.min == old(node.min) && node.max == old(node.max)
    ensures node.maxInclude == old(node.maxInclude) && node.body == old(node.body) && node.program == old(node.program)
  {
    node.nodeType := Some(nodeType);
    node.end := pos;
    r := node;
  }

  /** Ends the node at `state.lastTokEnd`, which the tokenizer never assigns,
      so the node's end is always undefined. */
  method FinishNode(t: Tokenizer, node: Node, nodeType: string) returns (r: Node)
    requires t.Valid()
    modifies node
    ensures r == node
    ensures node.nodeType == Some(nodeType) && node.end == None
    ensures node.minInclude == old(node.minInclude) && node.min == old(node.min) && node.max == old(node.max)
    ensures node.maxInclude == old(node.maxInclude) && node.body == old(node.body) && node.program == old(node.program)
  {
    r := FinishNodeAt(node, nodeType, t.lastTokEnd);
  }
}
