/** The part of the ESTree abstract syntax tree that the callee resolver
    consumes. Every node kind the resolver does not inspect is collapsed into
    the generic `Other` node, which keeps its kind tag and its children in
    visiting order. */
module Estree {
  import opened Wrappers

  /** The payload of a `BlockStatement`: its statements, in source order.
      A function expression's body is always one of these. */
  datatype Block = Block(body: seq<Node>)

  datatype Node =
    | Identifier(name: string)
      /** `function [funcId](params) { body }`. `funcId` is ESTree's optional
          `id`, renamed because Dafny requires destructors sharing a name to
          share a type, and a declarator's `id` is not optional. The node has
          no `name` field. */
    | FunctionExpression(funcId: Option<Node>, params: seq<Node>, body: Block)
      /** `id = init`, one binding of a variable declaration; `init` is
          absent in `var x;`. */
    | VariableDeclarator(id: Node, init: Option<Node>)
    | BlockStatement(block: Block)
    | Other(kind: string, children: seq<Node>)

  /** Number of nodes in the tree rooted at `n`, counting the
      `BlockStatement` node that wraps a function expression's body. */
  function Size(n: Node): (k: nat)
    ensures k >= 1
    decreases n
  {
    match n
    case Identifier(_) => 1
    case FunctionExpression(fid, ps, b) =>
      1 + (if fid.Some? then Size(fid.value) else 0) + SeqSize(ps) + 1 + SeqSize(b.body)
    case VariableDeclarator(i, init) =>
      1 + Size(i) + (if init.Some? then Size(init.value) else 0)
    case BlockStatement(b) => 1 + SeqSize(b.body)
    case Other(_, cs) => 1 + SeqSize(cs)
  }

  /** Number of nodes in a forest of trees. */
  function SeqSize(ns: seq<Node>): nat
    decreases ns
  {
    if ns == [] then 0 else Size(ns[0]) + SeqSize(ns[1..])
  }

  lemma {:induction false} SeqSizeAppend(a: seq<Node>, b: seq<Node>)
    ensures SeqSize(a + b) == SeqSize(a) + SeqSize(b)
    decreases |a|
  {
    if a != [] {
      assert (a + b)[0] == a[0];
      assert (a + b)[1..] == a[1..] + b;
      SeqSizeAppend(a[1..], b);
    } else {
      assert a + b == b;
    }
  }

  /** The children of `n` in the order the tree walker visits them: the keys
      `id, params, body` of a function expression and `id, init` of a
      declarator, with absent (`null`) slots skipped. */
  function Children(n: Node): (cs: seq<Node>)
    ensures SeqSize(cs) + 1 == Size(n)
  {
    match n
    case Identifier(_) => []
    case FunctionExpression(fid, ps, b) =>
      var cs := OptionToSeq(fid) + ps + [BlockStatement(b)];
      SeqSizeAppend(OptionToSeq(fid) + ps, [BlockStatement(b)]);
      SeqSizeAppend(OptionToSeq(fid), ps);
      assert SeqSize([BlockStatement(b)]) == Size(BlockStatement(b)) by {
        assert [BlockStatement(b)][1..] == [];
      }
      if fid.Some? then
        assert SeqSize([fid.value]) == Size(fid.value) by {
          assert [fid.value][1..] == [];
        }
        cs
      else cs
    case VariableDeclarator(i, init) =>
      var cs := [i] + OptionToSeq(init);
      assert cs[0] == i && cs[1..] == OptionToSeq(init);
      if init.Some? then
        assert SeqSize([init.value]) == Size(init.value) by {
          assert [init.value][1..] == [];
        }
        cs
      else cs
    case BlockStatement(b) => b.body
    case Other(_, cs) => cs
  }
}
