/** Hand-built trees that pin the resolver's behaviour on concrete programs. */
module Fixtures {
  import opened Wrappers
  import opened Estree
  import opened CalleeSearch
  import opened FunctionExpressionCalleeDataExtractor

  function Return(value: string): Block
  {
    Block([Other("ReturnStatement", [Other("Literal:" + value, [])])])
  }

  /** `var name = function () { return value; };` */
  function VarFunction(name: string, body: Block): Node
  {
    Other("VariableDeclaration", [VariableDeclarator(Identifier(name), Some(FunctionExpression(None, [], body)))])
  }

  lemma FindInSingleton(n: Node, parent: Node, name: string)
    ensures FindIn([n], parent, name) == Find(n, Some(parent), name)
  {
    assert [n][1..] == [];
  }

  /** Searching a `var name = function () { ... };` statement: it answers
      with the function's body when the name is the one searched for, and
      otherwise with whatever the function's own body holds. */
  lemma FindInVarFunction(name: string, body: Block, parent: Option<Node>, searched: string)
    ensures Find(VarFunction(name, body), parent, searched)
            == if name == searched then Some(body) else FindIn(body.body, BlockStatement(body), searched)
  {
    var fe := FunctionExpression(None, [], body);
    var d := VariableDeclarator(Identifier(name), Some(fe));
    var v := VarFunction(name, body);
    assert Children(v) == [d];
    assert Children(d) == [Identifier(name), fe];
    assert Children(fe) == [BlockStatement(body)];
    assert Find(Identifier(name), Some(d), searched) == None by {
      assert Children(Identifier(name)) == [];
    }
    assert [Identifier(name), fe][1..] == [fe];
    assert FindIn([Identifier(name), fe], d, searched) == Find(fe, Some(d), searched) by {
      assert FindIn([fe][1..], d, searched) == None;
    }
    assert FindIn([d], v, searched) == Find(d, Some(v), searched) by {
      assert FindIn([d][1..], v, searched) == None;
    }
    if name != searched {
      assert FindIn([BlockStatement(body)], fe, searched) == Find(BlockStatement(body), Some(fe), searched) by {
        assert FindIn([BlockStatement(body)][1..], fe, searched) == None;
      }
    }
  }

  /** `name();` */
  function CallStatement(name: string): Node
  {
    Other("ExpressionStatement", [Other("CallExpression", [Identifier(name)])])
  }

  /** The body of `function outer() { var f = function () { return 1; }; f(); }`. */
  function OuterBlock(): Node
  {
    BlockStatement(Block([VarFunction("f", Return("1")), CallStatement("f")]))
  }

  /** Resolving the call `f()` inside `outer` yields the `return 1;` block,
      named `f`. */
  lemma ResolvesLocalFunctionVariable()
    ensures Extract(OuterBlock().block.body, Identifier("f"), _ => [OuterBlock()]) == Some(CalleeData(Return("1"), Some("f")))
  {
  }

  /** A scope in which `f` is bound twice:
      `var g = function () { var f = function () { return 1; }; };
       var f = function () { return 2; };  f();`
      The call `f()` lexically denotes the second binding, but the walk
      enters the binding nested inside `g` first, so that one is returned. */
  function ShadowingBlock(): Node
  {
    BlockStatement(Block([
      VarFunction("g", Block([VarFunction("f", Return("1"))])),
      VarFunction("f", Return("2")),
      CallStatement("f")]))
  }

  lemma TraversalOrderDecidesBetweenBindings()
    ensures Extract([CallStatement("f")], Identifier("f"), _ => [ShadowingBlock()]) == Some(CalleeData(Return("1"), Some("f")))
  {
    var inner := Block([VarFunction("f", Return("1"))]);
    var stmts := [VarFunction("g", inner), VarFunction("f", Return("2")), CallStatement("f")];
    FindInVarFunction("g", inner, Some(ShadowingBlock()), "f");
    FindInVarFunction("f", Return("1"), Some(BlockStatement(inner)), "f");
    assert FindIn(inner.body, BlockStatement(inner), "f") == Some(Return("1"));
    assert FindIn(stmts, ShadowingBlock(), "f") == Some(Return("1"));
    assert Find(ShadowingBlock(), None, "f") == Some(Return("1"));
  }

  /** A name with no binding in the scope resolves to nothing. */
  lemma UnboundNameIsAbsent()
    ensures Extract(OuterBlock().block.body, Identifier("h"), _ => [OuterBlock()]) == None
  {
    var call := CallStatement("f");
    var callExpr := Other("CallExpression", [Identifier("f")]);
    FindInVarFunction("f", Return("1"), Some(OuterBlock()), "h");
    var lit := Other("Literal:" + "1", []);
    var ret := Other("ReturnStatement", [lit]);
    assert Find(lit, Some(ret), "h") == None;
    FindInSingleton(lit, ret, "h");
    FindInSingleton(ret, BlockStatement(Return("1")), "h");
    assert Find(ret, Some(BlockStatement(Return("1"))), "h") == None;
    assert FindIn(Return("1").body, BlockStatement(Return("1")), "h") == None;
    assert Find(callExpr, Some(call), "h") == None;
    assert Find(call, Some(OuterBlock()), "h") == None;
    assert FindIn([call], OuterBlock(), "h") == None;
    assert Find(OuterBlock(), None, "h") == None;
  }
}
