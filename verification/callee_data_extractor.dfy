/** `FunctionExpressionCalleeDataExtractor.extract`: decide which function
    body a callee denotes. An identifier is looked up in a scope; a function
    expression is its own answer; every other callee shape is unsupported. */
module FunctionExpressionCalleeDataExtractor {
  import opened Wrappers
  import opened Estree
  import opened Traversal
  import opened CalleeSearch

  /** The `ICalleeData` record: the resolved body and the callee's name. */
  datatype CalleeData = CalleeData(callee: Block, name: Option<string>)

  /** `callee.name || null`: only an identifier has a `name` field, and an
      empty name is falsy. */
  function CalleeName(callee: Node): Option<string>
  {
    if callee.Identifier? && callee.name != "" then Some(callee.name) else None
  }

  /** The scope an identifier callee is resolved in: the first block scope
      that `scopesOf` (the block-scope locator, whose ordering this model
      leaves open) reports for the first node of `blockScopeBody`. */
  function ResolutionScope(blockScopeBody: seq<Node>, scopesOf: Node -> seq<Node>): Node
    requires |blockScopeBody| > 0 && |scopesOf(blockScopeBody[0])| > 0
  {
    scopesOf(blockScopeBody[0])[0]
  }

  /** `extract(blockScopeBody, callee)`. The scope lookup is a parameter;
      it is consulted only for an identifier callee, which is also the only
      case in which the source indexes `blockScopeBody[0]` and the returned
      chain's first element. */
  function Extract(blockScopeBody: seq<Node>, callee: Node, scopesOf: Node -> seq<Node>): (r: Option<CalleeData>)
    requires callee.Identifier? ==> |blockScopeBody| > 0 && |scopesOf(blockScopeBody[0])| > 0
    // A function expression passes its own body through, with no name, whatever the scopes hold.
    ensures callee.FunctionExpression? ==> r == Some(CalleeData(callee.body, None))
    // Any other shape than identifier or function expression is unsupported.
    ensures !callee.Identifier? && !callee.FunctionExpression? ==> r == None
    // Only an identifier result can carry a name, and it does unless the name is empty (falsy).
    ensures r.Some? ==> (r.value.name.Some? <==> callee.Identifier? && callee.name != "")
    // Identifier: absent exactly when no event of the scope's walk matches the name.
    ensures callee.Identifier? ==>
              var vs := PreOrder(ResolutionScope(blockScopeBody, scopesOf), None);
              (r.None? <==> NoMatch(vs, callee.name))
    // Identifier: otherwise the body found at the first matching event.
    ensures callee.Identifier? ==>
              var vs := PreOrder(ResolutionScope(blockScopeBody, scopesOf), None);
              forall i | IsFirstMatchAt(vs, callee.name, i) :: r.Some? && r.value.callee == vs[i].node.body
    // Identifier: a result comes from a first-matching event, and its name is
    // the name bound by that event's declarator.
    ensures callee.Identifier? && r.Some? ==>
              var vs := PreOrder(ResolutionScope(blockScopeBody, scopesOf), None);
              exists i :: && IsFirstMatchAt(vs, callee.name, i)
                          && r.value.callee == vs[i].node.body
                          && (r.value.name.Some? ==> r.value.name == Some(vs[i].parent.value.id.name))
  {
    if callee.Identifier? then
      var scope := ResolutionScope(blockScopeBody, scopesOf);
      var found := GetCalleeBlockStatement(scope, callee.name);
      if found.Some? then Some(CalleeData(found.value, CalleeName(callee))) else None
    else if callee.FunctionExpression? then
      Some(CalleeData(callee.body, CalleeName(callee)))
    else
      None
  }

  /** An identifier callee depends on nothing but the first scope of the
      chain: two scope locators that agree on that one scope give the same
      answer, and `blockScopeBody` beyond its first node is never read. */
  lemma OnlyFirstScopeConsulted(blockScopeBody: seq<Node>, more: seq<Node>, callee: Node,
                                scopesOf: Node -> seq<Node>, otherScopesOf: Node -> seq<Node>)
    requires callee.Identifier?
    requires |blockScopeBody| > 0 && |scopesOf(blockScopeBody[0])| > 0
    requires |otherScopesOf(blockScopeBody[0])| > 0
    requires otherScopesOf(blockScopeBody[0])[0] == scopesOf(blockScopeBody[0])[0]
    ensures Extract(blockScopeBody + more, callee, otherScopesOf) == Extract(blockScopeBody, callee, scopesOf)
  {
  }
}
