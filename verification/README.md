# Callee resolution for function-expression calls

This project models `FunctionExpressionCalleeDataExtractor` from the
javascript-obfuscator stack-trace analyzer. Given the statements of a block
scope and the callee of a call, the extractor finds the `BlockStatement` body
of the function that the callee denotes, or answers `null`.

- An identifier callee `f` is looked up in the first block scope of the
  scope chain of `blockScopeBody[0]`. The lookup is a pre-order walk that
  stops at the first function expression that initialises a declarator
  `f = ...`.
- A function-expression callee is its own answer.
- Every other callee shape is unsupported.

The model is purely functional. There are six files:

- `wrappers.dfy`: the `Option` type, which stands for `null`.
- `estree.dfy`: a closed AST datatype (`Identifier`, `FunctionExpression`,
  `VariableDeclarator`, `BlockStatement`, and a generic `Other` node that
  keeps its children). It also gives each node's children in visiting order
  and a node count.
- `traversal.dfy`: the pre-order walk. It produces the sequence of
  `enter(node, parent)` events, and the root is entered with no parent.
- `callee_search.dfy`: `getCalleeBlockStatement` as a recursive search that
  returns `Option<Block>`. It also holds a reference definition, which is
  the first matching event of the recorded walk, and the lemmas that tie the
  two together.
- `callee_data_extractor.dfy`: `extract`. The block-scope locator is passed
  in as a function parameter `scopesOf`.
- `fixtures.dfy`: concrete programs that pin the behaviour down, including
  the shadowing tie-break.

The search picks between two bindings of the same name by traversal order,
not by lexical scope. A binding nested inside another function can win over
the binding that is actually visible at the call. `TraversalOrderDecidesBetweenBindings`
shows this on a concrete tree.

## Model

| member | source | states |
|---|---|---|
| FunctionExpressionCalleeDataExtractor.Extract | src/analyzers/stack-trace-analyzer/callee-data-extractors/FunctionExpressionCalleeDataExtractor.ts:19-41 | A function-expression callee yields its own body with name absent, whatever the scopes are. Any shape other than identifier or function expression yields absent, never a partial record. For an identifier, the result is absent exactly when no event of the walk of `scopesOf(blockScopeBody[0])[0]` matches the name. Otherwise the result is the body at the first matching event, and its name is the identifier bound by that event's declarator, i.e. the searched name. A result carries a name exactly when the callee is an identifier with a non-empty (truthy) name. |
| FunctionExpressionCalleeDataExtractor.OnlyFirstScopeConsulted | src/analyzers/stack-trace-analyzer/callee-data-extractors/FunctionExpressionCalleeDataExtractor.ts:22-26 | An identifier is resolved against the first scope of the chain only. Two scope locators that agree on that scope give the same answer, and statements after `blockScopeBody[0]` are never read. |
| CalleeSearch.GetCalleeBlockStatement | src/analyzers/stack-trace-analyzer/callee-data-extractors/FunctionExpressionCalleeDataExtractor.ts:48-67 | Starting at the scope node with no parent, the result is absent if and only if no event of the pre-order walk passes the match test. Otherwise it is the body of the function expression at the first event that passes. |
| CalleeSearch.ResultIsBoundFunctionBody | src/analyzers/stack-trace-analyzer/callee-data-extractors/FunctionExpressionCalleeDataExtractor.ts:51-59 | Soundness: a result is the body of a function expression strictly inside the scope. That function expression is the `init` of the declarator `VariableDeclarator(Identifier(name), function)` that is its real parent. |
| CalleeSearch.FindIsFirstMatch | src/analyzers/stack-trace-analyzer/callee-data-extractors/FunctionExpressionCalleeDataExtractor.ts:51-61 | The recursive search with a break equals the reference "first matching event of the complete pre-order walk", for every tree and starting parent. |
| CalleeSearch.FindInIsFirstMatch | src/analyzers/stack-trace-analyzer/callee-data-extractors/FunctionExpressionCalleeDataExtractor.ts:51-61 | The same equality for a row of sibling subtrees searched left to right. |
| CalleeSearch.FindInAppend | src/analyzers/stack-trace-analyzer/callee-data-extractors/FunctionExpressionCalleeDataExtractor.ts:59-61 | Break semantics: once earlier siblings hold a match, later siblings cannot change the result. When earlier siblings hold none, the result is that of the later siblings alone. |
| CalleeSearch.FirstMatchCharacterized | src/analyzers/stack-trace-analyzer/callee-data-extractors/FunctionExpressionCalleeDataExtractor.ts:53-61 | The reference search is absent exactly when no event matches. It equals the body at any first-matching index, and a present result comes from such an index. |
| CalleeSearch.FirstMatchAppend | src/analyzers/stack-trace-analyzer/callee-data-extractors/FunctionExpressionCalleeDataExtractor.ts:59-61 | On concatenated event sequences, the second part is consulted only when the first part has no match. |
| CalleeSearch.FirstMatchIgnoresLaterEvents | src/analyzers/stack-trace-analyzer/callee-data-extractors/FunctionExpressionCalleeDataExtractor.ts:59-61 | Whatever events follow the first match, the answer stays that match's body. |
| Traversal.PreOrder | src/analyzers/stack-trace-analyzer/callee-data-extractors/FunctionExpressionCalleeDataExtractor.ts:51-52 | The walk enters the root first, with the parent it was started with, and produces exactly `Size(n)` events, the number of nodes in the tree. |
| Traversal.PreOrderParentsGenuine | src/analyzers/stack-trace-analyzer/callee-data-extractors/FunctionExpressionCalleeDataExtractor.ts:52 | Every `enter` event after the root's names the node's real parent, which is a node having it among its children. |
| Traversal.PreOrderInParentsGenuine | src/analyzers/stack-trace-analyzer/callee-data-extractors/FunctionExpressionCalleeDataExtractor.ts:52 | The same for a row of children of one parent. |
| Fixtures.ResolvesLocalFunctionVariable | src/analyzers/stack-trace-analyzer/callee-data-extractors/FunctionExpressionCalleeDataExtractor.ts:19-41 | In `function outer() { var f = function () { return 1; }; f(); }`, the call `f()` resolves to the `return 1;` block, named `f`. |
| Fixtures.TraversalOrderDecidesBetweenBindings | src/analyzers/stack-trace-analyzer/callee-data-extractors/FunctionExpressionCalleeDataExtractor.ts:51-61 | The scope is `var g = function () { var f = function () { return 1; }; }; var f = function () { return 2; }; f();`. Here `f()` resolves to the `return 1;` body nested in `g`, which comes first in pre-order. It does not resolve to the lexically visible `return 2;` body. |
| Fixtures.UnboundNameIsAbsent | src/analyzers/stack-trace-analyzer/callee-data-extractors/FunctionExpressionCalleeDataExtractor.ts:33-35 | A name with no binding in the scope resolves to absent. |

## Left out

- Dependency injection: the `@injectable` decorator and the `AbstractCalleeDataExtractor` base class carry no behaviour.
- The `estraverse` library is replaced by the explicit walk in `traversal.dfy`. Its visitor keys are modelled as `Children`: `id, params, body` for a function expression and `id, init` for a declarator. Absent (`null`) slots are skipped, and the `break` option is modelled by the search returning at once.
- `NodeUtils.getBlockScopesOfNode` is not part of this model. It is the parameter `scopesOf`, and nothing is assumed about the order of the chain it returns.
- `NodeGuards` is not part of this model. Its predicates are constructor tests. If the scope node were itself a function expression, the source would ask the declarator guard about a `null` parent. What that guard does with `null` is not shown, so the model treats the root as never matching.
- The source returns the very `BlockStatement` object found at the first hit (line 59 of `FunctionExpressionCalleeDataExtractor.ts`). The model returns a structural `Block` value, so two function expressions with equal bodies give equal results. Which node was found is pinned by the first-match index in the contracts, not by object identity.
- Every ESTree node kind that the resolver does not inspect is collapsed into `Other(kind, children)`. Literal values and operators become part of the kind string.
- FunctionExpressionCalleeDataExtractor.Extract requires, for an identifier callee only, a non-empty `blockScopeBody` and a non-empty scope chain. The source indexes `[0]` on both without a check, and what happens on `undefined` is outside this core.
- Determinism and idempotence of `extract` are not stated as lemmas. Every member here is a pure Dafny function, so equal inputs give equal results by construction.
- Concurrency: the code is synchronous and has no shared state, so there is nothing to model.
- A named function expression `function g() {}` used as a callee still yields name `null`. Line 39 of `FunctionExpressionCalleeDataExtractor.ts` reads `callee.name`, and an ESTree `FunctionExpression` has an `id`, not a `name`. The model follows this.
