/** The private search of `FunctionExpressionCalleeDataExtractor`
    (`getCalleeBlockStatement`): walk a scope in pre-order and stop at the
    first function expression bound, by a variable declarator, to the
    requested name. */
module CalleeSearch {
  import opened Wrappers
  import opened Estree
  import opened Traversal

  /** The `enter` test: `node` is a function expression whose parent is a
      variable declarator whose `id` is an identifier spelled `name`.
      A root (no parent) never satisfies it. */
  predicate Matches(node: Node, parent: Option<Node>, name: string)
  {
    && node.FunctionExpression?
    && parent.Some?
    && parent.value.VariableDeclarator?
    && parent.value.id.Identifier?
    && parent.value.id.name == name
  }

  predicate VisitMatches(v: Visit, name: string)
  {
    Matches(v.node, v.parent, name)
  }

  /** Entering `n` from `parent`: a hit yields the function's body and
      breaks the walk; otherwise the children are searched in order. */
  function Find(n: Node, parent: Option<Node>, name: string): Option<Block>
    decreases Size(n), 1
  {
    if Matches(n, parent, name) then Some(n.body)
    else FindIn(Children(n), n, name)
  }

  /** Searches the sibling trees `ns` (children of `parent`) left to right;
      a later sibling is entered only if every earlier one came up empty. */
  function FindIn(ns: seq<Node>, parent: Node, name: string): Option<Block>
    decreases SeqSize(ns), 2
  {
    if ns == [] then None
    else
      match Find(ns[0], Some(parent), name)
      case Some(b) => Some(b)
      case None => FindIn(ns[1..], parent, name)
  }

  /** Reference definition, independent of the tree: the body carried by the
      first matching event of a recorded walk. */
  function FirstMatch(vs: seq<Visit>, name: string): Option<Block>
  {
    if vs == [] then None
    else if VisitMatches(vs[0], name) then Some(vs[0].node.body)
    else FirstMatch(vs[1..], name)
  }

  /** No event of the walk satisfies the `enter` test. */
  ghost predicate NoMatch(vs: seq<Visit>, name: string)
  {
    forall i | 0 <= i < |vs| :: !VisitMatches(vs[i], name)
  }

  /** Event `i` matches and no earlier event does. */
  ghost predicate IsFirstMatchAt(vs: seq<Visit>, name: string, i: int)
  {
    && 0 <= i < |vs|
    && VisitMatches(vs[i], name)
    && forall j | 0 <= j < i :: !VisitMatches(vs[j], name)
  }

  /** `FirstMatch` is absent exactly when no event matches, and otherwise is
      the body of the function expression at the first matching event. */
  lemma {:induction false} FirstMatchCharacterized(vs: seq<Visit>, name: string)
    ensures FirstMatch(vs, name).None? <==> NoMatch(vs, name)
    ensures forall i | IsFirstMatchAt(vs, name, i) :: FirstMatch(vs, name) == Some(vs[i].node.body)
    ensures FirstMatch(vs, name).Some? ==>
              exists i :: IsFirstMatchAt(vs, name, i) && FirstMatch(vs, name) == Some(vs[i].node.body)
  {
    if vs == [] {
    } else if VisitMatches(vs[0], name) {
      assert IsFirstMatchAt(vs, name, 0);
      forall i | IsFirstMatchAt(vs, name, i)
        ensures i == 0
      {
      }
    } else {
      var rest := vs[1..];
      FirstMatchCharacterized(rest, name);
      forall i | 0 <= i < |rest|
        ensures rest[i] == vs[i + 1]
      {
      }
      forall i | IsFirstMatchAt(vs, name, i)
        ensures FirstMatch(vs, name) == Some(vs[i].node.body)
      {
        assert i > 0;
        assert IsFirstMatchAt(rest, name, i - 1);
      }
      if FirstMatch(vs, name).Some? {
        var k :| IsFirstMatchAt(rest, name, k) && FirstMatch(rest, name) == Some(rest[k].node.body);
        assert IsFirstMatchAt(vs, name, k + 1);
      }
      if FirstMatch(vs, name).None? {
        forall i | 0 <= i < |vs|
          ensures !VisitMatches(vs[i], name)
        {
          if i > 0 {
            assert vs[i] == rest[i - 1];
          }
        }
      }
    }
  }

  /** Concatenated walks: the second is consulted only when the first has no
      match. */
  lemma {:induction false} FirstMatchAppend(a: seq<Visit>, b: seq<Visit>, name: string)
    ensures FirstMatch(a + b, name) == if FirstMatch(a, name).Some? then FirstMatch(a, name) else FirstMatch(b, name)
  {
    if a == [] {
      assert a + b == b;
    } else {
      assert (a + b)[0] == a[0];
      assert (a + b)[1..] == a[1..] + b;
      FirstMatchAppend(a[1..], b, name);
    }
  }

  /** The search returns exactly the first match of the complete pre-order
      walk: the traversal order, not lexical scope, decides between
      same-named bindings. */
  lemma {:induction false} FindIsFirstMatch(n: Node, parent: Option<Node>, name: string)
    ensures Find(n, parent, name) == FirstMatch(PreOrder(n, parent), name)
    decreases Size(n), 1
  {
    var vs := PreOrder(n, parent);
    assert vs[1..] == PreOrderIn(Children(n), n);
    FindInIsFirstMatch(Children(n), n, name);
  }

  lemma {:induction false} FindInIsFirstMatch(ns: seq<Node>, parent: Node, name: string)
    ensures FindIn(ns, parent, name) == FirstMatch(PreOrderIn(ns, parent), name)
    decreases SeqSize(ns), 2
  {
    if ns != [] {
      FindIsFirstMatch(ns[0], Some(parent), name);
      FindInIsFirstMatch(ns[1..], parent, name);
      FirstMatchAppend(PreOrder(ns[0], Some(parent)), PreOrderIn(ns[1..], parent), name);
    }
  }

  /** Break semantics on siblings: once the trees `ns` hold a match, trees
      after them cannot change the result; if they hold none, the result is
      that of the later trees alone. */
  lemma {:induction false} FindInAppend(ns: seq<Node>, more: seq<Node>, parent: Node, name: string)
    ensures FindIn(ns + more, parent, name)
            == if FindIn(ns, parent, name).Some? then FindIn(ns, parent, name) else FindIn(more, parent, name)
    decreases |ns|
  {
    if ns == [] {
      assert ns + more == more;
    } else {
      assert (ns + more)[0] == ns[0];
      assert (ns + more)[1..] == ns[1..] + more;
      FindInAppend(ns[1..], more, parent, name);
    }
  }

  /** Everything after the first match in a walk is irrelevant: any events
      may follow it without changing the answer. */
  lemma {:induction false} FirstMatchIgnoresLaterEvents(vs: seq<Visit>, name: string, i: int, later: seq<Visit>)
    requires IsFirstMatchAt(vs, name, i)
    ensures FirstMatch(vs[..i + 1] + later, name) == Some(vs[i].node.body)
  {
    var ws := vs[..i + 1] + later;
    assert IsFirstMatchAt(ws, name, i) by {
      forall j | 0 <= j <= i
        ensures ws[j] == vs[j]
      {
      }
    }
    FirstMatchCharacterized(ws, name);
  }

  /** `getCalleeBlockStatement(targetNode, name)`: the walk starts at the
      scope node itself, entered with no parent. */
  function GetCalleeBlockStatement(targetNode: Node, name: string): (r: Option<Block>)
    ensures r.None? <==> NoMatch(PreOrder(targetNode, None), name)
    ensures var vs := PreOrder(targetNode, None);
            r.Some? ==> exists i :: IsFirstMatchAt(vs, name, i) && r == Some(vs[i].node.body)
    ensures var vs := PreOrder(targetNode, None);
            forall i | IsFirstMatchAt(vs, name, i) :: r == Some(vs[i].node.body)
  {
    FindIsFirstMatch(targetNode, None, name);
    FirstMatchCharacterized(PreOrder(targetNode, None), name);
    Find(targetNode, None, name)
  }

  /** Soundness: a result is the body of a function expression, strictly
      inside the scope, that is the initializer of a declarator binding the
      identifier `name`, i.e. of `var name = function ... { result }`. */
  lemma {:induction false} ResultIsBoundFunctionBody(targetNode: Node, name: string)
    requires GetCalleeBlockStatement(targetNode, name).Some?
    ensures var vs := PreOrder(targetNode, None);
            exists i :: && 0 < i < |vs|
                        && vs[i].node.FunctionExpression?
                        && vs[i].parent == Some(VariableDeclarator(Identifier(name), Some(vs[i].node)))
                        && GetCalleeBlockStatement(targetNode, name) == Some(vs[i].node.body)
  {
    var vs := PreOrder(targetNode, None);
    var i :| IsFirstMatchAt(vs, name, i) && GetCalleeBlockStatement(targetNode, name) == Some(vs[i].node.body);
    assert i != 0;
    PreOrderParentsGenuine(targetNode, None);
    assert vs[i] == vs[1..][i - 1];
    var d := vs[i].parent.value;
    assert vs[i].node in Children(d);
    assert Children(d) == [d.id] + OptionToSeq(d.init);
    assert vs[i].node != d.id;
    assert d == VariableDeclarator(Identifier(name), Some(vs[i].node));
  }
}
