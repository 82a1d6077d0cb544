/** The pre-order tree walk the resolver relies on: every node is entered
    before its children, children are entered in `Children` order, and each
    node is entered together with its immediate parent (absent for the root). */
module Traversal {
  import opened Wrappers
  import opened Estree

  /** One `enter` event of the walk: a node and the parent it was reached from. */
  datatype Visit = Visit(node: Node, parent: Option<Node>)

  /** Every `enter` event of a complete walk of the tree rooted at `n`, in order. */
  function PreOrder(n: Node, parent: Option<Node>): (vs: seq<Visit>)
    ensures |vs| == Size(n)
    ensures vs[0] == Visit(n, parent)
    decreases Size(n), 1
  {
    [Visit(n, parent)] + PreOrderIn(Children(n), n)
  }

  /** The walks of the sibling trees `ns`, all children of `parent`, one
      after another. */
  function PreOrderIn(ns: seq<Node>, parent: Node): (vs: seq<Visit>)
    ensures |vs| == SeqSize(ns)
    decreases SeqSize(ns), 2
  {
    if ns == [] then [] else PreOrder(ns[0], Some(parent)) + PreOrderIn(ns[1..], parent)
  }

  /** Each event names the true parent of its node. */
  ghost predicate ParentsGenuine(vs: seq<Visit>)
  {
    forall i | 0 <= i < |vs| :: vs[i].parent.Some? && vs[i].node in Children(vs[i].parent.value)
  }

  /** The walk hands every node but the root its real parent, and the root the
      parent it was started with. */
  lemma {:induction false} PreOrderParentsGenuine(n: Node, parent: Option<Node>)
    ensures PreOrder(n, parent)[0].parent == parent
    ensures ParentsGenuine(PreOrder(n, parent)[1..])
    decreases Size(n), 1
  {
    assert PreOrder(n, parent)[1..] == PreOrderIn(Children(n), n);
    PreOrderInParentsGenuine(Children(n), n);
  }

  lemma {:induction false} PreOrderInParentsGenuine(ns: seq<Node>, parent: Node)
    requires forall k | 0 <= k < |ns| :: ns[k] in Children(parent)
    ensures ParentsGenuine(PreOrderIn(ns, parent))
    decreases SeqSize(ns), 2
  {
    if ns != [] {
      var head := PreOrder(ns[0], Some(parent));
      var tail := PreOrderIn(ns[1..], parent);
      PreOrderParentsGenuine(ns[0], Some(parent));
      PreOrderInParentsGenuine(ns[1..], parent);
      var vs: seq<Visit> := head + tail;
      assert PreOrderIn(ns, parent) == vs;
      forall i | 0 <= i < |vs|
        ensures vs[i].parent.Some? && vs[i].node in Children(vs[i].parent.value)
      {
        if i == 0 {
        } else if i < |head| {
          assert vs[i] == head[1..][i - 1];
        } else {
          assert vs[i] == tail[i - |head|];
        }
      }
    }
  }
}
