/** The subtree traversals of FComponentHierarchy (Component.h), over an
  * abstract tree of components: each node's children are the components
  * ForEachChildComponent passes to its functor, in that order. */
module Components {
  import opened Wrappers

  /** EForEachComponentRecursionType (Component.h:42-53). */
  datatype RecursionType = NotRecursive | Prefix | PrefixCond | Suffix

  /** A component and the subtrees of its children. */
  datatype Tree<C> = Node(comp: C, children: seq<Tree<C>>)

  /** Every component of the tree, with multiplicity. */
  function Nodes<C>(t: Tree<C>): multiset<C>
    decreases t
  {
    multiset{t.comp} + ForestNodes(t.children)
  }

  function ForestNodes<C>(ts: seq<Tree<C>>): multiset<C>
    decreases ts
  {
    if |ts| == 0 then multiset{} else Nodes(ts[0]) + ForestNodes(ts[1..])
  }

  /** ForEachComponentInSubtree (Component.h:431-481): the components passed
    * to the functor, in order. `proceed` is what the functor returns for a
    * component, which only PrefixCond looks at. `childrenAllowed` is false
    * exactly when the functor takes non-const components and the hierarchy
    * is immutable: ForEachChildComponent then returns before visiting any
    * child (Component.h:354-356), at every level. */
  function ForEachComponentInSubtree<C>(t: Tree<C>, kind: RecursionType, proceed: C -> bool, childrenAllowed: bool): seq<C>
    decreases t
  {
    match kind
    case NotRecursive => [t.comp]
    case Prefix => [t.comp] + (if childrenAllowed then ForEachInForest(t.children, kind, proceed, childrenAllowed) else [])
    case PrefixCond =>
      if proceed(t.comp) then
        [t.comp] + (if childrenAllowed then ForEachInForest(t.children, kind, proceed, childrenAllowed) else [])
      else [t.comp]
    case Suffix => (if childrenAllowed then ForEachInForest(t.children, kind, proceed, childrenAllowed) else []) + [t.comp]
  }

  /** The traversals of the subtrees of siblings, one after the other. */
  function ForEachInForest<C>(ts: seq<Tree<C>>, kind: RecursionType, proceed: C -> bool, childrenAllowed: bool): seq<C>
    decreases ts
  {
    if |ts| == 0 then []
    else ForEachComponentInSubtree(ts[0], kind, proceed, childrenAllowed) + ForEachInForest(ts[1..], kind, proceed, childrenAllowed)
  }

  /** ForEachDescendant (Component.h:203-220) as written: the subtree
    * traversal of each child of the parent, without the parent itself. The
    * lambda it hands to ForEachChildComponent takes non-const components
    * (Component.h:218), so on an immutable hierarchy the guard of
    * Component.h:354-356 refuses it whatever the functor takes; when the
    * hierarchy is mutable every level may see its children. */
  function ForEachDescendant<C>(t: Tree<C>, kind: RecursionType, proceed: C -> bool, mutable: bool): seq<C>
  {
    if mutable then ForEachInForest(t.children, kind, proceed, true) else []
  }

  /** ForEachDescendant as evidently intended: the lambda takes the
    * components as const as the functor does, as ForEachComponentInSubtree's
    * own lambda does (Component.h:472-476), so its children are refused
    * exactly when the subtree traversal's would be. */
  function ForEachDescendantIntended<C>(t: Tree<C>, kind: RecursionType, proceed: C -> bool, childrenAllowed: bool): seq<C>
  {
    if childrenAllowed then ForEachInForest(t.children, kind, proceed, childrenAllowed) else []
  }

  /** The two agree except for a const functor on an immutable hierarchy,
    * where the intended one visits the descendants and the one as written
    * visits nothing. */
  lemma DescendantsAsWrittenMeaning<C>(t: Tree<C>, kind: RecursionType, proceed: C -> bool, constFunctor: bool, mutable: bool)
    ensures mutable || !constFunctor ==>
      ForEachDescendant(t, kind, proceed, mutable) == ForEachDescendantIntended(t, kind, proceed, constFunctor || mutable)
    ensures !mutable ==> ForEachDescendant(t, kind, proceed, mutable) == []
  {
  }

  /** A parent 1 with one child 2, a const functor, an immutable hierarchy:
    * as written nothing is visited, though the intended traversal visits 2. */
  lemma ConstFunctorSeesNoDescendants(proceed: int -> bool)
    ensures ForEachDescendant(Node(1, [Node(2, [])]), Prefix, proceed, false) == []
    ensures ForEachDescendantIntended(Node(1, [Node(2, [])]), Prefix, proceed, true) == [2]
  {
    assert [Node(2, [])][1..] == [];
  }

  /** The traversal visits only the root when it does not recurse, when the
    * functor may not see the children, or when PrefixCond's functor stops
    * at the root. */
  lemma RootOnly<C>(t: Tree<C>, kind: RecursionType, proceed: C -> bool, childrenAllowed: bool)
    ensures kind == NotRecursive ==> ForEachComponentInSubtree(t, kind, proceed, childrenAllowed) == [t.comp]
    ensures !childrenAllowed ==> ForEachComponentInSubtree(t, kind, proceed, childrenAllowed) == [t.comp]
    ensures kind == PrefixCond && !proceed(t.comp) ==> ForEachComponentInSubtree(t, kind, proceed, childrenAllowed) == [t.comp]
    ensures !childrenAllowed ==> ForEachDescendantIntended(t, kind, proceed, childrenAllowed) == []
  {
  }

  // ---------------------------------------------------------------------
  // Each node once.

  /** Every traversal visits components of the subtree only, never more
    * often than they occur; Prefix and Suffix visit every node exactly
    * once. */
  lemma {:induction false} VisitsNodes<C>(t: Tree<C>, kind: RecursionType, proceed: C -> bool, childrenAllowed: bool)
    ensures multiset(ForEachComponentInSubtree(t, kind, proceed, childrenAllowed)) <= Nodes(t)
    ensures (kind == Prefix || kind == Suffix) && childrenAllowed ==>
      multiset(ForEachComponentInSubtree(t, kind, proceed, childrenAllowed)) == Nodes(t)
    decreases t
  {
    if childrenAllowed {
      ForestVisitsNodes(t.children, kind, proceed, childrenAllowed);
    }
  }

  lemma {:induction false} ForestVisitsNodes<C>(ts: seq<Tree<C>>, kind: RecursionType, proceed: C -> bool, childrenAllowed: bool)
    ensures multiset(ForEachInForest(ts, kind, proceed, childrenAllowed)) <= ForestNodes(ts)
    ensures (kind == Prefix || kind == Suffix) && childrenAllowed ==>
      multiset(ForEachInForest(ts, kind, proceed, childrenAllowed)) == ForestNodes(ts)
    decreases ts
  {
    if |ts| > 0 {
      VisitsNodes(ts[0], kind, proceed, childrenAllowed);
      ForestVisitsNodes(ts[1..], kind, proceed, childrenAllowed);
    }
  }

  /** ForEachDescendant never visits the parent when it occurs once in the
    * tree, and on a mutable hierarchy with Prefix or Suffix it visits every
    * other node exactly once. */
  lemma DescendantsExcludeParent<C>(t: Tree<C>, kind: RecursionType, proceed: C -> bool, mutable: bool)
    requires Nodes(t)[t.comp] == 1
    ensures t.comp !in ForEachDescendant(t, kind, proceed, mutable)
    ensures (kind == Prefix || kind == Suffix) && mutable ==>
      multiset(ForEachDescendant(t, kind, proceed, mutable)) + multiset{t.comp} == Nodes(t)
  {
    ForestVisitsNodes(t.children, kind, proceed, true);
    var visited := ForEachDescendant(t, kind, proceed, mutable);
    assert multiset(visited)[t.comp] <= ForestNodes(t.children)[t.comp] == 0;
  }

  /** With the intended ForEachDescendant, Prefix is the root followed by its
    * descendants and Suffix the descendants followed by the root; as written
    * this holds whenever the functor's constness does not matter, that is on
    * a mutable hierarchy or for a non-const functor. */
  lemma PrefixAndSuffixAroundDescendants<C>(t: Tree<C>, proceed: C -> bool, childrenAllowed: bool)
    ensures ForEachComponentInSubtree(t, Prefix, proceed, childrenAllowed) ==
      [t.comp] + ForEachDescendantIntended(t, Prefix, proceed, childrenAllowed)
    ensures ForEachComponentInSubtree(t, Suffix, proceed, childrenAllowed) ==
      ForEachDescendantIntended(t, Suffix, proceed, childrenAllowed) + [t.comp]
    ensures ForEachComponentInSubtree(t, Prefix, proceed, childrenAllowed) ==
      [t.comp] + ForEachDescendant(t, Prefix, proceed, childrenAllowed)
    ensures ForEachComponentInSubtree(t, Suffix, proceed, childrenAllowed) ==
      ForEachDescendant(t, Suffix, proceed, childrenAllowed) + [t.comp]
  {
  }

  // ---------------------------------------------------------------------
  // PrefixCond as Prefix over the pruned tree.

  /** The tree without the descendants of the components for which the
    * functor returns false. */
  function Prune<C>(t: Tree<C>, proceed: C -> bool): Tree<C>
    decreases t
  {
    Node(t.comp, if proceed(t.comp) then PruneForest(t.children, proceed) else [])
  }

  function PruneForest<C>(ts: seq<Tree<C>>, proceed: C -> bool): (r: seq<Tree<C>>)
    ensures |r| == |ts|
    decreases ts
  {
    if |ts| == 0 then [] else [Prune(ts[0], proceed)] + PruneForest(ts[1..], proceed)
  }

  /** PrefixCond visits exactly what Prefix visits in the tree pruned below
    * each component for which the functor returns false: a false return
    * cuts off that component's descendants and nothing else, so sibling
    * branches are still visited. */
  lemma {:induction false} PrefixCondIsPrunedPrefix<C>(t: Tree<C>, proceed: C -> bool, childrenAllowed: bool)
    ensures ForEachComponentInSubtree(t, PrefixCond, proceed, childrenAllowed)
      == ForEachComponentInSubtree(Prune(t, proceed), Prefix, proceed, childrenAllowed)
    decreases t
  {
    if proceed(t.comp) && childrenAllowed {
      ForestPrefixCondIsPrunedPrefix(t.children, proceed, childrenAllowed);
    }
  }

  lemma {:induction false} ForestPrefixCondIsPrunedPrefix<C>(ts: seq<Tree<C>>, proceed: C -> bool, childrenAllowed: bool)
    ensures ForEachInForest(ts, PrefixCond, proceed, childrenAllowed)
      == ForEachInForest(PruneForest(ts, proceed), Prefix, proceed, childrenAllowed)
    decreases ts
  {
    if |ts| > 0 {
      var pruned := PruneForest(ts, proceed);
      assert pruned[0] == Prune(ts[0], proceed) && pruned[1..] == PruneForest(ts[1..], proceed);
      PrefixCondIsPrunedPrefix(ts[0], proceed, childrenAllowed);
      ForestPrefixCondIsPrunedPrefix(ts[1..], proceed, childrenAllowed);
    }
  }

  /** Pruning with a functor that never stops leaves the tree as it is. */
  lemma {:induction false} PruneNothing<C>(t: Tree<C>, proceed: C -> bool)
    requires forall c :: proceed(c)
    ensures Prune(t, proceed) == t
    decreases t
  {
    PruneForestNothing(t.children, proceed);
  }

  lemma {:induction false} PruneForestNothing<C>(ts: seq<Tree<C>>, proceed: C -> bool)
    requires forall c :: proceed(c)
    ensures PruneForest(ts, proceed) == ts
    decreases ts
  {
    if |ts| > 0 {
      PruneNothing(ts[0], proceed);
      PruneForestNothing(ts[1..], proceed);
      assert ts == [ts[0]] + ts[1..];
    }
  }

  /** A PrefixCond functor that always continues gives the Prefix order. */
  lemma PrefixCondAlwaysContinuing<C>(t: Tree<C>, proceed: C -> bool, childrenAllowed: bool)
    requires forall c :: proceed(c)
    ensures ForEachComponentInSubtree(t, PrefixCond, proceed, childrenAllowed)
      == ForEachComponentInSubtree(t, Prefix, proceed, childrenAllowed)
  {
    PrefixCondIsPrunedPrefix(t, proceed, childrenAllowed);
    PruneNothing(t, proceed);
  }

  // ---------------------------------------------------------------------
  // Suffix as reversed Prefix.

  function Reverse<C>(s: seq<C>): (r: seq<C>)
    ensures |r| == |s|
  {
    if |s| == 0 then [] else Reverse(s[1..]) + [s[0]]
  }

  lemma {:induction false} ReverseAppend<C>(a: seq<C>, b: seq<C>)
    ensures Reverse(a + b) == Reverse(b) + Reverse(a)
  {
    if |a| == 0 {
      assert a + b == b;
    } else {
      assert (a + b)[1..] == a[1..] + b;
      ReverseAppend(a[1..], b);
    }
  }

  /** The tree with every child list reversed, at every level. */
  function Mirror<C>(t: Tree<C>): Tree<C>
    decreases t
  {
    Node(t.comp, MirrorForest(t.children))
  }

  /** The mirrored siblings, in reverse order. */
  function MirrorForest<C>(ts: seq<Tree<C>>): seq<Tree<C>>
    decreases ts
  {
    if |ts| == 0 then [] else MirrorForest(ts[1..]) + [Mirror(ts[0])]
  }

  lemma {:induction false} ForestAppend<C>(a: seq<Tree<C>>, b: seq<Tree<C>>, kind: RecursionType, proceed: C -> bool, childrenAllowed: bool)
    ensures ForEachInForest(a + b, kind, proceed, childrenAllowed)
      == ForEachInForest(a, kind, proceed, childrenAllowed) + ForEachInForest(b, kind, proceed, childrenAllowed)
  {
    if |a| == 0 {
      assert a + b == b;
    } else {
      assert (a + b)[0] == a[0] && (a + b)[1..] == a[1..] + b;
      ForestAppend(a[1..], b, kind, proceed, childrenAllowed);
    }
  }

  /** Suffix visits the components in exactly the reverse of the Prefix
    * order over the mirrored tree: children before parents, later siblings'
    * subtrees after earlier ones. */
  lemma {:induction false} SuffixIsReversedMirrorPrefix<C>(t: Tree<C>, proceed: C -> bool, childrenAllowed: bool)
    ensures ForEachComponentInSubtree(t, Suffix, proceed, childrenAllowed)
      == Reverse(ForEachComponentInSubtree(Mirror(t), Prefix, proceed, childrenAllowed))
    decreases t
  {
    var below := if childrenAllowed then ForEachInForest(MirrorForest(t.children), Prefix, proceed, childrenAllowed) else [];
    ReverseAppend([t.comp], below);
    if childrenAllowed {
      ForestSuffixIsReversedMirrorPrefix(t.children, proceed);
    }
  }

  lemma {:induction false} ForestSuffixIsReversedMirrorPrefix<C>(ts: seq<Tree<C>>, proceed: C -> bool)
    ensures ForEachInForest(ts, Suffix, proceed, true)
      == Reverse(ForEachInForest(MirrorForest(ts), Prefix, proceed, true))
    decreases ts
  {
    if |ts| > 0 {
      var rest := MirrorForest(ts[1..]);
      ForestAppend(rest, [Mirror(ts[0])], Prefix, proceed, true);
      assert ForEachInForest([Mirror(ts[0])], Prefix, proceed, true)
        == ForEachComponentInSubtree(Mirror(ts[0]), Prefix, proceed, true);
      ReverseAppend(ForEachInForest(rest, Prefix, proceed, true), ForEachComponentInSubtree(Mirror(ts[0]), Prefix, proceed, true));
      SuffixIsReversedMirrorPrefix(ts[0], proceed, true);
      ForestSuffixIsReversedMirrorPrefix(ts[1..], proceed);
    }
  }

  // ---------------------------------------------------------------------
  // The hierarchy of ComponentTest.cpp: DefaultComponent (1) with child
  // DefaultChildComponent (2) with child DefaultGrandchildComponent (3).

  function ExampleTree(): Tree<int>
  {
    Node(1, [Node(2, [Node(3, [])])])
  }

  /** The test's PrefixCond visitor continues everywhere except at the
    * child. */
  predicate NotTheChild(c: int)
  {
    c != 2
  }

  /** ComponentTest.cpp:54-104: NotRecursive gives [1], Prefix [1, 2, 3],
    * PrefixCond stopping at the child [1, 2], Suffix [3, 2, 1]. */
  lemma ComponentTestOrders(visitor: int -> bool)
    ensures ForEachComponentInSubtree(ExampleTree(), NotRecursive, visitor, true) == [1]
    ensures ForEachComponentInSubtree(ExampleTree(), Prefix, visitor, true) == [1, 2, 3]
    ensures ForEachComponentInSubtree(ExampleTree(), PrefixCond, NotTheChild, true) == [1, 2]
    ensures ForEachComponentInSubtree(ExampleTree(), Suffix, visitor, true) == [3, 2, 1]
  {
    var leaf := Node(3, []);
    var middle := Node(2, [leaf]);
    assert ForEachInForest([leaf], Prefix, visitor, true) == [3];
    assert ForEachInForest([middle], Prefix, visitor, true) == [1, 2, 3][1..];
    assert ForEachInForest([leaf], Suffix, visitor, true) == [3];
    assert ForEachInForest([middle], Suffix, visitor, true) == [3, 2];
    assert ForEachInForest([middle], PrefixCond, NotTheChild, true) == [2];
  }

  // ---------------------------------------------------------------------
  // FindComponentInSubtree (Component.cpp:497-519).

  function Not<C>(pred: C -> bool): C -> bool
  {
    (c: C) => !pred(c)
  }

  /** The last element satisfying the predicate. */
  function LastMatch<C>(s: seq<C>, pred: C -> bool): (r: Option<C>)
    ensures r.None? <==> forall k :: 0 <= k < |s| ==> !pred(s[k])
    ensures r.Some? ==> exists k :: 0 <= k < |s| && s[k] == r.value && pred(s[k]) && forall j :: k < j < |s| ==> !pred(s[j])
    decreases |s|
  {
    if |s| == 0 then None
    else if pred(s[|s| - 1]) then Some(s[|s| - 1])
    else LastMatch(s[..|s| - 1], pred)
  }

  /** The first element satisfying the predicate. */
  function FirstMatch<C>(s: seq<C>, pred: C -> bool): (r: Option<C>)
    ensures r.None? <==> forall k :: 0 <= k < |s| ==> !pred(s[k])
    ensures r.Some? ==> exists k :: 0 <= k < |s| && s[k] == r.value && pred(s[k]) && forall j :: 0 <= j < k ==> !pred(s[j])
    decreases |s|
  {
    if |s| == 0 then None
    else if pred(s[0]) then Some(s[0])
    else FirstMatch(s[1..], pred)
  }

  /** FindComponentInSubtree as written: a PrefixCond traversal whose
    * functor stores every matching component and stops below it, so the
    * result is the last match visited. */
  function FindComponentInSubtreeAsWritten<C>(t: Tree<C>, pred: C -> bool): Option<C>
  {
    LastMatch(ForEachComponentInSubtree(t, PrefixCond, Not(pred), true), pred)
  }

  /** What the comment at Component.cpp:507 intends: the traversal stops at
    * the first match, which is the first matching component in Prefix
    * order. */
  function FindComponentInSubtree<C>(t: Tree<C>, pred: C -> bool): Option<C>
  {
    FirstMatch(ForEachComponentInSubtree(t, Prefix, pred, true), pred)
  }

  /** When no visited component matches, no component of the tree does:
    * the functor never stops, so everything is visited. */
  lemma {:induction false} UnmatchedTraversalIsComplete<C>(t: Tree<C>, pred: C -> bool, c: C)
    requires forall x :: x in ForEachComponentInSubtree(t, PrefixCond, Not(pred), true) ==> !pred(x)
    requires c in Nodes(t)
    ensures !pred(c)
    decreases t
  {
    assert !pred(t.comp) by {
      assert ForEachComponentInSubtree(t, PrefixCond, Not(pred), true)[0] == t.comp;
    }
    if c != t.comp {
      ForestUnmatchedTraversalIsComplete(t.children, pred, c);
    }
  }

  lemma {:induction false} ForestUnmatchedTraversalIsComplete<C>(ts: seq<Tree<C>>, pred: C -> bool, c: C)
    requires forall x :: x in ForEachInForest(ts, PrefixCond, Not(pred), true) ==> !pred(x)
    requires c in ForestNodes(ts)
    ensures !pred(c)
    decreases ts
  {
    var first := ForEachComponentInSubtree(ts[0], PrefixCond, Not(pred), true);
    var rest := ForEachInForest(ts[1..], PrefixCond, Not(pred), true);
    assert ForEachInForest(ts, PrefixCond, Not(pred), true) == first + rest;
    if c in Nodes(ts[0]) {
      UnmatchedTraversalIsComplete(ts[0], pred, c);
    } else {
      ForestUnmatchedTraversalIsComplete(ts[1..], pred, c);
    }
  }

  /** As written, the result is a matching component of the subtree, and
    * there is none exactly when no component of the subtree matches. */
  lemma FindComponentInSubtreeAsWrittenMeaning<C>(t: Tree<C>, pred: C -> bool)
    ensures FindComponentInSubtreeAsWritten(t, pred).Some? ==>
      pred(FindComponentInSubtreeAsWritten(t, pred).value) && FindComponentInSubtreeAsWritten(t, pred).value in Nodes(t)
    ensures FindComponentInSubtreeAsWritten(t, pred).None? <==> forall c :: c in Nodes(t) ==> !pred(c)
  {
    var visited := ForEachComponentInSubtree(t, PrefixCond, Not(pred), true);
    VisitsNodes(t, PrefixCond, Not(pred), true);
    if FindComponentInSubtreeAsWritten(t, pred).None? {
      forall c | c in Nodes(t)
        ensures !pred(c)
      {
        UnmatchedTraversalIsComplete(t, pred, c);
      }
    } else {
      var k :| 0 <= k < |visited| && visited[k] == FindComponentInSubtreeAsWritten(t, pred).value;
      assert visited[k] in multiset(visited);
    }
  }

  /** The corrected search finds the first matching component in Prefix
    * order, and none exactly when no component of the subtree matches. */
  lemma FindComponentInSubtreeMeaning<C>(t: Tree<C>, pred: C -> bool)
    ensures FindComponentInSubtree(t, pred).Some? ==>
      var visited := ForEachComponentInSubtree(t, Prefix, pred, true);
      exists k :: 0 <= k < |visited| && visited[k] == FindComponentInSubtree(t, pred).value
        && pred(visited[k]) && forall j :: 0 <= j < k ==> !pred(visited[j])
    ensures FindComponentInSubtree(t, pred).Some? ==> FindComponentInSubtree(t, pred).value in Nodes(t)
    ensures FindComponentInSubtree(t, pred).None? <==> forall c :: c in Nodes(t) ==> !pred(c)
  {
    var visited := ForEachComponentInSubtree(t, Prefix, pred, true);
    VisitsNodes(t, Prefix, pred, true);
    assert forall c :: c in Nodes(t) <==> c in multiset(visited);
  }

  /** A root with two matching leaves. */
  function TwoLeafTree(): Tree<int>
  {
    Node(1, [Node(2, []), Node(3, [])])
  }

  predicate NotTheRoot(c: int)
  {
    c != 1
  }

  /** As written, the second leaf overwrites the first: the search answers
    * 3 where the first match in Prefix order is 2. */
  lemma FindComponentInSubtreeKeepsLastMatch()
    ensures FindComponentInSubtreeAsWritten(TwoLeafTree(), NotTheRoot) == Some(3)
    ensures FindComponentInSubtree(TwoLeafTree(), NotTheRoot) == Some(2)
  {
    var leaves := [Node(2, []), Node(3, [])];
    assert !NotTheRoot(1) && NotTheRoot(2) && NotTheRoot(3);
    assert Not(NotTheRoot)(1) && !Not(NotTheRoot)(2) && !Not(NotTheRoot)(3);
    assert ForEachInForest(leaves[1..], PrefixCond, Not(NotTheRoot), true) == [3];
    assert ForEachInForest(leaves, PrefixCond, Not(NotTheRoot), true) == [2, 3];
    assert ForEachComponentInSubtree(TwoLeafTree(), PrefixCond, Not(NotTheRoot), true) == [1, 2, 3];
    assert ForEachInForest(leaves[1..], Prefix, NotTheRoot, true) == [3];
    assert ForEachInForest(leaves, Prefix, NotTheRoot, true) == [2, 3];
    assert ForEachComponentInSubtree(TwoLeafTree(), Prefix, NotTheRoot, true) == [1, 2, 3];
    assert [1, 2, 3][1..] == [2, 3];
    assert FirstMatch([2, 3], NotTheRoot) == Some(2);
  }
}
