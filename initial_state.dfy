/**
 * Marking the initial state of a component tree for partial state saving.
 *
 * `MarkInitialState` marks a node and, through facets and children, every
 * non-transient node below it, not descending into transient ones.
 * `MarkInitialStateIfNotMarked` (used when a populated view is rebuilt) skips
 * a transient subtree altogether and never marks a component added
 * dynamically, recognised by its `DYNAMIC_COMPONENT` attribute.
 *
 * Both traversals go at most `fuel` levels deep; callers pass the number of
 * nodes, which covers every node of an acyclic tree.
 */
module InitialState {
  import opened ComponentTree

  /** `m` is `n` or lies below it through non-transient nodes only (the nodes `markInitialState(component)` visits). */
  ghost predicate MarkReach(t: Tree, n: NodeId, m: NodeId, fuel: nat)
    reads t`children, t`facets, t`transient
    decreases fuel
  {
    n == m || (fuel > 0 && exists k :: k in t.Kids(n) && k !in t.transient && MarkReach(t, k, m, fuel - 1))
  }

  /** `m` lies at or below a non-transient `n` through non-transient nodes (the nodes `markInitialStateIfNotMarked` visits). */
  ghost predicate VisitReach(t: Tree, n: NodeId, m: NodeId, fuel: nat)
    reads t`children, t`facets, t`transient
    decreases fuel
  {
    n !in t.transient
    && (n == m || (fuel > 0 && exists k :: k in t.Kids(n) && VisitReach(t, k, m, fuel - 1)))
  }

  /** A node `markInitialStateIfNotMarked` marks: visited, and not a dynamic component. */
  ghost predicate MarkedIfNotMarked(t: Tree, n: NodeId, m: NodeId, fuel: nat)
    reads t`children, t`facets, t`transient, t`attributes
  {
    VisitReach(t, n, m, fuel) && m in t.attributes && DYNAMIC_COMPONENT !in t.attributes[m]
  }

  /**
   * `markInitialState(component)`: mark `n`, then recurse into each
   * non-transient facet and child. The marked set grows by exactly the nodes
   * reached through non-transient nodes.
   */
  method MarkInitialState(t: Tree, n: NodeId, fuel: nat)
    requires t.Closed() && n in t.nodes
    modifies t`marked
    decreases fuel
    ensures old(t.marked) <= t.marked
    ensures forall m :: m in t.nodes && MarkReach(t, n, m, fuel) ==> m in t.marked
    ensures forall m :: m in t.marked ==> m in old(t.marked) || MarkReach(t, n, m, fuel)
  {
    t.Mark(n);
    if fuel == 0 {
      return;
    }
    var kids := t.FacetsAndChildren(n);
    for i := 0 to |kids|
      invariant old(t.marked) <= t.marked && n in t.marked
      invariant forall j, m :: (0 <= j < i && kids[j] !in t.transient && m in t.nodes
                                && MarkReach(t, kids[j], m, fuel - 1)) ==> m in t.marked
      invariant forall m :: m in t.marked ==> m in old(t.marked) || MarkReach(t, n, m, fuel)
    {
      if kids[i] !in t.transient {
        MarkInitialState(t, kids[i], fuel - 1);
        MarkReachStep(t, n, kids[i], fuel);
      }
    }
    forall m | m in t.nodes && MarkReach(t, n, m, fuel) ensures m in t.marked {
      if m != n {
        var k :| k in t.Kids(n) && k !in t.transient && MarkReach(t, k, m, fuel - 1);
        var j :| 0 <= j < |kids| && kids[j] == k;
      }
    }
  }

  /** The nodes `markInitialState(component)` marks, starting from `n`. */
  ghost function MarkedFrom(t: Tree, n: NodeId, fuel: nat): set<NodeId>
    reads t`nodes, t`children, t`facets, t`transient
  {
    set m | m in t.nodes && MarkReach(t, n, m, fuel)
  }

  /** The nodes `markInitialStateIfNotMarked` marks, starting from `n`. */
  ghost function MarkedIfNotMarkedFrom(t: Tree, n: NodeId, fuel: nat): set<NodeId>
    reads t`nodes, t`children, t`facets, t`transient, t`attributes
  {
    set m | m in t.nodes && MarkedIfNotMarked(t, n, m, fuel)
  }

  /** In a closed tree, whatever marking reaches from a node is a node. */
  lemma {:induction false} MarkReachInNodes(t: Tree, n: NodeId, m: NodeId, fuel: nat)
    requires t.Closed() && n in t.nodes && MarkReach(t, n, m, fuel)
    decreases fuel
    ensures m in t.nodes
  {
    if n != m {
      var k :| k in t.Kids(n) && k !in t.transient && MarkReach(t, k, m, fuel - 1);
      if k !in t.children[n] {
        var a :| a in t.facets[n] && t.facets[n][a] == k;
      } else {
        var i :| 0 <= i < |t.children[n]| && t.children[n][i] == k;
      }
      MarkReachInNodes(t, k, m, fuel - 1);
    }
  }

  /** The three facts `MarkInitialState` ensures say that it adds exactly `MarkedFrom` to what was marked. */
  lemma MarkedExactly(t: Tree, before: set<NodeId>, n: NodeId, fuel: nat)
    requires t.Closed() && n in t.nodes
    requires before <= t.marked
    requires forall m :: m in t.nodes && MarkReach(t, n, m, fuel) ==> m in t.marked
    requires forall m :: m in t.marked ==> m in before || MarkReach(t, n, m, fuel)
    ensures t.marked == before + MarkedFrom(t, n, fuel)
  {
    forall m | m in t.marked && m !in before
      ensures m in t.nodes
    {
      MarkReachInNodes(t, n, m, fuel);
    }
  }

  /** The three facts `MarkInitialStateIfNotMarked` ensures say that it adds exactly `MarkedIfNotMarkedFrom` to what was marked. */
  lemma IfNotMarkedExactly(t: Tree, before: set<NodeId>, n: NodeId, fuel: nat)
    requires t.Closed() && n in t.nodes
    requires before <= t.marked
    requires forall m :: m in t.nodes && MarkedIfNotMarked(t, n, m, fuel) ==> m in t.marked
    requires forall m :: m in t.marked ==> m in before || MarkedIfNotMarked(t, n, m, fuel)
    ensures t.marked == before + MarkedIfNotMarkedFrom(t, n, fuel)
  {
    forall m | m in t.marked && m !in before
      ensures m in t.nodes
    {
      VisitReachIsMarkReach(t, n, m, fuel);
      MarkReachInNodes(t, n, m, fuel);
    }
  }

  /** A node reached through a non-transient kid is reached from the parent. */
  lemma MarkReachStep(t: Tree, n: NodeId, k: NodeId, fuel: nat)
    requires fuel > 0 && k in t.Kids(n) && k !in t.transient
    ensures forall m :: MarkReach(t, k, m, fuel - 1) ==> MarkReach(t, n, m, fuel)
  {
  }

  /**
   * `markInitialStateIfNotMarked`: below a non-transient node, mark every
   * unmarked node that is not a dynamic component and recurse into all facets
   * and children; a transient node ends the walk.
   */
  method MarkInitialStateIfNotMarked(t: Tree, n: NodeId, fuel: nat)
    requires t.Closed() && t.attributes.Keys == t.nodes && n in t.nodes
    modifies t`marked
    decreases fuel
    ensures old(t.marked) <= t.marked
    ensures forall m :: m in t.nodes && MarkedIfNotMarked(t, n, m, fuel) ==> m in t.marked
    ensures forall m :: m in t.marked ==> m in old(t.marked) || MarkedIfNotMarked(t, n, m, fuel)
  {
    if n in t.transient {
      return;
    }
    if DYNAMIC_COMPONENT !in t.attributes[n] && n !in t.marked {
      t.Mark(n);
    }
    if fuel == 0 {
      return;
    }
    var kids := t.FacetsAndChildren(n);
    for i := 0 to |kids|
      invariant old(t.marked) <= t.marked
      invariant DYNAMIC_COMPONENT !in t.attributes[n] ==> n in t.marked
      invariant forall j, m :: (0 <= j < i && m in t.nodes
                                && MarkedIfNotMarked(t, kids[j], m, fuel - 1)) ==> m in t.marked
      invariant forall m :: m in t.marked ==> m in old(t.marked) || MarkedIfNotMarked(t, n, m, fuel)
    {
      MarkInitialStateIfNotMarked(t, kids[i], fuel - 1);
      VisitReachStep(t, n, kids[i], fuel);
    }
    IfNotMarkedCovered(t, n, kids, t.marked, fuel);
  }

  /** What the visits of the kids marked, together with `n` itself, covers what the visit of `n` marks. */
  lemma IfNotMarkedCovered(t: Tree, n: NodeId, kids: seq<NodeId>, marked: set<NodeId>, fuel: nat)
    requires fuel > 0 && n !in t.transient && n in t.attributes
    requires forall k :: k in t.Kids(n) ==> k in kids
    requires DYNAMIC_COMPONENT !in t.attributes[n] ==> n in marked
    requires forall j, m :: 0 <= j < |kids| && m in t.nodes && MarkedIfNotMarked(t, kids[j], m, fuel - 1) ==> m in marked
    ensures forall m :: m in t.nodes && MarkedIfNotMarked(t, n, m, fuel) ==> m in marked
  {
    forall m | m in t.nodes && MarkedIfNotMarked(t, n, m, fuel) ensures m in marked {
      if m != n {
        var k :| k in t.Kids(n) && VisitReach(t, k, m, fuel - 1);
        var j :| 0 <= j < |kids| && kids[j] == k;
        assert MarkedIfNotMarked(t, kids[j], m, fuel - 1);
      }
    }
  }

  /**
   * Running `markInitialStateIfNotMarked` again over the same tree changes
   * nothing: every node it would mark is marked by the first run.
   */
  method MarkInitialStateIfNotMarkedAgain(t: Tree, n: NodeId, fuel: nat)
    requires t.Closed() && t.attributes.Keys == t.nodes && n in t.nodes
    requires forall m :: m in t.nodes && MarkedIfNotMarked(t, n, m, fuel) ==> m in t.marked
    modifies t`marked
    ensures unchanged(t`marked)
  {
    MarkInitialStateIfNotMarked(t, n, fuel);
    forall m | m in t.marked
      ensures m in old(t.marked)
    {
      if MarkedIfNotMarked(t, n, m, fuel) {
        assert m in t.nodes;
      }
    }
    assert t.marked == old(t.marked);
  }

  /** A node visited below a kid of a non-transient node is visited from that node. */
  lemma VisitReachStep(t: Tree, n: NodeId, k: NodeId, fuel: nat)
    requires fuel > 0 && k in t.Kids(n) && n !in t.transient
    ensures forall m :: MarkedIfNotMarked(t, k, m, fuel - 1) ==> MarkedIfNotMarked(t, n, m, fuel)
  {
  }

  /** Marking follows the tree: whatever it reaches lies under `n`. */
  lemma {:induction false} MarkReachIsReach(t: Tree, n: NodeId, m: NodeId, fuel: nat)
    requires MarkReach(t, n, m, fuel)
    decreases fuel
    ensures t.Reaches(n, m, fuel)
  {
    if n != m {
      var k :| k in t.Kids(n) && k !in t.transient && MarkReach(t, k, m, fuel - 1);
      MarkReachIsReach(t, k, m, fuel - 1);
    }
  }

  /** `markInitialState` never reaches a transient node other than its starting point. */
  lemma {:induction false} MarkReachSkipsTransient(t: Tree, n: NodeId, m: NodeId, fuel: nat)
    requires MarkReach(t, n, m, fuel) && m != n
    decreases fuel
    ensures m !in t.transient
  {
    var k :| k in t.Kids(n) && k !in t.transient && MarkReach(t, k, m, fuel - 1);
    if k != m {
      MarkReachSkipsTransient(t, k, m, fuel - 1);
    }
  }

  /** `markInitialStateIfNotMarked` never marks a transient node or a dynamic component. */
  lemma {:induction false} IfNotMarkedSkips(t: Tree, n: NodeId, m: NodeId, fuel: nat)
    requires MarkedIfNotMarked(t, n, m, fuel)
    ensures m !in t.transient && DYNAMIC_COMPONENT !in t.attributes[m]
  {
    VisitReachEndsVisible(t, n, m, fuel);
  }

  lemma {:induction false} VisitReachEndsVisible(t: Tree, n: NodeId, m: NodeId, fuel: nat)
    requires VisitReach(t, n, m, fuel)
    decreases fuel
    ensures m !in t.transient
  {
    if n != m {
      var k :| k in t.Kids(n) && VisitReach(t, k, m, fuel - 1);
      VisitReachEndsVisible(t, k, m, fuel - 1);
    }
  }

  /** Everything `markInitialStateIfNotMarked` visits, `markInitialState` from the same (non-transient) node visits too. */
  lemma {:induction false} VisitReachIsMarkReach(t: Tree, n: NodeId, m: NodeId, fuel: nat)
    requires VisitReach(t, n, m, fuel)
    decreases fuel
    ensures MarkReach(t, n, m, fuel)
  {
    if n != m {
      var k :| k in t.Kids(n) && VisitReach(t, k, m, fuel - 1);
      VisitReachIsMarkReach(t, k, m, fuel - 1);
    }
  }
}
