/**
 * The component tree the view-handling strategy works on, in arena form: a
 * node is a handle (its Java object identity) and the tree object holds, per
 * node, its client id and local id, its ordered children, its facet map, its
 * attribute map and its transient and initial-state-marked flags, plus each
 * attached node's parent.
 *
 * The child and facet operations follow the component collections of the
 * component API: attaching a node first detaches it from wherever it is
 * (`eraseParent`), removing a node clears its parent. `Valid()` is the
 * invariant they keep: every node sits in at most one slot, and the parent map
 * names that slot's owner.
 *
 * Attribute values are integers: the only attribute this core reads or writes
 * on tree nodes is the `DYNAMIC_COMPONENT` index.
 */
module ComponentTree {
  import opened Wrappers
  import opened JavaStrings

  type NodeId = int

  /** `RIConstants.DYNAMIC_COMPONENT`: the attribute holding a dynamic child's index in its parent. */
  const DYNAMIC_COMPONENT: String := "com.sun.faces.DynamicComponent"

  predicate NoDuplicates<T(==)>(s: seq<T>) {
    forall i, j :: 0 <= i < j < |s| ==> s[i] != s[j]
  }

  /** `List.indexOf` for an element that is present. */
  function PositionOf<T(==)>(s: seq<T>, x: T): (r: nat)
    requires x in s
    ensures r < |s| && s[r] == x && x !in s[..r]
  {
    if s[0] == x then 0 else 1 + PositionOf(s[1..], x)
  }

  function RemoveAt<T>(s: seq<T>, k: nat): (r: seq<T>)
    requires k < |s|
    ensures |r| == |s| - 1
    ensures forall i :: 0 <= i < k ==> r[i] == s[i]
    ensures forall i :: k <= i < |r| ==> r[i] == s[i + 1]
  {
    s[..k] + s[k + 1..]
  }

  function InsertAt<T>(s: seq<T>, k: nat, x: T): (r: seq<T>)
    requires k <= |s|
    ensures |r| == |s| + 1 && r[k] == x
    ensures forall i :: 0 <= i < k ==> r[i] == s[i]
    ensures forall i :: k < i < |r| ==> r[i] == s[i - 1]
  {
    s[..k] + [x] + s[k..]
  }

  /** `List.remove(Object)`: drop the first occurrence, if any. */
  function RemoveFirst<T(==)>(s: seq<T>, x: T): seq<T>
  {
    if x in s then RemoveAt(s, PositionOf(s, x)) else s
  }

  lemma RemoveAtElements<T>(s: seq<T>, k: nat)
    requires k < |s| && NoDuplicates(s)
    ensures NoDuplicates(RemoveAt(s, k))
    ensures forall x :: x in RemoveAt(s, k) <==> x in s && x != s[k]
  {
    var r := RemoveAt(s, k);
    forall x | x in s && x != s[k] ensures x in r {
      var i :| 0 <= i < |s| && s[i] == x;
      if i < k { assert r[i] == x; } else { assert r[i - 1] == x; }
    }
  }

  lemma InsertAtElements<T>(s: seq<T>, k: nat, x: T)
    requires k <= |s| && NoDuplicates(s) && x !in s
    ensures NoDuplicates(InsertAt(s, k, x))
    ensures forall y :: y in InsertAt(s, k, x) <==> y in s || y == x
  {
    var r := InsertAt(s, k, x);
    forall y | y in s ensures y in r {
      var i :| 0 <= i < |s| && s[i] == y;
      if i < k { assert r[i] == y; } else { assert r[i + 1] == y; }
    }
  }

  /** A facet map whose values are distinct and disjoint from the children. */
  predicate FacetsWellFormed(f: map<String, NodeId>, kids: seq<NodeId>) {
    && (forall a, b :: a in f && b in f && a != b ==> f[a] != f[b])
    && (forall a :: a in f ==> f[a] !in kids)
  }

  /** The facet map less the entry holding `c`. */
  function WithoutValue(f: map<String, NodeId>, c: NodeId): (r: map<String, NodeId>)
    ensures forall a :: a in r <==> a in f && f[a] != c
    ensures forall a :: a in r ==> r[a] == f[a]
  {
    map a | a in f && f[a] != c :: f[a]
  }

  lemma ReplaceKey<K, V>(m: map<K, V>, k: K, v: V)
    ensures (m - {k})[k := v] == m[k := v]
  {
  }

  lemma UpdateTwice<K, V>(m: map<K, V>, k: K, v1: V, v2: V)
    ensures m[k := v1][k := v2] == m[k := v2]
  {
  }

  lemma UpdateSame<K, V>(m: map<K, V>, k: K)
    requires k in m
    ensures m[k := m[k]] == m
  {
  }

  lemma RemoveAbsentKey<K, V>(m: map<K, V>, k: K)
    requires k !in m
    ensures m - {k} == m
  {
  }

  /** With distinct values, dropping a value drops exactly the key holding it. */
  lemma WithoutOnlyValue(f: map<String, NodeId>, name: String)
    requires name in f && forall a, b :: a in f && b in f && a != b ==> f[a] != f[b]
    ensures WithoutValue(f, f[name]) == f - {name}
  {
  }

  // The link invariant, stated over the values of the children, facet and
  // parent maps. Each part quantifies over a per-slot predicate, so a proof
  // only learns about the slots it names.

  /** Slot `i` of `p`'s children, if there is one, names `p` as parent. */
  ghost predicate ChildUp(children: map<NodeId, seq<NodeId>>, parent: map<NodeId, NodeId>, p: NodeId, i: int) {
    p in children && 0 <= i < |children[p]| ==> children[p][i] in parent && parent[children[p][i]] == p
  }

  /** Every child names its owner as parent. */
  ghost predicate ChildrenPointUp(children: map<NodeId, seq<NodeId>>, parent: map<NodeId, NodeId>) {
    forall p, i :: ChildUp(children, parent, p, i)
  }

  /** The facet `a` of `p`, if there is one, names `p` as parent. */
  ghost predicate FacetUp(facets: map<NodeId, map<String, NodeId>>, parent: map<NodeId, NodeId>, p: NodeId, a: String) {
    p in facets && a in facets[p] ==> facets[p][a] in parent && parent[facets[p][a]] == p
  }

  /** Every facet names its owner as parent. */
  ghost predicate FacetsPointUp(facets: map<NodeId, map<String, NodeId>>, parent: map<NodeId, NodeId>) {
    forall p, a :: FacetUp(facets, parent, p, a)
  }

  /** If `c` has a parent, it sits in one of that parent's child or facet slots. */
  ghost predicate ParentHolds(children: map<NodeId, seq<NodeId>>, facets: map<NodeId, map<String, NodeId>>,
                              parent: map<NodeId, NodeId>, c: NodeId) {
    c in parent ==>
      parent[c] in children && parent[c] in facets
      && (c in children[parent[c]] || c in facets[parent[c]].Values)
  }

  /** Every parent link is backed by a child or facet slot of the parent. */
  ghost predicate ParentsHold(children: map<NodeId, seq<NodeId>>, facets: map<NodeId, map<String, NodeId>>,
                              parent: map<NodeId, NodeId>) {
    forall c :: ParentHolds(children, facets, parent, c)
  }

  /** No node occupies two slots of `p`. */
  ghost predicate SlotDistinct(children: map<NodeId, seq<NodeId>>, facets: map<NodeId, map<String, NodeId>>, p: NodeId) {
    p in children && p in facets ==> NoDuplicates(children[p]) && FacetsWellFormed(facets[p], children[p])
  }

  /** No node occupies two slots of the same parent. */
  ghost predicate SlotsDistinct(children: map<NodeId, seq<NodeId>>, facets: map<NodeId, map<String, NodeId>>) {
    forall p :: SlotDistinct(children, facets, p)
  }

  /** Each node sits in at most one slot, and the parent map records that slot's owner. */
  ghost predicate Linked(nodes: set<NodeId>, children: map<NodeId, seq<NodeId>>,
                         facets: map<NodeId, map<String, NodeId>>, parent: map<NodeId, NodeId>) {
    && children.Keys == nodes && facets.Keys == nodes && parent.Keys <= nodes
    && (forall c :: c in parent ==> parent[c] in nodes)
    && ChildrenPointUp(children, parent)
    && FacetsPointUp(facets, parent)
    && ParentsHold(children, facets, parent)
    && SlotsDistinct(children, facets)
  }

  /** The children lists once `c` has been detached from its parent's children. */
  function DetachChildren(children: map<NodeId, seq<NodeId>>, parent: map<NodeId, NodeId>, c: NodeId)
    : (r: map<NodeId, seq<NodeId>>)
    ensures r.Keys == children.Keys
  {
    if c in parent && parent[c] in children && c in children[parent[c]] then
      children[parent[c] := RemoveFirst(children[parent[c]], c)]
    else children
  }

  /** The facet maps once `c` has been detached from its parent's facets. */
  function DetachFacets(children: map<NodeId, seq<NodeId>>, facets: map<NodeId, map<String, NodeId>>,
                        parent: map<NodeId, NodeId>, c: NodeId): (r: map<NodeId, map<String, NodeId>>)
    ensures r.Keys == facets.Keys
  {
    if c in parent && parent[c] in children && c !in children[parent[c]] && parent[c] in facets then
      facets[parent[c] := WithoutValue(facets[parent[c]], c)]
    else facets
  }

  /** A child names its owner as parent. */
  lemma ChildParent(children: map<NodeId, seq<NodeId>>, parent: map<NodeId, NodeId>, p: NodeId, c: NodeId)
    requires ChildrenPointUp(children, parent) && p in children && c in children[p]
    ensures c in parent && parent[c] == p
  {
    var i :| 0 <= i < |children[p]| && children[p][i] == c;
    assert ChildUp(children, parent, p, i);
  }

  /** A facet names its owner as parent. */
  lemma FacetParent(facets: map<NodeId, map<String, NodeId>>, parent: map<NodeId, NodeId>, p: NodeId, c: NodeId)
    requires FacetsPointUp(facets, parent) && p in facets && c in facets[p].Values
    ensures c in parent && parent[c] == p
  {
    var a :| a in facets[p] && facets[p][a] == c;
    assert FacetUp(facets, parent, p, a);
  }

  /** A node without a parent is in no slot. */
  lemma UnattachedNowhere(nodes: set<NodeId>, children: map<NodeId, seq<NodeId>>,
                          facets: map<NodeId, map<String, NodeId>>, parent: map<NodeId, NodeId>, c: NodeId)
    requires Linked(nodes, children, facets, parent) && c !in parent
    ensures forall p :: p in nodes ==> c !in children[p] && c !in facets[p].Values
  {
    forall p | p in nodes ensures c !in children[p] && c !in facets[p].Values {
      forall i | 0 <= i < |children[p]| ensures children[p][i] != c {
        assert ChildUp(children, parent, p, i);
      }
      forall a | a in facets[p] ensures facets[p][a] != c {
        assert FacetUp(facets, parent, p, a);
      }
    }
  }

  /** Taking a child out of its parent's list keeps the tree linked. */
  lemma {:induction false} RemoveChildLinked(nodes: set<NodeId>, children: map<NodeId, seq<NodeId>>,
                                             facets: map<NodeId, map<String, NodeId>>, parent: map<NodeId, NodeId>,
                                             p: NodeId, c: NodeId)
    requires Linked(nodes, children, facets, parent) && p in nodes && c in children[p]
    ensures Linked(nodes, children[p := RemoveFirst(children[p], c)], facets, parent - {c})
  {
    var s := children[p];
    var k := PositionOf(s, c);
    assert SlotDistinct(children, facets, p);
    RemoveAtElements(s, k);
    ChildParent(children, parent, p, c);
    var ch := children[p := RemoveFirst(s, c)];
    var pa := parent - {c};
    forall q, i ensures ChildUp(ch, pa, q, i) {
      if q in ch && 0 <= i < |ch[q]| {
        if q == p {
          var j :| 0 <= j < |s| && s[j] == ch[q][i];
          assert ChildUp(children, parent, p, j);
        } else {
          assert ChildUp(children, parent, q, i);
        }
      }
    }
    forall q, a ensures FacetUp(facets, pa, q, a) {
      assert FacetUp(facets, parent, q, a);
    }
    forall x ensures ParentHolds(ch, facets, pa, x) {
      assert ParentHolds(children, facets, parent, x);
    }
    forall q ensures SlotDistinct(ch, facets, q) {
      assert SlotDistinct(children, facets, q);
    }
  }

  /** Taking a facet out of its parent's map keeps the tree linked. */
  lemma {:induction false} RemoveFacetValueLinked(nodes: set<NodeId>, children: map<NodeId, seq<NodeId>>,
                                                  facets: map<NodeId, map<String, NodeId>>, parent: map<NodeId, NodeId>,
                                                  p: NodeId, c: NodeId)
    requires Linked(nodes, children, facets, parent) && p in nodes && c in facets[p].Values
    ensures Linked(nodes, children, facets[p := WithoutValue(facets[p], c)], parent - {c})
  {
    FacetParent(facets, parent, p, c);
    assert SlotDistinct(children, facets, p);
    var fa := facets[p := WithoutValue(facets[p], c)];
    var pa := parent - {c};
    forall q, i ensures ChildUp(children, pa, q, i) {
      assert ChildUp(children, parent, q, i);
    }
    forall q, a ensures FacetUp(fa, pa, q, a) {
      assert FacetUp(facets, parent, q, a);
    }
    forall x ensures ParentHolds(children, fa, pa, x) {
      assert ParentHolds(children, facets, parent, x);
      if x in pa && x !in children[pa[x]] && pa[x] == p {
        var a :| a in facets[p] && facets[p][a] == x;
        assert fa[p][a] == x;
      }
    }
    forall q ensures SlotDistinct(children, fa, q) {
      assert SlotDistinct(children, facets, q);
    }
  }

  /** `eraseParent` keeps the tree linked and leaves `c` unattached. */
  lemma DetachLinked(nodes: set<NodeId>, children: map<NodeId, seq<NodeId>>,
                     facets: map<NodeId, map<String, NodeId>>, parent: map<NodeId, NodeId>, c: NodeId)
    requires Linked(nodes, children, facets, parent)
    ensures Linked(nodes, DetachChildren(children, parent, c), DetachFacets(children, facets, parent, c),
                   parent - {c})
  {
    if c in parent {
      var p := parent[c];
      assert ParentHolds(children, facets, parent, c);
      if c in children[p] {
        RemoveChildLinked(nodes, children, facets, parent, p, c);
      } else {
        RemoveFacetValueLinked(nodes, children, facets, parent, p, c);
      }
    } else {
      assert parent - {c} == parent;
    }
  }

  /** After `eraseParent`, the node is in no children list. */
  lemma DetachRemovesChild(nodes: set<NodeId>, children: map<NodeId, seq<NodeId>>,
                           facets: map<NodeId, map<String, NodeId>>, parent: map<NodeId, NodeId>, c: NodeId)
    requires Linked(nodes, children, facets, parent)
    ensures forall q :: q in nodes ==> c !in DetachChildren(children, parent, c)[q]
  {
    DetachLinked(nodes, children, facets, parent, c);
    UnattachedNowhere(nodes, DetachChildren(children, parent, c), DetachFacets(children, facets, parent, c),
                      parent - {c}, c);
  }

  /** A node inserted at position `k` of a list it was not in is found at `k` by `indexOf`. */
  lemma PositionOfInsertAt<T>(s: seq<T>, k: nat, x: T)
    requires k <= |s| && x !in s
    ensures PositionOf(InsertAt(s, k, x), x) == k
  {
    var r := InsertAt(s, k, x);
    assert r[k] == x;
    assert forall j :: 0 <= j < k ==> r[j] == s[j];
  }

  /** Detaching shortens a children list by at most one. */
  lemma DetachChildrenLength(children: map<NodeId, seq<NodeId>>, parent: map<NodeId, NodeId>, c: NodeId, q: NodeId)
    requires q in children
    ensures |children[q]| - 1 <= |DetachChildren(children, parent, c)[q]| <= |children[q]|
  {
  }

  /** Inserting an unattached node into a children list keeps the tree linked. */
  lemma {:induction false} InsertChildLinked(nodes: set<NodeId>, children: map<NodeId, seq<NodeId>>,
                                             facets: map<NodeId, map<String, NodeId>>, parent: map<NodeId, NodeId>,
                                             p: NodeId, k: nat, c: NodeId)
    requires Linked(nodes, children, facets, parent) && p in nodes && c in nodes && c !in parent
    requires k <= |children[p]|
    ensures Linked(nodes, children[p := InsertAt(children[p], k, c)], facets, parent[c := p])
  {
    UnattachedNowhere(nodes, children, facets, parent, c);
    assert SlotDistinct(children, facets, p);
    InsertAtElements(children[p], k, c);
    var ch := children[p := InsertAt(children[p], k, c)];
    var pa := parent[c := p];
    forall q, i ensures ChildUp(ch, pa, q, i) {
      if q in ch && 0 <= i < |ch[q]| {
        if q != p {
          assert ChildUp(children, parent, q, i);
        } else if i < k {
          assert ChildUp(children, parent, p, i);
        } else if i > k {
          assert ChildUp(children, parent, p, i - 1);
        }
      }
    }
    forall q, a ensures FacetUp(facets, pa, q, a) {
      assert FacetUp(facets, parent, q, a);
    }
    forall x ensures ParentHolds(ch, facets, pa, x) {
      assert ParentHolds(children, facets, parent, x);
    }
    forall q ensures SlotDistinct(ch, facets, q) {
      assert SlotDistinct(children, facets, q);
    }
  }

  /** Installing an unattached node under a free facet name keeps the tree linked. */
  lemma {:induction false} AddFacetLinked(nodes: set<NodeId>, children: map<NodeId, seq<NodeId>>,
                                          facets: map<NodeId, map<String, NodeId>>, parent: map<NodeId, NodeId>,
                                          p: NodeId, name: String, c: NodeId)
    requires Linked(nodes, children, facets, parent) && p in nodes && c in nodes && c !in parent
    requires name !in facets[p]
    ensures Linked(nodes, children, facets[p := facets[p][name := c]], parent[c := p])
  {
    UnattachedNowhere(nodes, children, facets, parent, c);
    var fa := facets[p := facets[p][name := c]];
    var pa := parent[c := p];
    forall q, i ensures ChildUp(children, pa, q, i) {
      assert ChildUp(children, parent, q, i);
    }
    forall q, a ensures FacetUp(fa, pa, q, a) {
      assert FacetUp(facets, parent, q, a);
    }
    forall x ensures ParentHolds(children, fa, pa, x) {
      assert ParentHolds(children, facets, parent, x);
      if x == c {
        assert fa[p][name] == c;
      } else if x in pa && x !in children[pa[x]] {
        var a :| a in facets[pa[x]] && facets[pa[x]][a] == x;
        assert fa[pa[x]][a] == x;
      }
    }
    forall q ensures SlotDistinct(children, fa, q) {
      assert SlotDistinct(children, facets, q);
    }
  }

  /** The nodes directly under `n` in a tree shaped by `children` and `facets`: its facets and its children. */
  ghost function KidsIn(children: map<NodeId, seq<NodeId>>, facets: map<NodeId, map<String, NodeId>>, n: NodeId)
    : set<NodeId>
  {
    (if n in children then set x | x in children[n] else {})
    + (if n in facets then facets[n].Values else {})
  }

  /** `to` is `from` or lies at most `fuel` levels below it. */
  ghost predicate ReachesIn(children: map<NodeId, seq<NodeId>>, facets: map<NodeId, map<String, NodeId>>,
                            from: NodeId, to: NodeId, fuel: nat)
    decreases fuel
  {
    from == to || (fuel > 0 && exists k :: k in KidsIn(children, facets, from) && ReachesIn(children, facets, k, to, fuel - 1))
  }

  /** What a search from `start` for `cid` may answer: a node with that id at most `fuel` levels under `start`, or none when there is no such node. */
  ghost predicate LocatedIn(nodes: set<NodeId>, clientId: map<NodeId, String>, children: map<NodeId, seq<NodeId>>,
                            facets: map<NodeId, map<String, NodeId>>, start: NodeId, cid: String, fuel: nat,
                            found: Option<NodeId>)
  {
    match found
    case None => AbsentIn(nodes, clientId, children, facets, start, cid, fuel)
    case Some(n) => n in nodes && n in clientId && clientId[n] == cid && ReachesIn(children, facets, start, n, fuel)
  }

  /** No node within `fuel` levels under `n` has client id `cid`. */
  ghost predicate AbsentIn(nodes: set<NodeId>, clientId: map<NodeId, String>, children: map<NodeId, seq<NodeId>>,
                           facets: map<NodeId, map<String, NodeId>>, n: NodeId, cid: String, fuel: nat)
  {
    forall m :: m in nodes && ReachesIn(children, facets, n, m, fuel) ==> m in clientId && clientId[m] != cid
  }

  class Tree {
    var root: NodeId
    var nodes: set<NodeId>
    var clientId: map<NodeId, String>
    var localId: map<NodeId, String>
    var children: map<NodeId, seq<NodeId>>
    var facets: map<NodeId, map<String, NodeId>>
    var attributes: map<NodeId, map<String, int>>
    var parent: map<NodeId, NodeId>
    var transient: set<NodeId>
    var marked: set<NodeId>

    /** Every node has an id, a local id, children, facets and attributes; the links agree. */
    ghost predicate Valid()
      reads this`root, this`nodes, this`clientId, this`localId, this`attributes
      reads this`children, this`facets, this`parent
    {
      Shaped() && Wired()
    }

    /** The root is a node, and every node has a client id, a local id and attributes. */
    ghost predicate Shaped()
      reads this`root, this`nodes, this`clientId, this`localId, this`attributes
    {
      && root in nodes
      && clientId.Keys == nodes && localId.Keys == nodes && attributes.Keys == nodes
    }

    /** The children, facet and parent maps are linked (see `Linked`). */
    ghost predicate Wired()
      reads this`nodes, this`children, this`facets, this`parent
    {
      Linked(nodes, children, facets, parent)
    }

    /** Every node has an id, children and facets, and every child and facet is a node. */
    ghost predicate Closed()
      reads this`nodes, this`clientId, this`children, this`facets
    {
      && clientId.Keys == nodes && children.Keys == nodes && facets.Keys == nodes
      && (forall n, i :: n in children && 0 <= i < |children[n]| ==> children[n][i] in nodes)
      && (forall n, a :: n in facets && a in facets[n] ==> facets[n][a] in nodes)
    }

    lemma ValidClosed()
      requires Valid()
      ensures Closed()
    {
      forall n, i | n in children && 0 <= i < |children[n]| ensures children[n][i] in nodes {
        assert ChildUp(children, parent, n, i);
      }
      forall n, a | n in facets && a in facets[n] ensures facets[n][a] in nodes {
        assert FacetUp(facets, parent, n, a);
      }
    }

    /** A tree of one root with no children and no facets. */
    constructor (rootClientId: String, rootLocalId: String)
      ensures Valid()
      ensures nodes == {root} && children[root] == [] && facets[root] == map[]
      ensures clientId[root] == rootClientId && attributes[root] == map[]
      ensures parent == map[] && transient == {} && marked == {}
    {
      root := 0;
      nodes := {0};
      clientId := map[0 := rootClientId];
      localId := map[0 := rootLocalId];
      children := map[0 := []];
      facets := map[0 := map[]];
      attributes := map[0 := map[]];
      parent := map[];
      transient := {};
      marked := {};
    }

    /** The nodes directly under `n`: its facets and its children. */
    ghost function Kids(n: NodeId): set<NodeId>
      reads this`children, this`facets
    {
      KidsIn(children, facets, n)
    }

    /** `to` is `from` or lies at most `fuel` levels below it. */
    ghost predicate Reaches(from: NodeId, to: NodeId, fuel: nat)
      reads this`children, this`facets
    {
      ReachesIn(children, facets, from, to, fuel)
    }

    /** `eraseParent`: take `c` out of its parent's children or facets. */
    method Detach(c: NodeId)
      requires Valid() && c in nodes
      modifies this`children, this`facets, this`parent
      ensures Valid()
      ensures children == DetachChildren(old(children), old(parent), c)
      ensures facets == DetachFacets(old(children), old(facets), old(parent), c)
      ensures parent == old(parent) - {c}
      ensures unchanged(this`attributes, this`localId)
    {
      DetachLinked(nodes, children, facets, parent, c);
      if c !in parent {
        parent := parent - {c};
        return;
      }
      var p := parent[c];
      assert ParentHolds(children, facets, parent, c);
      if c in children[p] {
        children := children[p := RemoveFirst(children[p], c)];
      } else {
        facets := facets[p := WithoutValue(facets[p], c)];
      }
      parent := parent - {c};
    }

    /** `getChildren().add(k, c)`: detach `c`, then insert it at position `k` of `p`'s children. */
    method InsertChild(p: NodeId, k: nat, c: NodeId)
      requires Valid() && p in nodes && c in nodes
      requires k <= |DetachChildren(children, parent, c)[p]|
      modifies this`children, this`facets, this`parent
      ensures Valid()
      ensures var detached := DetachChildren(old(children), old(parent), c);
              children == detached[p := InsertAt(detached[p], k, c)]
      ensures facets == DetachFacets(old(children), old(facets), old(parent), c)
      ensures parent == (old(parent) - {c})[c := p]
      ensures unchanged(this`attributes, this`localId)
    {
      Detach(c);
      Attach(p, k, c);
    }

    /** Insert the detached node `c` at position `k` of `p`'s children. */
    method Attach(p: NodeId, k: nat, c: NodeId)
      requires Valid() && p in nodes && c in nodes && c !in parent && k <= |children[p]|
      modifies this`children, this`parent
      ensures Valid()
      ensures children == old(children)[p := InsertAt(old(children)[p], k, c)]
      ensures parent == old(parent)[c := p]
      ensures unchanged(this`facets, this`attributes, this`localId)
    {
      InsertChildLinked(nodes, children, facets, parent, p, k, c);
      children := children[p := InsertAt(children[p], k, c)];
      parent := parent[c := p];
      assert Linked(nodes, children, facets, parent);
    }

    /** `getChildren().add(c)`: detach `c`, then append it to `p`'s children. */
    method AppendChild(p: NodeId, c: NodeId)
      requires Valid() && p in nodes && c in nodes
      modifies this`children, this`facets, this`parent
      ensures Valid()
      ensures var detached := DetachChildren(old(children), old(parent), c);
              children == detached[p := detached[p] + [c]]
      ensures facets == DetachFacets(old(children), old(facets), old(parent), c)
      ensures parent == (old(parent) - {c})[c := p]
      ensures unchanged(this`attributes, this`localId)
    {
      var detached := DetachChildren(children, parent, c);
      assert detached.Keys == nodes by {
        DetachLinked(nodes, children, facets, parent, c);
      }
      assert InsertAt(detached[p], |detached[p]|, c) == detached[p] + [c];
      InsertChild(p, |detached[p]|, c);
    }

    /** `getChildren().remove(c)`: if `c` is among `p`'s children, take it out. */
    method RemoveChild(p: NodeId, c: NodeId)
      requires Valid() && p in nodes
      modifies this`children, this`parent
      ensures Valid()
      ensures children == old(children)[p := RemoveFirst(old(children[p]), c)]
      ensures parent == if c in old(children[p]) then old(parent) - {c} else old(parent)
      ensures unchanged(this`facets, this`attributes, this`localId)
    {
      if c in children[p] {
        RemoveChildLinked(nodes, children, facets, parent, p, c);
        children := children[p := RemoveFirst(children[p], c)];
        parent := parent - {c};
      } else {
        UpdateSame(children, p);
      }
    }

    /** `getFacets().remove(name)`: drop the facet of that name, if any. */
    method RemoveFacet(p: NodeId, name: String)
      requires Valid() && p in nodes
      modifies this`facets, this`parent
      ensures Valid()
      ensures facets == old(facets)[p := old(facets[p]) - {name}]
      ensures parent == if name in old(facets[p]) then old(parent) - {old(facets[p][name])} else old(parent)
      ensures unchanged(this`children, this`attributes, this`localId)
    {
      if name in facets[p] {
        var previous := facets[p][name];
        RemoveFacetValueLinked(nodes, children, facets, parent, p, previous);
        assert SlotDistinct(children, facets, p);
        WithoutOnlyValue(facets[p], name);
        facets := facets[p := facets[p] - {name}];
        parent := parent - {previous};
        assert Linked(nodes, children, facets, parent);
      } else {
        RemoveAbsentKey(facets[p], name);
        UpdateSame(facets, p);
      }
    }

    /** `getFacets().put(name, c)`: detach `c`, unparent any previous occupant, install `c`. */
    method PutFacet(p: NodeId, name: String, c: NodeId)
      requires Valid() && p in nodes && c in nodes
      modifies this`children, this`facets, this`parent
      ensures Valid()
      ensures children == DetachChildren(old(children), old(parent), c)
      ensures var detached := DetachFacets(old(children), old(facets), old(parent), c);
              facets == detached[p := detached[p][name := c]]
      ensures var detached := DetachFacets(old(children), old(facets), old(parent), c);
              parent == (old(parent) - {c} - (if name in detached[p] then {detached[p][name]} else {}))[c := p]
      ensures unchanged(this`attributes, this`localId)
    {
      Detach(c);
      PlaceFacet(p, name, c);
    }

    /** `getFacets().put(name, c)` for an unattached `c`: unparent any previous occupant, install `c`. */
    method PlaceFacet(p: NodeId, name: String, c: NodeId)
      requires Valid() && p in nodes && c in nodes && c !in parent
      modifies this`facets, this`parent
      ensures Valid()
      ensures facets == old(facets)[p := old(facets[p])[name := c]]
      ensures parent == (old(parent) - (if name in old(facets[p]) then {old(facets[p][name])} else {}))[c := p]
      ensures unchanged(this`children, this`attributes, this`localId)
    {
      if name in facets[p] {
        ghost var before := facets;
        RemoveFacet(p, name);
        InstallFacet(p, name, c);
        UpdateTwice(before, p, before[p] - {name}, (before[p] - {name})[name := c]);
        ReplaceKey(before[p], name, c);
      } else {
        InstallFacet(p, name, c);
      }
    }

    /** Put an unattached node under a free facet name. */
    method InstallFacet(p: NodeId, name: String, c: NodeId)
      requires Valid() && p in nodes && c in nodes && c !in parent && name !in facets[p]
      modifies this`facets, this`parent
      ensures Valid()
      ensures facets == old(facets)[p := old(facets[p])[name := c]]
      ensures parent == old(parent)[c := p]
      ensures unchanged(this`children, this`attributes, this`localId)
    {
      AddFacetLinked(nodes, children, facets, parent, p, name, c);
      facets := facets[p := facets[p][name := c]];
      parent := parent[c := p];
    }

    /** `getAttributes().put(key, v)` */
    method SetAttribute(n: NodeId, key: String, v: int)
      requires Valid() && n in nodes
      modifies this`attributes
      ensures Valid()
      ensures attributes == old(attributes)[n := old(attributes[n])[key := v]]
      ensures unchanged(this`children, this`facets, this`parent, this`localId)
    {
      attributes := attributes[n := attributes[n][key := v]];
    }

    /** `setId(id)` */
    method SetLocalId(n: NodeId, id: String)
      requires Valid() && n in nodes
      modifies this`localId
      ensures Valid()
      ensures localId == old(localId)[n := id]
      ensures unchanged(this`children, this`facets, this`parent, this`attributes)
    {
      localId := localId[n := id];
    }

    /** `markInitialState()` on one node. */
    method Mark(n: NodeId)
      modifies this`marked
      ensures marked == old(marked) + {n}
    {
      marked := marked + {n};
    }

    /**
     * `locateComponentByClientId`: a depth-first search of the subtree under
     * `start` (the node itself, its facets, then its children) for a node with
     * the client id, at most `fuel` levels deep. The addressed lookup the
     * source tries first is an optimisation of the same search.
     */
    method Locate(start: NodeId, cid: String, fuel: nat) returns (found: Option<NodeId>)
      requires Closed() && start in nodes
      decreases fuel
      ensures Located(start, cid, fuel, found)
    {
      if clientId[start] == cid {
        return Some(start);
      }
      if fuel == 0 {
        return None;
      }
      var kids := FacetsAndChildren(start);
      for i := 0 to |kids|
        invariant forall j :: 0 <= j < i ==> Absent(kids[j], cid, fuel - 1)
      {
        found := Locate(kids[i], cid, fuel - 1);
        if found.Some? {
          ReachesThrough(start, kids[i], found.value, fuel);
          return;
        }
      }
      AbsentBelow(start, cid, fuel);
      found := None;
    }

    /**
     * `getFacetsAndChildren()`: the facets, in the facet map's iteration
     * order, followed by the children in order.
     */
    method FacetsAndChildren(n: NodeId) returns (kids: seq<NodeId>)
      requires Closed() && n in nodes
      ensures forall k :: k in kids <==> k in Kids(n)
      ensures forall k :: k in kids ==> k in nodes
      ensures |children[n]| <= |kids| && kids[|kids| - |children[n]|..] == children[n]
    {
      var facetMap := facets[n];
      var pending := facetMap.Keys;
      var values: seq<NodeId> := [];
      while pending != {}
        invariant pending <= facetMap.Keys
        invariant forall k :: k in values <==> exists a :: a in facetMap && a !in pending && facetMap[a] == k
        decreases pending
      {
        var name :| name in pending;
        values := values + [facetMap[name]];
        pending := pending - {name};
      }
      kids := values + children[n];
    }

    /** What a search from `start` for `cid` may answer: a node with that id at most `fuel` levels under `start`, or none when there is no such node. */
    ghost predicate Located(start: NodeId, cid: String, fuel: nat, found: Option<NodeId>)
      reads this`children, this`facets, this`nodes, this`clientId
    {
      LocatedIn(nodes, clientId, children, facets, start, cid, fuel, found)
    }

    /** No node within `fuel` levels under `n` has client id `cid`. */
    ghost predicate Absent(n: NodeId, cid: String, fuel: nat)
      reads this`children, this`facets, this`nodes, this`clientId
    {
      AbsentIn(nodes, clientId, children, facets, n, cid, fuel)
    }

    /** A node reached from one of `n`'s kids is reached from `n`. */
    lemma ReachesThrough(n: NodeId, k: NodeId, m: NodeId, fuel: nat)
      requires fuel > 0 && k in Kids(n) && Reaches(k, m, fuel - 1)
      ensures Reaches(n, m, fuel)
    {
    }

    /** If `n` lacks the id and so does everything under each of its kids, the id is absent under `n`. */
    lemma AbsentBelow(n: NodeId, cid: String, fuel: nat)
      requires fuel > 0 && n in clientId && clientId[n] != cid
      requires forall k :: k in Kids(n) ==> Absent(k, cid, fuel - 1)
      ensures Absent(n, cid, fuel)
    {
      forall m | m in nodes && Reaches(n, m, fuel)
        ensures m in clientId && clientId[m] != cid
      {
        if m != n {
          var k :| k in Kids(n) && Reaches(k, m, fuel - 1);
        }
      }
    }
  }
}
