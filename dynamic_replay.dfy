/**
 * Replaying the recorded dynamic component actions onto a view that Facelets
 * has just re-applied.
 *
 * During a request the state context records every programmatic addition and
 * removal of a component as a `ComponentStruct`. When the view is rebuilt the
 * log is replayed in order: a REMOVE takes the located component out of its
 * parent (and keeps it in the dynamic-components map so a later ADD can bring
 * it back); an ADD puts a component (found in the tree, or else in that map)
 * back under its parent, at the child index it remembers in its
 * `DYNAMIC_COMPONENT` attribute.
 *
 * Components are looked up by client id through `Locate`, searching at most
 * as many levels as the tree has nodes. A Java exception raised during the
 * replay ends it and propagates; it is returned here as `Fail`.
 */
module DynamicReplay {
  import opened Wrappers
  import opened JavaStrings
  import opened ComponentTree

  /** `ComponentStruct.ADD` and `ComponentStruct.REMOVE` */
  const ADD: String := "ADD"
  const REMOVE: String := "REMOVE"

  /** One recorded action. */
  datatype ComponentStruct = ComponentStruct(
    action: String,
    clientId: String,
    parentClientId: String,
    id: String,
    facetName: Option<String>)

  /** The exceptions the replay can raise. */
  datatype ReplayError =
    | NullParent        // REMOVE located a component without a parent
    | IndexOutOfBounds  // ADD at a remembered index below -1

  /** The part of the request's `StateContext` the replay uses. */
  class StateContext {
    var trackViewModifications: bool
    var dynamicComponents: map<String, NodeId>
    var dynamicActions: Option<seq<ComponentStruct>>

    constructor (actions: Option<seq<ComponentStruct>>)
      ensures trackViewModifications && dynamicComponents == map[] && dynamicActions == actions
    {
      trackViewModifications := true;
      dynamicComponents := map[];
      dynamicActions := actions;
    }
  }

  /** The remembered components are nodes of the tree. */
  predicate Remembered(dynamicComponents: map<String, NodeId>, nodes: set<NodeId>) {
    forall k :: k in dynamicComponents ==> dynamicComponents[k] in nodes
  }

  /** Remembering a node of the tree keeps every remembered component in the tree. */
  lemma RememberKeeps(dynamicComponents: map<String, NodeId>, nodes: set<NodeId>, clientId: String, c: NodeId)
    requires Remembered(dynamicComponents, nodes) && c in nodes
    ensures Remembered(dynamicComponents[clientId := c], nodes)
  {
  }

  /** Where `parent.getChildren().add` puts a child whose remembered index is `childIndex`. */
  datatype Placement = Append | InsertAtIndex(index: nat) | OutOfBounds

  /**
   * The ADD branch on the remembered index: -1 (no index) or an index at or
   * past the end appends; an index inside the list inserts there; any other
   * negative index makes `add(index, child)` throw.
   */
  function AddPlacement(childIndex: int, childCount: nat): (r: Placement)
    ensures r == Append <==> childIndex == -1 || childIndex >= childCount
    ensures r.InsertAtIndex? <==> 0 <= childIndex < childCount
    ensures r.InsertAtIndex? ==> r.index == childIndex
    ensures r == OutOfBounds <==> childIndex < -1
  {
    if childIndex >= childCount || childIndex == -1 then Append
    else if childIndex < 0 then OutOfBounds
    else InsertAtIndex(childIndex)
  }

  /** The index remembered in a component's attributes, -1 when there is none. */
  function RememberedIndex(attributes: map<String, int>): (r: int)
    ensures DYNAMIC_COMPONENT in attributes ==> r == attributes[DYNAMIC_COMPONENT]
    ensures DYNAMIC_COMPONENT !in attributes ==> r == -1
  {
    if DYNAMIC_COMPONENT in attributes then attributes[DYNAMIC_COMPONENT] else -1
  }

  /** The parts of the view and of the state context that the replay reads or changes. */
  datatype Snapshot = Snapshot(
    root: NodeId,
    nodes: set<NodeId>,
    clientId: map<NodeId, String>,
    localId: map<NodeId, String>,
    children: map<NodeId, seq<NodeId>>,
    facets: map<NodeId, map<String, NodeId>>,
    parent: map<NodeId, NodeId>,
    attributes: map<NodeId, map<String, int>>,
    dynamicComponents: map<String, NodeId>)

  /** The snapshot of a view and its state context. */
  ghost function Snap(t: Tree, sc: StateContext): Snapshot
    reads t`root, t`nodes, t`clientId, t`localId, t`children, t`facets, t`parent, t`attributes
    reads sc`dynamicComponents
  {
    Snapshot(t.root, t.nodes, t.clientId, t.localId, t.children, t.facets, t.parent, t.attributes,
             sc.dynamicComponents)
  }

  /**
   * Every node of the snapshot has a client id, a local id, attributes,
   * children and facets; every parent and every remembered component is a
   * node.
   */
  ghost predicate Keyed(s: Snapshot) {
    && s.clientId.Keys == s.nodes && s.localId.Keys == s.nodes && s.attributes.Keys == s.nodes
    && s.children.Keys == s.nodes && s.facets.Keys == s.nodes && s.parent.Keys <= s.nodes
    && (forall c :: c in s.parent ==> s.parent[c] in s.nodes)
    && Remembered(s.dynamicComponents, s.nodes)
  }

  /** What `locateComponentByClientId` from `start` may answer, searching as many levels as the view has components. */
  ghost predicate FoundIn(s: Snapshot, start: NodeId, cid: String, found: Option<NodeId>) {
    LocatedIn(s.nodes, s.clientId, s.children, s.facets, start, cid, |s.nodes|, found)
  }

  /**
   * The child `reapplyDynamicAdd` settles on under the parent `p`: the node
   * located under `p`; failing that, the component remembered under the
   * client id; failing that, none.
   */
  ghost predicate ChildLocatedIn(s: Snapshot, cid: String, p: NodeId, childFound: Option<NodeId>) {
    match childFound
    case None => AbsentIn(s.nodes, s.clientId, s.children, s.facets, p, cid, |s.nodes|) && cid !in s.dynamicComponents
    case Some(c) =>
      || FoundIn(s, p, cid, childFound)
      || (&& AbsentIn(s.nodes, s.clientId, s.children, s.facets, p, cid, |s.nodes|)
          && cid in s.dynamicComponents && s.dynamicComponents[cid] == c)
  }

  /** The children, facet and parent maps of a view. */
  datatype Links = Links(children: map<NodeId, seq<NodeId>>, facets: map<NodeId, map<String, NodeId>>,
                         parent: map<NodeId, NodeId>)

  /**
   * `getFacets().remove(name)` then `getFacets().put(name, c)` on `p`: the
   * previous occupant of the facet loses its parent, then `c` leaves its old
   * slot and becomes the facet.
   */
  function FacetReplaced(l: Links, p: NodeId, name: String, c: NodeId): Links
    requires p in l.facets
  {
    var vacated := l.facets[p := l.facets[p] - {name}];
    var orphaned := if name in l.facets[p] then l.parent - {l.facets[p][name]} else l.parent;
    var detached := DetachFacets(l.children, vacated, orphaned, c);
    Links(DetachChildren(l.children, orphaned, c), detached[p := detached[p][name := c]], (orphaned - {c})[c := p])
  }

  /** `FacetReplaced` is `Tree.RemoveFacet` followed by `Tree.PutFacet`. */
  lemma FacetReplacedComposes(before: Links, vacated: Links, after: Links, p: NodeId, name: String, c: NodeId)
    requires p in before.facets
    requires vacated.children == before.children
    requires vacated.facets == before.facets[p := before.facets[p] - {name}]
    requires vacated.parent == if name in before.facets[p] then before.parent - {before.facets[p][name]} else before.parent
    requires after.children == DetachChildren(vacated.children, vacated.parent, c)
    requires var detached := DetachFacets(vacated.children, vacated.facets, vacated.parent, c);
             after.facets == detached[p := detached[p][name := c]]
    requires var detached := DetachFacets(vacated.children, vacated.facets, vacated.parent, c);
             after.parent == (vacated.parent - {c} - (if name in detached[p] then {detached[p][name]} else {}))[c := p]
    ensures after == FacetReplaced(before, p, name, c)
  {
    var detached := DetachFacets(vacated.children, vacated.facets, vacated.parent, c);
    assert name !in detached[p];
    assert vacated.parent - {c} - {} == vacated.parent - {c};
  }

  /**
   * After the facet is replaced, `c` is the facet named `name` of `p` and its
   * parent is `p`; a previous occupant other than `c` has no parent; every
   * other node keeps its parent; and the slots of nodes other than `p` and
   * `c`'s old parent are untouched.
   */
  lemma FacetReplacedPlaces(nodes: set<NodeId>, l: Links, p: NodeId, name: String, c: NodeId)
    requires Linked(nodes, l.children, l.facets, l.parent) && p in nodes && c in nodes
    ensures var r := FacetReplaced(l, p, name, c);
            && c in r.parent && r.parent[c] == p
            && p in r.facets && name in r.facets[p] && r.facets[p][name] == c
            && (name in l.facets[p] && l.facets[p][name] != c ==> l.facets[p][name] !in r.parent)
            && (forall n :: n in l.parent && n != c && !(name in l.facets[p] && l.facets[p][name] == n) ==>
                              n in r.parent && r.parent[n] == l.parent[n])
            && (forall q :: q in nodes && q != p && (c in l.parent ==> q != l.parent[c]) ==>
                              r.children[q] == l.children[q] && r.facets[q] == l.facets[q])
  {
  }

  /**
   * The effect of `reapplyDynamicRemove` on the snapshot `s` once `c` is
   * located: `c` is remembered under the recorded client id; a parentless
   * `c` raises a null-pointer exception and nothing else changes; otherwise
   * the named facet of the parent, or `c` among its children, is removed.
   */
  ghost predicate RemoveStep(s: Snapshot, s': Snapshot, c: NodeId, struct: ComponentStruct, r: Outcome<ReplayError>)
    requires Keyed(s) && c in s.nodes
  {
    var remembered := s.dynamicComponents[struct.clientId := c];
    && (r.Fail? <==> c !in s.parent)
    && (r.Fail? ==> r.error == NullParent && s' == s.(dynamicComponents := remembered))
    && (r.Pass? && struct.facetName.Some? ==>
          var p, name := s.parent[c], struct.facetName.value;
          s' == s.(facets := s.facets[p := s.facets[p] - {name}],
                   parent := if name in s.facets[p] then s.parent - {s.facets[p][name]} else s.parent,
                   dynamicComponents := remembered))
    && (r.Pass? && struct.facetName.None? ==>
          var p := s.parent[c];
          s' == s.(children := s.children[p := RemoveFirst(s.children[p], c)],
                   parent := if c in s.children[p] then s.parent - {c} else s.parent,
                   dynamicComponents := remembered))
  }

  /**
   * The effect of `reapplyDynamicAdd` on the snapshot `s` once the parent
   * `p` and the child `c` are known. With a facet name, `c` replaces that
   * facet (`FacetReplaced`). Otherwise `c` gets the recorded id, then goes
   * back among `p`'s children at its remembered index (or at the end), and
   * its `DYNAMIC_COMPONENT` attribute becomes its actual index; a remembered
   * index below -1 throws after the id is set. On success `c` is remembered
   * under the recorded client id.
   */
  ghost predicate AddStep(s: Snapshot, s': Snapshot, p: NodeId, c: NodeId, struct: ComponentStruct,
                          r: Outcome<ReplayError>)
    requires Keyed(s) && p in s.nodes && c in s.nodes
  {
    var placement := AddPlacement(RememberedIndex(s.attributes[c]), |s.children[p]|);
    var remembered := s.dynamicComponents[struct.clientId := c];
    && (r.Fail? <==> struct.facetName.None? && placement == OutOfBounds)
    && (r.Fail? ==> r.error == IndexOutOfBounds && s' == s.(localId := s.localId[c := struct.id]))
    && (r.Pass? && struct.facetName.Some? ==>
          var l := FacetReplaced(Links(s.children, s.facets, s.parent), p, struct.facetName.value, c);
          s' == s.(children := l.children, facets := l.facets, parent := l.parent, dynamicComponents := remembered))
    && (r.Pass? && struct.facetName.None? ==>
          var detached := DetachChildren(s.children, s.parent, c);
          var index := if placement.InsertAtIndex? then placement.index else |detached[p]|;
          && index <= |detached[p]|
          && s' == s.(localId := s.localId[c := struct.id],
                      children := detached[p := InsertAt(detached[p], index, c)],
                      facets := DetachFacets(s.children, s.facets, s.parent, c),
                      parent := (s.parent - {c})[c := p],
                      attributes := s.attributes[c := s.attributes[c][DYNAMIC_COMPONENT := index]],
                      dynamicComponents := remembered)
          && PositionOf(s'.children[p], c) == index)
  }

  /**
   * One record replayed on `s`, giving `s'` and the outcome `r`. A REMOVE
   * record locates `found` from the root and removes it; an ADD record
   * locates `parentFound` from the root, settles on the child `found` under
   * it and adds it; a record with any other action changes nothing.
   */
  ghost predicate ReplayStep(s: Snapshot, s': Snapshot, record: ComponentStruct,
                             found: Option<NodeId>, parentFound: Option<NodeId>, r: Outcome<ReplayError>)
    requires Keyed(s)
  {
    if record.action == REMOVE then
      && parentFound.None?
      && FoundIn(s, s.root, record.clientId, found)
      && (found.None? ==> s' == s && r == Pass)
      && (found.Some? ==> RemoveStep(s, s', found.value, record, r))
    else if record.action == ADD then
      && FoundIn(s, s.root, record.parentClientId, parentFound)
      && (parentFound.None? ==> found.None?)
      && (parentFound.Some? ==> ChildLocatedIn(s, record.clientId, parentFound.value, found))
      && (found.None? ==> s' == s && r == Pass)
      && (found.Some? ==> parentFound.Some? && AddStep(s, s', parentFound.value, found.value, record, r))
    else
      found.None? && parentFound.None? && s' == s && r == Pass
  }

  /** Some lookup answers replay `record` on `s` giving `s'` and `r`. */
  ghost predicate RecordReplayed(s: Snapshot, s': Snapshot, record: ComponentStruct, r: Outcome<ReplayError>)
    requires Keyed(s)
  {
    exists found, parentFound :: ReplayStep(s, s', record, found, parentFound, r)
  }

  /**
   * `trace` lists the states of a replay of `log` in which every record
   * passed: it starts with the state before the first record, and each
   * state is the one before it with the next record replayed.
   */
  ghost predicate PassedTrace(trace: seq<Snapshot>, log: seq<ComponentStruct>)
    decreases |log|
  {
    && |trace| == |log| + 1
    && (|log| > 0 ==>
          var n := |log| - 1;
          && PassedTrace(trace[..n + 1], log[..n])
          && Keyed(trace[n]) && RecordReplayed(trace[n], trace[n + 1], log[n], Pass))
  }

  /**
   * `trace` lists the states of a replay of `log` that ended with `r`. A
   * replay that passes replayed every record. One that fails stopped at the
   * record that failed, and every record before it passed.
   */
  ghost predicate ReplayTrace(trace: seq<Snapshot>, log: seq<ComponentStruct>, r: Outcome<ReplayError>) {
    if r.Pass? then PassedTrace(trace, log)
    else
      && 2 <= |trace| <= |log| + 1
      && var n := |trace| - 2;
         && PassedTrace(trace[..n + 1], log[..n])
         && Keyed(trace[n]) && RecordReplayed(trace[n], trace[n + 1], log[n], r)
  }

  /**
   * `reapplyDynamicActions` takes `s` to `s'` with outcome `r`: without a log
   * nothing changes and nothing fails; with one, `trace` leads from `s` to
   * `s'` replaying it record by record (`ReplayTrace`).
   */
  ghost predicate ActionsReplayed(s: Snapshot, s': Snapshot, actions: Option<seq<ComponentStruct>>,
                                  trace: seq<Snapshot>, r: Outcome<ReplayError>) {
    match actions
    case None => s' == s && r == Pass
    case Some(log) => ReplayTrace(trace, log, r) && |trace| > 0 && trace[0] == s && trace[|trace| - 1] == s'
  }

  /** Record `j` of a replay in which every record passed takes state `j` to state `j + 1`. */
  lemma {:induction false} PassedTraceStep(trace: seq<Snapshot>, log: seq<ComponentStruct>, j: nat)
    requires PassedTrace(trace, log) && j < |log|
    ensures Keyed(trace[j]) && RecordReplayed(trace[j], trace[j + 1], log[j], Pass)
    decreases |log|
  {
    var n := |log| - 1;
    if j < n {
      PassedTraceStep(trace[..n + 1], log[..n], j);
      assert trace[..n + 1][j + 1] == trace[j + 1];
    }
  }

  /** A passing replay of the first `k` records followed by a passing record `k` is a passing replay of `k + 1` records. */
  lemma PassedTraceExtends(trace: seq<Snapshot>, log: seq<ComponentStruct>, k: nat, next: Snapshot)
    requires k < |log| && PassedTrace(trace, log[..k]) && Keyed(trace[k]) && RecordReplayed(trace[k], next, log[k], Pass)
    ensures PassedTrace(trace + [next], log[..k + 1])
  {
    assert (trace + [next])[..k + 1] == trace;
    assert log[..k + 1][..k] == log[..k];
  }

  /** A passing replay of records that are neither REMOVE nor ADD ends where it started. */
  lemma {:induction false} PassedTraceNoActions(trace: seq<Snapshot>, log: seq<ComponentStruct>)
    requires PassedTrace(trace, log)
    requires forall j :: 0 <= j < |log| ==> log[j].action != REMOVE && log[j].action != ADD
    ensures trace[|log|] == trace[0]
    decreases |log|
  {
    if |log| > 0 {
      var n := |log| - 1;
      PassedTraceNoActions(trace[..n + 1], log[..n]);
    }
  }

  /** A replay of records that are neither REMOVE nor ADD passes and ends where it started. */
  lemma NoActionsNoChange(trace: seq<Snapshot>, log: seq<ComponentStruct>, r: Outcome<ReplayError>)
    requires ReplayTrace(trace, log, r)
    requires forall j :: 0 <= j < |log| ==> log[j].action != REMOVE && log[j].action != ADD
    ensures r == Pass && trace[|trace| - 1] == trace[0]
  {
    if r.Pass? {
      PassedTraceNoActions(trace, log);
    }
  }

  /**
   * A replay fails only at a REMOVE record, with a null-pointer exception,
   * or at an ADD record, with an index out of bounds.
   */
  lemma ReplayFailureKind(trace: seq<Snapshot>, log: seq<ComponentStruct>, r: Outcome<ReplayError>)
    requires ReplayTrace(trace, log, r) && r.Fail?
    ensures || (log[|trace| - 2].action == REMOVE && r.error == NullParent)
            || (log[|trace| - 2].action == ADD && r.error == IndexOutOfBounds)
  {
    var n := |trace| - 2;
    var found, parentFound :| ReplayStep(trace[n], trace[n + 1], log[n], found, parentFound, r);
  }

  /** Client id `cid` belongs to the node `n` and to no other node of the view. */
  ghost predicate OwnsClientId(s: Snapshot, cid: String, n: NodeId) {
    forall m :: m in s.nodes && m in s.clientId && s.clientId[m] == cid <==> m == n
  }

  /**
   * A REMOVE record for the only owner `c` of its client id, where `c` is
   * under the root and among its parent's children, takes `c` out of that
   * list, leaves it without a parent and remembers it.
   */
  lemma {:induction false} RemoveOwnedChild(s0: Snapshot, s1: Snapshot, remove: ComponentStruct,
                                            r1: Outcome<ReplayError>, c: NodeId)
    requires Keyed(s0)
    requires remove.action == REMOVE && remove.facetName.None? && OwnsClientId(s0, remove.clientId, c)
    requires ReachesIn(s0.children, s0.facets, s0.root, c, |s0.nodes|) && c in s0.parent && c in s0.children[s0.parent[c]]
    requires RecordReplayed(s0, s1, remove, r1)
    ensures r1 == Pass
    ensures s1 == s0.(children := s0.children[s0.parent[c] := RemoveFirst(s0.children[s0.parent[c]], c)],
                      parent := s0.parent - {c},
                      dynamicComponents := s0.dynamicComponents[remove.clientId := c])
  {
    var found, parentFound :| ReplayStep(s0, s1, remove, found, parentFound, r1);
    assert c in s0.clientId && s0.clientId[c] == remove.clientId;
    assert found == Some(c);
  }

  /**
   * An ADD record whose parent `p` and child `c` are the only owners of
   * their client ids, with `p` under the root and `c` remembered under its
   * client id, puts `c` under `p` as `AddStep` states.
   */
  lemma {:induction false} AddOwnedChild(s1: Snapshot, s2: Snapshot, add: ComponentStruct,
                                         r2: Outcome<ReplayError>, c: NodeId, p: NodeId)
    requires Keyed(s1) && add.action == ADD
    requires OwnsClientId(s1, add.clientId, c) && OwnsClientId(s1, add.parentClientId, p)
    requires add.clientId in s1.dynamicComponents && s1.dynamicComponents[add.clientId] == c
    requires ReachesIn(s1.children, s1.facets, s1.root, p, |s1.nodes|)
    requires RecordReplayed(s1, s2, add, r2)
    ensures c in s1.nodes && p in s1.nodes && AddStep(s1, s2, p, c, add, r2)
  {
    var found, parentFound :| ReplayStep(s1, s2, add, found, parentFound, r2);
    assert p in s1.clientId && s1.clientId[p] == add.parentClientId;
    assert parentFound == Some(p);
    assert found == Some(c);
  }

  /**
   * A REMOVE followed by an ADD of the same component among its parent's
   * children puts it back where it is remembered. When the component `c` and
   * the new parent `p` are the only owners of their client ids and both are
   * in the view under the root, both records pass unless the remembered
   * index is below -1, `p` becomes `c`'s parent, and a remembered index
   * inside `p`'s child list is `c`'s new position and stays remembered.
   */
  lemma {:induction false} RemoveThenAddRestores(s0: Snapshot, s1: Snapshot, s2: Snapshot,
                                                 remove: ComponentStruct, add: ComponentStruct,
                                                 r1: Outcome<ReplayError>, r2: Outcome<ReplayError>, c: NodeId, p: NodeId)
    requires Keyed(s0) && Keyed(s1)
    requires remove.action == REMOVE && remove.facetName.None?
    requires add.action == ADD && add.facetName.None? && add.clientId == remove.clientId
    requires OwnsClientId(s0, remove.clientId, c) && OwnsClientId(s0, add.parentClientId, p)
    requires ReachesIn(s0.children, s0.facets, s0.root, c, |s0.nodes|) && c in s0.parent && c in s0.children[s0.parent[c]]
    requires ReachesIn(s1.children, s1.facets, s1.root, p, |s1.nodes|)
    requires RecordReplayed(s0, s1, remove, r1) && RecordReplayed(s1, s2, add, r2)
    ensures r1 == Pass && (r2 == Pass <==> RememberedIndex(s0.attributes[c]) >= -1)
    ensures r2 == Pass ==> c in s2.parent && s2.parent[c] == p
    ensures var k := RememberedIndex(s0.attributes[c]);
            p in s1.children && 0 <= k < |s1.children[p]| ==>
              && p in s2.children && c in s2.children[p] && PositionOf(s2.children[p], c) == k
              && c in s2.attributes && DYNAMIC_COMPONENT in s2.attributes[c] && s2.attributes[c][DYNAMIC_COMPONENT] == k
  {
    RemoveOwnedChild(s0, s1, remove, r1, c);
    AddOwnedChild(s1, s2, add, r2, c, p);
    var k := RememberedIndex(s1.attributes[c]);
    var placement := AddPlacement(k, |s1.children[p]|);
    if 0 <= k < |s1.children[p]| {
      assert placement == InsertAtIndex(k);
    }
  }

  /**
   * `reapplyDynamicRemove`: locate the component anywhere in the view; if
   * found, remember it and take it out of its parent (`RemoveStep`); if not,
   * nothing changes.
   */
  method ReapplyDynamicRemove(t: Tree, sc: StateContext, struct: ComponentStruct)
    returns (located: Option<NodeId>, r: Outcome<ReplayError>)
    requires t.Valid() && Remembered(sc.dynamicComponents, t.nodes)
    modifies t`children, t`facets, t`parent, sc`dynamicComponents
    ensures t.Valid() && Remembered(sc.dynamicComponents, t.nodes)
    ensures old(allocated(located)) && FoundIn(old(Snap(t, sc)), t.root, struct.clientId, located)
    ensures located.None? ==> r == Pass && unchanged(t) && unchanged(sc)
    ensures located.Some? ==> RemoveStep(old(Snap(t, sc)), Snap(t, sc), located.value, struct, r)
  {
    t.ValidClosed();
    located := t.Locate(t.root, struct.clientId, |t.nodes|);
    r := Pass;
    if located.Some? {
      r := RemoveLocated(t, sc, located.value, struct);
    }
  }

  /** The part of `reapplyDynamicRemove` after the component is found. */
  method RemoveLocated(t: Tree, sc: StateContext, c: NodeId, struct: ComponentStruct)
    returns (r: Outcome<ReplayError>)
    requires t.Valid() && Remembered(sc.dynamicComponents, t.nodes) && c in t.nodes
    modifies t`children, t`facets, t`parent, sc`dynamicComponents
    ensures t.Valid() && Remembered(sc.dynamicComponents, t.nodes)
    ensures RemoveStep(old(Snap(t, sc)), Snap(t, sc), c, struct, r)
  {
    RememberKeeps(sc.dynamicComponents, t.nodes, struct.clientId, c);
    sc.dynamicComponents := sc.dynamicComponents[struct.clientId := c];
    if c !in t.parent {
      return Fail(NullParent);
    }
    r := Pass;
    var parent := t.parent[c];
    if struct.facetName.Some? {
      t.RemoveFacet(parent, struct.facetName.value);
    } else {
      t.RemoveChild(parent, c);
    }
  }

  /**
   * The lookups of `reapplyDynamicAdd`: the parent anywhere in the view, then
   * the child under the parent, falling back to the remembered component.
   */
  method LocateAddTargets(t: Tree, sc: StateContext, struct: ComponentStruct)
    returns (parentFound: Option<NodeId>, childFound: Option<NodeId>)
    requires t.Valid() && Remembered(sc.dynamicComponents, t.nodes)
    ensures FoundIn(Snap(t, sc), t.root, struct.parentClientId, parentFound)
    ensures parentFound.None? ==> childFound.None?
    ensures parentFound.Some? ==> ChildLocatedIn(Snap(t, sc), struct.clientId, parentFound.value, childFound)
    ensures childFound.Some? ==> childFound.value in t.nodes
  {
    t.ValidClosed();
    parentFound := t.Locate(t.root, struct.parentClientId, |t.nodes|);
    childFound := None;
    if parentFound.Some? {
      childFound := t.Locate(parentFound.value, struct.clientId, |t.nodes|);
      if childFound.None? && struct.clientId in sc.dynamicComponents {
        childFound := Some(sc.dynamicComponents[struct.clientId]);
      }
    }
  }

  /**
   * `reapplyDynamicAdd`: when both the parent and the child are found, put
   * the child back as recorded (`AddStep`); otherwise nothing changes.
   */
  method ReapplyDynamicAdd(t: Tree, sc: StateContext, struct: ComponentStruct)
    returns (parentFound: Option<NodeId>, childFound: Option<NodeId>, r: Outcome<ReplayError>)
    requires t.Valid() && Remembered(sc.dynamicComponents, t.nodes)
    modifies t`children, t`facets, t`parent, t`attributes, t`localId, sc`dynamicComponents
    ensures t.Valid() && Remembered(sc.dynamicComponents, t.nodes)
    ensures old(allocated(parentFound)) && old(allocated(childFound))
    ensures FoundIn(old(Snap(t, sc)), t.root, struct.parentClientId, parentFound)
    ensures parentFound.None? ==> childFound.None?
    ensures parentFound.Some? ==> ChildLocatedIn(old(Snap(t, sc)), struct.clientId, parentFound.value, childFound)
    ensures childFound.None? ==> r == Pass && unchanged(t) && unchanged(sc)
    ensures childFound.Some? ==> && parentFound.Some? && childFound.value in old(t.nodes)
                                 && AddStep(old(Snap(t, sc)), Snap(t, sc), parentFound.value, childFound.value, struct, r)
  {
    parentFound, childFound := LocateAddTargets(t, sc, struct);
    r := Pass;
    if childFound.Some? {
      r := AddLocated(t, sc, parentFound.value, childFound.value, struct);
    }
  }

  /** The part of `reapplyDynamicAdd` after both components are known. */
  method AddLocated(t: Tree, sc: StateContext, p: NodeId, c: NodeId, struct: ComponentStruct)
    returns (r: Outcome<ReplayError>)
    requires t.Valid() && Remembered(sc.dynamicComponents, t.nodes) && p in t.nodes && c in t.nodes
    modifies t`children, t`facets, t`parent, t`attributes, t`localId, sc`dynamicComponents
    ensures t.Valid() && Remembered(sc.dynamicComponents, t.nodes)
    ensures AddStep(old(Snap(t, sc)), Snap(t, sc), p, c, struct, r)
  {
    if struct.facetName.Some? {
      r := Pass;
      AddFacetLocated(t, sc, p, c, struct);
    } else {
      r := AddChildLocated(t, sc, p, c, struct);
    }
  }

  /** The facet branch of `AddLocated`. */
  method AddFacetLocated(t: Tree, sc: StateContext, p: NodeId, c: NodeId, struct: ComponentStruct)
    requires t.Valid() && Remembered(sc.dynamicComponents, t.nodes) && p in t.nodes && c in t.nodes
    requires struct.facetName.Some?
    modifies t`children, t`facets, t`parent, sc`dynamicComponents
    ensures t.Valid() && Remembered(sc.dynamicComponents, t.nodes)
    ensures AddStep(old(Snap(t, sc)), Snap(t, sc), p, c, struct, Pass)
  {
    ghost var s := Snap(t, sc);
    PlaceDynamicFacet(t, p, struct.facetName.value, c);
    RememberKeeps(sc.dynamicComponents, t.nodes, struct.clientId, c);
    sc.dynamicComponents := sc.dynamicComponents[struct.clientId := c];
    assert AddStep(s, Snap(t, sc), p, c, struct, Pass);
  }

  /** The children branch of `AddLocated`. */
  method AddChildLocated(t: Tree, sc: StateContext, p: NodeId, c: NodeId, struct: ComponentStruct)
    returns (r: Outcome<ReplayError>)
    requires t.Valid() && Remembered(sc.dynamicComponents, t.nodes) && p in t.nodes && c in t.nodes
    requires struct.facetName.None?
    modifies t`children, t`facets, t`parent, t`attributes, t`localId, sc`dynamicComponents
    ensures t.Valid() && Remembered(sc.dynamicComponents, t.nodes)
    ensures AddStep(old(Snap(t, sc)), Snap(t, sc), p, c, struct, r)
  {
    ghost var s := Snap(t, sc);
    assert Keyed(s);
    r := PlaceDynamicChild(t, p, c, struct.id);
    if r.Fail? {
      assert Snap(t, sc) == s.(localId := s.localId[c := struct.id]);
      return;
    }
    RememberKeeps(sc.dynamicComponents, t.nodes, struct.clientId, c);
    sc.dynamicComponents := sc.dynamicComponents[struct.clientId := c];
    assert AddStep(s, Snap(t, sc), p, c, struct, r);
  }

  /**
   * `getFacets().remove(name)` then `getFacets().put(name, c)`: the links
   * become `FacetReplaced` of the old ones.
   */
  method PlaceDynamicFacet(t: Tree, p: NodeId, name: String, c: NodeId)
    requires t.Valid() && p in t.nodes && c in t.nodes
    modifies t`children, t`facets, t`parent
    ensures t.Valid()
    ensures Links(t.children, t.facets, t.parent) == FacetReplaced(Links(old(t.children), old(t.facets), old(t.parent)), p, name, c)
    ensures unchanged(t`attributes, t`localId)
  {
    ghost var before := Links(t.children, t.facets, t.parent);
    t.RemoveFacet(p, name);
    ghost var vacated := Links(t.children, t.facets, t.parent);
    t.PutFacet(p, name, c);
    FacetReplacedComposes(before, vacated, Links(t.children, t.facets, t.parent), p, name, c);
  }

  /**
   * The children branch of ADD: the child takes its recorded id, then goes
   * back at its remembered index, or at the end, or the add throws; then its
   * actual index is remembered in `DYNAMIC_COMPONENT`.
   */
  method PlaceDynamicChild(t: Tree, p: NodeId, c: NodeId, id: String) returns (r: Outcome<ReplayError>)
    requires t.Valid() && p in t.nodes && c in t.nodes
    modifies t`children, t`facets, t`parent, t`attributes, t`localId
    ensures t.Valid()
    ensures t.localId == old(t.localId)[c := id]
    ensures var placement := AddPlacement(RememberedIndex(old(t.attributes[c])), |old(t.children[p])|);
            && (r.Fail? <==> placement == OutOfBounds)
            && (r.Fail? ==> r.error == IndexOutOfBounds && unchanged(t`children, t`facets, t`parent, t`attributes))
            && (r.Pass? ==>
                  var detached := DetachChildren(old(t.children), old(t.parent), c);
                  var index := if placement.InsertAtIndex? then placement.index else |detached[p]|;
                  && index <= |detached[p]|
                  && t.children == detached[p := InsertAt(detached[p], index, c)]
                  && t.facets == DetachFacets(old(t.children), old(t.facets), old(t.parent), c)
                  && t.parent == (old(t.parent) - {c})[c := p]
                  && PositionOf(t.children[p], c) == index
                  && t.attributes == old(t.attributes)[c := old(t.attributes[c])[DYNAMIC_COMPONENT := index]])
  {
    var placement := AddPlacement(RememberedIndex(t.attributes[c]), |t.children[p]|);
    t.SetLocalId(c, id);
    if placement == OutOfBounds {
      return Fail(IndexOutOfBounds);
    }
    r := Pass;
    DetachRemovesChild(t.nodes, t.children, t.facets, t.parent, c);
    DetachChildrenLength(t.children, t.parent, c, p);
    var detached := DetachChildren(t.children, t.parent, c)[p];
    var index := if placement.InsertAtIndex? then placement.index else |detached|;
    if placement == Append {
      t.AppendChild(p, c);
      assert t.children[p] == InsertAt(detached, index, c);
    } else {
      t.InsertChild(p, index, c);
    }
    PositionOfInsertAt(detached, index, c);
    var position := PositionOf(t.children[p], c);
    t.SetAttribute(c, DYNAMIC_COMPONENT, position);
  }

  /**
   * `reapplyDynamicActions`: with a log, replay it (`ReplayLog`); without
   * one, nothing changes.
   */
  method ReapplyDynamicActions(t: Tree, sc: StateContext)
    returns (applied: nat, r: Outcome<ReplayError>, ghost trace: seq<Snapshot>)
    requires t.Valid() && Remembered(sc.dynamicComponents, t.nodes)
    modifies t`children, t`facets, t`parent, t`attributes, t`localId, sc`dynamicComponents
    ensures t.Valid() && Remembered(sc.dynamicComponents, t.nodes)
    ensures old(sc.dynamicActions).None? ==> applied == 0 && r == Pass && unchanged(t) && unchanged(sc)
    ensures old(sc.dynamicActions).Some? ==>
              var log := old(sc.dynamicActions.value);
              && ReplayTrace(trace, log, r)
              && trace[0] == old(Snap(t, sc)) && trace[|trace| - 1] == Snap(t, sc)
              && applied == (if r.Pass? then |log| else |trace| - 2)
              && (r.Fail? ==> || (log[applied].action == REMOVE && r.error == NullParent)
                              || (log[applied].action == ADD && r.error == IndexOutOfBounds))
              && ((forall j :: 0 <= j < |log| ==> log[j].action != REMOVE && log[j].action != ADD) ==>
                    r == Pass && unchanged(t) && unchanged(sc))
    ensures ActionsReplayed(old(Snap(t, sc)), Snap(t, sc), old(sc.dynamicActions), trace, r)

  {
    applied, r, trace := 0, Pass, [Snap(t, sc)];
    if sc.dynamicActions.Some? {
      ghost var before := Snap(t, sc);
      var log := sc.dynamicActions.value;
      applied, r, trace := ReplayLog(t, sc, log);
      ghost var replayed := ReplayTrace(trace, log, r) && trace[0] == before && trace[|trace| - 1] == Snap(t, sc);
      assert replayed;
      if r.Fail? {
        ReplayFailureKind(trace, log, r);
      }
      if forall j :: 0 <= j < |log| ==> log[j].action != REMOVE && log[j].action != ADD {
        NoActionsNoChange(trace, log, r);
        assert Snap(t, sc) == before;
      }
    }
  }

  /**
   * The loop of `reapplyDynamicActions`: replay the records of `log` in
   * order (`ReplayRecord`); the first exception ends the replay. `applied`
   * counts the records replayed without an exception, and `trace` lists the
   * states the replay went through (`ReplayTrace`).
   */
  method ReplayLog(t: Tree, sc: StateContext, log: seq<ComponentStruct>)
    returns (applied: nat, r: Outcome<ReplayError>, ghost trace: seq<Snapshot>)
    requires t.Valid() && Remembered(sc.dynamicComponents, t.nodes)
    modifies t`children, t`facets, t`parent, t`attributes, t`localId, sc`dynamicComponents
    ensures t.Valid() && Remembered(sc.dynamicComponents, t.nodes)
    ensures ReplayTrace(trace, log, r)
    ensures trace[0] == old(Snap(t, sc)) && trace[|trace| - 1] == Snap(t, sc)
    ensures applied == (if r.Pass? then |log| else |trace| - 2)
  {
    applied := 0;
    r := Pass;
    trace := [Snap(t, sc)];
    assert log[..0] == [];
    while applied < |log|
      invariant applied <= |log|
      invariant t.Valid() && Remembered(sc.dynamicComponents, t.nodes)
      invariant PassedTrace(trace, log[..applied])
      invariant trace[0] == old(Snap(t, sc)) && trace[applied] == Snap(t, sc)
    {
      var outcome;
      outcome, trace := ReplayNext(t, sc, log, applied, trace);
      if outcome.Fail? {
        return applied, outcome, trace;
      }
      applied := applied + 1;
    }
    assert log[..applied] == log;
  }

  /**
   * One turn of the loop of `reapplyDynamicActions`: replay record `k` of
   * `log` (`ReplayRecord`) and extend the trace of the replay so far.
   */
  method ReplayNext(t: Tree, sc: StateContext, log: seq<ComponentStruct>, k: nat, ghost trace: seq<Snapshot>)
    returns (r: Outcome<ReplayError>, ghost trace': seq<Snapshot>)
    requires t.Valid() && Remembered(sc.dynamicComponents, t.nodes)
    requires k < |log| && PassedTrace(trace, log[..k]) && trace[k] == Snap(t, sc)
    modifies t`children, t`facets, t`parent, t`attributes, t`localId, sc`dynamicComponents
    ensures t.Valid() && Remembered(sc.dynamicComponents, t.nodes)
    ensures trace' == trace + [Snap(t, sc)]
    ensures r.Pass? ==> PassedTrace(trace', log[..k + 1])
    ensures r.Fail? ==> ReplayTrace(trace', log, r)
    ensures log[k].action != REMOVE && log[k].action != ADD ==> r == Pass && unchanged(t) && unchanged(sc)
  {
    ghost var before := Snap(t, sc);
    var found, parentFound;
    found, parentFound, r := ReplayRecord(t, sc, log[k]);
    ghost var after := Snap(t, sc);
    assert ReplayStep(before, after, log[k], found, parentFound, r);
    trace' := trace + [after];
    if r.Fail? {
      assert trace'[..k + 1] == trace;
    } else {
      PassedTraceExtends(trace, log, k, after);
    }
  }

  /**
   * One turn of the replay loop: a REMOVE record goes through
   * `ReapplyDynamicRemove`, an ADD record through `ReapplyDynamicAdd`, and a
   * record with any other action changes nothing (`ReplayStep`). `found` is
   * the component the REMOVE located or the child the ADD settled on, and
   * `parentFound` the parent the ADD located.
   */
  method ReplayRecord(t: Tree, sc: StateContext, record: ComponentStruct)
    returns (found: Option<NodeId>, parentFound: Option<NodeId>, r: Outcome<ReplayError>)
    requires t.Valid() && Remembered(sc.dynamicComponents, t.nodes)
    modifies t`children, t`facets, t`parent, t`attributes, t`localId, sc`dynamicComponents
    ensures t.Valid() && Remembered(sc.dynamicComponents, t.nodes)
    ensures Keyed(old(Snap(t, sc)))
    ensures ReplayStep(old(Snap(t, sc)), Snap(t, sc), record, found, parentFound, r)
    ensures r.Fail? ==> || (record.action == REMOVE && r.error == NullParent)
                        || (record.action == ADD && r.error == IndexOutOfBounds)
    ensures record.action != REMOVE && record.action != ADD ==> r == Pass && unchanged(t) && unchanged(sc)
  {
    r := Pass;
    found, parentFound := None, None;
    if record.action == REMOVE {
      found, r := ReapplyDynamicRemove(t, sc, record);
    } else if record.action == ADD {
      parentFound, found, r := ReapplyDynamicAdd(t, sc, record);
    }
  }
}
