/**
 * The `buildView` protocol: which steps run, in which order, and with which
 * flags set, when a view is built for the first time and when an already
 * populated view is rebuilt.
 *
 * The flags are the view's populated marker, the state context's
 * track-view-modifications flag and the `IS_BUILDING_INITIAL_STATE` context
 * attribute. `facelet.apply` is an opaque step that either succeeds or
 * throws (`applyFails`); the tree it leaves is the tree passed in. Every
 * step the build takes is returned in `steps` together with the two flags
 * as they stood when the step ran.
 */
module BuildView {
  import opened Wrappers
  import opened ComponentTree
  import opened DynamicReplay
  import opened InitialState

  /** Why a build ended with an exception. */
  datatype BuildError = ApplyFailed | ReplayFailed(cause: ReplayError)

  /** The steps of a build that touch the component tree. */
  datatype Phase = Apply | Replay | MarkIfNotMarked | MarkInitial

  /** A step, with the track-view-modifications flag and `IS_BUILDING_INITIAL_STATE` as they stood when it ran. */
  datatype Step = Step(phase: Phase, tracking: bool, building: bool)

  /**
   * The replay step of a build took `s` to `s'` and ended with `r`: exactly
   * as `reapplyDynamicActions` on the state context's log does, an exception
   * it raises ending the build as `ReplayFailed`.
   */
  ghost predicate ReplayEnded(s: Snapshot, s': Snapshot, actions: Option<seq<ComponentStruct>>,
                              trace: seq<Snapshot>, r: Outcome<BuildError>) {
    && (r.Pass? || r.error.ReplayFailed?)
    && ActionsReplayed(s, s', actions, trace, if r.Pass? then Pass else Fail(r.error.cause))
  }

  /** The per-request flags the protocol reads and writes, besides the state context's. */
  class ViewContext {
    /** `Util.isViewPopulated` */
    var viewPopulated: bool
    /** `IS_BUILDING_INITIAL_STATE` is present among the context attributes. */
    var buildingInitialState: bool

    constructor ()
      ensures !viewPopulated && !buildingInitialState
    {
      viewPopulated := false;
      buildingInitialState := false;
    }
  }

  /**
   * The outcome of rebuilding a populated view: apply, then (if it did not
   * throw) the replay, then (if that did not throw and state is saved
   * partially) `markInitialStateIfNotMarked` from the root, all with
   * tracking off; tracking is back on afterwards whatever happened, and
   * `IS_BUILDING_INITIAL_STATE` is left as it was.
   */
  twostate predicate Rebuilt(ctx: ViewContext, t: Tree, sc: StateContext, partialStateSaving: bool,
                             applyFails: bool, new r: Outcome<BuildError>, new steps: seq<Step>,
                             trace: seq<Snapshot>)
    reads ctx, t, sc
  {
    var building := old(ctx.buildingInitialState);
    var marking := r.Pass? && partialStateSaving;
    && sc.trackViewModifications
    && ctx.viewPopulated && ctx.buildingInitialState == building
    && (applyFails ==> r == Fail(ApplyFailed))
    && (!applyFails ==> ReplayEnded(old(Snap(t, sc)), Snap(t, sc), sc.dynamicActions, trace, r))
    && steps == [Step(Apply, false, building)]
                + (if applyFails then [] else [Step(Replay, false, building)])
                + (if marking then [Step(MarkIfNotMarked, false, building)] else [])
    && (applyFails ==> unchanged(t`children, t`facets, t`parent, t`attributes, t`localId, sc`dynamicComponents))
    && t.marked == (if marking then old(t.marked) + MarkedIfNotMarkedFrom(t, t.root, |t.nodes|) else old(t.marked))
  }

  /**
   * The outcome of a first build: apply with `IS_BUILDING_INITIAL_STATE` set
   * and tracking off; the replay only without partial state saving; then
   * tracking on, the attribute removed, `markInitialState` from a
   * non-transient root under partial state saving, and the view marked
   * populated. An exception ends the build with tracking still off and the
   * view not populated.
   */
  twostate predicate BuiltFirst(ctx: ViewContext, t: Tree, sc: StateContext, partialStateSaving: bool,
                                applyFails: bool, new r: Outcome<BuildError>, new steps: seq<Step>,
                             trace: seq<Snapshot>)
    reads ctx, t, sc
  {
    var marking := r.Pass? && partialStateSaving && t.root !in t.transient;
    && !ctx.buildingInitialState
    && (ctx.viewPopulated <==> r.Pass?)
    && (sc.trackViewModifications <==> r.Pass?)
    && (applyFails ==> r == Fail(ApplyFailed))
    && (!applyFails ==> r.Pass? || (r.error.ReplayFailed? && !partialStateSaving))
    && (!applyFails && !partialStateSaving ==> ReplayEnded(old(Snap(t, sc)), Snap(t, sc), sc.dynamicActions, trace, r))
    && steps == [Step(Apply, false, true)]
                + (if !applyFails && !partialStateSaving then [Step(Replay, false, true)] else [])
                + (if marking then [Step(MarkInitial, true, true)] else [])
    && (applyFails || partialStateSaving ==>
          unchanged(t`children, t`facets, t`parent, t`attributes, t`localId, sc`dynamicComponents))
    && t.marked == (if marking then old(t.marked) + MarkedFrom(t, t.root, |t.nodes|) else old(t.marked))
  }

  /** `buildView`: rebuild a populated view, or build it for the first time. */
  method BuildView(ctx: ViewContext, t: Tree, sc: StateContext, partialStateSaving: bool, applyFails: bool)
    returns (r: Outcome<BuildError>, steps: seq<Step>, ghost trace: seq<Snapshot>)
    requires t.Valid() && Remembered(sc.dynamicComponents, t.nodes)
    modifies ctx, sc`trackViewModifications, sc`dynamicComponents
    modifies t`children, t`facets, t`parent, t`attributes, t`localId, t`marked
    ensures t.Valid() && Remembered(sc.dynamicComponents, t.nodes)
    ensures old(ctx.viewPopulated) ==> Rebuilt(ctx, t, sc, partialStateSaving, applyFails, r, steps, trace)
    ensures !old(ctx.viewPopulated) ==> BuiltFirst(ctx, t, sc, partialStateSaving, applyFails, r, steps, trace)
  {
    if ctx.viewPopulated {
      r, steps, trace := RebuildPopulated(ctx, t, sc, partialStateSaving, applyFails);
    } else {
      r, steps, trace := BuildFirst(ctx, t, sc, partialStateSaving, applyFails);
    }
  }

  /** The populated branch of `buildView`, its `finally` turning tracking back on. */
  method RebuildPopulated(ctx: ViewContext, t: Tree, sc: StateContext, partialStateSaving: bool, applyFails: bool)
    returns (r: Outcome<BuildError>, steps: seq<Step>, ghost trace: seq<Snapshot>)
    requires ctx.viewPopulated && t.Valid() && Remembered(sc.dynamicComponents, t.nodes)
    modifies sc`trackViewModifications, sc`dynamicComponents
    modifies t`children, t`facets, t`parent, t`attributes, t`localId, t`marked
    ensures t.Valid() && Remembered(sc.dynamicComponents, t.nodes)
    ensures Rebuilt(ctx, t, sc, partialStateSaving, applyFails, r, steps, trace)
  {
    sc.trackViewModifications := false;
    r, steps, trace := RebuildUntracked(ctx, t, sc, partialStateSaving, applyFails);
    label Replayed:
    sc.trackViewModifications := true;
    MarksFramed@Replayed(t);
  }

  /** The `try` block of a rebuild, run with tracking off: apply, replay, and under partial state saving the marking pass. */
  method RebuildUntracked(ctx: ViewContext, t: Tree, sc: StateContext, partialStateSaving: bool, applyFails: bool)
    returns (r: Outcome<BuildError>, steps: seq<Step>, ghost trace: seq<Snapshot>)
    requires !sc.trackViewModifications && t.Valid() && Remembered(sc.dynamicComponents, t.nodes)
    modifies sc`dynamicComponents
    modifies t`children, t`facets, t`parent, t`attributes, t`localId, t`marked
    ensures t.Valid() && Remembered(sc.dynamicComponents, t.nodes)
    ensures !sc.trackViewModifications
    ensures applyFails ==> r == Fail(ApplyFailed)
    ensures !applyFails ==> ReplayEnded(old(Snap(t, sc)), Snap(t, sc), sc.dynamicActions, trace, r)
    ensures steps == [Step(Apply, false, ctx.buildingInitialState)]
                     + (if applyFails then [] else [Step(Replay, false, ctx.buildingInitialState)])
                     + (if r.Pass? && partialStateSaving then [Step(MarkIfNotMarked, false, ctx.buildingInitialState)] else [])
    ensures applyFails ==> unchanged(t`children, t`facets, t`parent, t`attributes, t`localId, sc`dynamicComponents)
    ensures t.marked == if r.Pass? && partialStateSaving then old(t.marked) + MarkedIfNotMarkedFrom(t, t.root, |t.nodes|)
                        else old(t.marked)
  {
    var tracking, building := sc.trackViewModifications, ctx.buildingInitialState;
    steps := [Step(Apply, tracking, building)];
    r, trace := Pass, [];
    if applyFails {
      r := Fail(ApplyFailed);
      assert steps + [] + [] == steps;
    } else {
      r, steps, trace := ReplayThenMark(ctx, t, sc, partialStateSaving, steps);
    }
  }

  /** A rebuild after `apply` returned: replay, then under partial state saving the marking pass. */
  method ReplayThenMark(ctx: ViewContext, t: Tree, sc: StateContext, partialStateSaving: bool, before: seq<Step>)
    returns (r: Outcome<BuildError>, steps: seq<Step>, ghost trace: seq<Snapshot>)
    requires !sc.trackViewModifications && t.Valid() && Remembered(sc.dynamicComponents, t.nodes)
    modifies sc`dynamicComponents
    modifies t`children, t`facets, t`parent, t`attributes, t`localId, t`marked
    ensures t.Valid() && Remembered(sc.dynamicComponents, t.nodes)
    ensures !sc.trackViewModifications
    ensures ReplayEnded(old(Snap(t, sc)), Snap(t, sc), sc.dynamicActions, trace, r)
    ensures steps == before + [Step(Replay, false, ctx.buildingInitialState)]
                     + (if r.Pass? && partialStateSaving then [Step(MarkIfNotMarked, false, ctx.buildingInitialState)] else [])
    ensures t.marked == if r.Pass? && partialStateSaving then old(t.marked) + MarkedIfNotMarkedFrom(t, t.root, |t.nodes|)
                        else old(t.marked)
  {
    var tracking, building := sc.trackViewModifications, ctx.buildingInitialState;
    ghost var marked := t.marked;
    r, trace := RunReplay(t, sc);
    assert t.marked == marked && !sc.trackViewModifications;
    var marking := r.Pass? && partialStateSaving;
    steps := before + [Step(Replay, tracking, building)] + (if marking then [Step(MarkIfNotMarked, tracking, building)] else []);
    if marking {
      MarkReplayed(t, sc);
    }
  }

  /** The if-not-marked marking after a replay: only the marks change. */
  method MarkReplayed(t: Tree, sc: StateContext)
    requires t.Valid()
    modifies t`marked
    ensures t.Valid()
    ensures Snap(t, sc) == old(Snap(t, sc))
    ensures t.marked == old(t.marked) + MarkedIfNotMarkedFrom(t, t.root, |t.nodes|)
  {
    MarkViewIfNotMarked(t);
  }

  /** The first-build branch of `buildView`: populate the view, then mark its initial state and record it as populated. */
  method BuildFirst(ctx: ViewContext, t: Tree, sc: StateContext, partialStateSaving: bool, applyFails: bool)
    returns (r: Outcome<BuildError>, steps: seq<Step>, ghost trace: seq<Snapshot>)
    requires !ctx.viewPopulated && t.Valid() && Remembered(sc.dynamicComponents, t.nodes)
    modifies ctx, sc`trackViewModifications, sc`dynamicComponents
    modifies t`children, t`facets, t`parent, t`attributes, t`localId, t`marked
    ensures t.Valid() && Remembered(sc.dynamicComponents, t.nodes)
    ensures BuiltFirst(ctx, t, sc, partialStateSaving, applyFails, r, steps, trace)
  {
    ghost var marked := t.marked;
    r, steps, trace := PopulateView(ctx, t, sc, partialStateSaving, applyFails);
    ghost var s1 := Snap(t, sc);
    if r.Fail? {
      return;
    }
    assert t.marked == marked;
    label Populated:
    var marks := FinishFirstBuild(ctx, t, sc, partialStateSaving);
    steps := steps + marks;
    assert unchanged@Populated(sc);
    assert Remembered(sc.dynamicComponents, t.nodes);
    assert Snap(t, sc) == s1;
  }

  /**
   * The `try` block of a first build: apply with `IS_BUILDING_INITIAL_STATE`
   * set and tracking off, replay without partial state saving, then start
   * tracking; the `finally` removes the attribute.
   */
  method PopulateView(ctx: ViewContext, t: Tree, sc: StateContext, partialStateSaving: bool, applyFails: bool)
    returns (r: Outcome<BuildError>, steps: seq<Step>, ghost trace: seq<Snapshot>)
    requires t.Valid() && Remembered(sc.dynamicComponents, t.nodes)
    modifies ctx`buildingInitialState, sc`trackViewModifications, sc`dynamicComponents
    modifies t`children, t`facets, t`parent, t`attributes, t`localId
    ensures t.Valid() && Remembered(sc.dynamicComponents, t.nodes)
    ensures !ctx.buildingInitialState
    ensures sc.trackViewModifications <==> r.Pass?
    ensures applyFails ==> r == Fail(ApplyFailed)
    ensures !applyFails ==> r.Pass? || (r.error.ReplayFailed? && !partialStateSaving)
    ensures !applyFails && !partialStateSaving ==> ReplayEnded(old(Snap(t, sc)), Snap(t, sc), sc.dynamicActions, trace, r)
    ensures steps == [Step(Apply, false, true)]
                     + (if !applyFails && !partialStateSaving then [Step(Replay, false, true)] else [])
    ensures applyFails || partialStateSaving ==>
              unchanged(t`children, t`facets, t`parent, t`attributes, t`localId, sc`dynamicComponents)
  {
    ctx.buildingInitialState := true;
    sc.trackViewModifications := false;
    steps := [Step(Apply, sc.trackViewModifications, ctx.buildingInitialState)];
    r, trace := Pass, [];
    if applyFails {
      r := Fail(ApplyFailed);
    } else {
      if !partialStateSaving {
        steps := steps + [Step(Replay, sc.trackViewModifications, ctx.buildingInitialState)];
        ghost var s0 := Snap(t, sc);
        assert s0 == old(Snap(t, sc));
        r, trace := RunReplay(t, sc);
        ghost var s1 := Snap(t, sc);
        assert ReplayEnded(s0, s1, sc.dynamicActions, trace, r);
        if r.Pass? {
          sc.trackViewModifications := true;
        }
        ctx.buildingInitialState := false;
        assert Snap(t, sc) == s1;
        return;
      }
      sc.trackViewModifications := true;
    }
    ctx.buildingInitialState := false;
  }

  /** The replay step of a build: `reapplyDynamicActions`, an exception it raises ending the build. */
  method RunReplay(t: Tree, sc: StateContext) returns (r: Outcome<BuildError>, ghost trace: seq<Snapshot>)
    requires t.Valid() && Remembered(sc.dynamicComponents, t.nodes)
    modifies t`children, t`facets, t`parent, t`attributes, t`localId, sc`dynamicComponents
    ensures t.Valid() && Remembered(sc.dynamicComponents, t.nodes)
    ensures ReplayEnded(old(Snap(t, sc)), Snap(t, sc), sc.dynamicActions, trace, r)
  {
    var applied, replayed;
    applied, replayed, trace := ReapplyDynamicActions(t, sc);
    r := Pass;
    if replayed.Fail? {
      r := Fail(ReplayFailed(replayed.error));
    }
    assert (if r.Pass? then Pass else Fail(r.error.cause)) == replayed;
    assert ActionsReplayed(old(Snap(t, sc)), Snap(t, sc), sc.dynamicActions, trace, replayed);
  }

  /** After the `try` block of a first build: `markInitialState(ctx, root)`, then the view is recorded as populated. */
  method FinishFirstBuild(ctx: ViewContext, t: Tree, sc: StateContext, partialStateSaving: bool)
    returns (steps: seq<Step>)
    requires t.Valid()
    modifies ctx, t`marked
    ensures t.Valid()
    ensures ctx.viewPopulated
    ensures unchanged(t`children, t`facets, t`parent, t`attributes, t`localId)
    ensures Snap(t, sc) == old(Snap(t, sc))
    ensures ctx.buildingInitialState == (old(ctx.buildingInitialState) && !partialStateSaving)
    ensures var marking := partialStateSaving && t.root !in t.transient;
            && steps == (if marking then [Step(MarkInitial, sc.trackViewModifications, true)] else [])
            && t.marked == (if marking then old(t.marked) + MarkedFrom(t, t.root, |t.nodes|) else old(t.marked))
  {
    steps := MarkRootInitialState(ctx, t, sc, partialStateSaving);
    label Marked:
    ctx.viewPopulated := true;
    MarksFramed@Marked(t);
  }

  /**
   * `markInitialState(ctx, root)`: under partial state saving, set
   * `IS_BUILDING_INITIAL_STATE`, mark the tree from a non-transient root, and
   * remove the attribute again.
   */
  method MarkRootInitialState(ctx: ViewContext, t: Tree, sc: StateContext, partialStateSaving: bool)
    returns (steps: seq<Step>)
    requires t.Valid()
    modifies ctx`buildingInitialState, t`marked
    ensures t.Valid()
    ensures unchanged(t`children, t`facets, t`parent, t`attributes, t`localId)
    ensures ctx.buildingInitialState == (old(ctx.buildingInitialState) && !partialStateSaving)
    ensures var marking := partialStateSaving && t.root !in t.transient;
            && steps == (if marking then [Step(MarkInitial, sc.trackViewModifications, true)] else [])
            && t.marked == (if marking then old(t.marked) + MarkedFrom(t, t.root, |t.nodes|) else old(t.marked))
  {
    steps := [];
    if partialStateSaving {
      ctx.buildingInitialState := true;
      if t.root !in t.transient {
        steps := [Step(MarkInitial, sc.trackViewModifications, ctx.buildingInitialState)];
        MarkView(t);
      }
      label Marked:
      ctx.buildingInitialState := false;
      MarksFramed@Marked(t);
    }
  }

  /** Writing the flags leaves the tree, and so the nodes either marking pass reaches, as they were. */
  twostate lemma MarksFramed(t: Tree)
    requires unchanged(t)
    ensures t.marked == old(t.marked)
    ensures MarkedFrom(t, t.root, |t.nodes|) == old(MarkedFrom(t, t.root, |t.nodes|))
    ensures MarkedIfNotMarkedFrom(t, t.root, |t.nodes|) == old(MarkedIfNotMarkedFrom(t, t.root, |t.nodes|))
  {
  }

  /** `markInitialState(root)` on a valid tree: the root's non-transient subtree is marked, nothing else. */
  method MarkView(t: Tree)
    requires t.Valid()
    modifies t`marked
    ensures t.Valid()
    ensures t.marked == old(t.marked) + MarkedFrom(t, t.root, |t.nodes|)
  {
    t.ValidClosed();
    MarkInitialState(t, t.root, |t.nodes|);
    MarkedExactly(t, old(t.marked), t.root, |t.nodes|);
  }

  /** `markInitialStateIfNotMarked(view)` on a valid tree: exactly the nodes it visits are added to the marked ones. */
  method MarkViewIfNotMarked(t: Tree)
    requires t.Valid()
    modifies t`marked
    ensures t.Valid()
    ensures t.marked == old(t.marked) + MarkedIfNotMarkedFrom(t, t.root, |t.nodes|)
  {
    t.ValidClosed();
    MarkInitialStateIfNotMarked(t, t.root, |t.nodes|);
    IfNotMarkedExactly(t, old(t.marked), t.root, |t.nodes|);
  }
}
