/**
 * `retargetAttachedObjects` and `retargetHandler`: the attached-object
 * handlers a page author nests inside a composite component (listeners,
 * validators, converters, behaviours) are matched against the attached-object
 * targets the composite's author declared, and applied to each component the
 * matching target names. A target component that is itself a composite keeps
 * the handler in its own list and has that whole list retargeted in turn.
 *
 * The page is fixed: which components are composites, each composite's
 * declared target list, and a nesting level per component (an inner
 * composite lies strictly inside the one that names it as a target, so its
 * level is lower). What changes is the handler list stored on each composite,
 * the log of handlers applied to plain components, and whether the run broke
 * off.
 */
module RetargetAttached {

  import opened Wrappers
  import opened JavaStrings

  type ComponentId = nat

  /** The four handler and target families; an editable value holder is also a value holder. */
  datatype Kind = ActionSource | EditableValueHolder | ValueHolder | BehaviorHolder

  /** An `AttachedObjectHandler`: its family, its "for" name, and for a behaviour its event name. */
  datatype Handler = Handler(kind: Kind, forName: String, eventName: Option<String>)

  /** An `AttachedObjectTarget`: its family, its name, whether it is the default event, and the components it names. */
  datatype Target = Target(kind: Kind, name: String, isDefaultEvent: bool, components: seq<ComponentId>)

  /** `applyAttachedObject` of a handler on a component that is not a composite. */
  datatype Application = Application(handler: Handler, component: ComponentId)

  /**
   * The fixed page: which components are composites, the attached-object
   * target list of each composite that has bean info (`None` when its bean
   * descriptor carries no list), and each component's nesting level.
   */
  datatype Page = Page(composites: set<ComponentId>, targetLists: map<ComponentId, Option<seq<Target>>>, levels: map<ComponentId, nat>)

  /** What the run changes: each composite's stored handlers, the applications made, and the composite whose missing target list broke the run off. */
  datatype Attachments = Attachments(attached: map<ComponentId, seq<Handler>>, applied: seq<Application>, failure: Option<ComponentId>)

  function Level(p: Page, c: ComponentId): nat {
    if c in p.levels then p.levels[c] else 0
  }

  /** Every composite the targets `ts` of composite `c` name lies deeper than `c`. */
  predicate Under(p: Page, c: ComponentId, ts: seq<Target>) {
    forall i, x :: 0 <= i < |ts| && x in ts[i].components && x in p.composites ==> Level(p, x) < Level(p, c)
  }

  /** A page in which targets only ever name deeper composites. */
  predicate ValidPage(p: Page) {
    forall c :: c in p.targetLists && p.targetLists[c].Some? ==> Under(p, c, p.targetLists[c].value)
  }

  /** The handler list stored on a composite; an absent one is created empty. */
  function Stored(a: Attachments, x: ComponentId): seq<Handler> {
    if x in a.attached then a.attached[x] else []
  }

  predicate IsValueHolder(k: Kind) {
    k == EditableValueHolder || k == ValueHolder
  }

  /** The handler and target families that meet in one of the four branches. */
  predicate Compatible(h: Kind, t: Kind) {
    (h == ActionSource && t == ActionSource) || (IsValueHolder(h) && IsValueHolder(t)) || (h == BehaviorHolder && t == BehaviorHolder)
  }

  /** A behaviour handler matches its event name, or the default event when it has none; any other handler matches its "for" name. */
  predicate Named(h: Handler, t: Target) {
    if h.kind == BehaviorHolder then
      (h.eventName.Some? && h.eventName.value == t.name) || (h.eventName.None? && t.isDefaultEvent)
    else h.forName == t.name
  }

  predicate Matches(h: Handler, t: Target) {
    Compatible(h.kind, t.kind) && Named(h, t)
  }

  // ---------------------------------------------------------------- the run

  /** `retargetAttachedObjects` on composite `c` with the handlers `hs`. */
  function RunAttached(p: Page, a: Attachments, c: ComponentId, hs: seq<Handler>): Attachments
    requires ValidPage(p)
    decreases Level(p, c), 3, 0, 0
  {
    if hs == [] || c !in p.targetLists then a
    else
      match p.targetLists[c]
      case None => a.(failure := Some(c))
      case Some(ts) => RunHandlers(p, a, c, ts, hs)
  }

  /** The loop over the handlers. */
  function RunHandlers(p: Page, a: Attachments, c: ComponentId, ts: seq<Target>, hs: seq<Handler>): Attachments
    requires ValidPage(p) && Under(p, c, ts)
    decreases Level(p, c), 2, |hs|, 0
  {
    if hs == [] || a.failure.Some? then a
    else RunHandlers(p, RunTargets(p, a, c, hs[0], ts), c, ts, hs[1..])
  }

  /** The loop over the targets for one handler; a match other than a behaviour's ends it. */
  function RunTargets(p: Page, a: Attachments, c: ComponentId, h: Handler, ts: seq<Target>): Attachments
    requires ValidPage(p) && Under(p, c, ts)
    decreases Level(p, c), 1, |ts|, 0
  {
    if ts == [] || a.failure.Some? then a
    else if Matches(h, ts[0]) then
      var next := RunComponents(p, a, c, h, ts[0].components);
      if h.kind == BehaviorHolder then RunTargets(p, next, c, h, ts[1..]) else next
    else RunTargets(p, a, c, h, ts[1..])
  }

  /** The loop over a matching target's components. */
  function RunComponents(p: Page, a: Attachments, c: ComponentId, h: Handler, xs: seq<ComponentId>): Attachments
    requires ValidPage(p) && forall x :: x in xs && x in p.composites ==> Level(p, x) < Level(p, c)
    decreases Level(p, c), 0, 0, |xs|
  {
    if xs == [] || a.failure.Some? then a
    else RunComponents(p, RunHandler(p, a, c, h, xs[0]), c, h, xs[1..])
  }

  /** `retargetHandler`: a composite keeps the handler and retargets its whole list; any other component gets it applied. */
  function RunHandler(p: Page, a: Attachments, c: ComponentId, h: Handler, x: ComponentId): Attachments
    requires ValidPage(p) && (x in p.composites ==> Level(p, x) < Level(p, c))
    decreases Level(p, c), 0, 0, 0
  {
    if x in p.composites then
      var handlers := Stored(a, x) + [h];
      RunAttached(p, a.(attached := a.attached[x := handlers]), x, handlers)
    else a.(applied := a.applied + [Application(h, x)])
  }

  // ---------------------------------------------------------------- the plan

  /** The targets a handler matches, in order. */
  function Matching(h: Handler, ts: seq<Target>): (r: seq<Target>)
    ensures forall i :: 0 <= i < |r| ==> r[i] in ts && Matches(h, r[i])
    ensures (forall i :: 0 <= i < |ts| ==> !Matches(h, ts[i])) <==> r == []
  {
    if ts == [] then []
    else if Matches(h, ts[0]) then [ts[0]] + Matching(h, ts[1..])
    else Matching(h, ts[1..])
  }

  /** The targets a handler is applied through: the first match, or every match for a behaviour. */
  function Chosen(h: Handler, ts: seq<Target>): seq<Target> {
    var m := Matching(h, ts);
    if h.kind == BehaviorHolder || m == [] then m else [m[0]]
  }

  /** Applying `h` to each component of each target, in order. */
  function Applications(h: Handler, ts: seq<Target>): seq<Application> {
    if ts == [] then [] else Each(h, ts[0].components) + Applications(h, ts[1..])
  }

  function Each(h: Handler, xs: seq<ComponentId>): (r: seq<Application>)
    ensures |r| == |xs| && forall i :: 0 <= i < |xs| ==> r[i] == Application(h, xs[i])
  {
    seq(|xs|, i requires 0 <= i < |xs| => Application(h, xs[i]))
  }

  /** The applications of every handler, in order. */
  function Plan(hs: seq<Handler>, ts: seq<Target>): seq<Application> {
    if hs == [] then [] else Applications(hs[0], Chosen(hs[0], ts)) + Plan(hs[1..], ts)
  }

  /** No target names a composite. */
  predicate Flat(p: Page, ts: seq<Target>) {
    forall i, x :: 0 <= i < |ts| && x in ts[i].components ==> x !in p.composites
  }

  /** Components that are all plain each get the handler, in order. */
  lemma {:induction false} ComponentsFlat(p: Page, a: Attachments, c: ComponentId, h: Handler, xs: seq<ComponentId>)
    requires ValidPage(p) && a.failure.None? && forall x :: x in xs ==> x !in p.composites
    decreases |xs|
    ensures RunComponents(p, a, c, h, xs) == a.(applied := a.applied + Each(h, xs))
  {
    if xs != [] {
      var next := a.(applied := a.applied + [Application(h, xs[0])]);
      assert RunHandler(p, a, c, h, xs[0]) == next;
      assert RunComponents(p, a, c, h, xs) == RunComponents(p, next, c, h, xs[1..]);
      ComponentsFlat(p, next, c, h, xs[1..]);
      assert [Application(h, xs[0])] + Each(h, xs[1..]) == Each(h, xs);
      Assoc(a.applied, [Application(h, xs[0])], Each(h, xs[1..]));
    } else {
      assert a.applied + Each(h, xs) == a.applied;
    }
  }

  /**
   * Over targets naming no composite, the loop applies the handler to the
   * components of its first matching target, or of every matching target
   * for a behaviour, and changes nothing else.
   */
  lemma {:induction false} TargetsFlat(p: Page, a: Attachments, c: ComponentId, h: Handler, ts: seq<Target>)
    requires ValidPage(p) && Under(p, c, ts) && Flat(p, ts) && a.failure.None?
    decreases |ts|, 1
    ensures RunTargets(p, a, c, h, ts) == a.(applied := a.applied + Applications(h, Chosen(h, ts)))
  {
    if ts != [] {
      if Matches(h, ts[0]) {
        MatchedTargetsFlat(p, a, c, h, ts);
      } else {
        FlatTail(p, c, ts);
        ChosenStep(h, ts);
        assert RunTargets(p, a, c, h, ts) == RunTargets(p, a, c, h, ts[1..]);
        TargetsFlat(p, a, c, h, ts[1..]);
      }
    }
  }

  /** `TargetsFlat` when the first target matches: its components get the handler, and only a behaviour goes on. */
  lemma {:induction false} MatchedTargetsFlat(p: Page, a: Attachments, c: ComponentId, h: Handler, ts: seq<Target>)
    requires ValidPage(p) && Under(p, c, ts) && Flat(p, ts) && a.failure.None?
    requires ts != [] && Matches(h, ts[0])
    decreases |ts|, 0
    ensures RunTargets(p, a, c, h, ts) == a.(applied := a.applied + Applications(h, Chosen(h, ts)))
  {
    FlatTail(p, c, ts);
    ChosenStep(h, ts);
    ComponentsFlat(p, a, c, h, ts[0].components);
    var next := a.(applied := a.applied + Each(h, ts[0].components));
    if h.kind == BehaviorHolder {
      assert RunTargets(p, a, c, h, ts) == RunTargets(p, next, c, h, ts[1..]);
      TargetsFlat(p, next, c, h, ts[1..]);
      Assoc(a.applied, Each(h, ts[0].components), Applications(h, Chosen(h, ts[1..])));
    } else {
      assert RunTargets(p, a, c, h, ts) == next;
    }
  }

  /** How the chosen targets and their applications start. */
  lemma ChosenStep(h: Handler, ts: seq<Target>)
    requires ts != []
    ensures !Matches(h, ts[0]) ==> Chosen(h, ts) == Chosen(h, ts[1..])
    ensures Matches(h, ts[0]) && h.kind == BehaviorHolder ==>
              Applications(h, Chosen(h, ts)) == Each(h, ts[0].components) + Applications(h, Chosen(h, ts[1..]))
    ensures Matches(h, ts[0]) && h.kind != BehaviorHolder ==> Applications(h, Chosen(h, ts)) == Each(h, ts[0].components)
  {
    if Matches(h, ts[0]) {
      assert ([ts[0]] + Chosen(h, ts[1..]))[1..] == Chosen(h, ts[1..]);
      assert Applications(h, [ts[0]]) == Each(h, ts[0].components) + Applications(h, []);
    }
  }

  /** The conditions on a target list carry over to its tail, and the head names no composite. */
  lemma FlatTail(p: Page, c: ComponentId, ts: seq<Target>)
    requires Under(p, c, ts) && Flat(p, ts) && ts != []
    ensures Under(p, c, ts[1..]) && Flat(p, ts[1..])
    ensures forall x :: x in ts[0].components ==> x !in p.composites
  {
    forall i, x | 0 <= i < |ts[1..]| && x in ts[1..][i].components
      ensures x !in p.composites
    {
      assert ts[1..][i] == ts[i + 1];
    }
  }

  /**
   * For a composite whose targets name no composite, retargeting applies
   * exactly the plan: handler by handler, the components of the targets each
   * one is chosen for; no stored list changes and nothing fails.
   */
  lemma {:induction false} AttachedFlat(p: Page, a: Attachments, c: ComponentId, hs: seq<Handler>)
    requires ValidPage(p) && a.failure.None? && c in p.targetLists && p.targetLists[c].Some?
    requires Flat(p, p.targetLists[c].value)
    ensures RunAttached(p, a, c, hs) == a.(applied := a.applied + Plan(hs, p.targetLists[c].value))
  {
    HandlersFlat(p, a, c, p.targetLists[c].value, hs);
  }

  lemma {:induction false} HandlersFlat(p: Page, a: Attachments, c: ComponentId, ts: seq<Target>, hs: seq<Handler>)
    requires ValidPage(p) && Under(p, c, ts) && Flat(p, ts) && a.failure.None?
    decreases |hs|
    ensures RunHandlers(p, a, c, ts, hs) == a.(applied := a.applied + Plan(hs, ts))
  {
    if hs != [] {
      var next := a.(applied := a.applied + Applications(hs[0], Chosen(hs[0], ts)));
      TargetsFlat(p, a, c, hs[0], ts);
      assert RunHandlers(p, a, c, ts, hs) == RunHandlers(p, next, c, ts, hs[1..]);
      HandlersFlat(p, next, c, ts, hs[1..]);
      assert Plan(hs, ts) == Applications(hs[0], Chosen(hs[0], ts)) + Plan(hs[1..], ts);
      Assoc(a.applied, Applications(hs[0], Chosen(hs[0], ts)), Plan(hs[1..], ts));
    } else {
      assert a.applied + Plan(hs, ts) == a.applied;
    }
  }

  /**
   * `retargetHandler` on a composite whose targets name no composite: the
   * handler joins the composite's stored list, and that whole list is
   * applied as planned over the composite's targets.
   */
  lemma HandlerCompositeFlat(p: Page, a: Attachments, c: ComponentId, h: Handler, x: ComponentId)
    requires ValidPage(p) && a.failure.None? && x in p.composites && Level(p, x) < Level(p, c)
    requires x in p.targetLists && p.targetLists[x].Some? && Flat(p, p.targetLists[x].value)
    ensures var handlers := Stored(a, x) + [h];
            RunHandler(p, a, c, h, x)
              == a.(attached := a.attached[x := handlers],
                    applied := a.applied + Plan(handlers, p.targetLists[x].value))
  {
    var handlers := Stored(a, x) + [h];
    AttachedFlat(p, a.(attached := a.attached[x := handlers]), x, handlers);
  }

  /**
   * `retargetHandler` on a composite whose bean descriptor has no target
   * list: the handler joins the stored list and the run breaks off there.
   */
  lemma HandlerListless(p: Page, a: Attachments, c: ComponentId, h: Handler, x: ComponentId)
    requires ValidPage(p) && a.failure.None? && x in p.composites && Level(p, x) < Level(p, c)
    requires Listless(p, x)
    ensures RunHandler(p, a, c, h, x) == a.(attached := a.attached[x := Stored(a, x) + [h]], failure := Some(x))
  {
  }

  // ---------------------------------------------------------------- failures

  /** A component whose bean descriptor carries no attached-object target list. */
  predicate Listless(p: Page, x: ComponentId) {
    x in p.targetLists && p.targetLists[x].None?
  }

  /** `b` fails as `a` did, or `a` had not failed and `b` failed at a component with no target list. */
  predicate Blamed(p: Page, a: Attachments, b: Attachments) {
    b.failure == a.failure || (a.failure.None? && b.failure.Some? && Listless(p, b.failure.value))
  }

  /** A run breaks off only at a composite it reached that has no target list, and never clears a failure. */
  lemma {:induction false} AttachedBlamed(p: Page, a: Attachments, c: ComponentId, hs: seq<Handler>)
    requires ValidPage(p) && a.failure.None?
    decreases Level(p, c), 3, 0, 0
    ensures Blamed(p, a, RunAttached(p, a, c, hs))
  {
    if hs != [] && c in p.targetLists && p.targetLists[c].Some? {
      HandlersBlamed(p, a, c, p.targetLists[c].value, hs);
    }
  }

  lemma {:induction false} HandlersBlamed(p: Page, a: Attachments, c: ComponentId, ts: seq<Target>, hs: seq<Handler>)
    requires ValidPage(p) && Under(p, c, ts)
    decreases Level(p, c), 2, |hs|, 0
    ensures Blamed(p, a, RunHandlers(p, a, c, ts, hs))
  {
    if hs != [] && a.failure.None? {
      var next := RunTargets(p, a, c, hs[0], ts);
      TargetsBlamed(p, a, c, hs[0], ts);
      HandlersBlamed(p, next, c, ts, hs[1..]);
    }
  }

  lemma {:induction false} TargetsBlamed(p: Page, a: Attachments, c: ComponentId, h: Handler, ts: seq<Target>)
    requires ValidPage(p) && Under(p, c, ts)
    decreases Level(p, c), 1, |ts|, 0
    ensures Blamed(p, a, RunTargets(p, a, c, h, ts))
  {
    if ts != [] && a.failure.None? {
      assert Under(p, c, ts[1..]) by {
        forall i, x | 0 <= i < |ts[1..]| && x in ts[1..][i].components && x in p.composites
          ensures Level(p, x) < Level(p, c)
        {
          assert ts[1..][i] == ts[i + 1];
        }
      }
      if Matches(h, ts[0]) {
        var next := RunComponents(p, a, c, h, ts[0].components);
        ComponentsBlamed(p, a, c, h, ts[0].components);
        if h.kind == BehaviorHolder {
          TargetsBlamed(p, next, c, h, ts[1..]);
        }
      } else {
        TargetsBlamed(p, a, c, h, ts[1..]);
      }
    }
  }

  lemma {:induction false} ComponentsBlamed(p: Page, a: Attachments, c: ComponentId, h: Handler, xs: seq<ComponentId>)
    requires ValidPage(p) && forall x :: x in xs && x in p.composites ==> Level(p, x) < Level(p, c)
    decreases Level(p, c), 0, 0, |xs|
    ensures Blamed(p, a, RunComponents(p, a, c, h, xs))
  {
    if xs != [] && a.failure.None? {
      var next := RunHandler(p, a, c, h, xs[0]);
      HandlerBlamed(p, a, c, h, xs[0]);
      ComponentsBlamed(p, next, c, h, xs[1..]);
    }
  }

  lemma {:induction false} HandlerBlamed(p: Page, a: Attachments, c: ComponentId, h: Handler, x: ComponentId)
    requires ValidPage(p) && a.failure.None? && (x in p.composites ==> Level(p, x) < Level(p, c))
    decreases Level(p, c), 0, 0, 0
    ensures Blamed(p, a, RunHandler(p, a, c, h, x))
  {
    if x in p.composites {
      var handlers := Stored(a, x) + [h];
      AttachedBlamed(p, a.(attached := a.attached[x := handlers]), x, handlers);
    }
  }

  lemma Assoc(x: seq<Application>, y: seq<Application>, z: seq<Application>)
    ensures (x + y) + z == x + (y + z)
  {
  }

  /** A handler other than a behaviour's goes through at most one target, the first it matches. */
  lemma ChosenIsFirst(h: Handler, ts: seq<Target>, j: nat)
    requires h.kind != BehaviorHolder && j < |ts| && Matches(h, ts[j]) && forall i :: 0 <= i < j ==> !Matches(h, ts[i])
    ensures Chosen(h, ts) == [ts[j]]
  {
    FirstMatch(h, ts, j);
  }

  lemma {:induction false} FirstMatch(h: Handler, ts: seq<Target>, j: nat)
    requires j < |ts| && Matches(h, ts[j]) && forall i :: 0 <= i < j ==> !Matches(h, ts[i])
    decreases j
    ensures Matching(h, ts) != [] && Matching(h, ts)[0] == ts[j]
  {
    if j > 0 {
      FirstMatch(h, ts[1..], j - 1);
    }
  }

  // ---------------------------------------------------------------- the strategy

  /** The handler lists stored on composites, and what was applied where. */
  class AttachedObjects {
    const page: Page
    var attached: map<ComponentId, seq<Handler>>
    var applied: seq<Application>
    var failure: Option<ComponentId>

    function Current(): Attachments
      reads this
    {
      Attachments(attached, applied, failure)
    }

    constructor(page: Page, attached: map<ComponentId, seq<Handler>>)
      ensures this.page == page && this.attached == attached && applied == [] && failure == None
    {
      this.page := page;
      this.attached := attached;
      applied := [];
      failure := None;
    }

    /** `retargetAttachedObjects`. */
    method RetargetAttachedObjects(c: ComponentId, handlers: seq<Handler>)
      requires ValidPage(page) && failure.None?
      modifies this`attached, this`applied, this`failure
      decreases Level(page, c), 2
      ensures Current() == RunAttached(page, old(Current()), c, handlers)
    {
      if |handlers| == 0 || c !in page.targetLists {
        return;
      }
      if page.targetLists[c].None? {
        failure := Some(c);
        return;
      }
      var targetList := page.targetLists[c].value;
      ghost var goal := RunAttached(page, old(Current()), c, handlers);
      var i := 0;
      while i < |handlers|
        invariant 0 <= i <= |handlers| && failure.None?
        invariant RunHandlers(page, Current(), c, targetList, handlers[i..]) == goal
      {
        var h := handlers[i];
        assert handlers[i..][1..] == handlers[i + 1..];
        var j := 0;
        while j < |targetList|
          invariant 0 <= j <= |targetList| && failure.None?
          invariant RunHandlers(page, RunTargets(page, Current(), c, h, targetList[j..]), c, targetList, handlers[i + 1..]) == goal
        {
          var t := targetList[j];
          assert targetList[j..][1..] == targetList[j + 1..];
          assert Under(page, c, targetList[j..]);
          assert forall x :: x in t.components && x in page.composites ==> Level(page, x) < Level(page, c) by {
            assert t == targetList[j..][0];
          }
          if h.kind == ActionSource && t.kind == ActionSource {
            if h.forName == t.name {
              RetargetComponents(c, h, t.components);
              break;
            }
          } else if h.kind == EditableValueHolder && t.kind == EditableValueHolder {
            if h.forName == t.name {
              RetargetComponents(c, h, t.components);
              break;
            }
          } else if IsValueHolder(h.kind) && IsValueHolder(t.kind) {
            if h.forName == t.name {
              RetargetComponents(c, h, t.components);
              break;
            }
          } else if h.kind == BehaviorHolder && t.kind == BehaviorHolder {
            if (h.eventName.Some? && h.eventName.value == t.name) || (h.eventName.None? && t.isDefaultEvent) {
              RetargetComponents(c, h, t.components);
              if failure.Some? {
                return;
              }
            }
          }
          j := j + 1;
        }
        if failure.Some? {
          return;
        }
        i := i + 1;
      }
    }

    /** The loop over a matching target's components. */
    method RetargetComponents(c: ComponentId, h: Handler, xs: seq<ComponentId>)
      requires ValidPage(page) && failure.None? && forall x :: x in xs && x in page.composites ==> Level(page, x) < Level(page, c)
      modifies this`attached, this`applied, this`failure
      decreases Level(page, c), 1
      ensures Current() == RunComponents(page, old(Current()), c, h, xs)
    {
      var k := 0;
      while k < |xs|
        invariant 0 <= k <= |xs| && failure.None?
        invariant RunComponents(page, Current(), c, h, xs[k..]) == RunComponents(page, old(Current()), c, h, xs)
      {
        assert xs[k..][1..] == xs[k + 1..];
        RetargetHandler(c, h, xs[k]);
        if failure.Some? {
          return;
        }
        k := k + 1;
      }
    }

    /** `retargetHandler`. */
    method RetargetHandler(c: ComponentId, h: Handler, x: ComponentId)
      requires ValidPage(page) && failure.None? && (x in page.composites ==> Level(page, x) < Level(page, c))
      modifies this`attached, this`applied, this`failure
      decreases Level(page, c), 0
      ensures Current() == RunHandler(page, old(Current()), c, h, x)
    {
      if x in page.composites {
        var handlers := Stored(Current(), x) + [h];
        attached := attached[x := handlers];
        RetargetAttachedObjects(x, handlers);
      } else {
        applied := applied + [Application(h, x)];
      }
    }
  }
}
