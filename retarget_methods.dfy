/**
 * `retargetMethodExpressions`: for each attribute of a composite component
 * that can carry a method expression, find the consumer's value, pick the
 * retarget handler and the component(s) it applies to, let the handler bind
 * the method expression, and clear the value expression it came from.
 *
 * The handlers' effects on components (setting an action expression, adding
 * a listener or validator, storing a method expression as an attribute) are
 * recorded, in order, as `Binding`s. Creating the method expression itself is
 * expression-language work outside this model: a binding records the
 * expression text and, for the arbitrary handler, the parsed signature.
 */
module RetargetMethods {
  import opened Wrappers
  import opened JavaStrings
  import opened MethodSignature
  import opened MethodMetadata

  /** The four typed handlers of the registry, and the default handler for any other name. */
  datatype HandlerKind =
    | ActionHandler
    | ActionListenerHandler
    | ValidatorHandler
    | ValueChangeListenerHandler
    | ArbitraryHandler

  /** A handler's `getAttribute`: the name it is registered under; the default handler has none. */
  function HandlerAttribute(k: HandlerKind): Option<String> {
    match k
    case ActionHandler => Some(Action)
    case ActionListenerHandler => Some(ActionListener)
    case ValidatorHandler => Some(Validator)
    case ValueChangeListenerHandler => Some(ValueChangeListener)
    case ArbitraryHandler => None
  }

  /** `getRetargetHandler`: the registry, each typed handler keyed by its own attribute name. */
  function RegisteredHandler(attrName: String): (r: Option<HandlerKind>)
    ensures r.Some? <==> IsSpecialAttributeName(attrName)
    ensures r.Some? ==> HandlerAttribute(r.value) == Some(attrName)
  {
    if attrName == Action then Some(ActionHandler)
    else if attrName == ActionListener then Some(ActionListenerHandler)
    else if attrName == Validator then Some(ValidatorHandler)
    else if attrName == ValueChangeListener then Some(ValueChangeListenerHandler)
    else None
  }

  /** The component a handler works on: the composite itself, or an inner component found by id. */
  datatype Component = TopLevel | Inner(id: String)

  /** What a handler leaves on a component. */
  datatype Binding =
    | Installed(handler: HandlerKind, target: Component, expression: String)              // action expression, action listener, validator, value-change listener
    | Stored(target: Component, name: String, expression: String, signature: Signature)  // the arbitrary handler's attribute

  /** How retargeting fails. */
  datatype RetargetError =
    | MissingRequired(attribute: String)      // no value, no default, and the attribute is required
    | TargetNotFound(targetId: String)        // an id in "targets" names no inner component
    | UnloadableReturnType(typeName: String)  // the signature's return type does not load
    | NotAnExpression(attribute: String)      // a literal where the handler casts to a value expression
    | NoMethodSignature(attribute: String)    // the arbitrary handler with no "method-signature"
    | NoTarget                                // a typed handler given no component

  /** The outcome of handler work, and the bindings it made before it ended. */
  datatype Effect = Effect(outcome: Outcome<RetargetError>, bindings: seq<Binding>)

  /** What the composite's processing reads and does not change: its attribute map, the ids of its inner components and the loadable types. */
  datatype Surroundings = Surroundings(attributes: map<String, AttributeValue>, innerIds: set<String>, types: TypeTable)

  /** What the processing changes: the composite's value expressions and the bindings made so far. */
  datatype Scope = Scope(valueExpressions: map<String, String>, bindings: seq<Binding>)

  /** The outcome of processing, and the scope it leaves. */
  datatype Run = Run(outcome: Outcome<RetargetError>, scope: Scope)

  /** `findComponent` among the inner components. */
  function FindComponent(env: Surroundings, id: String): Option<Component> {
    if id in env.innerIds then Some(Inner(id)) else None
  }

  /**
   * One handler's `retarget`. The action handler takes a literal as its own
   * expression text; the other handlers cast the value to a value expression.
   * The arbitrary handler parses the method signature and stores the method
   * expression under the attribute's own name, or binds nothing when the
   * signature has no return type or a parameter type does not load.
   */
  function Retarget(k: HandlerKind, d: Descriptor, value: AttributeValue, target: Option<Component>, types: TypeTable): (r: Effect)
    ensures |r.bindings| <= 1
    ensures r.bindings != [] ==> r.outcome.Pass? && target.Some? && r.bindings[0].target == target.value
    ensures r.outcome.Fail? ==> !r.outcome.error.MissingRequired? && !r.outcome.error.TargetNotFound?
  {
    match k
    case ActionHandler =>
      if target.None? then Effect(Fail(NoTarget), [])
      else Effect(Pass, [Installed(k, target.value, value.text)])
    case ArbitraryHandler => RetargetArbitrary(d, value, target, types)
    case _ =>
      if value.Literal? then Effect(Fail(NotAnExpression(d.name)), [])
      else if target.None? then Effect(Fail(NoTarget), [])
      else Effect(Pass, [Installed(k, target.value, value.text)])
  }

  /**
   * `ArbitraryMethodRegargetHandler.retarget`: the value must be an
   * expression and the signature present; nothing is bound when the signature
   * has no return type or a parameter type does not load.
   */
  function RetargetArbitrary(d: Descriptor, value: AttributeValue, target: Option<Component>, types: TypeTable): (r: Effect)
    ensures |r.bindings| <= 1
    ensures r.bindings != [] ==> r.outcome.Pass? && target.Some? && r.bindings[0].target == target.value
    ensures r.bindings != [] ==> r.bindings[0].Stored? && r.bindings[0].name == d.name && r.bindings[0].expression == value.text
    ensures r.bindings != [] <==> value.Expression? && d.methodSignature.Some? && target.Some? && Parsing(d.methodSignature.value, types).Parsed?
    ensures r.outcome.Fail? ==> !r.outcome.error.MissingRequired? && !r.outcome.error.TargetNotFound?
  {
    if value.Literal? then Effect(Fail(NotAnExpression(d.name)), [])
    else if d.methodSignature.None? then Effect(Fail(NoMethodSignature(d.name)), [])
    else
      match Parsing(d.methodSignature.value, types)
      case NoReturnType => Effect(Pass, [])
      case UnknownReturnType(typeName) => Effect(Fail(UnloadableReturnType(typeName)), [])
      case UnknownParameter => Effect(Pass, [])
      case Parsed(signature) =>
        if target.None? then Effect(Fail(NoTarget), [])
        else Effect(Pass, [Stored(target.value, d.name, value.text, signature)])
  }

  /**
   * The loop over explicit target ids: each id must name an inner component,
   * else processing stops there; bindings made for earlier ids stay.
   */
  function RetargetEach(k: HandlerKind, d: Descriptor, value: AttributeValue, ids: seq<String>, env: Surroundings): Effect
    decreases |ids|
  {
    if ids == [] then Effect(Pass, [])
    else if ids[0] !in env.innerIds then Effect(Fail(TargetNotFound(ids[0])), [])
    else
      var first := Retarget(k, d, value, Some(Inner(ids[0])), env.types);
      if first.outcome.Fail? then first
      else
        var rest := RetargetEach(k, d, value, ids[1..], env);
        Effect(rest.outcome, first.bindings + rest.bindings)
  }

  /** The consumer's value: the composite's value expression, else its attribute, else the author's default. */
  function ConsumerValue(valueExpressions: map<String, String>, env: Surroundings, d: Descriptor): Option<AttributeValue> {
    if d.name in valueExpressions then Some(Expression(valueExpressions[d.name]))
    else if d.name in env.attributes then Some(env.attributes[d.name])
    else d.default
  }

  /** The name the value is retargeted under: the target attribute name when there is one. */
  function RetargetedName(d: Descriptor): String {
    d.targetAttributeName.GetOr(d.name)
  }

  /**
   * The handler choice. With explicit targets the registry handler for the
   * retargeted name applies to each of them, or, with none registered, the
   * default handler to the composite itself. Without targets a registry
   * handler is looked up only under a target attribute name, and applies to
   * the inner component found by the attribute's own name.
   */
  function Dispatch(d: Descriptor, value: AttributeValue, env: Surroundings): Effect {
    var name := RetargetedName(d);
    match Targets(d)
    case Some(ids) =>
      (match RegisteredHandler(name)
       case Some(k) => RetargetEach(k, d, value, ids, env)
       case None => Retarget(ArbitraryHandler, d, value, Some(TopLevel), env.types))
    case None =>
      var handler := if d.targetAttributeName.Some? then RegisteredHandler(name) else None;
      match handler
      case Some(k) => Retarget(k, d, value, FindComponent(env, d.name), env.types)
      case None => Retarget(ArbitraryHandler, d, value, Some(TopLevel), env.types)
  }

  /**
   * One iteration of the loop: without a value a required attribute fails and
   * an optional one is passed over; otherwise the chosen handlers run and, if
   * they succeed, the value expression under the retargeted name is cleared.
   */
  function RetargetAttribute(s: Scope, d: Descriptor, env: Surroundings): Run {
    match ConsumerValue(s.valueExpressions, env, d)
    case None =>
      if d.required then Run(Fail(MissingRequired(d.name)), s) else Run(Pass, s)
    case Some(value) =>
      var e := Dispatch(d, value, env);
      var bindings := s.bindings + e.bindings;
      if e.outcome.Fail? then Run(e.outcome, Scope(s.valueExpressions, bindings))
      else Run(Pass, Scope(s.valueExpressions - {RetargetedName(d)}, bindings))
  }

  /** The whole loop, stopping at the first failure. */
  function RetargetAll(s: Scope, ms: seq<Descriptor>, env: Surroundings): Run
    decreases |ms|
  {
    if ms == [] then Run(Pass, s)
    else
      var first := RetargetAttribute(s, ms[0], env);
      if first.outcome.Fail? then first else RetargetAll(first.scope, ms[1..], env)
  }

  /** `retargetMethodExpressions`: nothing without bean info, else the loop over the method attributes. */
  function RetargetMethods(s: Scope, beanInfo: Option<seq<Descriptor>>, env: Surroundings): Run {
    match beanInfo
    case None => Run(Pass, s)
    case Some(ds) => RetargetAll(s, MethodAttributes(ds), env)
  }

  // ---------------------------------------------------------------- properties

  /** The installations a typed handler makes for each id in turn. */
  function Installs(k: HandlerKind, ids: seq<String>, text: String): (r: seq<Binding>)
    ensures |r| == |ids|
  {
    seq(|ids|, i requires 0 <= i < |ids| => Installed(k, Inner(ids[i]), text))
  }

  /** A typed handler that accepts the value whenever it has a component. */
  predicate Accepts(k: HandlerKind, value: AttributeValue) {
    k != ArbitraryHandler && (k == ActionHandler || value.Expression?)
  }

  /**
   * With explicit targets, every id up to the first one that names no inner
   * component is bound, in order; that id is the error, and with none
   * missing the loop succeeds.
   */
  lemma {:induction false} RetargetEachUpTo(k: HandlerKind, d: Descriptor, value: AttributeValue, ids: seq<String>, env: Surroundings, j: nat)
    requires Accepts(k, value)
    requires j <= |ids| && forall i :: 0 <= i < j ==> ids[i] in env.innerIds
    requires j < |ids| ==> ids[j] !in env.innerIds
    decreases |ids|
    ensures RetargetEach(k, d, value, ids, env)
            == Effect(if j < |ids| then Fail(TargetNotFound(ids[j])) else Pass, Installs(k, ids[..j], value.text))
  {
    if ids != [] && j > 0 {
      RetargetEachUpTo(k, d, value, ids[1..], env, j - 1);
      assert [Installed(k, Inner(ids[0]), value.text)] + Installs(k, ids[1..][..j - 1], value.text) == Installs(k, ids[..j], value.text);
    }
  }

  /** Everything bound through explicit targets is bound on one of those targets. */
  lemma {:induction false} RetargetEachOnTargets(k: HandlerKind, d: Descriptor, value: AttributeValue, ids: seq<String>, env: Surroundings)
    decreases |ids|
    ensures forall b :: b in RetargetEach(k, d, value, ids, env).bindings ==> b.target.Inner? && b.target.id in ids
  {
    if ids != [] && ids[0] in env.innerIds {
      var first := Retarget(k, d, value, Some(Inner(ids[0])), env.types);
      if first.outcome.Pass? {
        var rest := RetargetEach(k, d, value, ids[1..], env);
        RetargetEachOnTargets(k, d, value, ids[1..], env);
        forall b | b in first.bindings + rest.bindings
          ensures b.target.Inner? && b.target.id in ids
        {
          if b in first.bindings {
            assert first.bindings == [first.bindings[0]];
          } else {
            assert b.target.id in ids[1..];
          }
        }
      }
    }
  }

  /** The handlers never report a missing attribute. */
  lemma {:induction false} RetargetEachNotMissing(k: HandlerKind, d: Descriptor, value: AttributeValue, ids: seq<String>, env: Surroundings)
    decreases |ids|
    ensures !(RetargetEach(k, d, value, ids, env).outcome.Fail? && RetargetEach(k, d, value, ids, env).outcome.error.MissingRequired?)
  {
    if ids != [] && ids[0] in env.innerIds {
      RetargetEachNotMissing(k, d, value, ids[1..], env);
    }
  }

  /**
   * An attribute fails as missing exactly when it has no value expression, no
   * attribute entry and no default, and is required; a missing optional one
   * changes nothing.
   */
  lemma MissingRequiredExactly(s: Scope, d: Descriptor, env: Surroundings)
    ensures var r := RetargetAttribute(s, d, env);
            (r.outcome.Fail? && r.outcome.error.MissingRequired?)
            <==> d.name !in s.valueExpressions && d.name !in env.attributes && d.default.None? && d.required
    ensures ConsumerValue(s.valueExpressions, env, d).None? && !d.required ==> RetargetAttribute(s, d, env) == Run(Pass, s)
  {
    var v := ConsumerValue(s.valueExpressions, env, d);
    if v.Some? {
      var name := RetargetedName(d);
      if Targets(d).Some? && RegisteredHandler(name).Some? {
        RetargetEachNotMissing(RegisteredHandler(name).value, d, v.value, Targets(d).value, env);
      }
    }
  }

  /**
   * With explicit targets and a typed handler for the retargeted name, the
   * handler binds on exactly those targets, never on the composite itself.
   */
  lemma ExplicitTargetsOnly(s: Scope, d: Descriptor, env: Surroundings)
    requires Targets(d).Some? && IsSpecialAttributeName(RetargetedName(d))
    ensures var r := RetargetAttribute(s, d, env);
            forall b :: b in r.scope.bindings[|s.bindings|..] ==> b.target.Inner? && b.target.id in Targets(d).value
  {
    var v := ConsumerValue(s.valueExpressions, env, d);
    if v.Some? {
      var e := Dispatch(d, v.value, env);
      RetargetEachOnTargets(RegisteredHandler(RetargetedName(d)).value, d, v.value, Targets(d).value, env);
      assert (s.bindings + e.bindings)[|s.bindings|..] == e.bindings;
    } else {
      assert s.bindings[|s.bindings|..] == [];
    }
  }

  /** A run only ever removes value expressions, never adds one, and keeps every earlier binding as a prefix of the new ones. */
  lemma {:induction false} RetargetAllKeeps(s: Scope, ms: seq<Descriptor>, env: Surroundings)
    decreases |ms|
    ensures var r := RetargetAll(s, ms, env);
            && |s.bindings| <= |r.scope.bindings| && r.scope.bindings[..|s.bindings|] == s.bindings
            && r.scope.valueExpressions.Keys <= s.valueExpressions.Keys
  {
    if ms != [] {
      var first := RetargetAttribute(s, ms[0], env);
      assert first.scope.bindings[..|s.bindings|] == s.bindings;
      if first.outcome.Pass? {
        RetargetAllKeeps(first.scope, ms[1..], env);
      }
    }
  }

  // ---------------------------------------------------------------- the component

  /** The top-level component of a composite: its value expressions, attribute map and inner components, and the bindings made on it or inside it. */
  class TopLevelComponent {
    var valueExpressions: map<String, String>
    const attributes: map<String, AttributeValue>
    const innerIds: set<String>
    const beanInfo: Option<seq<Descriptor>>
    var bindings: seq<Binding>

    function CurrentScope(): Scope
      reads this
    {
      Scope(valueExpressions, bindings)
    }

    function Env(types: TypeTable): Surroundings {
      Surroundings(attributes, innerIds, types)
    }

    constructor(valueExpressions: map<String, String>, attributes: map<String, AttributeValue>,
                innerIds: set<String>, beanInfo: Option<seq<Descriptor>>)
      ensures this.valueExpressions == valueExpressions && this.attributes == attributes
      ensures this.innerIds == innerIds && this.beanInfo == beanInfo && bindings == []
    {
      this.valueExpressions := valueExpressions;
      this.attributes := attributes;
      this.innerIds := innerIds;
      this.beanInfo := beanInfo;
      bindings := [];
    }

    /** A handler's `retarget`, parsing the signature step by step for the arbitrary handler. */
    method ApplyHandler(k: HandlerKind, d: Descriptor, value: AttributeValue, target: Option<Component>, types: TypeTable)
      returns (r: Outcome<RetargetError>)
      modifies this`bindings
      ensures var e := Retarget(k, d, value, target, types);
              r == e.outcome && bindings == old(bindings) + e.bindings
    {
      if k == ArbitraryHandler {
        if value.Literal? {
          return Fail(NotAnExpression(d.name));
        }
        if d.methodSignature.None? {
          return Fail(NoMethodSignature(d.name));
        }
        var parse := ParseSignature(d.methodSignature.value, types);
        match parse
        case NoReturnType => return Pass;
        case UnknownReturnType(typeName) => return Fail(UnloadableReturnType(typeName));
        case UnknownParameter => return Pass;
        case Parsed(signature) =>
          if target.None? {
            return Fail(NoTarget);
          }
          bindings := bindings + [Stored(target.value, d.name, value.text, signature)];
          return Pass;
      }
      if k != ActionHandler && value.Literal? {
        return Fail(NotAnExpression(d.name));
      }
      if target.None? {
        return Fail(NoTarget);
      }
      bindings := bindings + [Installed(k, target.value, value.text)];
      return Pass;
    }

    /** The `for` loop over explicit target ids. */
    method ApplyToTargets(k: HandlerKind, d: Descriptor, value: AttributeValue, ids: seq<String>, types: TypeTable)
      returns (r: Outcome<RetargetError>)
      modifies this`bindings
      ensures var e := RetargetEach(k, d, value, ids, Env(types));
              r == e.outcome && bindings == old(bindings) + e.bindings
    {
      var i := 0;
      while i < |ids|
        invariant 0 <= i <= |ids|
        invariant var rest := RetargetEach(k, d, value, ids[i..], Env(types));
                  var all := RetargetEach(k, d, value, ids, Env(types));
                  all.outcome == rest.outcome && old(bindings) + all.bindings == bindings + rest.bindings
      {
        assert ids[i..][1..] == ids[i + 1..];
        if ids[i] !in innerIds {
          return Fail(TargetNotFound(ids[i]));
        }
        r := ApplyHandler(k, d, value, Some(Inner(ids[i])), types);
        if r.Fail? {
          return;
        }
        i := i + 1;
      }
      return Pass;
    }

    /** One iteration of `retargetMethodExpressions`' loop. */
    method RetargetAttributeStep(d: Descriptor, types: TypeTable) returns (r: Outcome<RetargetError>)
      modifies this`valueExpressions, this`bindings
      ensures Run(r, CurrentScope()) == RetargetAttribute(old(CurrentScope()), d, Env(types))
    {
      var value := ConsumerValue(valueExpressions, Env(types), d);
      if value.None? {
        return if d.required then Fail(MissingRequired(d.name)) else Pass;
      }
      var attrName := d.name;
      if d.targetAttributeName.Some? {
        attrName := d.targetAttributeName.value;
      }
      var targets := Targets(d);
      if targets.Some? {
        var handler := RegisteredHandler(attrName);
        if handler.Some? {
          r := ApplyToTargets(handler.value, d, value.value, targets.value, types);
        } else {
          r := ApplyHandler(ArbitraryHandler, d, value.value, Some(TopLevel), types);
        }
      } else {
        var handler: Option<HandlerKind> := None;
        var target: Option<Component> := None;
        if d.targetAttributeName.Some? {
          target := FindComponent(Env(types), d.name);
          handler := RegisteredHandler(attrName);
        }
        if handler.None? {
          target := Some(TopLevel);
          handler := Some(ArbitraryHandler);
        }
        r := ApplyHandler(handler.value, d, value.value, target, types);
      }
      if r.Fail? {
        return;
      }
      valueExpressions := valueExpressions - {attrName};
    }

    /** `retargetMethodExpressions`. */
    method RetargetMethodExpressions(types: TypeTable) returns (r: Outcome<RetargetError>)
      modifies this`valueExpressions, this`bindings
      ensures Run(r, CurrentScope()) == RetargetMethods(old(CurrentScope()), beanInfo, Env(types))
    {
      if beanInfo.None? {
        return Pass;
      }
      var ms := CollectMethodAttributes(beanInfo.value);
      var i := 0;
      while i < |ms|
        invariant 0 <= i <= |ms|
        invariant RetargetAll(CurrentScope(), ms[i..], Env(types)) == RetargetMethods(old(CurrentScope()), beanInfo, Env(types))
      {
        assert ms[i..][1..] == ms[i + 1..];
        r := RetargetAttributeStep(ms[i], types);
        if r.Fail? {
          return;
        }
        i := i + 1;
      }
      return Pass;
    }
  }
}
