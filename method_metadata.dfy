/**
 * The metadata of a composite component's attributes that can carry a method
 * expression, and the iterator that walks a composite's property descriptors
 * skipping the ones that only carry values.
 *
 * A descriptor's features are value expressions in the source; here they are
 * already evaluated, with an absent feature (or one evaluating to null) as
 * `None`.
 */
module MethodMetadata {
  import opened Wrappers
  import opened JavaStrings

  const Action: String := "action"
  const ActionListener: String := "actionListener"
  const Validator: String := "validator"
  const ValueChangeListener: String := "valueChangeListener"

  /** The attribute names that have a handler of their own in the retarget registry. */
  predicate IsSpecialAttributeName(name: String) {
    name == Action || name == ActionListener || name == Validator || name == ValueChangeListener
  }

  /** A value the consumer or the author gave an attribute: a value expression or a literal. */
  datatype AttributeValue = Expression(text: String) | Literal(text: String)

  /** A `PropertyDescriptor` of a composite component attribute, its features evaluated. */
  datatype Descriptor = Descriptor(
    name: String,
    targetAttributeName: Option<String>,  // feature "targetAttributeName"
    declaresType: bool,                   // feature "type" is present
    methodSignature: Option<String>,      // feature "method-signature"
    targets: Option<String>,              // feature "targets"
    required: bool,                       // feature "required", read as a boolean
    default: Option<AttributeValue>)      // feature "default"

  /**
   * `shouldSkip`: an attribute whose name, or whose target attribute name, is
   * special is never skipped; any other is skipped when it declares a type or
   * has no method signature, i.e. when it is a value attribute.
   */
  predicate ShouldSkip(d: Descriptor): (r: bool)
    ensures IsSpecialAttributeName(d.name) ==> !r
    ensures d.targetAttributeName.Some? && IsSpecialAttributeName(d.targetAttributeName.value) ==> !r
    ensures !r && !IsSpecialAttributeName(d.name) && (d.targetAttributeName.None? || !IsSpecialAttributeName(d.targetAttributeName.value)) ==>
              d.methodSignature.Some? && !d.declaresType
    ensures d.methodSignature.Some? && !d.declaresType ==> !r
  {
    var special := IsSpecialAttributeName(d.name) || IsSpecialAttributeName(d.targetAttributeName.GetOr(""));
    !special && (d.declaresType || d.methodSignature.None?)
  }

  /** The descriptors the iterator yields, in order: those it does not skip. */
  function MethodAttributes(ds: seq<Descriptor>): seq<Descriptor> {
    if ds == [] then []
    else if ShouldSkip(ds[0]) then MethodAttributes(ds[1..])
    else [ds[0]] + MethodAttributes(ds[1..])
  }

  /** The iteration yields every descriptor that is not skipped and nothing else. */
  lemma {:induction false} MethodAttributesMembers(ds: seq<Descriptor>)
    ensures |MethodAttributes(ds)| <= |ds|
    ensures forall d :: d in MethodAttributes(ds) <==> d in ds && !ShouldSkip(d)
  {
    if ds != [] {
      MethodAttributesMembers(ds[1..]);
      assert ds == [ds[0]] + ds[1..];
    }
  }

  /** The index of the first descriptor at or after `from` that is not skipped, or `|ds|`. */
  function NextIndex(ds: seq<Descriptor>, from: nat): (r: nat)
    requires from <= |ds|
    decreases |ds| - from
    ensures from <= r <= |ds|
    ensures r < |ds| ==> !ShouldSkip(ds[r])
    ensures forall k :: from <= k < r ==> ShouldSkip(ds[k])
  {
    if from == |ds| || !ShouldSkip(ds[from]) then from else NextIndex(ds, from + 1)
  }

  /** Skipped descriptors contribute nothing: the method attributes from `from` on start at `NextIndex`. */
  lemma {:induction false} SkipToNext(ds: seq<Descriptor>, from: nat)
    requires from <= |ds|
    decreases |ds| - from
    ensures MethodAttributes(ds[from..]) == MethodAttributes(ds[NextIndex(ds, from)..])
  {
    if from < |ds| && ShouldSkip(ds[from]) {
      assert ds[from..][1..] == ds[from + 1..];
      SkipToNext(ds, from + 1);
    }
  }

  /** A descriptor that is not skipped comes first, then the attributes from the next one on. */
  lemma AttributesAt(ds: seq<Descriptor>, at: nat)
    requires at < |ds| && !ShouldSkip(ds[at])
    ensures MethodAttributes(ds[at..]) == [ds[at]] + MethodAttributes(ds[NextIndex(ds, at + 1)..])
    ensures NextIndex(ds, at + 1) == |ds| ==> MethodAttributes(ds[at..]) == [ds[at]]
  {
    assert ds[at..][1..] == ds[at + 1..];
    SkipToNext(ds, at + 1);
    assert ds[|ds|..] == [];
  }

  /** The targets list: the "targets" feature split at single spaces. */
  function Targets(d: Descriptor): (r: Option<seq<String>>)
    ensures r.Some? <==> d.targets.Some?
    ensures r.Some? ==> forall k :: 0 <= k < |r.value| ==> ' ' !in r.value[k]
  {
    match d.targets
    case None => None
    case Some(t) => Some(Split(t, ' '))
  }

  /**
   * `MethodMetadataIterator`: walks `descriptors`; `curIndex` is -1 for an
   * empty array, else the position of the next candidate.
   */
  class MethodMetadataIterator {
    const descriptors: seq<Descriptor>
    var curIndex: int

    /** The index starts at -1 only for an empty array and only ever grows. */
    predicate Valid()
      reads this
    {
      curIndex >= -1 && (|descriptors| > 0 ==> curIndex >= 0)
    }

    constructor(descriptors: seq<Descriptor>)
      ensures Valid() && this.descriptors == descriptors
      ensures curIndex == (if |descriptors| > 0 then 0 else -1)
    {
      this.descriptors := descriptors;
      curIndex := if |descriptors| > 0 then 0 else -1;
    }

    /**
     * `hasNext`: moves `curIndex` to the next descriptor that is not skipped
     * and answers whether there is one; with none left the index stays.
     */
    method HasNext() returns (b: bool)
      requires Valid()
      modifies this`curIndex
      ensures Valid()
      ensures 0 <= old(curIndex) <= |descriptors| ==>
                var next := NextIndex(descriptors, old(curIndex));
                (b <==> next < |descriptors|) && curIndex == (if b then next else old(curIndex))
      ensures old(curIndex) == -1 || old(curIndex) > |descriptors| ==> !b && curIndex == old(curIndex)
    {
      if curIndex != -1 && curIndex < |descriptors| {
        var idx := curIndex;
        while idx < |descriptors|
          invariant 0 <= curIndex == old(curIndex) <= idx <= |descriptors|
          invariant NextIndex(descriptors, curIndex) == NextIndex(descriptors, idx)
        {
          if ShouldSkip(descriptors[idx]) {
            idx := idx + 1;
          } else {
            if idx != curIndex {
              curIndex := idx;
            }
            return curIndex < |descriptors|;
          }
        }
      }
      return false;
    }

    /**
     * `next`: the descriptor at `curIndex`, and the index moves on; out of
     * range the array access fails (`None`) after the increment.
     */
    method Next() returns (d: Option<Descriptor>)
      requires Valid()
      modifies this`curIndex
      ensures Valid()
      ensures curIndex == old(curIndex) + 1
      ensures d == if 0 <= old(curIndex) < |descriptors| then Some(descriptors[old(curIndex)]) else None
    {
      d := if 0 <= curIndex < |descriptors| then Some(descriptors[curIndex]) else None;
      curIndex := curIndex + 1;
    }
  }

  /**
   * The `for` loop of `retargetMethodExpressions` over the iterator: it sees
   * exactly the descriptors that are not skipped, in their order.
   */
  method CollectMethodAttributes(ds: seq<Descriptor>) returns (ms: seq<Descriptor>)
    ensures ms == MethodAttributes(ds)
  {
    var it := new MethodMetadataIterator(ds);
    ms := [];
    if |ds| > 0 {
      assert ds[0..] == ds;
      SkipToNext(ds, 0);
      assert ds[|ds|..] == [];
    }
    var more := it.HasNext();
    while more
      invariant it.Valid() && it.descriptors == ds
      invariant more ==> 0 <= it.curIndex < |ds| && !ShouldSkip(ds[it.curIndex])
      invariant more ==> ms + MethodAttributes(ds[it.curIndex..]) == MethodAttributes(ds)
      invariant !more ==> ms == MethodAttributes(ds)
      decreases if more then |ds| - it.curIndex else -1
    {
      ghost var at := it.curIndex;
      AttributesAt(ds, at);
      ghost var rest := MethodAttributes(ds[NextIndex(ds, at + 1)..]);
      assert ms + ([ds[at]] + rest) == MethodAttributes(ds);
      var d := it.Next();
      ms := ms + [d.value];
      assert ms + rest == MethodAttributes(ds);
      more := it.HasNext();
      if more {
        assert it.curIndex == NextIndex(ds, at + 1);
      }
    }
  }
}
