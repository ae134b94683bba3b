/**
 * DeepComparison<T>.CompareObject and InvokeCompare.
 *
 * `Compare` is the specification: what one call returns and what it leaves
 * in the mismatch sink. `CompareObject` and `InvokeCompare` are the source's
 * two methods, written step by step over the properties and the lock-step
 * element walk, writing into a shared sink object, and proved to agree with
 * `Compare`.
 */
module DeepComparison {
  import opened Wrappers
  import opened Reflection

  /** The one-line mismatch description, as a record instead of a formatted string. */
  datatype Mismatch =
    | Unequal(member: string, left: Value, right: Value)            // "<name>: <v1> / <v2>" for scalars
    | OneIsNull(member: string, left: Value, right: Value)          // a complex member null on one side
    | UnequalLength(member: string, count1: Option<nat>, count2: Option<nat>)
    | ListValuesDiffer(member: string)                              // "comparable list, different value found."

  /**
   * The result of a comparison and what it wrote to `mismatchInfo.info`:
   * None when it wrote nothing.
   */
  datatype Outcome = Outcome(same: bool, info: Option<Mismatch>)

  /** The sink contents after a call that had this outcome. */
  function Recorded(before: Option<Mismatch>, o: Outcome): Option<Mismatch> {
    if o.info.Some? then o.info else before
  }

  /** What the collection rules decide before any element is compared. */
  datatype ListStep = SkipMember | Stop(same: bool, m: Mismatch) | WalkElements

  /**
   * The rules for a collection member, in source order: an absent list
   * against an absent or empty one, a count mismatch, and the SequenceEqual
   * fast path when the first item of the first list is comparable.
   */
  function CheckLists(name: string, list1: Value, list2: Value, nullEqualsEmpty: bool): (r: ListStep)
    ensures r.Stop? ==> !r.same
  {
    if list1 == Null || list2 == Null then
      var count1, count2 := |Elems(list1)|, |Elems(list2)|;
      if (list1 == Null || count1 == 0) && (list2 == Null || count2 == 0) then
        if nullEqualsEmpty then SkipMember else Stop(false, UnequalLength(name, Count(list1), Count(list2)))
      else
        var result := !((list1 == Null && count2 > 0) || (list2 == Null && count1 > 0));
        Stop(result, UnequalLength(name, Count(list1), Count(list2)))
    else if |Elems(list1)| != |Elems(list2)| then
      Stop(false, UnequalLength(name, Count(list1), Count(list2)))
    else if IsComparable(FirstOrDefault(Elems(list1))) then
      if Elems(list1) == Elems(list2) then SkipMember
      else Stop(false, ListValuesDiffer(name))
    else WalkElements
  }

  /** What CheckLists decides, case by case. */
  lemma CheckListsCases(name: string, list1: Value, list2: Value, nullEqualsEmpty: bool)
    ensures var r := CheckLists(name, list1, list2, nullEqualsEmpty);
      ((list1 == Null) != (list2 == Null) ==>
         if nullEqualsEmpty && |Elems(list1)| == 0 && |Elems(list2)| == 0 then r == SkipMember
         else r == Stop(false, UnequalLength(name, Count(list1), Count(list2)))) &&
      (list1 != Null && list2 != Null && |Elems(list1)| != |Elems(list2)| ==>
         r == Stop(false, UnequalLength(name, Some(|Elems(list1)|), Some(|Elems(list2)|)))) &&
      (list1 != Null && list2 != Null && |Elems(list1)| == |Elems(list2)| && Elems(list1) != [] &&
       IsComparable(Elems(list1)[0]) ==>
         (r == SkipMember <==> forall k :: 0 <= k < |Elems(list1)| ==> Elems(list1)[k] == Elems(list2)[k]) &&
         (r != SkipMember ==> r == Stop(false, ListValuesDiffer(name)))) &&
      (r == WalkElements <==>
         list1 != Null && list2 != Null && |Elems(list1)| == |Elems(list2)| &&
         !IsComparable(FirstOrDefault(Elems(list1))))
  {
  }

  /** `CompareObject(obj1, obj2, nullEqualsEmpty, depth, mismatchInfo)` for T = t. */
  function Compare(env: Schema, t: Ty, obj1: Value, obj2: Value, nullEqualsEmpty: bool, depth: int): (r: Outcome)
    decreases Measure(obj1, obj2), 2, 0, 0
    ensures r.same ==> r.info == None
    ensures obj1 == Null && obj2 == Null ==> r == Outcome(true, None)
    ensures !nullEqualsEmpty && (obj1 == Null) != (obj2 == Null) ==> r == Outcome(false, None)
  {
    if obj1 == Null && obj2 == Null then Outcome(true, None)
    else if !nullEqualsEmpty && (obj1 == Null || obj2 == Null) then Outcome(false, None)
    else CompareMembers(env, t, obj1, obj2, nullEqualsEmpty, depth, 0)
  }

  /**
   * A property the walk passes over whatever it holds: one declared on the
   * model base class, or one named HasErrors.
   */
  predicate Excluded(p: Prop) {
    p.onModelBase || p.name == "HasErrors"
  }

  /** How one property's pair of values is handled, tried in the source's order. */
  datatype Kind =
    | Skip                                  // excluded property, or null on both sides
    | Scalar(left: Value, right: Value)     // directly comparable, after null substitution
    | OneNull                               // complex, null on one side, null differs from empty
    | Collection                            // declared type is enumerable
    | Complex(left: Value, right: Value)    // nested object, after default substitution

  /**
   * Classifies the values val1, val2 read from property p. Comparability is a
   * property of the values (either side decides); collection-ness and the
   * substituted defaults come from the declared type.
   */
  function Classify(env: Schema, p: Prop, val1: Value, val2: Value, nullEqualsEmpty: bool): (r: Kind)
  {
    if Excluded(p) || (val1 == Null && val2 == Null) then Skip
    else if IsComparable(val1) || IsComparable(val2) then
      if nullEqualsEmpty && val1 == Null then Scalar(EmptyFor(env, p.ty), val2)
      else if nullEqualsEmpty && val2 == Null then Scalar(val1, EmptyFor(env, p.ty))
      else Scalar(val1, val2)
    else if !nullEqualsEmpty && (val1 == Null || val2 == Null) then OneNull
    else if p.ty.TList? then Collection
    else
      Complex(if nullEqualsEmpty && val1 != Null then val1 else CreateInstance(env, p.ty),
              if nullEqualsEmpty && val2 != Null then val2 else CreateInstance(env, p.ty))
  }

  /** How Classify sorts a pair of values, case by case. */
  lemma ClassifyCases(env: Schema, p: Prop, val1: Value, val2: Value, nullEqualsEmpty: bool)
    ensures var k := Classify(env, p, val1, val2, nullEqualsEmpty);
      (k == Skip <==> Excluded(p) || (val1 == Null && val2 == Null)) &&
      (k.Scalar? <==> k != Skip && (IsComparable(val1) || IsComparable(val2))) &&
      (k.Scalar? && !nullEqualsEmpty ==> k == Scalar(val1, val2)) &&
      (k.Scalar? && nullEqualsEmpty ==>
         k.left == (if val1 == Null then EmptyFor(env, p.ty) else val1) &&
         k.right == (if val1 != Null && val2 == Null then EmptyFor(env, p.ty) else val2)) &&
      (k == OneNull <==> k != Skip && !k.Scalar? && !nullEqualsEmpty && (val1 == Null || val2 == Null)) &&
      (k.Collection? || k.Complex? ==>
         (val1 != Null || val2 != Null) && !IsComparable(val1) && !IsComparable(val2) &&
         (nullEqualsEmpty || (val1 != Null && val2 != Null))) &&
      (k.Collection? <==> k != Skip && !k.Scalar? && k != OneNull && p.ty.TList?) &&
      (k.Complex? ==>
         k.left == (if nullEqualsEmpty && val1 != Null then val1 else CreateInstance(env, p.ty)) &&
         k.right == (if nullEqualsEmpty && val2 != Null then val2 else CreateInstance(env, p.ty)))
  {
  }

  /** Whether the property walk goes on after a member, or returns an outcome. */
  datatype Step = Continue | Return(o: Outcome)

  /** The property walk from the i-th property of t on. */
  function CompareMembers(env: Schema, t: Ty, obj1: Value, obj2: Value, nullEqualsEmpty: bool, depth: int, i: nat)
    : (r: Outcome)
    decreases Measure(obj1, obj2), 1, |Props(env, t)| - i, 1
    ensures r.same ==> r.info == None
  {
    if i >= |Props(env, t)| then Outcome(true, None)
    else
      match MemberStep(env, t, obj1, obj2, nullEqualsEmpty, depth, i)
      case Continue => CompareMembers(env, t, obj1, obj2, nullEqualsEmpty, depth, i + 1)
      case Return(o) => o
  }

  /**
   * One pass of the property loop: the i-th property of both objects is read
   * (an absent object reads as null), classified and compared.
   */
  function MemberStep(env: Schema, t: Ty, obj1: Value, obj2: Value, nullEqualsEmpty: bool, depth: int, i: nat)
    : (r: Step)
    requires i < |Props(env, t)|
    decreases Measure(obj1, obj2), 1, |Props(env, t)| - i, 0
    ensures r.Return? ==> !r.o.same
  {
    var p := Props(env, t)[i];
    var val1 := Read(t, obj1, i);
    var val2 := Read(t, obj2, i);
    match Classify(env, p, val1, val2, nullEqualsEmpty)
    case Skip => Continue
    case Scalar(v1, v2) =>
      if v1 != v2 then Return(Outcome(false, Some(Unequal(p.name, v1, v2)))) else Continue
    case OneNull => Return(Outcome(false, Some(OneIsNull(p.name, val1, val2))))
    case Collection => CollectionStep(env, p, val1, val2, nullEqualsEmpty, depth)
    case Complex(temp1, temp2) =>
      SubstitutesShrink(env, p.ty, obj1, obj2, val1, val2, nullEqualsEmpty);
      ComplexStep(env, p.ty, temp1, temp2, nullEqualsEmpty, depth)
  }

  /**
   * A collection member: the rules of CheckLists, then, for complex items,
   * the element walk.
   */
  function CollectionStep(env: Schema, p: Prop, list1: Value, list2: Value, nullEqualsEmpty: bool, depth: int)
    : (r: Step)
    requires p.ty.TList?
    decreases Measure(list1, list2), 3, 0, 0
    ensures r.Return? ==> !r.o.same
  {
    match CheckLists(p.name, list1, list2, nullEqualsEmpty)
    case SkipMember => Continue
    case Stop(result, m) => Return(Outcome(result, Some(m)))
    case WalkElements =>
      var o := CompareElements(env, p.ty.elem, p.ty.oneTypeArg, list1, list2, nullEqualsEmpty, depth, 0);
      if o.same then Continue else Return(o)
  }

  /**
   * A nested complex member, given the instances that stand in for it: it is
   * compared one level deeper unless the depth has run out.
   */
  function ComplexStep(env: Schema, ty: Ty, temp1: Value, temp2: Value, nullEqualsEmpty: bool, depth: int)
    : (r: Step)
    decreases Measure(temp1, temp2), 3, 0, 0
    ensures r.Return? ==> !r.o.same
    ensures depth == 0 ==> r == Continue
  {
    if depth != 0 then
      var o := Compare(env, ty, temp1, temp2, nullEqualsEmpty, depth - 1);
      if o.same then Continue else Return(o)
    else Continue
  }

  /**
   * The lock-step walk over two equally long lists of complex items, from the
   * k-th pair on. The item type is the own type of the first list's current
   * item, or the list's single generic argument when that item is null; a pair whose type cannot
   * be found that way is skipped.
   */
  function CompareElements(env: Schema, elemTy: Ty, oneTypeArg: bool, list1: Value, list2: Value,
                           nullEqualsEmpty: bool, depth: int, k: nat): (r: Outcome)
    decreases Measure(list1, list2), 0, |Elems(list1)| - k, 0
    ensures r.same ==> r.info == None
  {
    var items1, items2 := Elems(list1), Elems(list2);
    if k >= |items1| || k >= |items2| then Outcome(true, None)
    else
      var typeKnown := items1[k] != Null || oneTypeArg;
      if typeKnown && depth != 0 then
        ElemSmaller(list1, k);
        ElemSmaller(list2, k);
        var o := Compare(env, elemTy, items1[k], items2[k], nullEqualsEmpty, depth - 1);
        if !o.same then o else CompareElements(env, elemTy, oneTypeArg, list1, list2, nullEqualsEmpty, depth, k + 1)
      else CompareElements(env, elemTy, oneTypeArg, list1, list2, nullEqualsEmpty, depth, k + 1)
  }

  /**
   * A nested complex member, or the default instance standing in for it, is
   * smaller than the objects that hold it: the recursion terminates.
   */
  lemma SubstitutesShrink(env: Schema, ty: Ty, obj1: Value, obj2: Value, val1: Value, val2: Value,
                          nullEqualsEmpty: bool)
    requires val1 != Null || val2 != Null
    requires nullEqualsEmpty || (val1 != Null && val2 != Null)
    requires val1 != Null ==> (val1.List? || val1.Obj?) && Size(val1) < Size(obj1)
    requires val2 != Null ==> (val2.List? || val2.Obj?) && Size(val2) < Size(obj2)
    ensures Measure(if nullEqualsEmpty && val1 != Null then val1 else CreateInstance(env, ty),
                    if nullEqualsEmpty && val2 != Null then val2 else CreateInstance(env, ty))
            < Measure(obj1, obj2)
  {
    var d := CreateInstance(env, ty);
    assert Size(d) <= 1;
  }

  /** Compare, past its null checks, is the property walk from the first property. */
  lemma WalkStarts(env: Schema, t: Ty, obj1: Value, obj2: Value, nullEqualsEmpty: bool, depth: int)
    requires obj1 != Null || obj2 != Null
    requires nullEqualsEmpty || (obj1 != Null && obj2 != Null)
    ensures Compare(env, t, obj1, obj2, nullEqualsEmpty, depth) ==
            CompareMembers(env, t, obj1, obj2, nullEqualsEmpty, depth, 0)
  {
  }

  /** The property walk returns what the i-th property's pass returns, if it returns. */
  lemma WalkReturns(env: Schema, t: Ty, obj1: Value, obj2: Value, nullEqualsEmpty: bool, depth: int, i: nat)
    requires i < |Props(env, t)|
    requires MemberStep(env, t, obj1, obj2, nullEqualsEmpty, depth, i).Return?
    ensures CompareMembers(env, t, obj1, obj2, nullEqualsEmpty, depth, i) ==
            MemberStep(env, t, obj1, obj2, nullEqualsEmpty, depth, i).o
  {
  }

  /** The property walk goes on past a property whose pass does not return. */
  lemma WalkContinues(env: Schema, t: Ty, obj1: Value, obj2: Value, nullEqualsEmpty: bool, depth: int, i: nat)
    requires i < |Props(env, t)|
    requires MemberStep(env, t, obj1, obj2, nullEqualsEmpty, depth, i) == Continue
    ensures CompareMembers(env, t, obj1, obj2, nullEqualsEmpty, depth, i) ==
            CompareMembers(env, t, obj1, obj2, nullEqualsEmpty, depth, i + 1)
  {
  }

  /** An excluded property never stops the walk, whatever it holds. */
  lemma ExcludedPassedOver(env: Schema, t: Ty, obj1: Value, obj2: Value, nullEqualsEmpty: bool, depth: int, i: nat)
    requires i < |Props(env, t)| && Excluded(Props(env, t)[i])
    ensures MemberStep(env, t, obj1, obj2, nullEqualsEmpty, depth, i) == Continue
  {
  }

  /** The property walk past the last property finds the objects equal. */
  lemma WalkEnds(env: Schema, t: Ty, obj1: Value, obj2: Value, nullEqualsEmpty: bool, depth: int, i: nat)
    requires i >= |Props(env, t)|
    ensures CompareMembers(env, t, obj1, obj2, nullEqualsEmpty, depth, i) == Outcome(true, None)
  {
  }

  /** One pass of the property loop, for each way Classify can sort the values read. */
  lemma MemberStepByKind(env: Schema, t: Ty, obj1: Value, obj2: Value, nullEqualsEmpty: bool, depth: int, i: nat,
                         val1: Value, val2: Value)
    requires i < |Props(env, t)|
    requires val1 == Read(t, obj1, i) && val2 == Read(t, obj2, i)
    ensures var p := Props(env, t)[i];
      var k := Classify(env, p, val1, val2, nullEqualsEmpty);
      var step := MemberStep(env, t, obj1, obj2, nullEqualsEmpty, depth, i);
      (k == Skip ==> step == Continue) &&
      (k.Scalar? ==>
         step == if k.left != k.right then Return(Outcome(false, Some(Unequal(p.name, k.left, k.right)))) else Continue) &&
      (k == OneNull ==> step == Return(Outcome(false, Some(OneIsNull(p.name, val1, val2))))) &&
      (k == Collection ==>
         Measure(val1, val2) < Measure(obj1, obj2) &&
         step == CollectionStep(env, p, val1, val2, nullEqualsEmpty, depth)) &&
      (k.Complex? ==>
         Measure(k.left, k.right) < Measure(obj1, obj2) &&
         step == ComplexStep(env, p.ty, k.left, k.right, nullEqualsEmpty, depth))
  {
  }

  /** The element walk past the end of either list finds no difference. */
  lemma ElementsEnd(env: Schema, elemTy: Ty, oneTypeArg: bool, list1: Value, list2: Value,
                    nullEqualsEmpty: bool, depth: int, k: nat)
    requires k >= |Elems(list1)| || k >= |Elems(list2)|
    ensures CompareElements(env, elemTy, oneTypeArg, list1, list2, nullEqualsEmpty, depth, k) == Outcome(true, None)
  {
  }

  /** The `mismatchInfo` object every level of one comparison writes into. */
  class MismatchInfo {
    var info: Option<Mismatch>

    constructor ()
      ensures info == None
    {
      info := None;
    }
  }

  /**
   * `CompareObject(obj1, obj2, nullEqualsEmpty, depth, mismatchInfo)` with
   * T = t, with the same defaults: null equals empty, no depth limit, no
   * sink. A null sink is replaced by a fresh one, as the source does; a
   * caller's sink ends up holding whatever the comparison wrote last.
   */
  method CompareObject(env: Schema, t: Ty, obj1: Value, obj2: Value, nullEqualsEmpty: bool := true,
                       depth: int := -1, mismatchInfo: MismatchInfo? := null) returns (same: bool)
    modifies mismatchInfo
    decreases Measure(obj1, obj2), 1
    ensures same == Compare(env, t, obj1, obj2, nullEqualsEmpty, depth).same
    ensures mismatchInfo != null ==>
      mismatchInfo.info == Recorded(old(mismatchInfo.info), Compare(env, t, obj1, obj2, nullEqualsEmpty, depth))
  {
    var sink := mismatchInfo;
    if sink == null {
      sink := new MismatchInfo();
    }
    if obj1 == Null && obj2 == Null {
      return true;
    } else if !nullEqualsEmpty && (obj1 == Null || obj2 == Null) {
      return false;
    }

    WalkStarts(env, t, obj1, obj2, nullEqualsEmpty, depth);
    ghost var outcome := Compare(env, t, obj1, obj2, nullEqualsEmpty, depth);
    ghost var before := sink.info;
    var properties := Props(env, t);
    for i := 0 to |properties|
      invariant sink.info == before
      invariant outcome == CompareMembers(env, t, obj1, obj2, nullEqualsEmpty, depth, i)
    {
      var propInfo := properties[i];
      if propInfo.onModelBase {
        ExcludedPassedOver(env, t, obj1, obj2, nullEqualsEmpty, depth, i);
        WalkContinues(env, t, obj1, obj2, nullEqualsEmpty, depth, i);
        continue;
      }
      var exits, result := CompareProperty(env, t, i, obj1, obj2, nullEqualsEmpty, depth, sink);
      if exits {
        WalkReturns(env, t, obj1, obj2, nullEqualsEmpty, depth, i);
        return result;
      }
      WalkContinues(env, t, obj1, obj2, nullEqualsEmpty, depth, i);
    }
    WalkEnds(env, t, obj1, obj2, nullEqualsEmpty, depth, |properties|);
    return true;
  }

  /** Re-enters CompareObject for the discovered type t, one level deeper. */
  method InvokeCompare(env: Schema, t: Ty, obj1: Value, obj2: Value, nullEqualsEmpty: bool, depth: int,
                       mismatched: MismatchInfo) returns (same: bool)
    modifies mismatched
    decreases Measure(obj1, obj2), 2
    ensures same == Compare(env, t, obj1, obj2, nullEqualsEmpty, depth - 1).same
    ensures mismatched.info == Recorded(old(mismatched.info), Compare(env, t, obj1, obj2, nullEqualsEmpty, depth - 1))
  {
    same := CompareObject(env, t, obj1, obj2, nullEqualsEmpty, depth - 1, mismatched);
  }

  /**
   * One pass of the property loop: reads the i-th property of both objects,
   * classifies the pair and compares it. `exits` says whether CompareObject
   * returns `result` here; otherwise the loop goes on with the next property.
   */
  method CompareProperty(env: Schema, t: Ty, i: nat, obj1: Value, obj2: Value, nullEqualsEmpty: bool, depth: int,
                         sink: MismatchInfo) returns (exits: bool, result: bool)
    requires i < |Props(env, t)| && !Props(env, t)[i].onModelBase
    modifies sink
    decreases Measure(obj1, obj2), 0, 1
    ensures exits == MemberStep(env, t, obj1, obj2, nullEqualsEmpty, depth, i).Return?
    ensures exits ==> result == MemberStep(env, t, obj1, obj2, nullEqualsEmpty, depth, i).o.same
    ensures exits ==> sink.info == Recorded(old(sink.info), MemberStep(env, t, obj1, obj2, nullEqualsEmpty, depth, i).o)
    ensures !exits ==> sink.info == old(sink.info)
  {
    var propInfo := Props(env, t)[i];
    var val1 := if obj1 != Null then Read(t, obj1, i) else Null;
    var val2 := if obj2 != Null then Read(t, obj2, i) else Null;
    var comparable := IsComparable(val1) || IsComparable(val2);
    MemberStepByKind(env, t, obj1, obj2, nullEqualsEmpty, depth, i, val1, val2);
    if propInfo.name == "HasErrors" {
      return false, true;
    }

    if val1 == Null && val2 == Null {
      return false, true;
    } else if comparable {
      var scalarExits := CompareScalar(env, propInfo, val1, val2, nullEqualsEmpty, sink);
      if scalarExits {
        return true, false;
      }
    } else {
      exits, result := CompareNested(env, t, i, obj1, obj2, val1, val2, nullEqualsEmpty, depth, sink);
      return;
    }
    return false, true;
  }

  /**
   * The rest of the property pass, for a pair that is neither skipped nor
   * directly comparable: a complex member null on one side, a collection, or
   * a nested object.
   */
  method CompareNested(env: Schema, t: Ty, i: nat, obj1: Value, obj2: Value, val1: Value, val2: Value,
                       nullEqualsEmpty: bool, depth: int, sink: MismatchInfo) returns (exits: bool, result: bool)
    requires i < |Props(env, t)|
    requires val1 == Read(t, obj1, i) && val2 == Read(t, obj2, i)
    requires var k := Classify(env, Props(env, t)[i], val1, val2, nullEqualsEmpty);
      k == OneNull || k == Collection || k.Complex?
    modifies sink
    decreases Measure(obj1, obj2), 0, 0
    ensures exits == MemberStep(env, t, obj1, obj2, nullEqualsEmpty, depth, i).Return?
    ensures exits ==> result == MemberStep(env, t, obj1, obj2, nullEqualsEmpty, depth, i).o.same
    ensures exits ==> sink.info == Recorded(old(sink.info), MemberStep(env, t, obj1, obj2, nullEqualsEmpty, depth, i).o)
    ensures !exits ==> sink.info == old(sink.info)
  {
    var propInfo := Props(env, t)[i];
    MemberStepByKind(env, t, obj1, obj2, nullEqualsEmpty, depth, i, val1, val2);
    if !nullEqualsEmpty && (val1 == Null || val2 == Null) {
      sink.info := Some(OneIsNull(propInfo.name, val1, val2));
      return true, false;
    } else if propInfo.ty.TList? {
      var listExits, listResult := CompareCollection(env, propInfo, val1, val2, nullEqualsEmpty, depth, sink);
      if listExits {
        return true, listResult;
      }
    } else {
      var tempObj1 := if nullEqualsEmpty && val1 != Null then val1 else CreateInstance(env, propInfo.ty);
      var tempObj2 := if nullEqualsEmpty && val2 != Null then val2 else CreateInstance(env, propInfo.ty);
      SubstitutesShrink(env, propInfo.ty, obj1, obj2, val1, val2, nullEqualsEmpty);
      var nestedExits, nestedResult := CompareComplex(env, propInfo.ty, tempObj1, tempObj2, nullEqualsEmpty, depth, sink);
      if nestedExits {
        return true, nestedResult;
      }
    }
    return false, true;
  }

  /**
   * The directly comparable branch of the property walk: a null side is
   * replaced by the empty value of the declared type when null equals empty,
   * then the two values are compared with Equals. `exits` says whether
   * CompareObject returns false here.
   */
  method CompareScalar(env: Schema, propInfo: Prop, val1: Value, val2: Value, nullEqualsEmpty: bool,
                       sink: MismatchInfo) returns (exits: bool)
    requires Classify(env, propInfo, val1, val2, nullEqualsEmpty).Scalar?
    modifies sink
    ensures var k := Classify(env, propInfo, val1, val2, nullEqualsEmpty);
      exits == (k.left != k.right) &&
      sink.info == if exits then Some(Unequal(propInfo.name, k.left, k.right)) else old(sink.info)
  {
    var v1, v2 := val1, val2;
    if nullEqualsEmpty {
      if v1 == Null {
        v1 := EmptyFor(env, propInfo.ty);
      } else if v2 == Null {
        v2 := EmptyFor(env, propInfo.ty);
      }
    }
    if v1 != v2 {
      sink.info := Some(Unequal(propInfo.name, v1, v2));
      return true;
    }
    return false;
  }

  /**
   * The nested-complex branch of the property walk, given the instances that
   * stand in for the member: unless the depth has run out, the member is
   * compared one level deeper, and CompareObject returns false if it differs.
   */
  method CompareComplex(env: Schema, ty: Ty, tempObj1: Value, tempObj2: Value, nullEqualsEmpty: bool, depth: int,
                        sink: MismatchInfo) returns (exits: bool, result: bool)
    modifies sink
    decreases Measure(tempObj1, tempObj2), 3
    ensures exits == ComplexStep(env, ty, tempObj1, tempObj2, nullEqualsEmpty, depth).Return?
    ensures exits ==>
      !result && sink.info == Recorded(old(sink.info), ComplexStep(env, ty, tempObj1, tempObj2, nullEqualsEmpty, depth).o)
    ensures !exits ==> sink.info == old(sink.info)
  {
    if depth != 0 {
      var ok := InvokeCompare(env, ty, tempObj1, tempObj2, nullEqualsEmpty, depth, sink);
      if !ok {
        return true, false;
      }
    }
    return false, true;
  }

  /**
   * The collection branch of the property walk. `exits` says whether
   * CompareObject returns `result` at this point; otherwise it moves on to
   * the next property.
   */
  method CompareCollection(env: Schema, propInfo: Prop, list1: Value, list2: Value, nullEqualsEmpty: bool,
                           depth: int, sink: MismatchInfo) returns (exits: bool, result: bool)
    requires propInfo.ty.TList?
    modifies sink
    decreases Measure(list1, list2), 1
    ensures exits == CollectionStep(env, propInfo, list1, list2, nullEqualsEmpty, depth).Return?
    ensures exits ==>
      result == CollectionStep(env, propInfo, list1, list2, nullEqualsEmpty, depth).o.same &&
      sink.info == Recorded(old(sink.info), CollectionStep(env, propInfo, list1, list2, nullEqualsEmpty, depth).o)
    ensures !exits ==> sink.info == old(sink.info)
  {
    CheckListsCases(propInfo.name, list1, list2, nullEqualsEmpty);
    if list1 == Null || list2 == Null {
      result := true;
      if (list1 == Null || |Elems(list1)| == 0) && (list2 == Null || |Elems(list2)| == 0) {
        if nullEqualsEmpty {
          return false, true;
        } else {
          result := false;
        }
      } else if (list1 == Null && |Elems(list2)| > 0) || (list2 == Null && |Elems(list1)| > 0) {
        result := false;
      }
      sink.info := Some(UnequalLength(propInfo.name, Count(list1), Count(list2)));
      return true, result;
    } else if |Elems(list1)| != |Elems(list2)| {
      sink.info := Some(UnequalLength(propInfo.name, Count(list1), Count(list2)));
      return true, false;
    } else if IsComparable(FirstOrDefault(Elems(list1))) {
      if Elems(list1) != Elems(list2) {
        sink.info := Some(ListValuesDiffer(propInfo.name));
        return true, false;
      }
      return false, true;
    } else {
      var same := CompareItems(env, propInfo.ty.elem, propInfo.ty.oneTypeArg, list1, list2,
                               nullEqualsEmpty, depth, sink);
      return !same, false;
    }
  }

  /**
   * The lock-step walk of two enumerators over equally long lists of complex
   * items; it stops at the first pair that compares unequal.
   */
  method CompareItems(env: Schema, elemTy: Ty, oneTypeArg: bool, list1: Value, list2: Value,
                      nullEqualsEmpty: bool, depth: int, sink: MismatchInfo) returns (same: bool)
    modifies sink
    decreases Measure(list1, list2), 0, 1
    ensures same == CompareElements(env, elemTy, oneTypeArg, list1, list2, nullEqualsEmpty, depth, 0).same
    ensures sink.info ==
      Recorded(old(sink.info), CompareElements(env, elemTy, oneTypeArg, list1, list2, nullEqualsEmpty, depth, 0))
  {
    var items1, items2 := Elems(list1), Elems(list2);
    var k := 0;
    while k < |items1| && k < |items2|
      invariant 0 <= k <= |items1|
      invariant sink.info == old(sink.info)
      invariant CompareElements(env, elemTy, oneTypeArg, list1, list2, nullEqualsEmpty, depth, 0) ==
                CompareElements(env, elemTy, oneTypeArg, list1, list2, nullEqualsEmpty, depth, k)
    {
      var ok := CompareItemPair(env, elemTy, oneTypeArg, list1, list2, nullEqualsEmpty, depth, k, sink);
      if !ok {
        return false;
      }
      k := k + 1;
    }
    ElementsEnd(env, elemTy, oneTypeArg, list1, list2, nullEqualsEmpty, depth, k);
    return true;
  }

  /**
   * One step of the lock-step walk: the k-th pair of items, compared as
   * instances of the item type when that type is known and depth remains.
   * `ok` says whether the walk goes on.
   */
  method CompareItemPair(env: Schema, elemTy: Ty, oneTypeArg: bool, list1: Value, list2: Value,
                         nullEqualsEmpty: bool, depth: int, k: nat, sink: MismatchInfo) returns (ok: bool)
    requires k < |Elems(list1)| && k < |Elems(list2)|
    modifies sink
    decreases Measure(list1, list2), 0, 0
    ensures ok ==>
      CompareElements(env, elemTy, oneTypeArg, list1, list2, nullEqualsEmpty, depth, k) ==
      CompareElements(env, elemTy, oneTypeArg, list1, list2, nullEqualsEmpty, depth, k + 1)
    ensures ok ==> sink.info == old(sink.info)
    ensures !ok ==> !CompareElements(env, elemTy, oneTypeArg, list1, list2, nullEqualsEmpty, depth, k).same
    ensures !ok ==>
      sink.info == Recorded(old(sink.info), CompareElements(env, elemTy, oneTypeArg, list1, list2, nullEqualsEmpty, depth, k))
  {
    var items1, items2 := Elems(list1), Elems(list2);
    var itemType: Option<Ty> := None;
    if items1[k] != Null {
      itemType := Some(elemTy);
    } else if oneTypeArg {
      itemType := Some(elemTy);
    }
    if itemType.Some? && depth != 0 {
      ElemSmaller(list1, k);
      ElemSmaller(list2, k);
      ok := InvokeCompare(env, itemType.value, items1[k], items2[k], nullEqualsEmpty, depth, sink);
    } else {
      ok := true;
    }
  }
}
