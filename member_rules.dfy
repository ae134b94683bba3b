/**
 * What one pass of the property loop does with one member, rule by rule:
 * scalars after the null-equals-empty substitution, the collection rules in
 * the order they are tried, and nested values at depth 0.
 */
module MemberRules {
  import opened Wrappers
  import opened Reflection
  import opened DeepComparison

  /** A declared type whose values are boxed as IComparable: the substitution defaults apply to it. */
  predicate ScalarType(ty: Ty) {
    ty == TInt || ty == TNullableInt || ty == TBool || ty == TStr
  }

  /**
   * A scalar member null on the first side only. Under null-equals-empty the
   * walk goes on exactly when the other side holds the type's empty value
   * ("" or the default of the underlying type), and otherwise reports both
   * values with the substituted one; without it the member is unequal and
   * reported with the null.
   */
  lemma NullScalarAgainstValue(env: Schema, t: Ty, obj1: Value, obj2: Value, nullEqualsEmpty: bool, depth: int,
                               i: nat)
    requires i < |Props(env, t)| && !Excluded(Props(env, t)[i])
    requires ScalarType(Props(env, t)[i].ty)
    requires Read(t, obj1, i) == Null && IsComparable(Read(t, obj2, i))
    ensures var p := Props(env, t)[i];
      var v := Read(t, obj2, i);
      var step := MemberStep(env, t, obj1, obj2, nullEqualsEmpty, depth, i);
      (nullEqualsEmpty ==> (step == Continue <==> v == EmptyFor(env, p.ty))) &&
      (nullEqualsEmpty && v != EmptyFor(env, p.ty) ==>
         step == Return(Outcome(false, Some(Unequal(p.name, EmptyFor(env, p.ty), v))))) &&
      (!nullEqualsEmpty ==> step == Return(Outcome(false, Some(Unequal(p.name, Null, v)))))
  {
    var p := Props(env, t)[i];
    MemberStepByKind(env, t, obj1, obj2, nullEqualsEmpty, depth, i, Null, Read(t, obj2, i));
    ClassifyCases(env, p, Null, Read(t, obj2, i), nullEqualsEmpty);
  }

  /** The same rule with the null on the second side. */
  lemma ValueAgainstNullScalar(env: Schema, t: Ty, obj1: Value, obj2: Value, nullEqualsEmpty: bool, depth: int,
                               i: nat)
    requires i < |Props(env, t)| && !Excluded(Props(env, t)[i])
    requires ScalarType(Props(env, t)[i].ty)
    requires IsComparable(Read(t, obj1, i)) && Read(t, obj2, i) == Null
    ensures var p := Props(env, t)[i];
      var v := Read(t, obj1, i);
      var step := MemberStep(env, t, obj1, obj2, nullEqualsEmpty, depth, i);
      (nullEqualsEmpty ==> (step == Continue <==> v == EmptyFor(env, p.ty))) &&
      (nullEqualsEmpty && v != EmptyFor(env, p.ty) ==>
         step == Return(Outcome(false, Some(Unequal(p.name, v, EmptyFor(env, p.ty)))))) &&
      (!nullEqualsEmpty ==> step == Return(Outcome(false, Some(Unequal(p.name, v, Null)))))
  {
    var p := Props(env, t)[i];
    MemberStepByKind(env, t, obj1, obj2, nullEqualsEmpty, depth, i, Read(t, obj1, i), Null);
    ClassifyCases(env, p, Read(t, obj1, i), Null, nullEqualsEmpty);
  }

  /** Two non-null scalars are compared as they are, under either policy and at every depth. */
  lemma ScalarsCompared(env: Schema, t: Ty, obj1: Value, obj2: Value, nullEqualsEmpty: bool, depth: int, i: nat)
    requires i < |Props(env, t)| && !Excluded(Props(env, t)[i])
    requires IsComparable(Read(t, obj1, i)) && IsComparable(Read(t, obj2, i))
    ensures var p := Props(env, t)[i];
      var a, b := Read(t, obj1, i), Read(t, obj2, i);
      MemberStep(env, t, obj1, obj2, nullEqualsEmpty, depth, i) ==
        if a == b then Continue else Return(Outcome(false, Some(Unequal(p.name, a, b))))
  {
    var p := Props(env, t)[i];
    MemberStepByKind(env, t, obj1, obj2, nullEqualsEmpty, depth, i, Read(t, obj1, i), Read(t, obj2, i));
    ClassifyCases(env, p, Read(t, obj1, i), Read(t, obj2, i), nullEqualsEmpty);
  }

  /**
   * A collection member absent on the first side. Under null-equals-empty an
   * empty list passes and a non-empty one is an unequal length; without it
   * the absent side is reported as a null complex member before any
   * collection rule is tried.
   */
  lemma AbsentListAgainstList(env: Schema, t: Ty, obj1: Value, obj2: Value, nullEqualsEmpty: bool, depth: int,
                              i: nat)
    requires i < |Props(env, t)| && !Excluded(Props(env, t)[i])
    requires Props(env, t)[i].ty.TList?
    requires Read(t, obj1, i) == Null && Read(t, obj2, i).List?
    ensures var p := Props(env, t)[i];
      var es := Read(t, obj2, i).elems;
      var step := MemberStep(env, t, obj1, obj2, nullEqualsEmpty, depth, i);
      (nullEqualsEmpty && es == [] ==> step == Continue) &&
      (nullEqualsEmpty && es != [] ==>
         step == Return(Outcome(false, Some(UnequalLength(p.name, None, Some(|es|)))))) &&
      (!nullEqualsEmpty ==> step == Return(Outcome(false, Some(OneIsNull(p.name, Null, List(es))))))
  {
    var p := Props(env, t)[i];
    var val2 := Read(t, obj2, i);
    MemberStepByKind(env, t, obj1, obj2, nullEqualsEmpty, depth, i, Null, val2);
    ClassifyCases(env, p, Null, val2, nullEqualsEmpty);
    CheckListsCases(p.name, Null, val2, nullEqualsEmpty);
  }

  /**
   * Two present collections: unequal counts stop the walk before any element
   * is looked at; equal counts with a comparable first item pass exactly when
   * the lists are equal item by item, in order.
   */
  lemma PresentLists(env: Schema, t: Ty, obj1: Value, obj2: Value, nullEqualsEmpty: bool, depth: int, i: nat)
    requires i < |Props(env, t)| && !Excluded(Props(env, t)[i])
    requires Props(env, t)[i].ty.TList?
    requires Read(t, obj1, i).List? && Read(t, obj2, i).List?
    ensures var p := Props(env, t)[i];
      var es1, es2 := Read(t, obj1, i).elems, Read(t, obj2, i).elems;
      var step := MemberStep(env, t, obj1, obj2, nullEqualsEmpty, depth, i);
      (|es1| != |es2| ==> step == Return(Outcome(false, Some(UnequalLength(p.name, Some(|es1|), Some(|es2|)))))) &&
      (|es1| == |es2| && es1 != [] && IsComparable(es1[0]) ==>
         (step == Continue <==> forall k :: 0 <= k < |es1| ==> es1[k] == es2[k]) &&
         (step != Continue ==> step == Return(Outcome(false, Some(ListValuesDiffer(p.name))))))
  {
    var p := Props(env, t)[i];
    var val1, val2 := Read(t, obj1, i), Read(t, obj2, i);
    MemberStepByKind(env, t, obj1, obj2, nullEqualsEmpty, depth, i, val1, val2);
    ClassifyCases(env, p, val1, val2, nullEqualsEmpty);
    CheckListsCases(p.name, val1, val2, nullEqualsEmpty);
  }

  /**
   * At depth 0 nothing nested is looked into: a nested complex member, and a
   * list of complex items that passed the count check, never stop the walk.
   */
  lemma NothingNestedAtDepthZero(env: Schema, t: Ty, obj1: Value, obj2: Value, nullEqualsEmpty: bool, i: nat)
    requires i < |Props(env, t)|
    ensures var p := Props(env, t)[i];
      var val1, val2 := Read(t, obj1, i), Read(t, obj2, i);
      var k := Classify(env, p, val1, val2, nullEqualsEmpty);
      var step := MemberStep(env, t, obj1, obj2, nullEqualsEmpty, 0, i);
      (k.Complex? ==> step == Continue) &&
      (k == Collection && CheckLists(p.name, val1, val2, nullEqualsEmpty) == WalkElements ==> step == Continue)
  {
    var p := Props(env, t)[i];
    var val1, val2 := Read(t, obj1, i), Read(t, obj2, i);
    MemberStepByKind(env, t, obj1, obj2, nullEqualsEmpty, 0, i, val1, val2);
    if Classify(env, p, val1, val2, nullEqualsEmpty) == Collection {
      ElementsAtDepthZero(env, p.ty.elem, p.ty.oneTypeArg, val1, val2, nullEqualsEmpty, 0);
    }
  }

  /** At depth 0 the element walk compares no items: it always finds the lists equal. */
  lemma {:induction false} ElementsAtDepthZero(env: Schema, elemTy: Ty, oneTypeArg: bool, list1: Value, list2: Value,
                                               nullEqualsEmpty: bool, k: nat)
    decreases |Elems(list1)| - k
    ensures CompareElements(env, elemTy, oneTypeArg, list1, list2, nullEqualsEmpty, 0, k) == Outcome(true, None)
  {
    if k < |Elems(list1)| && k < |Elems(list2)| {
      ElementsAtDepthZero(env, elemTy, oneTypeArg, list1, list2, nullEqualsEmpty, k + 1);
    }
  }
}
