/**
 * What CompareObject promises, stated over its specification `Compare`:
 * reflexivity, indifference to excluded members, the effect of the depth
 * bound, first-divergence reporting, and null standing for a freshly constructed instance.
 */
module ComparisonProperties {
  import opened Wrappers
  import opened Reflection
  import opened DeepComparison
  import MemberRules

  // ---------------------------------------------------------------------------
  // Reflexivity: a value always compares equal to itself.
  // ---------------------------------------------------------------------------

  /** Comparing any value with itself returns true and writes nothing, under every policy and depth. */
  lemma {:induction false} CompareReflexive(env: Schema, t: Ty, v: Value, nullEqualsEmpty: bool, depth: int)
    decreases Measure(v, v), 2, 0
    ensures Compare(env, t, v, v, nullEqualsEmpty, depth) == Outcome(true, None)
  {
    if v != Null {
      MembersReflexive(env, t, v, nullEqualsEmpty, depth, 0);
    }
  }

  lemma {:induction false} MembersReflexive(env: Schema, t: Ty, v: Value, nullEqualsEmpty: bool, depth: int, i: nat)
    decreases Measure(v, v), 1, |Props(env, t)| - i
    ensures CompareMembers(env, t, v, v, nullEqualsEmpty, depth, i) == Outcome(true, None)
  {
    if i < |Props(env, t)| {
      EqualReadsContinue(env, t, v, v, nullEqualsEmpty, depth, i);
      MembersReflexive(env, t, v, nullEqualsEmpty, depth, i + 1);
    }
  }

  /**
   * A property that reads the same value from both objects never stops the
   * walk: equal scalars pass, equal lists pass, equal nested objects pass.
   */
  lemma {:induction false} EqualReadsContinue(env: Schema, t: Ty, obj1: Value, obj2: Value, nullEqualsEmpty: bool,
                                              depth: int, i: nat)
    requires i < |Props(env, t)|
    requires Read(t, obj1, i) == Read(t, obj2, i)
    decreases Measure(obj1, obj2), 1, |Props(env, t)| - i, 0
    ensures MemberStep(env, t, obj1, obj2, nullEqualsEmpty, depth, i) == Continue
  {
    var p := Props(env, t)[i];
    var val := Read(t, obj1, i);
    MemberStepByKind(env, t, obj1, obj2, nullEqualsEmpty, depth, i, val, val);
    ClassifyCases(env, p, val, val, nullEqualsEmpty);
    match Classify(env, p, val, val, nullEqualsEmpty)
    case Collection =>
      CheckListsCases(p.name, val, val, nullEqualsEmpty);
      if CheckLists(p.name, val, val, nullEqualsEmpty) == WalkElements {
        ElementsReflexive(env, p.ty.elem, p.ty.oneTypeArg, val, nullEqualsEmpty, depth, 0);
      }
    case Complex(temp, _) =>
      if depth != 0 {
        CompareReflexive(env, p.ty, temp, nullEqualsEmpty, depth - 1);
      }
    case _ =>
  }

  lemma {:induction false} ElementsReflexive(env: Schema, elemTy: Ty, oneTypeArg: bool, l: Value, nullEqualsEmpty: bool,
                                             depth: int, k: nat)
    decreases Measure(l, l), 0, |Elems(l)| - k
    ensures CompareElements(env, elemTy, oneTypeArg, l, l, nullEqualsEmpty, depth, k) == Outcome(true, None)
  {
    if k < |Elems(l)| {
      if (Elems(l)[k] != Null || oneTypeArg) && depth != 0 {
        ElemSmaller(l, k);
        CompareReflexive(env, elemTy, Elems(l)[k], nullEqualsEmpty, depth - 1);
      }
      ElementsReflexive(env, elemTy, oneTypeArg, l, nullEqualsEmpty, depth, k + 1);
    }
  }

  // ---------------------------------------------------------------------------
  // Depth: every recursion passes depth - 1, so a negative depth never reaches
  // zero, and a smaller non-negative depth only compares less.
  // ---------------------------------------------------------------------------

  /** All negative depths mean "no limit": they give the same outcome. */
  lemma {:induction false} NegativeDepthsAgree(env: Schema, t: Ty, obj1: Value, obj2: Value, nullEqualsEmpty: bool,
                                               d1: int, d2: int)
    requires d1 < 0 && d2 < 0
    decreases Measure(obj1, obj2), 2, 0
    ensures Compare(env, t, obj1, obj2, nullEqualsEmpty, d1) == Compare(env, t, obj1, obj2, nullEqualsEmpty, d2)
  {
    if obj1 != Null || obj2 != Null {
      MembersAgreeBelowZero(env, t, obj1, obj2, nullEqualsEmpty, d1, d2, 0);
    }
  }

  lemma {:induction false} MembersAgreeBelowZero(env: Schema, t: Ty, obj1: Value, obj2: Value, nullEqualsEmpty: bool,
                                                 d1: int, d2: int, i: nat)
    requires d1 < 0 && d2 < 0
    decreases Measure(obj1, obj2), 1, |Props(env, t)| - i
    ensures CompareMembers(env, t, obj1, obj2, nullEqualsEmpty, d1, i) ==
            CompareMembers(env, t, obj1, obj2, nullEqualsEmpty, d2, i)
  {
    if i < |Props(env, t)| {
      StepAgreesBelowZero(env, t, obj1, obj2, nullEqualsEmpty, d1, d2, i);
      MembersAgreeBelowZero(env, t, obj1, obj2, nullEqualsEmpty, d1, d2, i + 1);
    }
  }

  lemma {:induction false} StepAgreesBelowZero(env: Schema, t: Ty, obj1: Value, obj2: Value, nullEqualsEmpty: bool,
                                               d1: int, d2: int, i: nat)
    requires d1 < 0 && d2 < 0
    requires i < |Props(env, t)|
    decreases Measure(obj1, obj2), 1, |Props(env, t)| - i, 0
    ensures MemberStep(env, t, obj1, obj2, nullEqualsEmpty, d1, i) ==
            MemberStep(env, t, obj1, obj2, nullEqualsEmpty, d2, i)
  {
    var p := Props(env, t)[i];
    var val1, val2 := Read(t, obj1, i), Read(t, obj2, i);
    MemberStepByKind(env, t, obj1, obj2, nullEqualsEmpty, d1, i, val1, val2);
    MemberStepByKind(env, t, obj1, obj2, nullEqualsEmpty, d2, i, val1, val2);
    match Classify(env, p, val1, val2, nullEqualsEmpty)
    case Collection =>
      CollectionAgreesBelowZero(env, p, val1, val2, nullEqualsEmpty, d1, d2);
    case Complex(temp1, temp2) =>
      ComplexAgreesBelowZero(env, p.ty, temp1, temp2, nullEqualsEmpty, d1, d2);
    case _ =>
  }

  lemma {:induction false} ComplexAgreesBelowZero(env: Schema, ty: Ty, temp1: Value, temp2: Value,
                                                  nullEqualsEmpty: bool, d1: int, d2: int)
    requires d1 < 0 && d2 < 0
    decreases Measure(temp1, temp2), 3, 0
    ensures ComplexStep(env, ty, temp1, temp2, nullEqualsEmpty, d1) ==
            ComplexStep(env, ty, temp1, temp2, nullEqualsEmpty, d2)
  {
    NegativeDepthsAgree(env, ty, temp1, temp2, nullEqualsEmpty, d1 - 1, d2 - 1);
  }

  lemma {:induction false} CollectionAgreesBelowZero(env: Schema, p: Prop, list1: Value, list2: Value,
                                                     nullEqualsEmpty: bool, d1: int, d2: int)
    requires d1 < 0 && d2 < 0
    requires p.ty.TList?
    decreases Measure(list1, list2), 3, 0
    ensures CollectionStep(env, p, list1, list2, nullEqualsEmpty, d1) ==
            CollectionStep(env, p, list1, list2, nullEqualsEmpty, d2)
  {
    if CheckLists(p.name, list1, list2, nullEqualsEmpty) == WalkElements {
      ElementsAgreeBelowZero(env, p.ty.elem, p.ty.oneTypeArg, list1, list2, nullEqualsEmpty, d1, d2, 0);
    }
  }

  lemma {:induction false} ElementsAgreeBelowZero(env: Schema, elemTy: Ty, oneTypeArg: bool, list1: Value, list2: Value,
                                                  nullEqualsEmpty: bool, d1: int, d2: int, k: nat)
    requires d1 < 0 && d2 < 0
    decreases Measure(list1, list2), 0, |Elems(list1)| - k
    ensures CompareElements(env, elemTy, oneTypeArg, list1, list2, nullEqualsEmpty, d1, k) ==
            CompareElements(env, elemTy, oneTypeArg, list1, list2, nullEqualsEmpty, d2, k)
  {
    if k < |Elems(list1)| && k < |Elems(list2)| {
      if Elems(list1)[k] != Null || oneTypeArg {
        ElemSmaller(list1, k);
        ElemSmaller(list2, k);
        NegativeDepthsAgree(env, elemTy, Elems(list1)[k], Elems(list2)[k], nullEqualsEmpty, d1 - 1, d2 - 1);
      }
      ElementsAgreeBelowZero(env, elemTy, oneTypeArg, list1, list2, nullEqualsEmpty, d1, d2, k + 1);
    }
  }

  /** `shallow` stops the descent no later than `deep` does. */
  predicate Shallower(shallow: int, deep: int) {
    0 <= shallow && (deep < 0 || shallow <= deep)
  }

  /**
   * Lowering the depth bound can only turn a false result into true, never
   * the reverse: objects equal down to `deep` are equal down to `shallow`.
   */
  lemma {:induction false} DepthMonotone(env: Schema, t: Ty, obj1: Value, obj2: Value, nullEqualsEmpty: bool,
                                         shallow: int, deep: int)
    requires Shallower(shallow, deep)
    decreases Measure(obj1, obj2), 2, 0
    ensures Compare(env, t, obj1, obj2, nullEqualsEmpty, deep).same ==>
            Compare(env, t, obj1, obj2, nullEqualsEmpty, shallow).same
  {
    if obj1 != Null || obj2 != Null {
      MembersMonotone(env, t, obj1, obj2, nullEqualsEmpty, shallow, deep, 0);
    }
  }

  lemma {:induction false} MembersMonotone(env: Schema, t: Ty, obj1: Value, obj2: Value, nullEqualsEmpty: bool,
                                           shallow: int, deep: int, i: nat)
    requires Shallower(shallow, deep)
    decreases Measure(obj1, obj2), 1, |Props(env, t)| - i
    ensures CompareMembers(env, t, obj1, obj2, nullEqualsEmpty, deep, i).same ==>
            CompareMembers(env, t, obj1, obj2, nullEqualsEmpty, shallow, i).same
  {
    if i < |Props(env, t)| {
      StepMonotone(env, t, obj1, obj2, nullEqualsEmpty, shallow, deep, i);
      MembersMonotone(env, t, obj1, obj2, nullEqualsEmpty, shallow, deep, i + 1);
    }
  }

  lemma {:induction false} StepMonotone(env: Schema, t: Ty, obj1: Value, obj2: Value, nullEqualsEmpty: bool,
                                        shallow: int, deep: int, i: nat)
    requires Shallower(shallow, deep)
    requires i < |Props(env, t)|
    decreases Measure(obj1, obj2), 1, |Props(env, t)| - i, 0
    ensures MemberStep(env, t, obj1, obj2, nullEqualsEmpty, deep, i) == Continue ==>
            MemberStep(env, t, obj1, obj2, nullEqualsEmpty, shallow, i) == Continue
  {
    var p := Props(env, t)[i];
    var val1, val2 := Read(t, obj1, i), Read(t, obj2, i);
    MemberStepByKind(env, t, obj1, obj2, nullEqualsEmpty, deep, i, val1, val2);
    MemberStepByKind(env, t, obj1, obj2, nullEqualsEmpty, shallow, i, val1, val2);
    match Classify(env, p, val1, val2, nullEqualsEmpty)
    case Collection =>
      CollectionMonotone(env, p, val1, val2, nullEqualsEmpty, shallow, deep);
    case Complex(temp1, temp2) =>
      if shallow != 0 {
        DepthMonotone(env, p.ty, temp1, temp2, nullEqualsEmpty, shallow - 1, deep - 1);
      }
    case _ =>
  }

  lemma {:induction false} CollectionMonotone(env: Schema, p: Prop, list1: Value, list2: Value,
                                              nullEqualsEmpty: bool, shallow: int, deep: int)
    requires Shallower(shallow, deep)
    requires p.ty.TList?
    decreases Measure(list1, list2), 3, 0
    ensures CollectionStep(env, p, list1, list2, nullEqualsEmpty, deep) == Continue ==>
            CollectionStep(env, p, list1, list2, nullEqualsEmpty, shallow) == Continue
  {
    if CheckLists(p.name, list1, list2, nullEqualsEmpty) == WalkElements {
      ElementsMonotone(env, p.ty.elem, p.ty.oneTypeArg, list1, list2, nullEqualsEmpty, shallow, deep, 0);
    }
  }

  lemma {:induction false} ElementsMonotone(env: Schema, elemTy: Ty, oneTypeArg: bool, list1: Value, list2: Value,
                                            nullEqualsEmpty: bool, shallow: int, deep: int, k: nat)
    requires Shallower(shallow, deep)
    decreases Measure(list1, list2), 0, |Elems(list1)| - k
    ensures CompareElements(env, elemTy, oneTypeArg, list1, list2, nullEqualsEmpty, deep, k).same ==>
            CompareElements(env, elemTy, oneTypeArg, list1, list2, nullEqualsEmpty, shallow, k).same
  {
    if k < |Elems(list1)| && k < |Elems(list2)| {
      if (Elems(list1)[k] != Null || oneTypeArg) && shallow != 0 {
        ElemSmaller(list1, k);
        ElemSmaller(list2, k);
        DepthMonotone(env, elemTy, Elems(list1)[k], Elems(list2)[k], nullEqualsEmpty, shallow - 1, deep - 1);
      }
      ElementsMonotone(env, elemTy, oneTypeArg, list1, list2, nullEqualsEmpty, shallow, deep, k + 1);
    }
  }

  // ---------------------------------------------------------------------------
  // Excluded members: properties declared on ModelBase and any property named
  // HasErrors never influence the result.
  // ---------------------------------------------------------------------------

  /** a and b read alike on every property of t that is not excluded. */
  predicate AgreeOnCompared(env: Schema, t: Ty, a: Value, b: Value) {
    forall j :: 0 <= j < |Props(env, t)| && !Excluded(Props(env, t)[j]) ==> Read(t, a, j) == Read(t, b, j)
  }

  /**
   * Changing only excluded properties (or their getters' failures) leaves the
   * outcome, and what is written to the sink, unchanged.
   */
  lemma ExcludedMembersIgnored(env: Schema, t: Ty, obj1: Value, obj2: Value, obj1': Value, obj2': Value,
                               nullEqualsEmpty: bool, depth: int)
    requires (obj1 == Null) == (obj1' == Null) && (obj2 == Null) == (obj2' == Null)
    requires AgreeOnCompared(env, t, obj1, obj1') && AgreeOnCompared(env, t, obj2, obj2')
    ensures Compare(env, t, obj1, obj2, nullEqualsEmpty, depth) == Compare(env, t, obj1', obj2', nullEqualsEmpty, depth)
  {
    if obj1 != Null || obj2 != Null {
      MembersIgnoreExcluded(env, t, obj1, obj2, obj1', obj2', nullEqualsEmpty, depth, 0);
    }
  }

  lemma {:induction false} MembersIgnoreExcluded(env: Schema, t: Ty, obj1: Value, obj2: Value, obj1': Value,
                                                 obj2': Value, nullEqualsEmpty: bool, depth: int, i: nat)
    requires AgreeOnCompared(env, t, obj1, obj1') && AgreeOnCompared(env, t, obj2, obj2')
    decreases |Props(env, t)| - i
    ensures CompareMembers(env, t, obj1, obj2, nullEqualsEmpty, depth, i) ==
            CompareMembers(env, t, obj1', obj2', nullEqualsEmpty, depth, i)
  {
    if i < |Props(env, t)| {
      if Excluded(Props(env, t)[i]) {
        ExcludedPassedOver(env, t, obj1, obj2, nullEqualsEmpty, depth, i);
        ExcludedPassedOver(env, t, obj1', obj2', nullEqualsEmpty, depth, i);
      } else {
        StepDependsOnReads(env, t, obj1, obj2, obj1', obj2', nullEqualsEmpty, depth, i);
      }
      MembersIgnoreExcluded(env, t, obj1, obj2, obj1', obj2', nullEqualsEmpty, depth, i + 1);
      WalksAgree(env, t, obj1, obj2, obj1', obj2', nullEqualsEmpty, depth, i);
    }
  }

  /** Two walks that take the same step at i, and agree from i + 1 on, agree from i on. */
  lemma WalksAgree(env: Schema, t: Ty, obj1: Value, obj2: Value, obj1': Value, obj2': Value,
                   nullEqualsEmpty: bool, depth: int, i: nat)
    requires i < |Props(env, t)|
    requires MemberStep(env, t, obj1, obj2, nullEqualsEmpty, depth, i) ==
             MemberStep(env, t, obj1', obj2', nullEqualsEmpty, depth, i)
    requires CompareMembers(env, t, obj1, obj2, nullEqualsEmpty, depth, i + 1) ==
             CompareMembers(env, t, obj1', obj2', nullEqualsEmpty, depth, i + 1)
    ensures CompareMembers(env, t, obj1, obj2, nullEqualsEmpty, depth, i) ==
            CompareMembers(env, t, obj1', obj2', nullEqualsEmpty, depth, i)
  {
  }

  /** One pass of the property loop depends on the objects only through the two values read. */
  lemma StepDependsOnReads(env: Schema, t: Ty, obj1: Value, obj2: Value, obj1': Value, obj2': Value,
                           nullEqualsEmpty: bool, depth: int, i: nat)
    requires i < |Props(env, t)|
    requires Read(t, obj1, i) == Read(t, obj1', i) && Read(t, obj2, i) == Read(t, obj2', i)
    ensures MemberStep(env, t, obj1, obj2, nullEqualsEmpty, depth, i) ==
            MemberStep(env, t, obj1', obj2', nullEqualsEmpty, depth, i)
  {
    var val1, val2 := Read(t, obj1, i), Read(t, obj2, i);
    MemberStepByKind(env, t, obj1, obj2, nullEqualsEmpty, depth, i, val1, val2);
    MemberStepByKind(env, t, obj1', obj2', nullEqualsEmpty, depth, i, val1, val2);
  }

  // ---------------------------------------------------------------------------
  // Short-circuit: the first member that stops the walk decides the outcome,
  // and the members after it are never looked at.
  // ---------------------------------------------------------------------------

  /** The walk from s on returns what the first stopping member i returns. */
  lemma {:induction false} WalkReachesStop(env: Schema, t: Ty, obj1: Value, obj2: Value, nullEqualsEmpty: bool,
                                           depth: int, s: nat, i: nat)
    requires s <= i < |Props(env, t)|
    requires forall j :: s <= j < i ==> MemberStep(env, t, obj1, obj2, nullEqualsEmpty, depth, j) == Continue
    requires MemberStep(env, t, obj1, obj2, nullEqualsEmpty, depth, i).Return?
    decreases i - s
    ensures CompareMembers(env, t, obj1, obj2, nullEqualsEmpty, depth, s) ==
            MemberStep(env, t, obj1, obj2, nullEqualsEmpty, depth, i).o
  {
    if s == i {
      WalkReturns(env, t, obj1, obj2, nullEqualsEmpty, depth, i);
    } else {
      WalkContinues(env, t, obj1, obj2, nullEqualsEmpty, depth, s);
      WalkReachesStop(env, t, obj1, obj2, nullEqualsEmpty, depth, s + 1, i);
    }
  }

  /**
   * If every member before i lets the walk go on and member i stops it, the
   * comparison returns false with member i's description.
   */
  lemma FirstStopDecides(env: Schema, t: Ty, obj1: Value, obj2: Value, nullEqualsEmpty: bool, depth: int, i: nat)
    requires obj1 != Null || obj2 != Null
    requires nullEqualsEmpty || (obj1 != Null && obj2 != Null)
    requires i < |Props(env, t)|
    requires forall j :: 0 <= j < i ==> MemberStep(env, t, obj1, obj2, nullEqualsEmpty, depth, j) == Continue
    requires MemberStep(env, t, obj1, obj2, nullEqualsEmpty, depth, i).Return?
    ensures var o := Compare(env, t, obj1, obj2, nullEqualsEmpty, depth);
      o == MemberStep(env, t, obj1, obj2, nullEqualsEmpty, depth, i).o && !o.same
  {
    WalkStarts(env, t, obj1, obj2, nullEqualsEmpty, depth);
    WalkReachesStop(env, t, obj1, obj2, nullEqualsEmpty, depth, 0, i);
  }

  /** a and b read alike on the properties 0 .. i of t. */
  predicate AgreeUpTo(env: Schema, t: Ty, a: Value, b: Value, i: nat) {
    forall j :: 0 <= j <= i && j < |Props(env, t)| ==> Read(t, a, j) == Read(t, b, j)
  }

  /**
   * Once member i stops the walk, the members after it do not matter: objects
   * that agree with obj1 and obj2 up to i compare exactly as they do.
   */
  lemma LaterMembersIgnored(env: Schema, t: Ty, obj1: Value, obj2: Value, obj1': Value, obj2': Value,
                            nullEqualsEmpty: bool, depth: int, i: nat)
    requires (obj1 == Null) == (obj1' == Null) && (obj2 == Null) == (obj2' == Null)
    requires i < |Props(env, t)|
    requires forall j :: 0 <= j < i ==> MemberStep(env, t, obj1, obj2, nullEqualsEmpty, depth, j) == Continue
    requires MemberStep(env, t, obj1, obj2, nullEqualsEmpty, depth, i).Return?
    requires AgreeUpTo(env, t, obj1, obj1', i) && AgreeUpTo(env, t, obj2, obj2', i)
    ensures Compare(env, t, obj1', obj2', nullEqualsEmpty, depth) == Compare(env, t, obj1, obj2, nullEqualsEmpty, depth)
  {
    forall j | 0 <= j <= i
      ensures MemberStep(env, t, obj1', obj2', nullEqualsEmpty, depth, j) ==
              MemberStep(env, t, obj1, obj2, nullEqualsEmpty, depth, j)
    {
      StepDependsOnReads(env, t, obj1, obj2, obj1', obj2', nullEqualsEmpty, depth, j);
    }
    if nullEqualsEmpty || (obj1 != Null && obj2 != Null) {
      FirstStopDecides(env, t, obj1, obj2, nullEqualsEmpty, depth, i);
      FirstStopDecides(env, t, obj1', obj2', nullEqualsEmpty, depth, i);
    }
  }

  /**
   * The first difference is the one reported: when the members before i read
   * alike (or are excluded) and member i holds two different scalars, the
   * comparison returns false naming member i and both values.
   */
  lemma FirstDifferenceReported(env: Schema, t: Ty, obj1: Value, obj2: Value, nullEqualsEmpty: bool, depth: int,
                                i: nat)
    requires obj1 != Null && obj2 != Null
    requires i < |Props(env, t)| && !Excluded(Props(env, t)[i])
    requires forall j :: 0 <= j < i && !Excluded(Props(env, t)[j]) ==> Read(t, obj1, j) == Read(t, obj2, j)
    requires IsComparable(Read(t, obj1, i)) && IsComparable(Read(t, obj2, i)) && Read(t, obj1, i) != Read(t, obj2, i)
    ensures Compare(env, t, obj1, obj2, nullEqualsEmpty, depth) ==
            Outcome(false, Some(Unequal(Props(env, t)[i].name, Read(t, obj1, i), Read(t, obj2, i))))
  {
    forall j | 0 <= j < i
      ensures MemberStep(env, t, obj1, obj2, nullEqualsEmpty, depth, j) == Continue
    {
      if Excluded(Props(env, t)[j]) {
        ExcludedPassedOver(env, t, obj1, obj2, nullEqualsEmpty, depth, j);
      } else {
        EqualReadsContinue(env, t, obj1, obj2, nullEqualsEmpty, depth, j);
      }
    }
    MemberRules.ScalarsCompared(env, t, obj1, obj2, nullEqualsEmpty, depth, i);
    FirstStopDecides(env, t, obj1, obj2, nullEqualsEmpty, depth, i);
  }

  // ---------------------------------------------------------------------------
  // Null equals empty: an absent object stands for a freshly constructed one.
  // ---------------------------------------------------------------------------

  /** Each property of a freshly constructed instance holds its declared type's default. */
  lemma FreshFieldRead(env: Schema, n: string, i: nat)
    requires i < |Props(env, TClass(n))|
    ensures Read(TClass(n), CreateInstance(env, TClass(n)), i) == FieldDefault(Props(env, TClass(n))[i].ty)
  {
  }

  /**
   * Under null-equals-empty, an absent object and a freshly constructed
   * instance of its class compare equal, either way round and at any depth;
   * without it they never do.
   */
  lemma AbsentEqualsFresh(env: Schema, n: string, nullEqualsEmpty: bool, depth: int)
    ensures var inst := CreateInstance(env, TClass(n));
      Compare(env, TClass(n), Null, inst, nullEqualsEmpty, depth) == Outcome(nullEqualsEmpty, None) &&
      Compare(env, TClass(n), inst, Null, nullEqualsEmpty, depth) == Outcome(nullEqualsEmpty, None)
  {
    if nullEqualsEmpty {
      FreshMembersMatchAbsent(env, n, depth, 0);
    }
  }

  lemma {:induction false} FreshMembersMatchAbsent(env: Schema, n: string, depth: int, i: nat)
    decreases |Props(env, TClass(n))| - i
    ensures var inst := CreateInstance(env, TClass(n));
      CompareMembers(env, TClass(n), Null, inst, true, depth, i) == Outcome(true, None) &&
      CompareMembers(env, TClass(n), inst, Null, true, depth, i) == Outcome(true, None)
  {
    var t, inst := TClass(n), CreateInstance(env, TClass(n));
    if i < |Props(env, t)| {
      var p := Props(env, t)[i];
      FreshFieldRead(env, n, i);
      MemberStepByKind(env, t, Null, inst, true, depth, i, Null, FieldDefault(p.ty));
      MemberStepByKind(env, t, inst, Null, true, depth, i, FieldDefault(p.ty), Null);
      WalkContinues(env, t, Null, inst, true, depth, i);
      WalkContinues(env, t, inst, Null, true, depth, i);
      FreshMembersMatchAbsent(env, n, depth, i + 1);
    } else {
      WalkEnds(env, t, Null, inst, true, depth, i);
      WalkEnds(env, t, inst, Null, true, depth, i);
    }
  }
}
