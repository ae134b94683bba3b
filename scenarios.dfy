/**
 * Worked examples: small concrete schemas and values, and what the
 * comparison returns for them, including the places where its behaviour is
 * surprising (nested members compared as defaults, strings compared by
 * length, the order of the two arguments mattering).
 */
module Scenarios {
  import opened Wrappers
  import opened Reflection
  import opened DeepComparison
  import opened ComparisonProperties
  import MemberRules

  // ---------------------------------------------------------------------------
  // A record { Id: int, Tags: List<string> }.
  // ---------------------------------------------------------------------------

  const RecordSchema: Schema := map["Record" := [Prop("Id", TInt, false), Prop("Tags", TList(TStr, true), false)]]
  const Record: Ty := TClass("Record")

  function MakeRecord(id: int): Value {
    Obj([Int(id), List([Str("a"), Str("b")])], {})
  }

  /** Records with the same Id and Tags are equal, under either policy and at any depth. */
  lemma RecordsEqual(nullEqualsEmpty: bool, depth: int)
    ensures Compare(RecordSchema, Record, MakeRecord(1), MakeRecord(1), nullEqualsEmpty, depth) == Outcome(true, None)
  {
    CompareReflexive(RecordSchema, Record, MakeRecord(1), nullEqualsEmpty, depth);
  }

  /** Records whose Ids differ are unequal, and Id is the member reported with both values. */
  lemma RecordsDifferInId(nullEqualsEmpty: bool, depth: int)
    ensures Compare(RecordSchema, Record, MakeRecord(1), MakeRecord(2), nullEqualsEmpty, depth) ==
            Outcome(false, Some(Unequal("Id", Int(1), Int(2))))
  {
    FirstDifferenceReported(RecordSchema, Record, MakeRecord(1), MakeRecord(2), nullEqualsEmpty, depth, 0);
  }

  /**
   * The same, through CompareObject and a caller's sink: the call returns
   * false and leaves the Id description in the sink.
   */
  method RecordsDifferThroughSink() returns (same: bool, info: Option<Mismatch>)
    ensures !same && info == Some(Unequal("Id", Int(1), Int(2)))
  {
    var sink := new MismatchInfo();
    same := CompareObject(RecordSchema, Record, MakeRecord(1), MakeRecord(2), true, -1, sink);
    RecordsDifferInId(true, -1);
    info := sink.info;
  }

  /** With the defaults (null equals empty, no depth limit, no sink) the records are still unequal. */
  method RecordsDifferByDefault() returns (same: bool)
    ensures !same
  {
    same := CompareObject(RecordSchema, Record, MakeRecord(1), MakeRecord(2));
    RecordsDifferInId(true, -1);
  }

  // ---------------------------------------------------------------------------
  // A nested member: Outer { Child: Inner }, Inner { Value: int }.
  // ---------------------------------------------------------------------------

  const NestedSchema: Schema := map["Outer" := [Prop("Child", TClass("Inner"), false)],
                                    "Inner" := [Prop("Value", TInt, false)]]
  const Outer: Ty := TClass("Outer")
  const Inner: Ty := TClass("Inner")

  function MakeOuter(value: int): Value {
    Obj([Obj([Int(value)], {})], {})
  }

  /** At depth 0 the nested member is not looked into: Child.Value 1 and 2 compare equal. */
  lemma NestedSkippedAtDepthZero(nullEqualsEmpty: bool)
    ensures Compare(NestedSchema, Outer, MakeOuter(1), MakeOuter(2), nullEqualsEmpty, 0) == Outcome(true, None)
  {
    var a, b := MakeOuter(1), MakeOuter(2);
    WalkStarts(NestedSchema, Outer, a, b, nullEqualsEmpty, 0);
    MemberRules.NothingNestedAtDepthZero(NestedSchema, Outer, a, b, nullEqualsEmpty, 0);
    WalkContinues(NestedSchema, Outer, a, b, nullEqualsEmpty, 0, 0);
    WalkEnds(NestedSchema, Outer, a, b, nullEqualsEmpty, 0, 1);
  }

  /**
   * With null equal to empty and any depth but 0, the nested difference is
   * found and reported by the inner member's name.
   */
  lemma NestedDifferenceFound(depth: int)
    requires depth != 0
    ensures Compare(NestedSchema, Outer, MakeOuter(1), MakeOuter(2), true, depth) ==
            Outcome(false, Some(Unequal("Value", Int(1), Int(2))))
  {
    var a, b := MakeOuter(1), MakeOuter(2);
    var c1, c2 := Obj([Int(1)], {}), Obj([Int(2)], {});
    FirstDifferenceReported(NestedSchema, Inner, c1, c2, true, depth - 1, 0);
    MemberStepByKind(NestedSchema, Outer, a, b, true, depth, 0, c1, c2);
    FirstStopDecides(NestedSchema, Outer, a, b, true, depth, 0);
  }

  /**
   * Without null-equals-empty, a nested member is compared as two freshly
   * constructed instances, not as the values held: the same objects compare
   * equal at every depth.
   */
  lemma NestedComparedAsDefaults(depth: int)
    ensures Compare(NestedSchema, Outer, MakeOuter(1), MakeOuter(2), false, depth) == Outcome(true, None)
  {
    var a, b := MakeOuter(1), MakeOuter(2);
    var c1, c2 := Obj([Int(1)], {}), Obj([Int(2)], {});
    var d := CreateInstance(NestedSchema, Inner);
    MemberStepByKind(NestedSchema, Outer, a, b, false, depth, 0, c1, c2);
    CompareReflexive(NestedSchema, Inner, d, false, depth - 1);
    WalkStarts(NestedSchema, Outer, a, b, false, depth);
    WalkContinues(NestedSchema, Outer, a, b, false, depth, 0);
    WalkEnds(NestedSchema, Outer, a, b, false, depth, 1);
  }

  // ---------------------------------------------------------------------------
  // A collection member: Bag { Items: List<string> }.
  // ---------------------------------------------------------------------------

  const BagSchema: Schema := map["Bag" := [Prop("Items", TList(TStr, true), false)]]
  const Bag: Ty := TClass("Bag")

  /** ["a", "b", "c"] against ["a", "b"]: unequal lengths 3 and 2, found before any item is compared. */
  lemma ListLengthsDiffer(nullEqualsEmpty: bool, depth: int)
    ensures Compare(BagSchema, Bag, Obj([List([Str("a"), Str("b"), Str("c")])], {}), Obj([List([Str("a"), Str("b")])], {}),
                    nullEqualsEmpty, depth) ==
            Outcome(false, Some(UnequalLength("Items", Some(3), Some(2))))
  {
    var a, b := Obj([List([Str("a"), Str("b"), Str("c")])], {}), Obj([List([Str("a"), Str("b")])], {});
    MemberRules.PresentLists(BagSchema, Bag, a, b, nullEqualsEmpty, depth, 0);
    FirstStopDecides(BagSchema, Bag, a, b, nullEqualsEmpty, depth, 0);
  }

  /** An absent list against an empty one: equal under null-equals-empty, unequal without it. */
  lemma AbsentAgainstEmptyList(nullEqualsEmpty: bool, depth: int)
    ensures Compare(BagSchema, Bag, Obj([Null], {}), Obj([List([])], {}), nullEqualsEmpty, depth) ==
            if nullEqualsEmpty then Outcome(true, None)
            else Outcome(false, Some(OneIsNull("Items", Null, List([]))))
  {
    var a, b := Obj([Null], {}), Obj([List([])], {});
    MemberRules.AbsentListAgainstList(BagSchema, Bag, a, b, nullEqualsEmpty, depth, 0);
    WalkStarts(BagSchema, Bag, a, b, nullEqualsEmpty, depth);
    if nullEqualsEmpty {
      WalkContinues(BagSchema, Bag, a, b, nullEqualsEmpty, depth, 0);
      WalkEnds(BagSchema, Bag, a, b, nullEqualsEmpty, depth, 1);
    } else {
      WalkReturns(BagSchema, Bag, a, b, nullEqualsEmpty, depth, 0);
    }
  }

  // ---------------------------------------------------------------------------
  // Lists whose first item is null go down the complex-item path.
  // ---------------------------------------------------------------------------

  const NamesSchema: Schema := map["Names" := [Prop("All", TList(TStr, true), false)]]
  const Names: Ty := TClass("Names")

  /**
   * A string reached as an item of a complex list is compared as an object:
   * its only property that reads without an index is Length, so two strings
   * are equal exactly when their lengths are.
   */
  lemma StringsByLength(env: Schema, s1: string, s2: string, nullEqualsEmpty: bool, depth: int)
    ensures Compare(env, TStr, Str(s1), Str(s2), nullEqualsEmpty, depth) ==
            if |s1| == |s2| then Outcome(true, None) else Outcome(false, Some(Unequal("Length", Int(|s1|), Int(|s2|))))
  {
    var a, b := Str(s1), Str(s2);
    MemberRules.ScalarsCompared(env, TStr, a, b, nullEqualsEmpty, depth, 0);
    WalkStarts(env, TStr, a, b, nullEqualsEmpty, depth);
    if |s1| == |s2| {
      WalkContinues(env, TStr, a, b, nullEqualsEmpty, depth, 0);
      WalkEnds(env, TStr, a, b, nullEqualsEmpty, depth, 1);
    } else {
      WalkReturns(env, TStr, a, b, nullEqualsEmpty, depth, 0);
    }
  }

  /**
   * A List<string> whose first item is null is walked item by item, so "ab"
   * and "cd" compare equal.
   */
  lemma StringsComparedByLength(nullEqualsEmpty: bool)
    ensures Compare(NamesSchema, Names, Obj([List([Null, Str("ab")])], {}), Obj([List([Null, Str("cd")])], {}),
                    nullEqualsEmpty, -1) == Outcome(true, None)
  {
    var l1, l2 := List([Null, Str("ab")]), List([Null, Str("cd")]);
    var a, b := Obj([l1], {}), Obj([l2], {});
    assert MemberStep(NamesSchema, Names, a, b, nullEqualsEmpty, -1, 0) == Continue by {
      NullFirstListWalked(l1, l2, nullEqualsEmpty);
      MemberStepByKind(NamesSchema, Names, a, b, nullEqualsEmpty, -1, 0, l1, l2);
    }
    WalkStarts(NamesSchema, Names, a, b, nullEqualsEmpty, -1);
    WalkContinues(NamesSchema, Names, a, b, nullEqualsEmpty, -1, 0);
    WalkEnds(NamesSchema, Names, a, b, nullEqualsEmpty, -1, 1);
  }

  lemma NullFirstListWalked(l1: Value, l2: Value, nullEqualsEmpty: bool)
    requires l1 == List([Null, Str("ab")]) && l2 == List([Null, Str("cd")])
    ensures CollectionStep(NamesSchema, Prop("All", TList(TStr, true), false), l1, l2, nullEqualsEmpty, -1) == Continue
  {
    CheckListsCases("All", l1, l2, nullEqualsEmpty);
    StringsByLength(NamesSchema, "ab", "cd", nullEqualsEmpty, -2);
    ElementsEnd(NamesSchema, TStr, true, l1, l2, nullEqualsEmpty, -1, 2);
  }

  const ArraySchema: Schema := map["Holder" := [Prop("Parts", TList(Inner, false), false)],
                                   "Inner" := [Prop("Value", TInt, false)]]
  const Holder: Ty := TClass("Holder")

  /**
   * An array (no single generic argument) whose first item is null: the pair
   * is skipped when the null is on the first side and compared when it is on
   * the second, so the comparison is not symmetric.
   */
  lemma ArgumentOrderMatters()
    ensures Compare(ArraySchema, Holder, Obj([List([Null])], {}), Obj([List([Obj([Int(5)], {})])], {}), true, -1) ==
            Outcome(true, None)
    ensures Compare(ArraySchema, Holder, Obj([List([Obj([Int(5)], {})])], {}), Obj([List([Null])], {}), true, -1) ==
            Outcome(false, Some(Unequal("Value", Int(5), Int(0))))
  {
    NullFirstItemSkipped(Obj([List([Null])], {}), Obj([List([Obj([Int(5)], {})])], {}));
    ItemAgainstNullCompared(Obj([List([Obj([Int(5)], {})])], {}), Obj([List([Null])], {}));
  }

  lemma NullFirstItemSkipped(a: Value, b: Value)
    requires a == Obj([List([Null])], {}) && b == Obj([List([Obj([Int(5)], {})])], {})
    ensures Compare(ArraySchema, Holder, a, b, true, -1) == Outcome(true, None)
  {
    var l1, l2 := List([Null]), List([Obj([Int(5)], {})]);
    CheckListsCases("Parts", l1, l2, true);
    ElementsEnd(ArraySchema, Inner, false, l1, l2, true, -1, 1);
    MemberStepByKind(ArraySchema, Holder, a, b, true, -1, 0, l1, l2);
    WalkStarts(ArraySchema, Holder, a, b, true, -1);
    WalkContinues(ArraySchema, Holder, a, b, true, -1, 0);
    WalkEnds(ArraySchema, Holder, a, b, true, -1, 1);
  }

  /** With the item first, it is compared against the null, which stands for an instance with Value 0. */
  lemma ItemAgainstNullCompared(b: Value, a: Value)
    requires b == Obj([List([Obj([Int(5)], {})])], {}) && a == Obj([List([Null])], {})
    ensures Compare(ArraySchema, Holder, b, a, true, -1) == Outcome(false, Some(Unequal("Value", Int(5), Int(0))))
  {
    var item := Obj([Int(5)], {});
    var l1, l2 := List([Null]), List([item]);
    ItemAgainstAbsent(item);
    CheckListsCases("Parts", l2, l1, true);
    MemberStepByKind(ArraySchema, Holder, b, a, true, -1, 0, l2, l1);
    FirstStopDecides(ArraySchema, Holder, b, a, true, -1, 0);
  }

  /** An Inner with Value 5 against an absent Inner, which stands for one with Value 0. */
  lemma ItemAgainstAbsent(item: Value)
    requires item == Obj([Int(5)], {})
    ensures Compare(ArraySchema, Inner, item, Null, true, -2) == Outcome(false, Some(Unequal("Value", Int(5), Int(0))))
  {
    MemberRules.ValueAgainstNullScalar(ArraySchema, Inner, item, Null, true, -2, 0);
    FirstStopDecides(ArraySchema, Inner, item, Null, true, -2, 0);
  }

  // ---------------------------------------------------------------------------
  // Arrays compared as objects: the items of a Sheet { Parts: List<string[]> }.
  // ---------------------------------------------------------------------------

  const StringArray: Ty := TList(TStr, false)
  const SheetSchema: Schema := map["Sheet" := [Prop("Parts", TList(StringArray, true), false)]]
  const Sheet: Ty := TClass("Sheet")

  /**
   * An absent string[] against an empty one, under null-equals-empty: Length
   * and LongLength read 0 against the substituted 0, but Rank reads 1 against
   * the substituted 0, so the two are unequal.
   */
  lemma AbsentArrayAgainstEmpty(env: Schema, depth: int)
    ensures Compare(env, StringArray, Null, List([]), true, depth) ==
            Outcome(false, Some(Unequal("Rank", Int(0), Int(1))))
  {
    var b := List([]);
    MemberRules.NullScalarAgainstValue(env, StringArray, Null, b, true, depth, 0);
    MemberRules.NullScalarAgainstValue(env, StringArray, Null, b, true, depth, 1);
    MemberRules.NullScalarAgainstValue(env, StringArray, Null, b, true, depth, 2);
    FirstStopDecides(env, StringArray, Null, b, true, depth, 2);
  }

  /** Arrays of different lengths compared as objects are reported by their Length. */
  lemma ArraysByLength(env: Schema, nullEqualsEmpty: bool, depth: int)
    ensures Compare(env, StringArray, List([Str("a")]), List([]), nullEqualsEmpty, depth) ==
            Outcome(false, Some(Unequal("Length", Int(1), Int(0))))
  {
    FirstDifferenceReported(env, StringArray, List([Str("a")]), List([]), nullEqualsEmpty, depth, 0);
  }

  /**
   * Parts [["a"], null] against [["a"], []]: the first pair is equal, and the
   * second is an absent array against an empty one, which Rank tells apart.
   */
  lemma AbsentPartAgainstEmpty(a: Value, b: Value)
    requires a == Obj([List([List([Str("a")]), Null])], {}) && b == Obj([List([List([Str("a")]), List([])])], {})
    ensures Compare(SheetSchema, Sheet, a, b, true, -1) == Outcome(false, Some(Unequal("Rank", Int(0), Int(1))))
  {
    var l1, l2 := List([List([Str("a")]), Null]), List([List([Str("a")]), List([])]);
    PartsStep(a, b);
    FirstStopDecides(SheetSchema, Sheet, a, b, true, -1, 0);
  }

  lemma PartsStep(a: Value, b: Value)
    requires a == Obj([List([List([Str("a")]), Null])], {}) && b == Obj([List([List([Str("a")]), List([])])], {})
    ensures MemberStep(SheetSchema, Sheet, a, b, true, -1, 0) == Return(Outcome(false, Some(Unequal("Rank", Int(0), Int(1)))))
  {
    var l1, l2 := List([List([Str("a")]), Null]), List([List([Str("a")]), List([])]);
    AbsentPartFound(l1, l2);
    MemberStepByKind(SheetSchema, Sheet, a, b, true, -1, 0, l1, l2);
  }

  lemma AbsentPartFound(l1: Value, l2: Value)
    requires l1 == List([List([Str("a")]), Null]) && l2 == List([List([Str("a")]), List([])])
    ensures CollectionStep(SheetSchema, Prop("Parts", TList(StringArray, true), false), l1, l2, true, -1) ==
            Return(Outcome(false, Some(Unequal("Rank", Int(0), Int(1)))))
  {
    CompareReflexive(SheetSchema, StringArray, List([Str("a")]), true, -2);
    AbsentArrayAgainstEmpty(SheetSchema, -2);
    CheckListsCases("Parts", l1, l2, true);
  }

  // ---------------------------------------------------------------------------
  // A complex item null on one side, without null-equals-empty:
  // Crate { Parts: List<Inner> }.
  // ---------------------------------------------------------------------------

  const CrateSchema: Schema := map["Crate" := [Prop("Parts", TList(Inner, true), false)],
                                   "Inner" := [Prop("Value", TInt, false)]]
  const Crate: Ty := TClass("Crate")

  /**
   * [Inner(1)] against [null]: the nested call returns false at its null
   * check, before writing anything, so the comparison is false with no
   * description.
   */
  lemma NullItemUnreported(a: Value, b: Value)
    requires a == Obj([List([Obj([Int(1)], {})])], {}) && b == Obj([List([Null])], {})
    ensures Compare(CrateSchema, Crate, a, b, false, -1) == Outcome(false, None)
  {
    NullItemStep(a, b);
    FirstStopDecides(CrateSchema, Crate, a, b, false, -1, 0);
  }

  lemma NullItemStep(a: Value, b: Value)
    requires a == Obj([List([Obj([Int(1)], {})])], {}) && b == Obj([List([Null])], {})
    ensures MemberStep(CrateSchema, Crate, a, b, false, -1, 0) == Return(Outcome(false, None))
  {
    var l1, l2 := List([Obj([Int(1)], {})]), List([Null]);
    CheckListsCases("Parts", l1, l2, false);
    assert Compare(CrateSchema, Inner, Obj([Int(1)], {}), Null, false, -2) == Outcome(false, None);
    MemberStepByKind(CrateSchema, Crate, a, b, false, -1, 0, l1, l2);
  }
}
