# Deep comparison of object graphs

This project models `DeepComparison<T>.CompareObject`, a reflection-based
structural equality test. It walks the public properties of two instances of
a type, in the order reflection returns them, and tries each pair of values
in a fixed order:

- both null: skip;
- a directly comparable scalar, after the null-equals-empty substitution;
- a complex member that is null on one side;
- a collection, through its count rules, a `SequenceEqual` fast path and a
  lock-step walk over complex items;
- a nested complex value, recursed into one level deeper unless the depth
  bound is 0.

The first difference ends the walk. The method returns `false` and writes a
one-line description to the caller's `mismatchInfo.info`. `InvokeCompare`
re-enters the method for a type found at run time, passing `depth - 1`.

The model has six files:

- `reflection.dfy` covers the runtime the engine reaches through reflection:
  - declared property types (`Ty`);
  - a schema of named classes (so a class may contain itself);
  - runtime values (`Value`), whose objects may have getters that throw;
  - property reads with exceptions swallowed;
  - `IComparable`, `Activator.CreateInstance` and `FirstOrDefault`.
- `deep_comparison.dfy` holds the engine:
  - `Compare` is the specification. It is a pure recursive function that
    returns an `Outcome`: the boolean result plus the description written
    to the sink, if any.
  - `CompareObject` and `InvokeCompare` are the source's two methods. They
    are written imperatively: a `for` loop over the properties with
    `continue` and early returns, and a `while` loop over the two lists in
    lock-step. Every level of the recursion writes into one shared
    `MismatchInfo` object.
  - Each method is proved to return `Compare(...).same` and to leave the
    sink holding `Compare(...).info`, or its old contents when nothing was
    written.
- `member_rules.dfy` states, rule by rule, what one pass of the loop does
  with one member.
- `comparison_properties.dfy` proves properties of `Compare`:
  - reflexivity;
  - excluded members are ignored;
  - all negative depths agree;
  - depth monotonicity;
  - short-circuit and first-difference reporting;
  - an absent object equals a freshly constructed one.
- `scenarios.dfy` works small concrete examples.
- `wrappers.dfy` holds `Option`.

Termination is on the size of the larger of the two values. It is not on the
depth, which stays negative forever when unbounded. A default instance built
by `CreateInstance` adds at most one node. It stands in for a nested member
that is itself at least one node smaller than its parent, so substituting it
keeps the recursion decreasing.

Some of the code's behaviour is easy to miss, and the model keeps it as written:

- The early `false` for one null argument without null-equals-empty (lines
  20-21) writes no description. A nested call can therefore make the
  comparison return `false` with the sink untouched. This happens, for
  example, when a complex list item is null on one side only. See
  `Scenarios.NullItemUnreported`.
- Without null-equals-empty, a nested complex member is compared as two
  freshly constructed instances, not as the values it holds (lines 136-137).
  See `Scenarios.NestedComparedAsDefaults`.
- A complex member null on one side, without null-equals-empty, is reported
  before the collection rules are tried (lines 69-73). This includes lists.
- The `return result` at line 95 always returns `false`. `Compare`'s
  contract `same ==> info == None` shows this, since that path always
  writes a description.
- Which collection path is taken depends only on the first item of the
  first list (line 102). A null first item sends a list of strings down the
  complex path, where each string is compared by its `Length`. See
  `Scenarios.StringsComparedByLength`.
- For an array, a pair whose first item is null is skipped (lines 119-125).
  The comparison is therefore not symmetric. See
  `Scenarios.ArgumentOrderMatters`.

## Model

| member | source | states |
|---|---|---|
| DeepComparison.Compare | DeepComparison.cs:13-143 | the result and what is written to the sink; a true result writes nothing; two nulls are equal; without null-equals-empty one null is unequal and writes nothing |
| DeepComparison.CheckListsCases | DeepComparison.cs:81-111 | the collection rules in order: null against null-or-empty (skip only under null-equals-empty), null against non-empty, count mismatch, and the comparable fast path, which passes exactly when the lists are equal item by item |
| DeepComparison.CheckLists | DeepComparison.cs:81-111 | a rule that stops the walk always fails |
| DeepComparison.CompareMembers | DeepComparison.cs:26-142 | the property walk finishing true writes no description |
| DeepComparison.MemberStep | DeepComparison.cs:28-140 | a member that ends the walk always ends it with false; the values read are sorted by `Classify` in the order of lines 48-75 and 132-137 (excluded or both null, comparable, one-sided null, collection, nested) |
| DeepComparison.CollectionStep | DeepComparison.cs:75-131 | a collection member that stops the walk stops it with false |
| DeepComparison.ComplexStep | DeepComparison.cs:132-140 | a nested member stops the walk only with false, and never at depth 0 |
| DeepComparison.CompareElements | DeepComparison.cs:115-129 | the lock-step item walk finishing true writes no description |
| DeepComparison.MismatchInfo.constructor | DeepComparison.cs:15-16 | a new sink holds no description |
| DeepComparison.CompareObject | DeepComparison.cs:13-143 | with the source's defaults (null equals empty, depth -1, no sink), returns Compare's result and leaves a caller's sink holding what Compare writes, or its old contents when nothing is written |
| DeepComparison.InvokeCompare | DeepComparison.cs:152-160 | the same as CompareObject at depth - 1 |
| DeepComparison.CompareProperty | DeepComparison.cs:28-140 | one pass of the loop: the method returns exactly when MemberStep stops the walk, returns its result, and writes its description; otherwise the sink is unchanged |
| DeepComparison.CompareNested | DeepComparison.cs:69-140 | the one-null, collection and nested branches of one pass, with the same contract as CompareProperty |
| DeepComparison.CompareScalar | DeepComparison.cs:54-68 | after the null substitution, the method returns exactly when the values differ and then writes the member name with both values |
| DeepComparison.CompareComplex | DeepComparison.cs:132-140 | the nested recursion agrees with ComplexStep, skipped at depth 0 |
| DeepComparison.CompareCollection | DeepComparison.cs:75-131 | the collection branch agrees with CollectionStep, including what it writes |
| DeepComparison.CompareItems | DeepComparison.cs:115-129 | the enumerator loop returns CompareElements' result and writes what it writes |
| DeepComparison.CompareItemPair | DeepComparison.cs:119-128 | one item pair: passes and writes nothing, or fails with the nested description |
| Reflection.Read | DeepComparison.cs:28-44 | an absent object or a throwing getter reads as null; a nested value is smaller than its holder |
| Reflection.ListRead | DeepComparison.cs:35-42 | a collection's properties hold no list or object, and read non-null exactly for the properties its type declares: Count for a List<T>; Length, LongLength, Rank, IsReadOnly, IsFixedSize and IsSynchronized for an array |
| Reflection.Count | DeepComparison.cs:94 | the count is absent exactly for a null list |
| Reflection.CreateInstance | DeepComparison.cs:136-137 | a default instance adds at most one node; a class instance has one field per property and no throwing getters |
| Reflection.EmptyFor | DeepComparison.cs:58-61 | the empty string for strings, zero for int and int?, false for bool |
| MemberRules.NullScalarAgainstValue | DeepComparison.cs:54-67 | a scalar null on the first side: under null-equals-empty it passes exactly when the other side is the type's empty value, else it fails with the substituted value; without the policy it fails with the null |
| MemberRules.ValueAgainstNullScalar | DeepComparison.cs:54-67 | the same with the null on the second side |
| MemberRules.ScalarsCompared | DeepComparison.cs:54-67 | two non-null scalars pass exactly when equal, and otherwise fail naming the member with both values, at every depth |
| MemberRules.AbsentListAgainstList | DeepComparison.cs:69-96 | an absent list against a present one: under null-equals-empty, equal to an empty list and an unequal length against a non-empty one; without the policy, reported as a one-sided null |
| MemberRules.PresentLists | DeepComparison.cs:97-111 | unequal counts fail with both counts before any item is compared; with a comparable first item the member passes exactly when the lists are equal item by item, in order |
| MemberRules.NothingNestedAtDepthZero | DeepComparison.cs:125-127 | at depth 0 a nested member and a list of complex items never stop the walk |
| MemberRules.ElementsAtDepthZero | DeepComparison.cs:115-129 | at depth 0 the item walk compares nothing and finds the lists equal |
| ComparisonProperties.CompareReflexive | DeepComparison.cs:13-143 | any value compares equal to itself under every policy and depth, writing nothing |
| ComparisonProperties.MembersReflexive | DeepComparison.cs:26-142 | the property walk of a value against itself passes every member |
| ComparisonProperties.EqualReadsContinue | DeepComparison.cs:28-140 | a member that reads the same on both sides never stops the walk |
| ComparisonProperties.ElementsReflexive | DeepComparison.cs:115-129 | a list walked against itself passes every item |
| ComparisonProperties.NegativeDepthsAgree | DeepComparison.cs:152-160 | every negative depth gives the same outcome: unbounded stays unbounded |
| ComparisonProperties.MembersAgreeBelowZero | DeepComparison.cs:26-142 | the property walk is the same for any two negative depths |
| ComparisonProperties.StepAgreesBelowZero | DeepComparison.cs:28-140 | one member is handled the same for any two negative depths |
| ComparisonProperties.CollectionAgreesBelowZero | DeepComparison.cs:75-131 | a collection member is handled the same for any two negative depths |
| ComparisonProperties.ComplexAgreesBelowZero | DeepComparison.cs:132-140 | a nested member is handled the same for any two negative depths |
| ComparisonProperties.ElementsAgreeBelowZero | DeepComparison.cs:115-129 | the item walk is the same for any two negative depths |
| ComparisonProperties.DepthMonotone | DeepComparison.cs:10 | objects equal down to a depth are equal down to any smaller non-negative depth |
| ComparisonProperties.MembersMonotone | DeepComparison.cs:26-142 | the same for the property walk |
| ComparisonProperties.StepMonotone | DeepComparison.cs:28-140 | a member passed at the deeper bound is passed at the shallower one |
| ComparisonProperties.CollectionMonotone | DeepComparison.cs:75-131 | a collection member passed at the deeper bound is passed at the shallower one |
| ComparisonProperties.ElementsMonotone | DeepComparison.cs:115-129 | the item walk passing at the deeper bound passes at the shallower one |
| ComparisonProperties.ExcludedMembersIgnored | DeepComparison.cs:24 | changing only ModelBase properties and HasErrors leaves the outcome and the description unchanged |
| ComparisonProperties.MembersIgnoreExcluded | DeepComparison.cs:48-49 | the same for the property walk from any member on |
| DeepComparison.ExcludedPassedOver | DeepComparison.cs:24-49 | an excluded member never stops the walk |
| ComparisonProperties.StepDependsOnReads | DeepComparison.cs:28-46 | one member's handling depends on the objects only through the two values read |
| ComparisonProperties.WalkReachesStop | DeepComparison.cs:26-142 | the walk returns what the first stopping member returns |
| ComparisonProperties.FirstStopDecides | DeepComparison.cs:26-142 | the first member that stops the walk decides the outcome, which is false |
| ComparisonProperties.LaterMembersIgnored | DeepComparison.cs:26-142 | members after the first stopping one are never examined: changing them leaves the outcome unchanged |
| ComparisonProperties.FirstDifferenceReported | DeepComparison.cs:54-67 | when the earlier compared members read alike and member i holds two different scalars, the result is false naming member i with both values |
| ComparisonProperties.FreshFieldRead | DeepComparison.cs:136-137 | each property of a freshly constructed instance holds its type's default |
| ComparisonProperties.AbsentEqualsFresh | DeepComparison.cs:18-21 | under null-equals-empty, an absent object equals a freshly constructed instance either way round at any depth; without the policy it never does |
| ComparisonProperties.FreshMembersMatchAbsent | DeepComparison.cs:56-61 | every member of a fresh instance passes against an absent object under null-equals-empty |
| Scenarios.RecordsEqual | DeepComparison.cs:13-143 | {Id 1, Tags [a, b]} equals itself |
| Scenarios.RecordsDifferInId | DeepComparison.cs:63-66 | Id 1 against Id 2 is false with Id, 1 and 2 reported |
| Scenarios.RecordsDifferThroughSink | DeepComparison.cs:13-16 | through CompareObject, the call returns false and the caller's sink holds the Id description |
| Scenarios.RecordsDifferByDefault | DeepComparison.cs:13 | CompareObject called with only the two records, using the default arguments, returns false |
| Scenarios.NestedSkippedAtDepthZero | DeepComparison.cs:138 | Child.Value 1 against 2 is equal at depth 0 |
| Scenarios.NestedDifferenceFound | DeepComparison.cs:132-140 | the same objects are unequal at any other depth under null-equals-empty, reported as Value 1 / 2 |
| Scenarios.NestedComparedAsDefaults | DeepComparison.cs:136-137 | without null-equals-empty the same objects are equal at every depth |
| Scenarios.ListLengthsDiffer | DeepComparison.cs:97-101 | a List<string> ["a", "b", "c"] against ["a", "b"] fails with counts 3 and 2 |
| Scenarios.AbsentAgainstEmptyList | DeepComparison.cs:69-96 | an absent List<string> against an empty one: equal under null-equals-empty, otherwise unequal |
| Scenarios.StringsByLength | DeepComparison.cs:24 | strings reached as complex items are equal exactly when their lengths are |
| Scenarios.NullFirstListWalked | DeepComparison.cs:102-129 | a list of strings with a null first item is walked item by item |
| Scenarios.StringsComparedByLength | DeepComparison.cs:102 | such lists of "ab" and "cd" compare equal |
| Scenarios.ArgumentOrderMatters | DeepComparison.cs:119-125 | an array with a null first item is equal to one with an object there, but not the other way round |
| Scenarios.NullFirstItemSkipped | DeepComparison.cs:119-125 | a null first-side array item has no type and its pair is skipped |
| Scenarios.ItemAgainstNullCompared | DeepComparison.cs:119-128 | an object first-side array item is compared against the null, and the nested difference is returned |
| Scenarios.AbsentArrayAgainstEmpty | DeepComparison.cs:54-67 | an absent string[] against an empty one under null-equals-empty is unequal at Rank, 0 / 1, after Length and LongLength pass as 0 / 0 |
| Scenarios.ArraysByLength | DeepComparison.cs:63-66 | string arrays of one and no items compared as objects are reported by Length, 1 / 0 |
| Scenarios.AbsentPartFound | DeepComparison.cs:115-128 | the items of List<string[]> [["a"], null] and [["a"], []] are walked, the first pair passes, and the second fails at Rank |
| Scenarios.AbsentPartAgainstEmpty | DeepComparison.cs:121-127 | objects holding those two lists are unequal, reported as Rank 0 / 1 |
| Scenarios.NullItemStep | DeepComparison.cs:115-128 | without null-equals-empty, a List<Inner> [Inner(1)] against [null] stops at the item: the nested call returns false at line 21 and writes nothing |
| Scenarios.NullItemUnreported | DeepComparison.cs:18-21 | the comparison of objects holding those lists is false with the sink untouched |
| Scenarios.ItemAgainstAbsent | DeepComparison.cs:56-67 | an Inner with Value 5 against an absent Inner is unequal, reported as Value 5 / 0 |

## Left out

- The demonstration driver in `PackageTest` is not part of this model.
- Reflection plumbing: `GetProperties`, `DeclaringType`, `GetInterfaces`,
  `GetGenericArguments`, and `MakeGenericType`/`Invoke` on `ObjectHelper<>`.
  These become the schema, the declared `Ty` and a direct recursive call.
  `ObjectHelper<>` is not part of this model: it is assumed to forward to
  `CompareObject`.
- The runtime type of a value is its declared type: subclasses and
  interfaces are not modelled. The item type found at line 121 from the
  first list's current item is the list's declared item type.
- Floating-point, dates and user classes implementing `IComparable` are not
  modelled. Scalars are `int`, `int?`, `bool` and `string`.
- Scalars are compared by value, as `object.Equals` compares boxed values at
  lines 63 and 104. `SequenceEqual` is modelled as equality of the item
  values. A class-typed item that follows a comparable first item (in a
  `List<object>`, say) is compared by reference in the source and by
  structure in the model.
- `List<T>.Capacity` is not modelled. The indexers `Chars` and `Item` throw
  without an index, so they always read as null on both sides and are
  skipped.
- `Reflection.ArrayProps` leaves out `Array.SyncRoot`. It is declared as
  `object`, which has no public properties, so comparing it always passes
  and writes nothing. Arrays are one-dimensional, so `Rank` reads 1, and
  `LongLength` is an unbounded integer like `Length`.
- `depth` is an `Int32` in the source (lines 13 and 156), so `depth - 1`
  wraps from `int.MinValue` to `int.MaxValue`. The model uses an unbounded
  `int`. The difference would need more than 2^31 levels of nesting.
- The `InvalidCastException` that `(IEnumerable<dynamic>)` throws at lines
  77-78 for a list of value types (`List<int>`, `int[]`) is not modelled:
  such a list is treated like any other. The collection examples in
  `scenarios.dfy` use lists of strings, which the cast accepts.
- `Length` of a string is its number of characters (`|s|`), not its number
  of UTF-16 code units: `Scenarios.StringsByLength` differs from the source
  for strings with characters outside the Basic Multilingual Plane.
- `Activator.CreateInstance` always succeeds and fills each property with
  its type's default. Constructors that throw or initialise properties are
  not modelled.
- Static properties are not modelled.
- Values of the wrong shape for their declared type are not excluded, but no
  property is claimed about them.
- The `ExpandoObject` sink is a single optional `Mismatch` record. The text
  of the message and its culture-dependent formatting are not modelled.
  `Mismatch` keeps the member name, the values or counts, and the kind.
- The `Where` filter on the declaring type is modelled as a `continue` in the
  loop. The body of the `foreach` is split into helper methods
  (`CompareProperty`, `CompareNested`, `CompareScalar`, `CompareCollection`,
  `CompareComplex`, `CompareItemPair`), so that each verifies on its own.
- Exceptions other than those thrown by getters are not modelled: an
  exception never escapes the comparison.
- Cyclic object graphs are not modelled: values are finite trees.
