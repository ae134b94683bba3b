/**
 * The part of the .NET runtime that the comparison engine reaches through
 * reflection: declared property types, the properties a type exposes, reading
 * a property of an instance (a getter that throws reads as null), the
 * IComparable test, and Activator.CreateInstance.
 *
 * Instances are trees of values; a class is named, and its properties are
 * looked up in a schema, so a class may mention itself (a tree node with a
 * list of child nodes).
 */
module Reflection {
  import opened Wrappers

  /** The declared type of a property. */
  datatype Ty =
    | TInt                                   // int (any non-nullable integral value type)
    | TNullableInt                           // int?, i.e. Nullable<int>
    | TBool
    | TStr
    | TList(elem: Ty, oneTypeArg: bool)      // a type implementing IEnumerable; oneTypeArg holds for
                                             // List<T> (exactly one generic argument), not for T[]
    | TClass(name: string)

  /** A public property: its name, declared type, and whether ModelBase declares it. */
  datatype Prop = Prop(name: string, ty: Ty, onModelBase: bool)

  /** The public properties of each class, in the order reflection enumerates them. */
  type Schema = map<string, seq<Prop>>

  /**
   * A runtime value. An object holds one value per property of its class, in
   * the schema's order; the getters at the positions in `unreadable` throw
   * (a stream already in a faulted state, say).
   */
  datatype Value =
    | Null
    | Int(n: int)
    | Bool(b: bool)
    | Str(s: string)
    | List(elems: seq<Value>)
    | Obj(fields: seq<Value>, unreadable: set<nat>)

  /** `v as IComparable != null`: the boxed int, bool and string values. */
  predicate IsComparable(v: Value) {
    v.Int? || v.Bool? || v.Str?
  }

  /** The number of list and object nodes in a value. */
  function Size(v: Value): nat {
    match v
    case List(es) => 1 + SumSizes(es)
    case Obj(fs, _) => 1 + SumSizes(fs)
    case _ => 0
  }

  function SumSizes(vs: seq<Value>): nat {
    if vs == [] then 0 else Size(vs[0]) + SumSizes(vs[1..])
  }

  /** The measure the comparison decreases on: the larger of its two inputs. */
  function Measure(v1: Value, v2: Value): nat {
    if Size(v1) < Size(v2) then Size(v2) else Size(v1)
  }

  lemma {:induction false} PartSmaller(vs: seq<Value>, k: nat)
    requires k < |vs|
    ensures Size(vs[k]) <= SumSizes(vs)
  {
    if k > 0 { PartSmaller(vs[1..], k - 1); }
  }

  lemma {:induction false} ScalarsWeighNothing(vs: seq<Value>)
    requires forall k :: 0 <= k < |vs| ==> Size(vs[k]) == 0
    ensures SumSizes(vs) == 0
  {
    if vs != [] { ScalarsWeighNothing(vs[1..]); }
  }

  /**
   * The properties `typeof(T).GetProperties()` yields. For a string this is
   * Length, and for a List<T> it is Count: their indexers (Chars, Item) take
   * an index, so reading them without one throws and they read as null on
   * both sides, which the comparison always skips. For an array T[] they are
   * the properties System.Array declares, in its order; SyncRoot, declared
   * as object, is left out (see ArrayProps).
   */
  function Props(env: Schema, t: Ty): seq<Prop> {
    match t
    case TClass(n) => if n in env then env[n] else []
    case TStr => [Prop("Length", TInt, false)]
    case TList(_, oneTypeArg) => ListProps(oneTypeArg)
    case _ => []
  }

  /** The properties of a List<T>, or of an array when it has no single generic argument. */
  function ListProps(oneTypeArg: bool): seq<Prop> {
    if oneTypeArg then [Prop("Count", TInt, false)] else ArrayProps
  }

  /**
   * Length, LongLength (a long, modelled as an int), Rank, IsReadOnly,
   * IsFixedSize and IsSynchronized. SyncRoot sits between Rank and IsReadOnly
   * in System.Array; its declared type, object, has no public properties, so
   * the comparison always passes it and leaving it out changes no outcome.
   */
  const ArrayProps: seq<Prop> := [Prop("Length", TInt, false), Prop("LongLength", TInt, false),
                                  Prop("Rank", TInt, false), Prop("IsReadOnly", TBool, false),
                                  Prop("IsFixedSize", TBool, false), Prop("IsSynchronized", TBool, false)]

  /**
   * A property of a collection of n items: Count for a List<T>, the
   * ArrayProps for an array; none of them holds a list or an object.
   */
  function ListRead(oneTypeArg: bool, n: nat, i: nat): (r: Value)
    ensures Size(r) == 0
    ensures r != Null <==> i < |ListProps(oneTypeArg)|
  {
    if !oneTypeArg then ArrayRead(n, i) else if i == 0 then Int(n) else Null
  }

  /** What the i-th of ArrayProps reads on a one-dimensional array of n items. */
  function ArrayRead(n: nat, i: nat): (r: Value)
    ensures i < |ArrayProps| <==> r != Null
    ensures i < 2 ==> r == Int(n)
  {
    if i < 2 then Int(n)
    else if i == 2 then Int(1)
    else if i == 3 then Bool(false)
    else if i == 4 then Bool(true)
    else if i == 5 then Bool(false)
    else Null
  }

  /**
   * `propInfo.GetValue(obj, null)` for the i-th property of type t, with any
   * exception swallowed: an absent instance, a throwing getter or a value
   * that does not have the property all read as null.
   */
  function Read(t: Ty, v: Value, i: nat): (r: Value)
    ensures v == Null ==> r == Null
    ensures v.Obj? && i in v.unreadable ==> r == Null
    ensures r.List? || r.Obj? ==> Size(r) < Size(v)
  {
    match v
    case Obj(fs, bad) =>
      if t.TClass? && i < |fs| && i !in bad then PartSmaller(fs, i); fs[i] else Null
    case Str(s) => if t == TStr && i == 0 then Int(|s|) else Null
    case List(es) => if t.TList? then ListRead(t.oneTypeArg, |es|, i) else Null
    case _ => Null
  }

  /** The elements a collection enumerates; a value that is not a list yields none. */
  function Elems(v: Value): seq<Value> {
    if v.List? then v.elems else []
  }

  lemma ElemSmaller(v: Value, k: nat)
    requires k < |Elems(v)|
    ensures Size(Elems(v)[k]) < Size(v)
  {
    PartSmaller(v.elems, k);
  }

  /** `list.Count()`, with None standing for the "{null}" of an absent list. */
  function Count(v: Value): (r: Option<nat>)
    ensures r.None? <==> v == Null
  {
    if v == Null then None else Some(|Elems(v)|)
  }

  /** `FirstOrDefault()` over a sequence of reference-typed items. */
  function FirstOrDefault(es: seq<Value>): (r: Value)
    ensures es == [] ==> r == Null
    ensures es != [] ==> r == es[0]
  {
    if es == [] then Null else es[0]
  }

  /** `default(T)` of a property: zero for value types, null for everything else. */
  function FieldDefault(t: Ty): (r: Value)
    ensures Size(r) == 0
  {
    match t
    case TInt => Int(0)
    case TBool => Bool(false)
    case _ => Null
  }

  /**
   * `Activator.CreateInstance(t)`: a value type's zero, a boxed default
   * Nullable<int> (which is null), or an object whose properties all hold
   * their type's default. It adds at most one node, which is what lets the
   * comparison substitute it and still terminate. For a string or an array
   * .NET throws MissingMethodException, as neither has a parameterless
   * constructor; the "" and empty list given here are never reached that
   * way, since EmptyFor handles strings itself and a collection member never
   * gets to the nested branch that creates instances.
   */
  function CreateInstance(env: Schema, t: Ty): (r: Value)
    ensures Size(r) <= 1
    ensures t.TClass? ==> r.Obj? && |r.fields| == |Props(env, t)| && r.unreadable == {}
  {
    match t
    case TInt => Int(0)
    case TBool => Bool(false)
    case TNullableInt => Null
    case TStr => Str("")
    case TList(_, _) => List([])
    case TClass(_) =>
      var props := Props(env, t);
      var fs := seq(|props|, i requires 0 <= i < |props| => FieldDefault(props[i].ty));
      ScalarsWeighNothing(fs);
      Obj(fs, {})
  }

  /**
   * The value a null scalar side is replaced by when null equals empty:
   * the empty string for a string property, otherwise a fresh instance of the
   * type with any Nullable<> wrapper removed.
   */
  function EmptyFor(env: Schema, t: Ty): (r: Value)
    ensures t == TStr ==> r == Str("")
    ensures t == TInt || t == TNullableInt ==> r == Int(0)
    ensures t == TBool ==> r == Bool(false)
  {
    if t == TStr then Str("")
    else CreateInstance(env, if t == TNullableInt then TInt else t)
  }
}
