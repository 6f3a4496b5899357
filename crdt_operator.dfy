/**
 * `MemoryBackend::CrdtOperator`: merges a batch of CRDT operations into the
 * value stored under a key and stores the result.  `merge` is a recursive
 * function over the datatype; where Ruby would raise on ill-typed data (a
 * method missing on the loaded value) the model returns a `Fault`.
 */
module CrdtOperating {
  import opened Common
  import opened CrdtTypes
  import opened Records
  import opened BucketStore
  import opened Memory
  import opened CrdtLoading

  /**
   * `data ||= DEFAULTS[datatype].call if DEFAULTS[datatype]`: Ruby's `||=`
   * replaces both `nil` and `false`, and only when the datatype has a default.
   */
  function Start(data: Option<Value>, dt: Datatype): (r: Option<Value>)
    ensures data.None? ==> r == DefaultFor(dt)
    ensures data == Some(Bool(false)) ==> r == if DefaultFor(dt).Some? then DefaultFor(dt) else data
    ensures data.Some? && data != Some(Bool(false)) ==> r == data
  {
    if (data.None? || data == Some(Bool(false))) && DefaultFor(dt).Some? then DefaultFor(dt) else data
  }

  /** The elements of `Array(value[:add])` or `Array(value[:remove])`. */
  function Elems(s: seq<string>): set<string> {
    set x | x in s
  }

  /** `data = value` for a flag or register: any scalar becomes the new value. */
  function Assign(op: OpValue): (r: Result<Value>)
    ensures r.Ok? <==> op.IntArg? || op.BoolArg? || op.StrArg?
    ensures r.Ok? ==> (r.value.Int? <==> op.IntArg?) && (r.value.Bool? <==> op.BoolArg?) && (r.value.Str? <==> op.StrArg?)
    ensures r.Err? ==> r.error.Fault?
  {
    match op
    case IntArg(n) => Ok(Int(n))
    case BoolArg(b) => Ok(Bool(b))
    case StrArg(s) => Ok(Str(s))
    case _ => Err(Fault("a flag or register holds a scalar"))
  }

  /** `merge(data, datatype, value)`. */
  function Merge(data: Option<Value>, dt: Datatype, op: OpValue): (r: Result<Value>)
    ensures r.Err? ==> r.error.Fault?
    ensures r.Ok? && dt == SetType ==> r.value.Strings?
    ensures r.Ok? && dt == MapType ==> r.value.Fields?
    ensures r.Ok? && dt == CounterType ==> (r.value.Int? <==> op.IntArg?) && (r.value.Str? <==> op.StrArg?)
    ensures dt == FlagType || dt == RegisterType ==> (r.Ok? <==> op.IntArg? || op.BoolArg? || op.StrArg?)
    decreases op
  {
    var d := Start(data, dt);
    match dt
    case SetType =>
      if d.Some? && d.value.Strings? && op.SetEdit? then
        Ok(Strings((d.value.elems + Elems(op.add)) - Elems(op.remove)))
      else Err(Fault("set merge needs a Set and an add/remove hash"))
    case CounterType =>
      if d.Some? && d.value.Int? && op.IntArg? then Ok(Int(d.value.n + op.n))
      else if d.Some? && d.value.Str? && op.StrArg? then Ok(Str(d.value.s + op.s))
      else Err(Fault("counter merge: operands cannot be added"))
    case FlagType => Assign(op)
    case RegisterType => Assign(op)
    case MapType =>
      if d.Some? && d.value.Fields? then
        match op
        case Update(t, name, child) =>
          var f := Facet(d.value, t);
          var c := Merge(if name in f then Some(f[name]) else None, t, child);
          if c.Err? then c else Ok(WithFacet(d.value, t, f[name := c.value]))
        case Delete(t, name) => Ok(WithFacet(d.value, t, Facet(d.value, t) - {name}))
        case _ => Err(Fault("map merge needs an Update or a Delete"))
      else Err(Fault("map merge needs a Hash of facets"))
  }

  /** `v` has the Ruby shape of a `dt` value, all the way down a map's children. */
  predicate Conforms(v: Value, dt: Datatype)
    decreases v
  {
    match dt
    case CounterType => v.Int?
    case SetType => v.Strings?
    case FlagType => v.Bool?
    case RegisterType => v.Str?
    case MapType =>
      v.Fields? &&
      (forall k :: k in v.counters ==> Conforms(v.counters[k], CounterType)) &&
      (forall k :: k in v.flags ==> Conforms(v.flags[k], FlagType)) &&
      (forall k :: k in v.maps ==> Conforms(v.maps[k], MapType)) &&
      (forall k :: k in v.registers ==> Conforms(v.registers[k], RegisterType)) &&
      (forall k :: k in v.sets ==> Conforms(v.sets[k], SetType))
  }

  /** Every child of facet `t` has the shape of a `t` value. */
  predicate FacetConforms(f: map<string, Value>, t: Datatype) {
    forall k :: k in f ==> Conforms(f[k], t)
  }

  /** A map value conforms exactly when each of its five facets does. */
  lemma ConformsByFacet(v: Value)
    requires v.Fields?
    ensures Conforms(v, MapType) <==> forall t :: FacetConforms(Facet(v, t), t)
  {
    if Conforms(v, MapType) {
      forall t ensures FacetConforms(Facet(v, t), t) {
        match t
        case CounterType =>
        case SetType =>
        case FlagType =>
        case RegisterType =>
        case MapType =>
      }
    }
    if forall t :: FacetConforms(Facet(v, t), t) {
      assert FacetConforms(Facet(v, CounterType), CounterType);
      assert FacetConforms(Facet(v, FlagType), FlagType);
      assert FacetConforms(Facet(v, MapType), MapType);
      assert FacetConforms(Facet(v, RegisterType), RegisterType);
      assert FacetConforms(Facet(v, SetType), SetType);
    }
  }

  /** The operation payload that a `dt` operation is meant to carry. */
  predicate Fits(dt: Datatype, op: OpValue)
    decreases op
  {
    match dt
    case CounterType => op.IntArg?
    case SetType => op.SetEdit?
    case FlagType => op.BoolArg?
    case RegisterType => op.StrArg?
    case MapType =>
      match op
      case Update(t, _, child) => Fits(t, child)
      case Delete(_, _) => true
      case _ => false
  }

  /** Replacing one facet of a well-typed map by a well-typed facet gives a well-typed map. */
  lemma WithFacetConforms(v: Value, t: Datatype, f: map<string, Value>)
    requires v.Fields? && Conforms(v, MapType) && FacetConforms(f, t)
    ensures Conforms(WithFacet(v, t, f), MapType)
  {
    ConformsByFacet(v);
    var r := WithFacet(v, t, f);
    assert forall u :: FacetConforms(Facet(r, u), u);
    ConformsByFacet(r);
  }

  /**
   * Merging a well-typed operation into a well-typed value (or into nothing)
   * succeeds and gives a well-typed value: the operator never raises on data
   * it wrote itself.
   */
  lemma {:induction false} MergeWellTyped(data: Option<Value>, dt: Datatype, op: OpValue)
    requires data.None? || Conforms(data.value, dt)
    requires Fits(dt, op)
    ensures Merge(data, dt, op).Ok? && Conforms(Merge(data, dt, op).value, dt)
    decreases op, 1
  {
    DefaultForCases();
    if dt == MapType {
      MergeMapWellTyped(data, op);
    }
  }

  /** The map case of `MergeWellTyped`: an update recurses into a well-typed child, a delete only removes one. */
  lemma {:induction false} MergeMapWellTyped(data: Option<Value>, op: OpValue)
    requires data.None? || Conforms(data.value, MapType)
    requires Fits(MapType, op)
    ensures Merge(data, MapType, op).Ok? && Conforms(Merge(data, MapType, op).value, MapType)
    decreases op, 0
  {
    DefaultForCases();
    var v := Start(data, MapType).value;
    assert Merge(data, MapType, op) == Merge(Some(v), MapType, op);
    match op
    case Update(t, name, child) =>
      var f := Facet(v, t);
      var childData := if name in f then Some(f[name]) else None;
      ConformsByFacet(v);
      assert FacetConforms(f, t);
      MergeWellTyped(childData, t, child);
      MergeMapUpdate(v, t, name, child);
      UpdatedConforms(v, Merge(Some(v), MapType, op).value, t, name, Merge(childData, t, child).value);
    case Delete(t, name) =>
      ConformsByFacet(v);
      WithFacetConforms(v, t, Facet(v, t) - {name});
  }

  /**
   * A map whose facet `t` gained or replaced one well-typed child, and whose
   * other facets are unchanged, is as well typed as before.
   */
  lemma UpdatedConforms(v: Value, r: Value, t: Datatype, name: string, c: Value)
    requires v.Fields? && r.Fields? && Conforms(v, MapType) && Conforms(c, t)
    requires Facet(r, t) == Facet(v, t)[name := c]
    requires forall u :: u != t ==> Facet(r, u) == Facet(v, u)
    ensures Conforms(r, MapType)
  {
    ConformsByFacet(v);
    assert forall u :: FacetConforms(Facet(r, u), u);
    ConformsByFacet(r);
  }

  /** `data.merge(add); data.subtract(remove)`: an element is present afterwards exactly when it was there or added, and not removed. */
  lemma MergeSet(data: Option<Value>, add: seq<string>, remove: seq<string>)
    requires data.None? || data.value.Strings?
    ensures var r := Merge(data, SetType, SetEdit(add, remove));
      r.Ok? && r.value.Strings? &&
      forall x :: x in r.value.elems <==> ((data.Some? && x in data.value.elems) || x in add) && x !in remove
  {
  }

  /** `data += value`: a counter grows by the delta, starting from 0 when absent. */
  lemma MergeCounter(data: Option<Value>, delta: int)
    requires data.None? || data.value.Int?
    ensures Merge(data, CounterType, IntArg(delta)) == Ok(Int((if data.Some? then data.value.n else 0) + delta))
  {
  }

  /** `data = value`: a flag or register takes the operation's value whatever it held before. */
  lemma MergeAssign(data: Option<Value>, data': Option<Value>, dt: Datatype, op: OpValue)
    requires dt == FlagType || dt == RegisterType
    ensures Merge(data, dt, op) == Merge(data', dt, op)
    ensures op.BoolArg? ==> Merge(data, dt, op) == Ok(Bool(op.b))
    ensures op.StrArg? ==> Merge(data, dt, op) == Ok(Str(op.s))
  {
  }

  /** A missing value of a type with a default is merged as that default. */
  lemma MergeFromDefault(dt: Datatype, op: OpValue)
    requires DefaultFor(dt).Some?
    ensures Merge(None, dt, op) == Merge(DefaultFor(dt), dt, op)
  {
    DefaultForCases();
  }

  /** A stored `false` is merged into as if it were absent, for every datatype with a default. */
  lemma MergeFromFalse(dt: Datatype, op: OpValue)
    requires DefaultFor(dt).Some?
    ensures Merge(Some(Bool(false)), dt, op) == Merge(None, dt, op)
  {
    DefaultForCases();
  }

  /** A counter operation on a key that holds `false` (say, after a flag batch) counts from 0. */
  lemma CounterOverFalse(n: int)
    ensures Merge(Some(Bool(false)), CounterType, IntArg(n)) == Ok(Int(n))
  {
    DefaultForCases();
  }

  /**
   * A map update merges recursively into the named child of facet `t`
   * (starting from nothing when absent); every other child and every other
   * facet is left as it was.
   */
  lemma MergeMapUpdate(m: Value, t: Datatype, name: string, child: OpValue)
    requires m.Fields?
    ensures var c := Merge(if name in Facet(m, t) then Some(Facet(m, t)[name]) else None, t, child);
      var r := Merge(Some(m), MapType, Update(t, name, child));
      (r.Ok? <==> c.Ok?) &&
      (r.Ok? ==> r.value.Fields? && Facet(r.value, t) == Facet(m, t)[name := c.value] &&
                 forall u :: u != t ==> Facet(r.value, u) == Facet(m, u))
  {
  }

  /** A value equals itself with any facet replaced by what it already holds. */
  lemma WithSameFacet(m: Value, t: Datatype)
    requires m.Fields?
    ensures WithFacet(m, t, Facet(m, t)) == m
  {
    match t
    case CounterType =>
    case SetType =>
    case FlagType =>
    case RegisterType =>
    case MapType =>
  }

  /**
   * A map delete removes only the named child of facet `t`; deleting an
   * absent child changes nothing, so a second delete is a no-op.
   */
  lemma MergeMapDelete(m: Value, t: Datatype, name: string)
    requires m.Fields?
    ensures var r := Merge(Some(m), MapType, Delete(t, name));
      r.Ok? && r.value.Fields? && Facet(r.value, t) == Facet(m, t) - {name} &&
      (forall u :: u != t ==> Facet(r.value, u) == Facet(m, u)) &&
      (name !in Facet(m, t) ==> r.value == m) &&
      Merge(Some(r.value), MapType, Delete(t, name)) == r
  {
    var r := Merge(Some(m), MapType, Delete(t, name)).value;
    if name !in Facet(m, t) {
      assert Facet(m, t) - {name} == Facet(m, t);
      WithSameFacet(m, t);
    }
    assert Facet(r, t) - {name} == Facet(r, t);
    WithSameFacet(r, t);
  }

  /** A counter nested in a map inside a map, built from nothing in one operation. */
  lemma NestedCounterExample()
    ensures Merge(None, MapType, Update(MapType, "m", Update(CounterType, "c", IntArg(5)))) ==
      Ok(Fields(map[], map[], map["m" := Fields(map["c" := Int(5)], map[], map[], map[], map[])], map[], map[]))
  {
  }

  /** `operations.each { |operation| data = merge(data, datatype, operation.value) }`, stopping at the first error. */
  function Fold(v: Value, dt: Datatype, ops: seq<Operation>): (r: Result<Value>)
    ensures ops == [] ==> r == Ok(v)
    ensures r.Err? ==> r.error.Fault?
    ensures r.Ok? && ops != [] && dt == SetType ==> r.value.Strings?
    ensures r.Ok? && ops != [] && dt == MapType ==> r.value.Fields?
    decreases |ops|
  {
    if ops == [] then Ok(v)
    else
      var prior := Fold(v, dt, ops[..|ops| - 1]);
      if prior.Err? then prior else Merge(Some(prior.value), dt, ops[|ops| - 1].value)
  }

  lemma FoldStep(v: Value, dt: Datatype, ops: seq<Operation>, i: nat)
    requires i < |ops|
    ensures Fold(v, dt, ops[..i + 1]) ==
      var prior := Fold(v, dt, ops[..i]);
      if prior.Err? then prior else Merge(Some(prior.value), dt, ops[i].value)
  {
    assert ops[..i + 1][..i] == ops[..i];
  }

  /** Once an operation fails, the whole batch fails with that error. */
  lemma {:induction false} FoldErrSticky(v: Value, dt: Datatype, ops: seq<Operation>, i: nat)
    requires i <= |ops|
    requires Fold(v, dt, ops[..i]).Err?
    ensures Fold(v, dt, ops) == Fold(v, dt, ops[..i])
    decreases |ops| - i
  {
    if i < |ops| {
      FoldStep(v, dt, ops, i);
      FoldErrSticky(v, dt, ops, i + 1);
    } else {
      assert ops[..i] == ops;
    }
  }

  /** Applying two batches one after the other is applying their concatenation. */
  lemma {:induction false} FoldAppend(v: Value, dt: Datatype, a: seq<Operation>, b: seq<Operation>)
    requires Fold(v, dt, a).Ok?
    ensures Fold(v, dt, a + b) == Fold(Fold(v, dt, a).value, dt, b)
    decreases |b|
  {
    if b == [] {
      assert a + b == a;
    } else {
      var init := b[..|b| - 1];
      FoldAppend(v, dt, a, init);
      assert (a + b)[..|a + b| - 1] == a + init;
    }
  }

  /** Every operation of the batch carries an Integer delta. */
  predicate AllDeltas(ops: seq<Operation>) {
    forall i :: 0 <= i < |ops| ==> ops[i].value.IntArg?
  }

  /** The amount one counter operation adds: its Integer delta, 0 for any other payload. */
  function Delta(o: Operation): int {
    if o.value.IntArg? then o.value.n else 0
  }

  /** The sum of the deltas. */
  function Sum(ops: seq<Operation>): int
    decreases |ops|
  {
    if ops == [] then 0 else Sum(ops[..|ops| - 1]) + Delta(ops[|ops| - 1])
  }

  lemma {:induction false} SumAppend(a: seq<Operation>, b: seq<Operation>)
    ensures Sum(a + b) == Sum(a) + Sum(b)
    decreases |b|
  {
    if b == [] {
      assert a + b == a;
    } else {
      var init := b[..|b| - 1];
      SumAppend(a, init);
      assert (a + b)[..|a + b| - 1] == a + init;
    }
  }

  /** Dropping one operation takes exactly its delta off the sum. */
  lemma SumRemoveAt(b: seq<Operation>, i: nat)
    requires i < |b|
    ensures Sum(b) == Sum(b[..i] + b[i + 1..]) + Delta(b[i])
  {
    var x := b[i];
    assert b == b[..i] + [x] + b[i + 1..];
    SumAppend(b[..i], [x]);
    SumAppend(b[..i] + [x], b[i + 1..]);
    SumAppend(b[..i], b[i + 1..]);
    assert Sum([x]) == Delta(x) by {
      assert [x][..0] == [];
    }
  }

  lemma MultisetRemoveAt(b: seq<Operation>, i: nat)
    requires i < |b|
    ensures multiset(b[..i] + b[i + 1..]) == multiset(b) - multiset{b[i]}
  {
    assert b == b[..i] + [b[i]] + b[i + 1..];
  }

  /** A rearrangement of deltas holds only deltas. */
  lemma DeltasByMultiset(a: seq<Operation>, b: seq<Operation>)
    requires AllDeltas(a) && multiset(a) == multiset(b)
    ensures AllDeltas(b)
  {
    forall j | 0 <= j < |b| ensures b[j].value.IntArg? {
      assert b[j] in multiset(b);
      assert b[j] in a;
    }
  }

  /** The sum of the deltas does not depend on their order. */
  lemma {:induction false} SumPermutation(a: seq<Operation>, b: seq<Operation>)
    requires multiset(a) == multiset(b)
    ensures Sum(a) == Sum(b)
    decreases |a|
  {
    if a != [] {
      var x := a[|a| - 1];
      var init := a[..|a| - 1];
      assert a == init + [x];
      assert multiset(init) == multiset(a) - multiset{x};
      assert x in multiset(b);
      var i :| 0 <= i < |b| && b[i] == x;
      MultisetRemoveAt(b, i);
      SumRemoveAt(b, i);
      SumPermutation(init, b[..i] + b[i + 1..]);
    } else {
      assert |b| == |multiset(b)| == 0;
    }
  }

  /** A batch of counter deltas adds their sum to the starting count. */
  lemma {:induction false} FoldCounter(n: int, ops: seq<Operation>)
    requires AllDeltas(ops)
    ensures Fold(Int(n), CounterType, ops) == Ok(Int(n + Sum(ops)))
    decreases |ops|
  {
    if ops != [] {
      FoldCounter(n, ops[..|ops| - 1]);
    }
  }

  /** The order of counter operations within a batch does not matter. */
  lemma FoldCounterOrder(n: int, a: seq<Operation>, b: seq<Operation>)
    requires AllDeltas(a) && multiset(a) == multiset(b)
    ensures Fold(Int(n), CounterType, a) == Fold(Int(n), CounterType, b)
  {
    DeltasByMultiset(a, b);
    SumPermutation(a, b);
    FoldCounter(n, a);
    FoldCounter(n, b);
  }

  /** The value `operate` computes: the loaded value folded under the first operation's datatype. */
  function Operated(stored: Option<RObject>, typeProps: map<string, string>, ops: seq<Operation>): (r: Result<Value>)
    ensures LoadFrom(stored, typeProps).Err? ==> r == LoadFrom(stored, typeProps)
    ensures ops == [] ==> r.Err?
    ensures r.Ok? ==> ops != [] && LoadFrom(stored, typeProps).Ok?
    ensures r.Ok? && ops[0].kind == SetType ==> r.value.Strings?
    ensures r.Ok? && ops[0].kind == MapType ==> r.value.Fields?
  {
    var loaded := LoadFrom(stored, typeProps);
    if loaded.Err? then loaded
    else if ops == [] then Err(Fault("undefined method type for nil"))
    else Fold(loaded.value, ops[0].kind, ops)
  }

  /** The object `operate` stores: the merged value, serialised, as `application/riak_<datatype>`. */
  function CrdtObject(bucket: string, key: string, dt: Datatype, v: Value): (o: RObject)
    ensures o.bucket == bucket && o.key == key && o.rawData == Marshaled(v)
    ensures o.contentType == "application/riak_" + TypeName(dt)
  {
    NewObject(bucket, key, "application/riak_" + TypeName(dt), Marshaled(v))
  }

  /** Loading a key after `operate` stored under it gives the merged value back. */
  lemma LoadAfterOperate(bs: Buckets, bucket: string, key: string, dt: Datatype, v: Value, typeProps: map<string, string>)
    ensures LoadFrom(Lookup(Store(Touch(bs, bucket), CrdtObject(bucket, key, dt, v)), bucket, key), typeProps) == Ok(v)
  {
    LookupStore(Touch(bs, bucket), CrdtObject(bucket, key, dt, v), bucket, key);
  }

  /** A second batch on the same key continues from the value the first one stored. */
  lemma OperateTwice(bs: Buckets, bucket: string, key: string, typeProps: map<string, string>,
                     a: seq<Operation>, b: seq<Operation>)
    requires Operated(Lookup(bs, bucket, key), typeProps, a).Ok?
    requires b != [] && b[0].kind == a[0].kind
    ensures var v := Operated(Lookup(bs, bucket, key), typeProps, a).value;
      var after := Store(Touch(bs, bucket), CrdtObject(bucket, key, a[0].kind, v));
      Operated(Lookup(after, bucket, key), typeProps, b) ==
      Operated(Lookup(bs, bucket, key), typeProps, a + b)
  {
    var v := Operated(Lookup(bs, bucket, key), typeProps, a).value;
    LoadAfterOperate(bs, bucket, key, a[0].kind, v, typeProps);
    FoldAppend(LoadFrom(Lookup(bs, bucket, key), typeProps).value, a[0].kind, a, b);
    assert (a + b)[0] == a[0];
  }

  /**
   * A key whose flag batch stored `false` counts from 0 when a counter batch
   * follows: the stored `false` is replaced by the counter's default.
   */
  lemma FlagFalseThenCounter(bs: Buckets, bucket: string, key: string, typeProps: map<string, string>, n: int)
    ensures var flagged := Operated(Lookup(bs, bucket, key), typeProps, [Operation(FlagType, BoolArg(false))]);
      flagged.Ok? ==>
        var after := Store(Touch(bs, bucket), CrdtObject(bucket, key, FlagType, flagged.value));
        Operated(Lookup(after, bucket, key), typeProps, [Operation(CounterType, IntArg(n))]) == Ok(Int(n))
  {
    var flagged := Operated(Lookup(bs, bucket, key), typeProps, [Operation(FlagType, BoolArg(false))]);
    if flagged.Ok? {
      var ops := [Operation(FlagType, BoolArg(false))];
      assert ops[..0] == [];
      assert flagged.value == Bool(false);
      LoadAfterOperate(bs, bucket, key, FlagType, Bool(false), typeProps);
      var counter := [Operation(CounterType, IntArg(n))];
      assert counter[..0] == [];
      CounterOverFalse(n);
    }
  }

  /** `Result.new(key, data, SecureRandom.uuid)`. */
  datatype OpResult = OpResult(key: string, value: Value, context: string)

  class CrdtOperator {
    const backend: MemoryBackend

    constructor(backend: MemoryBackend)
      ensures this.backend == backend
    {
      this.backend := backend;
    }

    /**
     * Loads the key through `loader`, merges the operations in order under the
     * datatype of the first, stores the result, and returns it with `context`.
     */
    method Operate(bucket: string, key: string, typeProps: map<string, string>, ops: seq<Operation>,
                   loader: CrdtLoader, context: string) returns (r: Result<OpResult>)
      requires backend.Valid() && loader.backend == backend
      modifies backend.data`buckets
      ensures backend.Valid()
      ensures r.Ok? <==> Operated(Lookup(old(backend.data.buckets), bucket, key), typeProps, ops).Ok?
      ensures r.Ok? ==>
        r.value == OpResult(key, Operated(Lookup(old(backend.data.buckets), bucket, key), typeProps, ops).value, context) &&
        backend.data.buckets == Store(Touch(old(backend.data.buckets), bucket), CrdtObject(bucket, key, ops[0].kind, r.value.value))
      ensures r.Err? ==>
        r.error == Operated(Lookup(old(backend.data.buckets), bucket, key), typeProps, ops).error &&
        backend.data.buckets == Touch(old(backend.data.buckets), bucket)
    {
      var loaded := loader.Load(bucket, key, typeProps);
      if loaded.Err? {
        return Err(loaded.error);
      }
      if ops == [] {
        return Err(Fault("undefined method type for nil"));
      }
      var dt := ops[0].kind;
      var data := loaded.value;
      var i := 0;
      assert ops[..0] == [];
      while i < |ops|
        invariant 0 <= i <= |ops|
        invariant Fold(loaded.value, dt, ops[..i]) == Ok(data)
        invariant backend.Valid()
        invariant backend.data.buckets == Touch(old(backend.data.buckets), bucket)
      {
        var merged := Merge(Some(data), dt, ops[i].value);
        FoldStep(loaded.value, dt, ops, i);
        if merged.Err? {
          FoldErrSticky(loaded.value, dt, ops, i + 1);
          return Err(merged.error);
        }
        data := merged.value;
        i := i + 1;
      }
      assert ops[..i] == ops;
      var robject := CrdtObject(bucket, key, dt, data);
      var _ := backend.StoreObject(robject);
      r := Ok(OpResult(key, data, context));
    }
  }
}
