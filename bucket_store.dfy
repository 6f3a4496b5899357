/**
 * The state of `MemoryBackend` as values: the table of buckets (each with its
 * properties and its key table), the search index and schema registries, and
 * what every operation does to them.  The class `Memory.MemoryBackend`
 * performs these updates in place; the lemmas here say what they mean.
 */
module BucketStore {
  import opened Common
  import opened OrderedTable
  import opened Records

  /** A bucket property value: the JSON-like Ruby values of `DEFAULT_BUCKET_PROPS`. */
  datatype Prop =
    | PInt(i: int)
    | PStr(s: string)
    | PBool(b: bool)
    | PList(items: seq<Prop>)
    | PHash(fields: map<string, Prop>)

  /** `DEFAULT_BUCKET_PROPS`. */
  const DefaultBucketProps: map<string, Prop> := map[
    "n_val" := PInt(3),
    "precommit" := PList([]), "has_precommit" := PBool(true),
    "postcommit" := PList([]), "has_postcommit" := PBool(true),
    "chash_keyfun" := PHash(map["mod" := PStr("riak_core_util"), "fun" := PStr("chash_std_keyfun")]),
    "linkfun" := PHash(map["mod" := PStr("riak_kv_wm_link_walker"), "fun" := PStr("mapreduce_linkfun")]),
    "old_vclock" := PInt(86400), "young_vclock" := PInt(20),
    "big_vclock" := PInt(50), "small_vclock" := PInt(50),
    "r" := PStr("quorum"), "w" := PStr("quorum"),
    "dw" := PStr("quorum"), "rw" := PStr("quorum"),
    "pr" := PInt(0), "pw" := PInt(0),
    "notfound_ok" := PBool(true)
  ]

  /** `{:props => ..., :keys => {...}}`: one bucket's properties and its objects by key. */
  datatype BucketData = BucketData(props: map<string, Prop>, keys: Table<string, RObject>)

  type Buckets = Table<string, BucketData>

  /** Every object sits under its own bucket name and key. */
  ghost predicate Placed(b: string, t: Table<string, RObject>) {
    forall k :: k in t.entries ==> t.entries[k].bucket == b && t.entries[k].key == k
  }

  /** The invariant of `@data[:buckets]`: well-formed tables, objects in their own slot. */
  ghost predicate GoodBuckets(bs: Buckets) {
    bs.Valid() && forall b :: b in bs.entries ==> bs.entries[b].keys.Valid() && Placed(b, bs.entries[b].keys)
  }

  /** A bucket as `data(bucket)` first creates it. */
  function NewBucket(): (r: BucketData)
    ensures r.props == DefaultBucketProps && r.keys.Keys() == [] && r.keys.Valid()
  {
    BucketData(DefaultBucketProps, Empty())
  }

  /** `data(bucket)`: the table of buckets once `bucket` exists. */
  function Touch(bs: Buckets, b: string): (r: Buckets)
    ensures r.entries.Keys == bs.entries.Keys + {b}
    ensures b in bs.entries ==> r == bs
    ensures b !in bs.entries ==> r.entries[b] == NewBucket()
  {
    bs.PutIfAbsent(b, NewBucket())
  }

  /** The bucket `data(bucket)` returns. */
  function BucketOf(bs: Buckets, b: string): BucketData {
    Touch(bs, b).entries[b]
  }

  /** The object stored under `b`/`k`, if any. */
  function Lookup(bs: Buckets, b: string, k: string): Option<RObject> {
    if b in bs.entries then bs.entries[b].keys.Get(k) else None
  }

  /** `data(robject.bucket)[:keys][robject.key] = robject`. */
  function Store(bs: Buckets, o: RObject): (r: Buckets)
    ensures r.entries.Keys == bs.entries.Keys + {o.bucket}
    ensures Lookup(r, o.bucket, o.key) == Some(o)
  {
    var bd := BucketOf(bs, o.bucket);
    Touch(bs, o.bucket).Put(o.bucket, bd.(keys := bd.keys.Put(o.key, o)))
  }

  /** `data(bucket)[:keys].delete(key)`. */
  function Remove(bs: Buckets, b: string, k: string): (r: Buckets)
    ensures r.entries.Keys == bs.entries.Keys + {b}
    ensures Lookup(r, b, k) == None
  {
    var bd := BucketOf(bs, b);
    Touch(bs, b).Put(b, bd.(keys := bd.keys.Delete(k)))
  }

  /** `data(bucket)[:props] = p` (and `merge!` in place, which ends in the same table). */
  function WithProps(bs: Buckets, b: string, p: map<string, Prop>): (r: Buckets)
    ensures r.entries.Keys == bs.entries.Keys + {b}
    ensures r.entries[b].props == p && r.entries[b].keys == BucketOf(bs, b).keys
  {
    Touch(bs, b).Put(b, BucketOf(bs, b).(props := p))
  }

  /** `data(bucket)[:keys].keys`. */
  function KeysOf(bs: Buckets, b: string): seq<string> {
    BucketOf(bs, b).keys.Keys()
  }

  /** Replacing one bucket by a well-formed one keeps the invariant. */
  lemma GoodBucketsPut(bs: Buckets, b: string, bd: BucketData)
    requires GoodBuckets(bs)
    requires bd.keys.Valid() && Placed(b, bd.keys)
    ensures GoodBuckets(bs.Put(b, bd))
  {
    PutValid(bs, b, bd);
  }

  /** An object stored under its own bucket stays placed. */
  lemma PlacedPut(b: string, t: Table<string, RObject>, o: RObject)
    requires Placed(b, t) && o.bucket == b
    ensures Placed(b, t.Put(o.key, o))
  {
  }

  lemma PlacedDelete(b: string, t: Table<string, RObject>, k: string)
    requires Placed(b, t)
    ensures Placed(b, t.Delete(k))
  {
  }

  /** The bucket `data(bucket)` returns is well formed. */
  lemma GoodBucketOf(bs: Buckets, b: string)
    requires GoodBuckets(bs)
    ensures BucketOf(bs, b).keys.Valid() && Placed(b, BucketOf(bs, b).keys)
  {
  }

  /** Touching a bucket keeps the invariant, leaves every existing bucket as it was, and creates a missing one with default props and no keys. */
  lemma TouchSpec(bs: Buckets, b: string)
    requires GoodBuckets(bs)
    ensures GoodBuckets(Touch(bs, b))
    ensures b in Touch(bs, b).entries
    ensures Touch(bs, b).Keys() == if b in bs.entries then bs.Keys() else bs.Keys() + [b]
    ensures forall x :: x in bs.entries ==> Touch(bs, b).entries[x] == bs.entries[x]
    ensures b !in bs.entries ==> BucketOf(bs, b) == NewBucket()
  {
    if b !in bs.entries {
      PutValid(bs, b, NewBucket());
      GoodBucketsPut(bs, b, NewBucket());
    }
  }

  /** Touching never changes what any key holds. */
  lemma LookupTouch(bs: Buckets, b: string, b': string, k: string)
    ensures Lookup(Touch(bs, b), b', k) == Lookup(bs, b', k)
  {
  }

  /** Storing keeps the invariant: the object lands in its own slot and nothing else moves. */
  lemma StoreValid(bs: Buckets, o: RObject)
    requires GoodBuckets(bs)
    ensures GoodBuckets(Store(bs, o))
    ensures KeysOf(Store(bs, o), o.bucket) ==
      if o.key in BucketOf(bs, o.bucket).keys.entries then KeysOf(bs, o.bucket) else KeysOf(bs, o.bucket) + [o.key]
  {
    TouchSpec(bs, o.bucket);
    GoodBucketOf(bs, o.bucket);
    var bd := BucketOf(bs, o.bucket);
    PutValid(bd.keys, o.key, o);
    PlacedPut(o.bucket, bd.keys, o);
    GoodBucketsPut(Touch(bs, o.bucket), o.bucket, bd.(keys := bd.keys.Put(o.key, o)));
  }

  /** A stored object is what its key fetches; every other key fetches what it did before. */
  lemma LookupStore(bs: Buckets, o: RObject, b: string, k: string)
    ensures Lookup(Store(bs, o), b, k) == if b == o.bucket && k == o.key then Some(o) else Lookup(bs, b, k)
  {
  }

  /** Deleting keeps the invariant and removes only that key from the bucket's listing. */
  lemma RemoveValid(bs: Buckets, b: string, k: string)
    requires GoodBuckets(bs)
    ensures GoodBuckets(Remove(bs, b, k))
    ensures forall x :: x in KeysOf(Remove(bs, b, k), b) <==> x in KeysOf(bs, b) && x != k
  {
    TouchSpec(bs, b);
    GoodBucketOf(bs, b);
    var bd := BucketOf(bs, b);
    DeleteValid(bd.keys, k);
    PlacedDelete(b, bd.keys, k);
    GoodBucketsPut(Touch(bs, b), b, bd.(keys := bd.keys.Delete(k)));
  }

  /** A deleted key fetches nothing; every other key fetches what it did before. */
  lemma LookupRemove(bs: Buckets, b: string, k: string, b': string, k': string)
    ensures Lookup(Remove(bs, b, k), b', k') == if b' == b && k' == k then None else Lookup(bs, b', k')
  {
  }

  /** Changing a bucket's properties keeps the invariant and touches no object. */
  lemma WithPropsSpec(bs: Buckets, b: string, p: map<string, Prop>, b': string, k: string)
    requires GoodBuckets(bs)
    ensures GoodBuckets(WithProps(bs, b, p))
    ensures Lookup(WithProps(bs, b, p), b', k) == Lookup(bs, b', k)
    ensures KeysOf(WithProps(bs, b, p), b) == KeysOf(bs, b)
    ensures BucketOf(WithProps(bs, b, p), b).props == p
  {
    TouchSpec(bs, b);
    GoodBucketOf(bs, b);
    GoodBucketsPut(Touch(bs, b), b, BucketOf(bs, b).(props := p));
  }

  /**
   * `merge!`: every given property takes its new value and every other
   * property keeps its old one; no property is lost.
   */
  function Overlay(props: map<string, Prop>, given: map<string, Prop>): (r: map<string, Prop>)
    ensures r.Keys == props.Keys + given.Keys
    ensures forall p :: p in given ==> r[p] == given[p]
    ensures forall p :: p in props && p !in given ==> r[p] == props[p]
  {
    props + given
  }

  /** Overlaying twice with the same properties is overlaying once. */
  lemma OverlayIdempotent(props: map<string, Prop>, given: map<string, Prop>)
    ensures Overlay(Overlay(props, given), given) == Overlay(props, given)
  {
  }

  /** The properties after a reset are the defaults, whatever was set before. */
  lemma ResetForgets(bs: Buckets, b: string, given: map<string, Prop>)
    ensures BucketOf(WithProps(WithProps(bs, b, Overlay(BucketOf(bs, b).props, given)), b, DefaultBucketProps), b).props
            == DefaultBucketProps
    ensures "allow_mult" !in BucketOf(WithProps(bs, b, DefaultBucketProps), b).props
  {
  }

  /** `get_counter`: the stored payload, or 0 for an absent key. */
  function CounterOf(bs: Buckets, b: string, k: string): (r: Payload)
    ensures Lookup(bs, b, k).None? ==> r == Number(0)
    ensures Lookup(bs, b, k).Some? ==> r == Lookup(bs, b, k).value.rawData
  {
    match Lookup(bs, b, k)
    case Some(o) => o.rawData
    case None => Number(0)
  }

  /** `value + amount` on a stored payload: only an Integer can be incremented. */
  function Increment(p: Payload, amount: int): (r: Result<Payload>)
    ensures r.Ok? <==> p.Number?
    ensures r.Ok? ==> r.value == Number(p.n + amount)
  {
    match p
    case Number(n) => Ok(Number(n + amount))
    case Text(_) => Err(Fault("no implicit conversion of Integer into String"))
    case Marshaled(_) => Err(Fault("no implicit conversion of Integer into String"))
  }

  /** The object `post_counter` stores. */
  function CounterObject(b: string, k: string, p: Payload): RObject {
    NewObject(b, k, "application/riak_pncounter", p)
  }

  /** The table after `post_counter(b, k, amount)`, or the error it raises. */
  function AfterPost(bs: Buckets, b: string, k: string, amount: int): (r: Result<Buckets>)
    ensures r.Ok? <==> CounterOf(bs, b, k).Number?
    ensures r.Ok? ==> Lookup(r.value, b, k) == Some(CounterObject(b, k, Number(CounterOf(bs, b, k).n + amount)))
    ensures r.Err? ==> r.error.Fault?
  {
    match Increment(CounterOf(bs, b, k), amount)
    case Ok(p) => Ok(Store(Touch(bs, b), CounterObject(b, k, p)))
    case Err(e) => Err(e)
  }

  /** An absent counter reads 0, and each post adds its amount to what the counter read. */
  lemma CounterPost(bs: Buckets, b: string, k: string, amount: int)
    ensures Lookup(bs, b, k).None? ==> CounterOf(bs, b, k) == Number(0)
    ensures CounterOf(bs, b, k).Number? ==>
      AfterPost(bs, b, k, amount).Ok? &&
      CounterOf(AfterPost(bs, b, k, amount).value, b, k) == Number(CounterOf(bs, b, k).n + amount)
    ensures !CounterOf(bs, b, k).Number? ==> AfterPost(bs, b, k, amount).Err?
  {
    if CounterOf(bs, b, k).Number? {
      LookupStore(Touch(bs, b), CounterObject(b, k, Number(CounterOf(bs, b, k).n + amount)), b, k);
    }
  }

  /** Two posts on one counter add up, in either order. */
  lemma {:induction false} CounterPostsAdd(bs: Buckets, b: string, k: string, x: int, y: int)
    requires CounterOf(bs, b, k).Number?
    ensures AfterPost(bs, b, k, x).Ok?
    ensures AfterPost(AfterPost(bs, b, k, x).value, b, k, y).Ok?
    ensures CounterOf(AfterPost(AfterPost(bs, b, k, x).value, b, k, y).value, b, k)
            == Number(CounterOf(bs, b, k).n + x + y)
  {
    CounterPost(bs, b, k, x);
    var mid := AfterPost(bs, b, k, x).value;
    CounterPost(mid, b, k, y);
  }

  /** `{:name => name, :schema => schema, :n_val => n_val}`. */
  datatype SearchIndex = SearchIndex(name: string, schema: string, nVal: int)

  /** `{:name => name, :content => content}`. */
  datatype SearchSchema = SearchSchema(name: string, content: string)

  /** The index `create_search_index` records: schema `_yz_default` and n_val 3 unless given. */
  function NewSearchIndex(name: string, schema: Option<string>, nVal: Option<int>): (r: SearchIndex)
    ensures r.name == name
    ensures r.schema == if schema.Some? then schema.value else "_yz_default"
    ensures r.nVal == if nVal.Some? then nVal.value else 3
  {
    SearchIndex(name,
      match schema case Some(s) => s case None => "_yz_default",
      match nVal case Some(n) => n case None => 3)
  }

  /** The `ProtobuffsErrorResponse` raised for a missing search index or schema. */
  const NotFoundResponse: Error := ErrorResponse(0, "notfound")

  /** `get_search_index` / `get_search_schema`: the entry, or `notfound`. */
  function Find<T>(m: map<string, T>, name: string): (r: Result<T>)
    ensures r.Ok? <==> name in m
    ensures r.Ok? ==> r.value == m[name]
    ensures r.Err? ==> r.error == NotFoundResponse
  {
    if name in m then Ok(m[name]) else Err(NotFoundResponse)
  }

  /** A created index reads back with its defaults; a deleted one reads `notfound`. */
  lemma SearchIndexLifecycle(m: map<string, SearchIndex>, name: string, other: string)
    ensures Find(m[name := NewSearchIndex(name, None, None)], name) == Ok(SearchIndex(name, "_yz_default", 3))
    ensures Find(m - {name}, name) == Err(NotFoundResponse)
    ensures other != name ==> Find(m - {name}, other) == Find(m, other)
  {
  }
}
