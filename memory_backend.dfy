/**
 * `Riak::Client::MemoryBackend`: an in-memory Riak node.  Every handle created
 * for the same client shares one `Dataset`, found through the class-level host
 * registry; each operation updates that dataset in place.
 */
module Memory {
  import opened Common
  import opened OrderedTable
  import opened Terms
  import opened Records
  import opened BucketStore
  import opened SecondaryIndex
  import opened ClientIds
  import opened HostRegistry

  /** `{:buckets => {}, :search_indexes => {}, :search_schemas => {}}`. */
  class Dataset {
    var buckets: Buckets
    var searchIndexes: map<string, SearchIndex>
    var searchSchemas: map<string, SearchSchema>

    ghost predicate Valid()
      reads this
    {
      GoodBuckets(buckets)
    }

    constructor()
      ensures Valid()
      ensures buckets == Empty() && searchIndexes == map[] && searchSchemas == map[]
    {
      buckets := Empty();
      searchIndexes := map[];
      searchSchemas := map[];
    }
  }

  class MemoryBackend {
    const data: Dataset
    var clientId: string

    ghost predicate Valid()
      reads this, data
    {
      data.Valid()
    }

    /**
     * Shares the dataset already registered for `host`, or registers a fresh
     * one under every host of the client's nodes; then `set_client_id(0)`.
     */
    constructor(registry: Registry<Dataset>, nodeHosts: seq<string>, host: string)
      requires forall h :: h in registry.hosts ==> registry.hosts[h].Valid()
      modifies registry
      ensures Valid()
      ensures host in old(registry.hosts) ==>
        data == old(registry.hosts[host]) && registry.hosts == old(registry.hosts)
      ensures host !in old(registry.hosts) ==>
        fresh(data) && data.buckets == Empty() && data.searchIndexes == map[] && data.searchSchemas == map[] &&
        registry.hosts == Assign(old(registry.hosts), nodeHosts, data)
      ensures clientId == ClientIdOf(IntId(0))
    {
      var found := registry.Find(host);
      if found.Some? {
        data := found.value;
      } else {
        var d := new Dataset();
        registry.Register(nodeHosts, d);
        data := d;
      }
      new;
      SetClientId(IntId(0));
    }

    method SetClientId(id: ClientIdArg)
      modifies this`clientId
      ensures clientId == ClientIdOf(id)
    {
      clientId := ClientIdOf(id);
    }

    /** `data(bucket)`: the bucket, created with default properties and no keys on first use. */
    method Data(bucket: string) returns (bd: BucketData)
      requires Valid()
      modifies data`buckets
      ensures Valid()
      ensures data.buckets == Touch(old(data.buckets), bucket)
      ensures bd == BucketOf(old(data.buckets), bucket)
    {
      TouchSpec(data.buckets, bucket);
      if bucket !in data.buckets.entries {
        data.buckets := data.buckets.Put(bucket, NewBucket());
      }
      bd := data.buckets.entries[bucket];
    }

    /** The stored object, or `not_found`. */
    method FetchObject(bucket: string, key: string) returns (r: Result<RObject>)
      requires Valid()
      modifies data`buckets
      ensures Valid()
      ensures data.buckets == Touch(old(data.buckets), bucket)
      ensures r.Ok? <==> Lookup(old(data.buckets), bucket, key).Some?
      ensures r.Ok? ==> Lookup(old(data.buckets), bucket, key) == Some(r.value)
      ensures r.Ok? ==> r.value.bucket == bucket && r.value.key == key
      ensures r.Err? ==> r.error == NotFound
    {
      var bd := Data(bucket);
      var result := bd.keys.Get(key);
      if result.None? {
        return Err(NotFound);
      }
      r := Ok(result.value);
    }

    /** Copies the stored body onto `robject` and returns it; `not_found` when nothing is stored. */
    method ReloadObject(robject: RObject) returns (r: Result<RObject>)
      requires Valid()
      modifies data`buckets
      ensures Valid()
      ensures data.buckets == Touch(old(data.buckets), robject.bucket)
      ensures r.Ok? <==> Lookup(old(data.buckets), robject.bucket, robject.key).Some?
      ensures r.Ok? ==>
        r.value == robject.(rawData := Lookup(old(data.buckets), robject.bucket, robject.key).value.rawData)
      ensures r.Err? ==> r.error == NotFound
    {
      var fetched := FetchObject(robject.bucket, robject.key);
      if fetched.Err? {
        return Err(fetched.error);
      }
      r := Ok(robject.(rawData := fetched.value.rawData));
    }

    /** Stores `robject` under its bucket and key, replacing what was there, and returns it. */
    method StoreObject(robject: RObject) returns (r: RObject)
      requires Valid()
      modifies data`buckets
      ensures Valid()
      ensures data.buckets == Store(old(data.buckets), robject)
      ensures r == robject
    {
      StoreValid(data.buckets, robject);
      var bd := Data(robject.bucket);
      data.buckets := data.buckets.Put(robject.bucket, bd.(keys := bd.keys.Put(robject.key, robject)));
      r := robject;
    }

    /** Removes the key if present; true either way. */
    method DeleteObject(bucket: string, key: string) returns (ok: bool)
      requires Valid()
      modifies data`buckets
      ensures Valid()
      ensures data.buckets == Remove(old(data.buckets), bucket, key)
      ensures ok
    {
      RemoveValid(data.buckets, bucket, key);
      var bd := Data(bucket);
      data.buckets := data.buckets.Put(bucket, bd.(keys := bd.keys.Delete(key)));
      ok := true;
    }

    /** The stored counter payload, 0 for an absent key. */
    method GetCounter(bucket: string, key: string) returns (c: Payload)
      requires Valid()
      modifies data`buckets
      ensures Valid()
      ensures data.buckets == Touch(old(data.buckets), bucket)
      ensures Lookup(old(data.buckets), bucket, key).None? ==> c == Number(0)
      ensures Lookup(old(data.buckets), bucket, key).Some? ==> c == Lookup(old(data.buckets), bucket, key).value.rawData
    {
      var bd := Data(bucket);
      var result := bd.keys.Get(key);
      c := if result.Some? then result.value.rawData else Number(0);
    }

    /**
     * Stores a fresh `application/riak_pncounter` object holding the old
     * counter plus `amount`; `Ok(())` stands for the `nil` it returns.
     */
    method PostCounter(bucket: string, key: string, amount: int) returns (r: Result<()>)
      requires Valid()
      modifies data`buckets
      ensures Valid()
      ensures r.Ok? <==> AfterPost(old(data.buckets), bucket, key, amount).Ok?
      ensures r.Ok? ==> data.buckets == AfterPost(old(data.buckets), bucket, key, amount).value
      ensures r.Err? ==> data.buckets == Touch(old(data.buckets), bucket)
    {
      var value := GetCounter(bucket, key);
      var sum := Increment(value, amount);
      if sum.Err? {
        return Err(sum.error);
      }
      var robject := CounterObject(bucket, key, sum.value);
      var _ := StoreObject(robject);
      r := Ok(());
    }

    method GetBucketProps(bucket: string) returns (props: map<string, Prop>)
      requires Valid()
      modifies data`buckets
      ensures Valid()
      ensures data.buckets == Touch(old(data.buckets), bucket)
      ensures props == BucketOf(old(data.buckets), bucket).props
      ensures bucket !in old(data.buckets).entries ==> props == DefaultBucketProps
    {
      var bd := Data(bucket);
      props := bd.props;
    }

    /** Overlays `given` on the bucket's properties in place and returns the result. */
    method SetBucketProps(bucket: string, given: map<string, Prop>) returns (props: map<string, Prop>)
      requires Valid()
      modifies data`buckets
      ensures Valid()
      ensures props == Overlay(BucketOf(old(data.buckets), bucket).props, given)
      ensures data.buckets == WithProps(old(data.buckets), bucket, props)
    {
      var bd := Data(bucket);
      props := Overlay(bd.props, given);
      WithPropsSpec(data.buckets, bucket, props, bucket, "");
      data.buckets := data.buckets.Put(bucket, bd.(props := props));
    }

    /** Replaces the bucket's properties by a copy of the defaults; the keys stay. */
    method ClearBucketProps(bucket: string) returns (props: map<string, Prop>)
      requires Valid()
      modifies data`buckets
      ensures Valid()
      ensures props == DefaultBucketProps
      ensures data.buckets == WithProps(old(data.buckets), bucket, DefaultBucketProps)
    {
      var bd := Data(bucket);
      props := DefaultBucketProps;
      WithPropsSpec(data.buckets, bucket, props, bucket, "");
      data.buckets := data.buckets.Put(bucket, bd.(props := props));
    }

    method ResetBucketProps(bucket: string) returns (props: map<string, Prop>)
      requires Valid()
      modifies data`buckets
      ensures Valid()
      ensures props == DefaultBucketProps
      ensures data.buckets == WithProps(old(data.buckets), bucket, DefaultBucketProps)
    {
      props := ClearBucketProps(bucket);
    }

    /** The bucket's keys, each once, in first-insertion order. */
    method ListKeys(bucket: string) returns (keys: seq<string>)
      requires Valid()
      modifies data`buckets
      ensures Valid()
      ensures data.buckets == Touch(old(data.buckets), bucket)
      ensures keys == KeysOf(old(data.buckets), bucket)
      ensures Distinct(keys)
      ensures forall k :: k in keys <==> Lookup(old(data.buckets), bucket, k).Some?
    {
      var bd := Data(bucket);
      keys := bd.keys.Keys();
    }

    /** `list_keys` with a block: the batches yielded (none for an empty bucket) and `true`. */
    method ListKeysYielding(bucket: string) returns (yielded: seq<seq<string>>, r: bool)
      requires Valid()
      modifies data`buckets
      ensures Valid()
      ensures data.buckets == Touch(old(data.buckets), bucket)
      ensures yielded == if KeysOf(old(data.buckets), bucket) == [] then [] else [KeysOf(old(data.buckets), bucket)]
      ensures r
    {
      var keys := ListKeys(bucket);
      yielded := if keys == [] then [] else [keys];
      r := true;
    }

    /** Every bucket ever touched, in the order first touched, empty ones included. */
    method ListBuckets() returns (names: seq<string>)
      requires Valid()
      ensures names == data.buckets.Keys()
      ensures Distinct(names)
      ensures forall b :: b in names <==> b in data.buckets.entries
    {
      names := data.buckets.Keys();
    }

    /** `list_buckets` with a block: the batches yielded (none when there are no buckets) and `true`. */
    method ListBucketsYielding() returns (yielded: seq<seq<string>>, r: bool)
      requires Valid()
      ensures yielded == if data.buckets.Keys() == [] then [] else [data.buckets.Keys()]
      ensures r
    {
      var names := ListBuckets();
      yielded := if names == [] then [] else [names];
      r := true;
    }

    /**
     * `get_index`: the keys of the bucket with a value under `index` matching
     * `q`, in `list_keys` order and each once, and with `returnTerms` the keys
     * found under each matched term.
     */
    method GetIndex(bucket: string, index: string, q: Query, returnTerms: bool)
      returns (keys: seq<string>, withTerms: Option<map<Term, seq<string>>>)
      requires Valid()
      modifies data`buckets
      ensures Valid()
      ensures data.buckets == Touch(old(data.buckets), bucket)
      ensures keys == Select(KeysOf(old(data.buckets), bucket), BucketOf(old(data.buckets), bucket).keys.entries, index, q)
      ensures Distinct(keys)
      ensures forall k :: k in keys <==>
        Lookup(old(data.buckets), bucket, k).Some? && AnyHit(q, IndexValues(Lookup(old(data.buckets), bucket, k).value, index))
      ensures withTerms.Some? <==> returnTerms && keys != []
      ensures withTerms.Some? ==>
        forall t :: Recorded(withTerms.value, t) ==
          TermKeys(KeysOf(old(data.buckets), bucket), BucketOf(old(data.buckets), bucket).keys.entries, index, q, t)
    {
      var bd := Data(bucket);
      keys, withTerms := ScanIndex(bd.keys, index, q, returnTerms);
    }

    /** Records an index with schema `_yz_default` and n_val 3 unless given; true. */
    method CreateSearchIndex(name: string, schema: Option<string>, nVal: Option<int>) returns (ok: bool)
      modifies data`searchIndexes
      ensures data.searchIndexes == old(data.searchIndexes)[name := NewSearchIndex(name, schema, nVal)]
      ensures ok
    {
      data.searchIndexes := data.searchIndexes[name := NewSearchIndex(name, schema, nVal)];
      ok := true;
    }

    method GetSearchIndex(name: string) returns (r: Result<SearchIndex>)
      ensures r.Ok? <==> name in data.searchIndexes
      ensures r.Ok? ==> r.value == data.searchIndexes[name]
      ensures r.Err? ==> r.error == ErrorResponse(0, "notfound")
    {
      r := Find(data.searchIndexes, name);
    }

    /**
     * Replaces the index's schema and returns `updates`; on a missing index
     * `nil[:schema] = ...` raises.
     */
    method UpdateSearchIndex(name: string, updates: string) returns (r: Result<string>)
      modifies data`searchIndexes
      ensures name in old(data.searchIndexes) ==>
        r == Ok(updates) &&
        data.searchIndexes == old(data.searchIndexes)[name := old(data.searchIndexes)[name].(schema := updates)]
      ensures name !in old(data.searchIndexes) ==>
        r.Err? && r.error.Fault? && data.searchIndexes == old(data.searchIndexes)
    {
      if name !in data.searchIndexes {
        return Err(Fault("undefined method []= for nil"));
      }
      data.searchIndexes := data.searchIndexes[name := data.searchIndexes[name].(schema := updates)];
      r := Ok(updates);
    }

    method DeleteSearchIndex(name: string) returns (ok: bool)
      modifies data`searchIndexes
      ensures data.searchIndexes == old(data.searchIndexes) - {name}
      ensures ok
    {
      data.searchIndexes := data.searchIndexes - {name};
      ok := true;
    }

    method CreateSearchSchema(name: string, content: string) returns (ok: bool)
      modifies data`searchSchemas
      ensures data.searchSchemas == old(data.searchSchemas)[name := SearchSchema(name, content)]
      ensures ok
    {
      data.searchSchemas := data.searchSchemas[name := SearchSchema(name, content)];
      ok := true;
    }

    method GetSearchSchema(name: string) returns (r: Result<SearchSchema>)
      ensures r.Ok? <==> name in data.searchSchemas
      ensures r.Ok? ==> r.value == data.searchSchemas[name]
      ensures r.Err? ==> r.error == ErrorResponse(0, "notfound")
    {
      r := Find(data.searchSchemas, name);
    }
  }
}
