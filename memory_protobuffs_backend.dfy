/**
 * `Riak::Client::MemoryProtobuffsBackend`: the older in-memory backend, a
 * table of buckets each of which is a plain table of objects by key (no
 * bucket properties, counters or indexes).  Handles of one client share a
 * dataset through their own host registry.
 */
module MemoryProtobuffs {
  import opened Common
  import opened OrderedTable
  import opened Records
  import opened HostRegistry
  import BucketStore

  type PbBuckets = Table<string, Table<string, RObject>>

  /** Well-formed tables, each object under its own bucket name and key. */
  ghost predicate GoodTables(bs: PbBuckets) {
    bs.Valid() && forall b :: b in bs.entries ==> bs.entries[b].Valid() && BucketStore.Placed(b, bs.entries[b])
  }

  /** `@data[bucket.name] ||= {}`. */
  function Touch(bs: PbBuckets, b: string): (r: PbBuckets)
    ensures r.entries.Keys == bs.entries.Keys + {b}
    ensures b in bs.entries ==> r == bs
    ensures b !in bs.entries ==> r.entries[b] == Empty()
  {
    bs.PutIfAbsent(b, Empty())
  }

  /** The object stored under `b`/`k`, if any. */
  function Lookup(bs: PbBuckets, b: string, k: string): Option<RObject> {
    if b in bs.entries then bs.entries[b].Get(k) else None
  }

  /** `data(robject.bucket)[robject.key] = robject`. */
  function Store(bs: PbBuckets, o: RObject): (r: PbBuckets)
    ensures r.entries.Keys == bs.entries.Keys + {o.bucket}
    ensures Lookup(r, o.bucket, o.key) == Some(o)
  {
    var t := Touch(bs, o.bucket);
    t.Put(o.bucket, t.entries[o.bucket].Put(o.key, o))
  }

  /** `data(bucket).delete(key)`. */
  function Remove(bs: PbBuckets, b: string, k: string): (r: PbBuckets)
    ensures r.entries.Keys == bs.entries.Keys + {b}
    ensures Lookup(r, b, k) == None
  {
    var t := Touch(bs, b);
    t.Put(b, t.entries[b].Delete(k))
  }

  /** Replacing one bucket's table by a well-formed one keeps the invariant. */
  lemma GoodTablesPut(bs: PbBuckets, b: string, t: Table<string, RObject>)
    requires GoodTables(bs)
    requires t.Valid() && BucketStore.Placed(b, t)
    ensures GoodTables(bs.Put(b, t))
  {
    PutValid(bs, b, t);
  }

  /** Touching keeps the invariant, lists a new bucket last, and creates it empty; no object changes. */
  lemma TouchSpec(bs: PbBuckets, b: string)
    requires GoodTables(bs)
    ensures GoodTables(Touch(bs, b))
    ensures Touch(bs, b).Keys() == if b in bs.entries then bs.Keys() else bs.Keys() + [b]
    ensures Touch(bs, b).entries[b].Keys() == if b in bs.entries then bs.entries[b].Keys() else []
    ensures forall b', k :: Lookup(Touch(bs, b), b', k) == Lookup(bs, b', k)
  {
    if b !in bs.entries {
      PutValid(bs, b, Empty());
      GoodTablesPut(bs, b, Empty());
    }
  }

  /** Storing keeps the invariant and lists a new key last in its bucket. */
  lemma StoreValid(bs: PbBuckets, o: RObject)
    requires GoodTables(bs)
    ensures GoodTables(Store(bs, o))
    ensures Store(bs, o).entries[o.bucket].Keys() ==
      var keys := Touch(bs, o.bucket).entries[o.bucket];
      if o.key in keys.entries then keys.Keys() else keys.Keys() + [o.key]
  {
    TouchSpec(bs, o.bucket);
    var t := Touch(bs, o.bucket);
    var keys := t.entries[o.bucket];
    assert keys.Valid() && BucketStore.Placed(o.bucket, keys);
    PutValid(keys, o.key, o);
    BucketStore.PlacedPut(o.bucket, keys, o);
    GoodTablesPut(t, o.bucket, keys.Put(o.key, o));
  }

  /** The stored object is what its key fetches; every other key is unaffected. */
  lemma LookupStore(bs: PbBuckets, o: RObject, b: string, k: string)
    ensures Lookup(Store(bs, o), b, k) == if b == o.bucket && k == o.key then Some(o) else Lookup(bs, b, k)
  {
  }

  /** Deleting keeps the invariant; the key fetches nothing afterwards and every other key is unaffected. */
  lemma RemoveSpec(bs: PbBuckets, b: string, k: string)
    requires GoodTables(bs)
    ensures GoodTables(Remove(bs, b, k))
    ensures forall b', k' :: Lookup(Remove(bs, b, k), b', k') == if b' == b && k' == k then None else Lookup(bs, b', k')
    ensures forall x :: x in Remove(bs, b, k).entries[b].Keys() <==> x in Touch(bs, b).entries[b].Keys() && x != k
  {
    TouchSpec(bs, b);
    var t := Touch(bs, b);
    var keys := t.entries[b];
    assert keys.Valid() && BucketStore.Placed(b, keys);
    DeleteValid(keys, k);
    BucketStore.PlacedDelete(b, keys, k);
    GoodTablesPut(t, b, keys.Delete(k));
  }

  /** The shared `{}` of buckets. */
  class PbDataset {
    var buckets: PbBuckets

    ghost predicate Valid()
      reads this
    {
      GoodTables(buckets)
    }

    constructor()
      ensures Valid() && buckets == Empty()
    {
      buckets := Empty();
    }
  }

  class MemoryProtobuffsBackend {
    const data: PbDataset

    ghost predicate Valid()
      reads this, data
    {
      data.Valid()
    }

    /** Shares the dataset registered for `host`, or registers a fresh one under every node host. */
    constructor(registry: Registry<PbDataset>, nodeHosts: seq<string>, host: string)
      requires forall h :: h in registry.hosts ==> registry.hosts[h].Valid()
      modifies registry
      ensures Valid()
      ensures host in old(registry.hosts) ==>
        data == old(registry.hosts[host]) && registry.hosts == old(registry.hosts)
      ensures host !in old(registry.hosts) ==>
        fresh(data) && data.buckets == Empty() && registry.hosts == Assign(old(registry.hosts), nodeHosts, data)
    {
      var found := registry.Find(host);
      if found.Some? {
        data := found.value;
      } else {
        var d := new PbDataset();
        registry.Register(nodeHosts, d);
        data := d;
      }
    }

    /** `data(bucket)`: the bucket's table, created empty on first use. */
    method Data(bucket: string) returns (t: Table<string, RObject>)
      requires Valid()
      modifies data
      ensures Valid()
      ensures data.buckets == Touch(old(data.buckets), bucket)
      ensures t == data.buckets.entries[bucket]
    {
      TouchSpec(data.buckets, bucket);
      if bucket !in data.buckets.entries {
        data.buckets := data.buckets.Put(bucket, Empty());
      }
      t := data.buckets.entries[bucket];
    }

    method FetchObject(bucket: string, key: string) returns (r: Result<RObject>)
      requires Valid()
      modifies data
      ensures Valid()
      ensures data.buckets == Touch(old(data.buckets), bucket)
      ensures r.Ok? <==> Lookup(old(data.buckets), bucket, key).Some?
      ensures r.Ok? ==> Lookup(old(data.buckets), bucket, key) == Some(r.value)
      ensures r.Err? ==> r.error == NotFound
    {
      var t := Data(bucket);
      var result := t.Get(key);
      if result.None? {
        return Err(NotFound);
      }
      r := Ok(result.value);
    }

    /** The object currently stored for `robject`'s bucket and key (not `robject` itself). */
    method ReloadObject(robject: RObject) returns (r: Result<RObject>)
      requires Valid()
      modifies data
      ensures Valid()
      ensures data.buckets == Touch(old(data.buckets), robject.bucket)
      ensures r.Ok? <==> Lookup(old(data.buckets), robject.bucket, robject.key).Some?
      ensures r.Ok? ==> Lookup(old(data.buckets), robject.bucket, robject.key) == Some(r.value)
      ensures r.Err? ==> r.error == NotFound
    {
      r := FetchObject(robject.bucket, robject.key);
    }

    /** Stores `robject` under its bucket and key and returns it. */
    method StoreObject(robject: RObject) returns (r: RObject)
      requires Valid()
      modifies data
      ensures Valid()
      ensures data.buckets == Store(old(data.buckets), robject)
      ensures r == robject
    {
      StoreValid(data.buckets, robject);
      var t := Data(robject.bucket);
      data.buckets := data.buckets.Put(robject.bucket, t.Put(robject.key, robject));
      r := robject;
    }

    /** `Hash#delete`: removes the key and returns the object it held, if any. */
    method DeleteObject(bucket: string, key: string) returns (removed: Option<RObject>)
      requires Valid()
      modifies data
      ensures Valid()
      ensures data.buckets == Remove(old(data.buckets), bucket, key)
      ensures removed == Lookup(old(data.buckets), bucket, key)
    {
      RemoveSpec(data.buckets, bucket, key);
      var t := Data(bucket);
      removed := t.Get(key);
      data.buckets := data.buckets.Put(bucket, t.Delete(key));
    }

    /** The bucket's keys in first-insertion order, each once. */
    method ListKeys(bucket: string) returns (keys: seq<string>)
      requires Valid()
      modifies data
      ensures Valid()
      ensures data.buckets == Touch(old(data.buckets), bucket)
      ensures Distinct(keys)
      ensures forall k :: k in keys <==> Lookup(old(data.buckets), bucket, k).Some?
      ensures bucket in old(data.buckets).entries ==> keys == old(data.buckets).entries[bucket].Keys()
      ensures bucket !in old(data.buckets).entries ==> keys == []
    {
      var t := Data(bucket);
      keys := t.Keys();
    }

    /** Every bucket name touched so far, in the order first touched. */
    method ListBuckets() returns (names: seq<string>)
      requires Valid()
      ensures names == data.buckets.Keys()
      ensures Distinct(names)
      ensures forall b :: b in names <==> b in data.buckets.entries
    {
      names := data.buckets.Keys();
    }
  }
}
