/**
 * A Ruby `Hash`: a finite map that enumerates its keys in the order they were
 * first inserted.  Re-assigning an existing key keeps its place; deleting a key
 * and inserting it again moves it to the end.
 */
module OrderedTable {
  import opened Common

  /** No element occurs twice. */
  ghost predicate Distinct<K(!new)>(s: seq<K>) {
    forall i, j :: 0 <= i < j < |s| ==> s[i] != s[j]
  }

  /** `s` with every occurrence of `k` removed, the rest in order. */
  function Without<K(==,!new)>(s: seq<K>, k: K): (r: seq<K>)
    ensures forall x :: x in r <==> x in s && x != k
    ensures |r| <= |s|
  {
    if s == [] then []
    else if s[0] == k then Without(s[1..], k)
    else [s[0]] + Without(s[1..], k)
  }

  lemma {:induction false} WithoutDistinct<K(!new)>(s: seq<K>, k: K)
    requires Distinct(s)
    ensures Distinct(Without(s, k))
  {
    if s != [] {
      WithoutDistinct(s[1..], k);
      var t := Without(s[1..], k);
      assert s[0] !in s[1..] by {
        forall i | 0 <= i < |s[1..]| ensures s[1..][i] != s[0] {
          assert s[1..][i] == s[i + 1];
        }
      }
      assert s[0] !in t;
    }
  }

  lemma {:induction false} WithoutAbsent<K(!new)>(s: seq<K>, k: K)
    requires k !in s
    ensures Without(s, k) == s
  {
    if s != [] {
      WithoutAbsent(s[1..], k);
    }
  }

  datatype Table<K(==,!new), V> = Table(order: seq<K>, entries: map<K, V>) {

    /** The order lists each key of `entries` exactly once. */
    ghost predicate Valid() {
      Distinct(order) && forall k :: k in entries <==> k in order
    }

    /** `hash.keys`: the keys in first-insertion order. */
    function Keys(): seq<K> {
      order
    }

    /** `hash[k]`, which is nil for a missing key. */
    function Get(k: K): Option<V> {
      if k in entries then Some(entries[k]) else None
    }

    /** `hash[k] = v`. */
    function Put(k: K, v: V): Table<K, V> {
      Table(if k in entries then order else order + [k], entries[k := v])
    }

    /** `hash[k] ||= d`: insert `d` only when `k` is absent. */
    function PutIfAbsent(k: K, d: V): Table<K, V> {
      if k in entries then this else Put(k, d)
    }

    /** `hash.delete(k)`, keeping the remaining keys in order. */
    function Delete(k: K): Table<K, V> {
      Table(Without(order, k), entries - {k})
    }
  }

  function Empty<K(==,!new), V>(): (t: Table<K, V>)
    ensures t.Valid() && t.Keys() == [] && t.entries == map[]
  {
    Table([], map[])
  }

  /** Assignment keeps the table valid, and appends the key to the order exactly when it is new. */
  lemma PutValid<K(!new), V>(t: Table<K, V>, k: K, v: V)
    requires t.Valid()
    ensures t.Put(k, v).Valid()
    ensures t.Put(k, v).Keys() == if k in t.order then t.Keys() else t.Keys() + [k]
  {
  }

  /** A key reads back what was last assigned to it, and every other key is unaffected. */
  lemma GetPut<K(!new), V>(t: Table<K, V>, k: K, v: V, k': K)
    ensures t.Put(k, v).Get(k') == if k' == k then Some(v) else t.Get(k')
  {
  }

  /** Deletion keeps the table valid, removes only that key from the order, and is a no-op on an absent key. */
  lemma DeleteValid<K(!new), V>(t: Table<K, V>, k: K)
    requires t.Valid()
    ensures t.Delete(k).Valid()
    ensures forall x :: x in t.Delete(k).Keys() <==> x in t.Keys() && x != k
    ensures k !in t.entries ==> t.Delete(k) == t
  {
    WithoutDistinct(t.order, k);
    if k !in t.entries {
      WithoutAbsent(t.order, k);
      assert t.entries - {k} == t.entries;
    }
  }

  /** After deletion the key reads as nil and every other key is unaffected. */
  lemma GetDelete<K(!new), V>(t: Table<K, V>, k: K, k': K)
    ensures t.Delete(k).Get(k') == if k' == k then None else t.Get(k')
  {
  }
}
