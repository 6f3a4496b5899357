/**
 * `MemoryBackend#get_index`: a scan of a bucket's keys in insertion order that
 * returns each key with at least one matching index value, once, and optionally
 * the map from each matched (coerced) term to the keys found under it.
 */
module SecondaryIndex {
  import opened Common
  import opened OrderedTable
  import opened Terms
  import opened Records

  /** The `query` argument: a literal, or an inclusive `Range` of integers or of strings. */
  datatype Query = Exact(term: Term) | IntRange(lo: int, hi: int) | StrRange(first: string, last: string)

  /** `value = value.to_s if ...`: a string literal or a range starting with a string compares strings. */
  function Coerce(q: Query, v: Term): (r: Term)
    ensures v.StrTerm? ==> r == v
    ensures q.IntRange? || (q.Exact? && q.term.IntTerm?) ==> r == v
    ensures r.StrTerm? <==> v.StrTerm? || q.StrRange? || (q.Exact? && q.term.StrTerm?)
  {
    if q.StrRange? || (q.Exact? && q.term.StrTerm?) then StrTerm(ToS(v)) else v
  }

  /** `found_match`: equality for a literal, inclusive containment for a range, on the coerced value. */
  function Hit(q: Query, v: Term): (r: bool)
    ensures q.Exact? && v == q.term ==> r
    ensures q.IntRange? && v.StrTerm? ==> !r
    ensures q.IntRange? && v.IntTerm? ==> (r <==> q.lo <= v.i <= q.hi)
  {
    var c := Coerce(q, v);
    match q
    case Exact(t) => c == t
    case IntRange(lo, hi) => c.IntTerm? && lo <= c.i <= hi
    case StrRange(lo, hi) => c.StrTerm? && LexLe(lo, c.s) && LexLe(c.s, hi)
  }

  /** `object.indexes[index]`: the values under an index, none when the object has no such index. */
  function IndexValues(o: RObject, index: string): seq<Term> {
    if index in o.indexes then o.indexes[index] else []
  }

  function ValuesAt(objects: map<string, RObject>, k: string, index: string): seq<Term> {
    if k in objects then IndexValues(objects[k], index) else []
  }

  /** Some value of `vs` matches the query. */
  predicate AnyHit(q: Query, vs: seq<Term>)
    decreases |vs|
  {
    vs != [] && (AnyHit(q, vs[..|vs| - 1]) || Hit(q, vs[|vs| - 1]))
  }

  /** The keys of `ks`, in order, that have at least one matching value. */
  function Select(ks: seq<string>, objects: map<string, RObject>, index: string, q: Query): (r: seq<string>)
    ensures |r| <= |ks|
    ensures forall k :: k in r ==> k in ks
    decreases |ks|
  {
    if ks == [] then []
    else
      var k := ks[|ks| - 1];
      Select(ks[..|ks| - 1], objects, index, q) + (if AnyHit(q, ValuesAt(objects, k, index)) then [k] else [])
  }

  /** One `k` for each value of `vs` that matches and coerces to `t`. */
  function Hits(k: string, vs: seq<Term>, q: Query, t: Term): (r: seq<string>)
    ensures |r| <= |vs|
    ensures forall x :: x in r ==> x == k
    decreases |vs|
  {
    if vs == [] then []
    else
      var v := vs[|vs| - 1];
      Hits(k, vs[..|vs| - 1], q, t) + (if Hit(q, v) && Coerce(q, v) == t then [k] else [])
  }

  /** The keys recorded under term `t`, in scan order: one entry per matching value. */
  function TermKeys(ks: seq<string>, objects: map<string, RObject>, index: string, q: Query, t: Term): (r: seq<string>)
    ensures forall k :: k in r ==> k in ks
    decreases |ks|
  {
    if ks == [] then []
    else
      var k := ks[|ks| - 1];
      TermKeys(ks[..|ks| - 1], objects, index, q, t) + Hits(k, ValuesAt(objects, k, index), q, t)
  }

  lemma {:induction false} AnyHitMeaning(q: Query, vs: seq<Term>)
    ensures AnyHit(q, vs) <==> exists v :: v in vs && Hit(q, v)
    decreases |vs|
  {
    if vs != [] {
      var init := vs[..|vs| - 1];
      AnyHitMeaning(q, init);
      assert vs == init + [vs[|vs| - 1]];
    }
  }

  /** Exactly the listed keys with a matching value are selected. */
  lemma {:induction false} SelectMembers(ks: seq<string>, objects: map<string, RObject>, index: string, q: Query)
    ensures forall k :: k in Select(ks, objects, index, q) <==> k in ks && AnyHit(q, ValuesAt(objects, k, index))
    decreases |ks|
  {
    if ks != [] {
      var init := ks[..|ks| - 1];
      SelectMembers(init, objects, index, q);
      assert ks == init + [ks[|ks| - 1]];
    }
  }

  /** Selecting from a list without repeats gives a list without repeats. */
  lemma {:induction false} SelectDistinct(ks: seq<string>, objects: map<string, RObject>, index: string, q: Query)
    requires Distinct(ks)
    ensures Distinct(Select(ks, objects, index, q))
    decreases |ks|
  {
    if ks != [] {
      var init := ks[..|ks| - 1];
      var last := ks[|ks| - 1];
      assert Distinct(init);
      SelectDistinct(init, objects, index, q);
      SelectMembers(init, objects, index, q);
      assert last !in init by {
        forall i | 0 <= i < |init| ensures init[i] != last {
          assert init[i] == ks[i];
        }
      }
    }
  }

  /** Every key recorded under a term is also in the selected keys. */
  lemma {:induction false} TermKeysSelected(ks: seq<string>, objects: map<string, RObject>, index: string, q: Query, t: Term)
    ensures forall k :: k in TermKeys(ks, objects, index, q, t) ==> k in Select(ks, objects, index, q)
    decreases |ks|
  {
    if ks != [] {
      var init := ks[..|ks| - 1];
      var last := ks[|ks| - 1];
      TermKeysSelected(init, objects, index, q, t);
      HitsOnlyOnHit(last, ValuesAt(objects, last, index), q, t);
    }
  }

  lemma {:induction false} HitsOnlyOnHit(k: string, vs: seq<Term>, q: Query, t: Term)
    ensures forall x :: x in Hits(k, vs, q, t) ==> x == k && AnyHit(q, vs)
    decreases |vs|
  {
    if vs != [] {
      HitsOnlyOnHit(k, vs[..|vs| - 1], q, t);
    }
  }

  lemma SelectStep(ks: seq<string>, objects: map<string, RObject>, index: string, q: Query, i: nat)
    requires i < |ks|
    ensures Select(ks[..i + 1], objects, index, q) ==
      Select(ks[..i], objects, index, q) + (if AnyHit(q, ValuesAt(objects, ks[i], index)) then [ks[i]] else [])
  {
    assert ks[..i + 1][..i] == ks[..i];
  }

  lemma TermKeysStep(ks: seq<string>, objects: map<string, RObject>, index: string, q: Query, i: nat)
    requires i < |ks|
    ensures forall t :: (TermKeys(ks[..i + 1], objects, index, q, t) ==
      TermKeys(ks[..i], objects, index, q, t) + Hits(ks[i], ValuesAt(objects, ks[i], index), q, t))
  {
    assert ks[..i + 1][..i] == ks[..i];
  }

  /** A key of a list without repeats is not among the keys selected before it. */
  lemma SelectFresh(ks: seq<string>, objects: map<string, RObject>, index: string, q: Query, i: nat)
    requires Distinct(ks) && i < |ks|
    ensures ks[i] !in Select(ks[..i], objects, index, q)
  {
    SelectMembers(ks[..i], objects, index, q);
    forall x | 0 <= x < i ensures ks[..i][x] != ks[i] {
      assert ks[..i][x] == ks[x];
    }
  }

  lemma HitsStep(k: string, vs: seq<Term>, j: nat, q: Query, t: Term)
    requires j < |vs|
    ensures Hits(k, vs[..j + 1], q, t) ==
      Hits(k, vs[..j], q, t) + (if Hit(q, vs[j]) && Coerce(q, vs[j]) == t then [k] else [])
  {
    assert vs[..j + 1][..j] == vs[..j];
  }

  lemma AnyHitStep(vs: seq<Term>, j: nat, q: Query)
    requires j < |vs|
    ensures AnyHit(q, vs[..j + 1]) == (AnyHit(q, vs[..j]) || Hit(q, vs[j]))
  {
    assert vs[..j + 1][..j] == vs[..j];
  }

  /** The ghost view of `with_terms` after one more value of `key` has been scanned. */
  ghost function Note(m: map<Term, seq<string>>, key: string, q: Query, v: Term): map<Term, seq<string>> {
    if Hit(q, v) then m[Coerce(q, v) := Recorded(m, Coerce(q, v)) + [key]] else m
  }

  /** The ghost view of `with_terms` after all of `vs` has been scanned for `key`. */
  ghost function NoteAll(m: map<Term, seq<string>>, key: string, q: Query, vs: seq<Term>): map<Term, seq<string>>
    decreases |vs|
  {
    if vs == [] then m else Note(NoteAll(m, key, q, vs[..|vs| - 1]), key, q, vs[|vs| - 1])
  }

  lemma NoteAllStep(m: map<Term, seq<string>>, key: string, q: Query, vs: seq<Term>, j: nat)
    requires j < |vs|
    ensures NoteAll(m, key, q, vs[..j + 1]) == Note(NoteAll(m, key, q, vs[..j]), key, q, vs[j])
  {
    assert vs[..j + 1][..j] == vs[..j];
  }

  /** Scanning `vs` appends to each term's keys one `key` per matching value, and never leaves a term with no keys. */
  lemma {:induction false} NoteAllRecorded(m: map<Term, seq<string>>, key: string, q: Query, vs: seq<Term>)
    requires forall t :: t in m ==> m[t] != []
    ensures forall t :: Recorded(NoteAll(m, key, q, vs), t) == Recorded(m, t) + Hits(key, vs, q, t)
    ensures forall t :: t in NoteAll(m, key, q, vs) ==> NoteAll(m, key, q, vs)[t] != []
    decreases |vs|
  {
    if vs != [] {
      var init := vs[..|vs| - 1];
      var last := vs[|vs| - 1];
      NoteAllRecorded(m, key, q, init);
      var mid := NoteAll(m, key, q, init);
      NoteRecorded(mid, key, q, last);
      forall t ensures Recorded(NoteAll(m, key, q, vs), t) == Recorded(m, t) + Hits(key, vs, q, t) {
        RecordedAppend(Recorded(m, t), Hits(key, init, q, t), Recorded(mid, t), Recorded(NoteAll(m, key, q, vs), t),
          if Hit(q, last) && Coerce(q, last) == t then [key] else []);
      }
    }
  }

  lemma RecordedAppend(a: seq<string>, b: seq<string>, ab: seq<string>, abc: seq<string>, c: seq<string>)
    requires ab == a + b && abc == ab + c
    ensures abc == a + (b + c)
  {
  }

  /** Scanning one value appends `key` to its term's keys when it matches, and never leaves a term with no keys. */
  lemma NoteRecorded(m: map<Term, seq<string>>, key: string, q: Query, v: Term)
    requires forall t :: t in m ==> m[t] != []
    ensures forall t :: (Recorded(Note(m, key, q, v), t) ==
      Recorded(m, t) + (if Hit(q, v) && Coerce(q, v) == t then [key] else []))
    ensures forall t :: t in Note(m, key, q, v) ==> Note(m, key, q, v)[t] != []
  {
  }

  /** An integer range with equal ends matches exactly what the integer literal matches. */
  lemma IntPointRange(n: int, v: Term)
    ensures Hit(IntRange(n, n), v) <==> Hit(Exact(IntTerm(n)), v)
  {
  }

  /** A string range with equal ends matches exactly what the string literal matches. */
  lemma StrPointRange(s: string, v: Term)
    ensures Hit(StrRange(s, s), v) <==> Hit(Exact(StrTerm(s)), v)
  {
    if Hit(StrRange(s, s), v) {
      LexLeAntisymmetric(s, ToS(v));
    } else {
      LexLeReflexive(s);
    }
  }

  /** A string literal matches an integer value exactly when it is that integer's decimal form. */
  lemma StringQueryOnInteger(s: string, i: int)
    ensures Hit(Exact(StrTerm(s)), IntTerm(i)) <==> ParseDecimal(s) == Some(i) && s == Decimal(i)
  {
    DecimalRoundTrip(i);
  }

  /** A string range that matches anything has its first end at or below its last. */
  lemma StrRangeOrdered(first: string, last: string, v: Term)
    requires Hit(StrRange(first, last), v)
    ensures LexLe(first, last)
  {
    LexLeTransitive(first, ToS(v), last);
  }

  /** A string range matches every string between two strings it matches. */
  lemma StrRangeConvex(first: string, last: string, a: string, b: string, c: string)
    requires Hit(StrRange(first, last), StrTerm(a)) && Hit(StrRange(first, last), StrTerm(c))
    requires LexLe(a, b) && LexLe(b, c)
    ensures Hit(StrRange(first, last), StrTerm(b))
  {
    LexLeTransitive(first, a, b);
    LexLeTransitive(b, c, last);
  }

  /** Splitting a string range at any string leaves every value it matched in one of the two halves. */
  lemma StrRangeSplit(first: string, mid: string, last: string, v: Term)
    requires Hit(StrRange(first, last), v)
    ensures Hit(StrRange(first, mid), v) || Hit(StrRange(mid, last), v)
  {
    LexLeTotal(ToS(v), mid);
  }

  /** A string literal matches at most one integer value. */
  lemma StringQueryOneInteger(s: string, a: int, b: int)
    requires Hit(Exact(StrTerm(s)), IntTerm(a)) && Hit(Exact(StrTerm(s)), IntTerm(b))
    ensures a == b
  {
    DecimalInjective(a, b);
  }

  /** `with_terms[t]`, with no keys for a term never recorded. */
  function Recorded(m: map<Term, seq<string>>, t: Term): seq<string> {
    if t in m then m[t] else []
  }

  /**
   * The inner loop of `get_index` for one key: walks the key's values under
   * the index, appends the key at its first matching value (unless already
   * there) and, with `returnTerms`, appends it under each matching coerced value.
   * `terms` is what `with_terms` holds once it exists.
   */
  method ScanKey(key: string, vals: seq<Term>, q: Query, returnTerms: bool,
                 keys0: seq<string>, withTerms0: Option<map<Term, seq<string>>>, ghost terms0: map<Term, seq<string>>)
    returns (keys: seq<string>, withTerms: Option<map<Term, seq<string>>>, ghost terms: map<Term, seq<string>>)
    requires key !in keys0
    requires keys0 == [] ==> terms0 == map[]
    requires withTerms0 == if returnTerms && keys0 != [] then Some(terms0) else None
    requires forall t :: t in terms0 ==> terms0[t] != []
    ensures keys == keys0 + (if AnyHit(q, vals) then [key] else [])
    ensures keys == [] ==> terms == map[]
    ensures withTerms == if returnTerms && keys != [] then Some(terms) else None
    ensures forall t :: Recorded(terms, t) == Recorded(terms0, t) + Hits(key, vals, q, t)
    ensures forall t :: t in terms ==> terms[t] != []
  {
    keys, withTerms, terms := keys0, withTerms0, terms0;
    assert vals[..0] == [];
    var j := 0;
    while j < |vals|
      invariant 0 <= j <= |vals|
      invariant keys == keys0 + (if AnyHit(q, vals[..j]) then [key] else [])
      invariant terms == NoteAll(terms0, key, q, vals[..j])
      invariant keys == [] ==> terms == map[]
      invariant withTerms == if returnTerms && keys != [] then Some(terms) else None
    {
      var value := Coerce(q, vals[j]);
      var foundMatch := Hit(q, vals[j]);
      NoteAllStep(terms0, key, q, vals, j);
      AnyHitStep(vals, j, q);
      if foundMatch {
        if key !in keys {
          keys := keys + [key];
        }
        if returnTerms {
          var m := if withTerms.Some? then withTerms.value else map[];
          var prior := if value in m then m[value] else [];
          withTerms := Some(m[value := prior + [key]]);
        }
      }
      terms := Note(terms, key, q, vals[j]);
      j := j + 1;
    }
    assert vals[..j] == vals;
    NoteAllRecorded(terms0, key, q, vals);
  }

  /**
   * Runs the loop of `get_index` over one bucket's key table: keys in
   * `list_keys` order, each key's values under `index`, appending a key the
   * first time one of its values matches and, with `returnTerms`, recording
   * the key under the coerced term.
   */
  method ScanIndex(table: Table<string, RObject>, index: string, q: Query, returnTerms: bool)
    returns (keys: seq<string>, withTerms: Option<map<Term, seq<string>>>)
    requires table.Valid()
    ensures keys == Select(table.Keys(), table.entries, index, q)
    ensures Distinct(keys)
    ensures forall k :: k in keys <==> k in table.entries && AnyHit(q, IndexValues(table.entries[k], index))
    ensures withTerms.Some? <==> returnTerms && keys != []
    ensures withTerms.Some? ==>
      forall t :: Recorded(withTerms.value, t) == TermKeys(table.Keys(), table.entries, index, q, t)
    ensures withTerms.Some? ==> forall t :: t in withTerms.value ==> withTerms.value[t] != []
  {
    var order := table.Keys();
    keys := [];
    withTerms := None;
    ghost var terms: map<Term, seq<string>> := map[];
    var i := 0;
    while i < |order|
      invariant 0 <= i <= |order|
      invariant keys == Select(order[..i], table.entries, index, q)
      invariant keys == [] ==> terms == map[]
      invariant withTerms == if returnTerms && keys != [] then Some(terms) else None
      invariant forall t :: Recorded(terms, t) == TermKeys(order[..i], table.entries, index, q, t)
      invariant forall t :: t in terms ==> terms[t] != []
    {
      var key := order[i];
      var obj := table.entries[key];
      SelectFresh(order, table.entries, index, q, i);
      SelectStep(order, table.entries, index, q, i);
      TermKeysStep(order, table.entries, index, q, i);
      keys, withTerms, terms := ScanKey(key, IndexValues(obj, index), q, returnTerms, keys, withTerms, terms);
      i := i + 1;
    }
    assert order[..i] == order;
    SelectMembers(order, table.entries, index, q);
    SelectDistinct(order, table.entries, index, q);
  }
}
