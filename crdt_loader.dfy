/**
 * `MemoryBackend::CrdtLoader`: reads the CRDT value stored under a key, or,
 * when the key is absent, the default value for the datatype that the bucket
 * type's properties name.
 */
module CrdtLoading {
  import opened Common
  import opened CrdtTypes
  import opened Records
  import opened BucketStore
  import opened Memory

  /** The map value with all five facets empty. */
  function EmptyMap(): (v: Value)
    ensures v.Fields? && forall t :: Facet(v, t) == map[]
  {
    Fields(map[], map[], map[], map[], map[])
  }

  /** `DEFAULTS[name.to_sym]`: only set, counter and map have an initial value. */
  function Default(name: string): (r: Option<Value>)
    ensures r.Some? <==> name in {"set", "counter", "map"}
    ensures r.Some? ==> match r.value
      case Strings(elems) => elems == {}
      case Int(n) => n == 0
      case Fields(_, _, _, _, _) => forall t :: Facet(r.value, t) == map[]
      case _ => false
  {
    if name == "set" then Some(Strings({}))
    else if name == "counter" then Some(Int(0))
    else if name == "map" then Some(EmptyMap())
    else None
  }

  /** `DEFAULTS[datatype]` for an operation's datatype. */
  function DefaultFor(dt: Datatype): (r: Option<Value>)
    ensures r.Some? <==> dt in {SetType, CounterType, MapType}
  {
    Default(TypeName(dt))
  }

  /** The default of each datatype: sets, counters and maps start empty or at 0; flags and registers have none. */
  lemma DefaultForCases()
    ensures DefaultFor(SetType) == Some(Strings({}))
    ensures DefaultFor(CounterType) == Some(Int(0))
    ensures DefaultFor(MapType) == Some(EmptyMap())
    ensures DefaultFor(FlagType) == None && DefaultFor(RegisterType) == None
  {
  }

  /** `Marshal.load(raw_data)`: only a serialised CRDT value loads. */
  function Unmarshal(p: Payload): (r: Result<Value>)
    ensures r.Ok? <==> p.Marshaled?
    ensures r.Ok? ==> Marshaled(r.value) == p
    ensures r.Err? ==> r.error.Fault?
  {
    match p
    case Marshaled(v) => Ok(v)
    case Text(_) => Err(Fault("incompatible marshal file format"))
    case Number(_) => Err(Fault("instance of IO needed"))
  }

  /**
   * `load`: the stored value when the key exists; otherwise the default for
   * the bucket type's `datatype` property, `UnsupportedDatatype` for a name
   * without one, and a fault when the property is unset (`nil.to_sym`).
   */
  function LoadFrom(stored: Option<RObject>, typeProps: map<string, string>): (r: Result<Value>)
    ensures r.Ok? <==>
      if stored.Some? then stored.value.rawData.Marshaled?
      else "datatype" in typeProps && typeProps["datatype"] in {"set", "counter", "map"}
    ensures stored.Some? && r.Ok? ==> Marshaled(r.value) == stored.value.rawData
    ensures stored.None? && r.Ok? ==> Some(r.value) == Default(typeProps["datatype"])
    ensures r.Err? ==>
      r.error.Fault? || (stored.None? && "datatype" in typeProps && r.error == UnsupportedDatatype(typeProps["datatype"]))
  {
    if stored.Some? then Unmarshal(stored.value.rawData)
    else if "datatype" !in typeProps then Err(Fault("undefined method to_sym for nil"))
    else if Default(typeProps["datatype"]).Some? then Ok(Default(typeProps["datatype"]).value)
    else Err(UnsupportedDatatype(typeProps["datatype"]))
  }

  /** A stored CRDT loads back unchanged, whatever the bucket type says; other bodies fail. */
  lemma LoadStored(o: RObject, typeProps: map<string, string>)
    ensures LoadFrom(Some(o), typeProps).Ok? <==> o.rawData.Marshaled?
    ensures o.rawData.Marshaled? ==> LoadFrom(Some(o), typeProps) == Ok(o.rawData.value)
  {
  }

  /** An absent key loads as 0, the empty set or the empty map, by the bucket type's datatype. */
  lemma LoadAbsentDefaults(typeProps: map<string, string>)
    ensures "datatype" in typeProps && typeProps["datatype"] == "counter" ==> LoadFrom(None, typeProps) == Ok(Int(0))
    ensures "datatype" in typeProps && typeProps["datatype"] == "set" ==> LoadFrom(None, typeProps) == Ok(Strings({}))
    ensures "datatype" in typeProps && typeProps["datatype"] == "map" ==>
      LoadFrom(None, typeProps).Ok? && forall t :: Facet(LoadFrom(None, typeProps).value, t) == map[]
  {
  }

  /** An absent key under any other datatype, or none at all, fails to load. */
  lemma LoadAbsentFails(typeProps: map<string, string>)
    ensures "datatype" !in typeProps ==> LoadFrom(None, typeProps).Err? && LoadFrom(None, typeProps).error.Fault?
    ensures "datatype" in typeProps && Default(typeProps["datatype"]).None? ==>
      LoadFrom(None, typeProps) == Err(UnsupportedDatatype(typeProps["datatype"]))
    ensures LoadFrom(None, typeProps).Ok? <==>
      "datatype" in typeProps && typeProps["datatype"] in {"set", "counter", "map"}
  {
  }

  class CrdtLoader {
    const backend: MemoryBackend
    /** A generated context; it carries no meaning in a memory backend. */
    const context: string

    constructor(backend: MemoryBackend, context: string)
      ensures this.backend == backend && this.context == context
    {
      this.backend := backend;
      this.context := context;
    }

    /** Fetches the key through the backend and falls back to the datatype's default when it is absent. */
    method Load(bucket: string, key: string, typeProps: map<string, string>) returns (r: Result<Value>)
      requires backend.Valid()
      modifies backend.data`buckets
      ensures backend.Valid()
      ensures backend.data.buckets == Touch(old(backend.data.buckets), bucket)
      ensures r == LoadFrom(Lookup(old(backend.data.buckets), bucket, key), typeProps)
    {
      var fetched := backend.FetchObject(bucket, key);
      if fetched.Ok? {
        return Unmarshal(fetched.value.rawData);
      }
      if "datatype" !in typeProps {
        return Err(Fault("undefined method to_sym for nil"));
      }
      var name := typeProps["datatype"];
      var initial := Default(name);
      if initial.Some? {
        r := Ok(initial.value);
      } else {
        r := Err(UnsupportedDatatype(name));
      }
    }

  }
}
