/**
 * The CRDT values the memory backend keeps, and the operation payloads that
 * `Riak::Crdt::Operation` carries.  Values mirror the Ruby objects the backend
 * stores: an Integer (counter), a String or boolean (register, flag), a Set of
 * strings (set) and a Hash of five facets (map).
 */
module CrdtTypes {

  /** The datatypes an operation can name; a map's facet for type `t` is `"<t>s"`. */
  datatype Datatype = CounterType | SetType | FlagType | RegisterType | MapType

  /** The symbol's name, as used in `"application/riak_#{datatype}"` and `:"#{datatype}s"`. */
  function TypeName(d: Datatype): string {
    match d
    case CounterType => "counter"
    case SetType => "set"
    case FlagType => "flag"
    case RegisterType => "register"
    case MapType => "map"
  }

  datatype Value =
    | Int(n: int)
    | Str(s: string)
    | Bool(b: bool)
    | Strings(elems: set<string>)
    | Fields(counters: map<string, Value>, flags: map<string, Value>, maps: map<string, Value>,
             registers: map<string, Value>, sets: map<string, Value>)

  /** `data[:"#{t}s"]` of a map value. */
  function Facet(v: Value, t: Datatype): map<string, Value>
    requires v.Fields?
  {
    match t
    case CounterType => v.counters
    case SetType => v.sets
    case FlagType => v.flags
    case RegisterType => v.registers
    case MapType => v.maps
  }

  /** The map value with facet `t` replaced by `f`. */
  function WithFacet(v: Value, t: Datatype, f: map<string, Value>): (r: Value)
    requires v.Fields?
    ensures r.Fields? && Facet(r, t) == f
    ensures forall u :: u != t ==> Facet(r, u) == Facet(v, u)
  {
    match t
    case CounterType => v.(counters := f)
    case SetType => v.(sets := f)
    case FlagType => v.(flags := f)
    case RegisterType => v.(registers := f)
    case MapType => v.(maps := f)
  }

  /**
   * The `value` of an operation: an Integer delta (counter), a boolean (flag),
   * a String (register), an `{add:, remove:}` hash (set), or a map's
   * `Update(type, name, value)` / `Delete(type, name)`.
   */
  datatype OpValue =
    | IntArg(n: int)
    | BoolArg(b: bool)
    | StrArg(s: string)
    | SetEdit(add: seq<string>, remove: seq<string>)
    | Update(childType: Datatype, name: string, child: OpValue)
    | Delete(childType: Datatype, name: string)

  /** A `Riak::Crdt::Operation`: the datatype it targets and its payload. */
  datatype Operation = Operation(kind: Datatype, value: OpValue)
}
