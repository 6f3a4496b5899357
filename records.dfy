/**
 * The client library's `RObject`, reduced to what the memory backends read and
 * write.  The payload is kept as the value it holds; `Marshal.dump` and
 * `Marshal.load` are the identity on `Marshaled`.
 */
module Records {
  import opened Terms
  import opened CrdtTypes

  datatype Payload =
    /** A string body stored by a client (`raw_data = 'Hello world'`). */
    | Text(s: string)
    /** The Integer that `post_counter` keeps as `raw_data`. */
    | Number(n: int)
    /** A CRDT value serialised by the operator. */
    | Marshaled(value: Value)

  datatype RObject = RObject(
    bucket: string,
    key: string,
    contentType: string,
    rawData: Payload,
    indexes: map<string, seq<Term>>)

  /** `RObject.new(bucket, key)` with `content_type` and `raw_data` then assigned; no index entries. */
  function NewObject(bucket: string, key: string, contentType: string, rawData: Payload): (o: RObject)
    ensures o.bucket == bucket && o.key == key && o.indexes == map[]
    ensures o.contentType == contentType && o.rawData == rawData
  {
    RObject(bucket, key, contentType, rawData, map[])
  }
}
