/**
 * `set_client_id`: an Integer id is packed as a 32-bit unsigned big-endian
 * binary string (`[id].pack("N")`, which keeps the low 32 bits), any other id
 * is kept as its `to_s`.
 */
module ClientIds {

  const Two32: int := 0x1_0000_0000

  /** The argument of `set_client_id`: an Integer, or any other object given by its `to_s`. */
  datatype ClientIdArg = IntId(n: int) | StrId(s: string)

  /** Reads a 4-byte big-endian string back as an unsigned integer. */
  function UnpackN(s: string): int
    requires |s| == 4
  {
    ((s[0] as int * 256 + s[1] as int) * 256 + s[2] as int) * 256 + s[3] as int
  }

  /** `[n].pack("N")`: four bytes, most significant first, of `n` modulo 2^32. */
  function PackN(n: int): (s: string)
    ensures |s| == 4
    ensures forall i :: 0 <= i < 4 ==> s[i] as int < 256
  {
    var m := n % Two32;
    var q1 := m / 256;
    var q2 := q1 / 256;
    var q3 := q2 / 256;
    [q3 as char, (q2 % 256) as char, (q1 % 256) as char, (m % 256) as char]
  }

  /** Packing keeps exactly the low 32 bits: unpacking gives `n` modulo 2^32. */
  lemma PackRoundTrip(n: int)
    ensures UnpackN(PackN(n)) == n % Two32
  {
    var m := n % Two32;
    var q1 := m / 256;
    var q2 := q1 / 256;
    var q3 := q2 / 256;
    assert m == q1 * 256 + m % 256;
    assert q1 == q2 * 256 + q1 % 256;
    assert q2 == q3 * 256 + q2 % 256;
    assert q3 < 256;
  }

  /** Two integers pack alike exactly when they agree modulo 2^32. */
  lemma PackEqual(a: int, b: int)
    ensures PackN(a) == PackN(b) <==> a % Two32 == b % Two32
  {
    PackRoundTrip(a);
    PackRoundTrip(b);
  }

  /** The stored client id. */
  function ClientIdOf(id: ClientIdArg): (r: string)
    ensures id.IntId? ==> |r| == 4 && UnpackN(r) == id.n % Two32
    ensures id.StrId? ==> r == id.s
  {
    PackRoundTrip(if id.IntId? then id.n else 0);
    match id
    case IntId(n) => PackN(n)
    case StrId(s) => s
  }

  /** The id a new handle starts with, `set_client_id(0)`, is four zero bytes. */
  lemma DefaultClientId()
    ensures ClientIdOf(IntId(0)) == "\0\0\0\0"
  {
  }
}
