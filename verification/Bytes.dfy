// Big-endian integers, length-prefixed slices and the failure-compatible result
// that every byte reader of the broker (log replay and AMQP decoding) returns.
module Bytes {

  type byte = x: int | 0 <= x < 0x100
  type u16 = x: int | 0 <= x < 0x1_0000
  type u32 = x: int | 0 <= x < 0x1_0000_0000
  type u64 = x: int | 0 <= x < 0x1_0000_0000_0000_0000
  type Octets = seq<byte>

  const TWO_16: int := 0x1_0000
  const TWO_32: int := 0x1_0000_0000
  const TWO_64: int := 0x1_0000_0000_0000_0000

  datatype Option<+T> = None | Some(value: T)

  datatype ReadError = UnexpectedEof | InvalidUtf8 | InvalidTag(tag: byte)

  /** A value read from the front of some bytes, with the bytes not consumed. */
  datatype Parsed<+T> = Ok(value: T, rest: Octets) | Err(error: ReadError) {
    predicate IsFailure() { Err? }

    function PropagateFailure<U>(): Parsed<U>
      requires Err?
    {
      Err(error)
    }

    function Extract(): (T, Octets)
      requires Ok?
    {
      (value, rest)
    }
  }

  // Big-endian integers. Each encoder's contract is its own round trip.

  function BE16(v: u16): (b: Octets)
    ensures |b| == 2 && FromBE16(b) == v
  {
    [v / 0x100, v % 0x100]
  }

  function FromBE16(b: Octets): u16
    requires |b| == 2
  {
    b[0] as int * 0x100 + b[1] as int
  }

  function BE32(v: u32): (b: Octets)
    ensures |b| == 4 && FromBE32(b) == v
  {
    var hi, lo := BE16(v / TWO_16), BE16(v % TWO_16);
    assert (hi + lo)[..2] == hi && (hi + lo)[2..] == lo;
    hi + lo
  }

  function FromBE32(b: Octets): u32
    requires |b| == 4
  {
    FromBE16(b[..2]) as int * TWO_16 + FromBE16(b[2..]) as int
  }

  function BE64(v: u64): (b: Octets)
    ensures |b| == 8 && FromBE64(b) == v
  {
    var hi, lo := BE32(v / TWO_32), BE32(v % TWO_32);
    assert (hi + lo)[..4] == hi && (hi + lo)[4..] == lo;
    hi + lo
  }

  function FromBE64(b: Octets): u64
    requires |b| == 8
  {
    FromBE32(b[..4]) as int * TWO_32 + FromBE32(b[4..]) as int
  }

  lemma BE16OfFrom(b: Octets)
    requires |b| == 2
    ensures BE16(FromBE16(b)) == b
  {
  }

  /** Every four bytes are the encoding of the integer they denote. */
  lemma BE32OfFrom(b: Octets)
    requires |b| == 4
    ensures BE32(FromBE32(b)) == b
  {
    BE16OfFrom(b[..2]);
    BE16OfFrom(b[2..]);
    hide BE16, FromBE16;
    var hi, lo := FromBE16(b[..2]), FromBE16(b[2..]);
    assert (hi * TWO_16 + lo) / TWO_16 == hi && (hi * TWO_16 + lo) % TWO_16 == lo;
    assert b == b[..2] + b[2..];
  }

  lemma BE64OfFrom(b: Octets)
    requires |b| == 8
    ensures BE64(FromBE64(b)) == b
  {
    BE32OfFrom(b[..4]);
    BE32OfFrom(b[4..]);
    hide BE32, FromBE32;
    var hi, lo := FromBE32(b[..4]), FromBE32(b[4..]);
    assert (hi * TWO_32 + lo) / TWO_32 == hi && (hi * TWO_32 + lo) % TWO_32 == lo;
    assert b == b[..4] + b[4..];
  }

  // Readers. Each one fails exactly when fewer bytes are left than it needs.

  function TakeN(s: Octets, n: nat): Parsed<Octets>
  {
    if |s| < n then Err(UnexpectedEof) else Ok(s[..n], s[n..])
  }

  function TakeU8(s: Octets): Parsed<byte>
  {
    if |s| < 1 then Err(UnexpectedEof) else Ok(s[0], s[1..])
  }

  function TakeU16(s: Octets): Parsed<u16>
  {
    if |s| < 2 then Err(UnexpectedEof) else Ok(FromBE16(s[..2]), s[2..])
  }

  function TakeU32(s: Octets): Parsed<u32>
  {
    if |s| < 4 then Err(UnexpectedEof) else Ok(FromBE32(s[..4]), s[4..])
  }

  function TakeU64(s: Octets): Parsed<u64>
  {
    if |s| < 8 then Err(UnexpectedEof) else Ok(FromBE64(s[..8]), s[8..])
  }

  // Reading back what was written in front of any bytes.

  lemma TakeNAppend(x: Octets, t: Octets)
    ensures TakeN(x + t, |x|) == Ok(x, t)
  {
    assert (x + t)[..|x|] == x && (x + t)[|x|..] == t;
  }

  lemma TakeU16Append(v: u16, t: Octets)
    ensures TakeU16(BE16(v) + t) == Ok(v, t)
  {
    hide BE16, FromBE16;
    assert (BE16(v) + t)[..2] == BE16(v) && (BE16(v) + t)[2..] == t;
  }

  lemma TakeU32Append(v: u32, t: Octets)
    ensures TakeU32(BE32(v) + t) == Ok(v, t)
  {
    hide BE32, FromBE32;
    assert (BE32(v) + t)[..4] == BE32(v) && (BE32(v) + t)[4..] == t;
  }

  lemma TakeU64Append(v: u64, t: Octets)
    ensures TakeU64(BE64(v) + t) == Ok(v, t)
  {
    hide BE64, FromBE64;
    assert (BE64(v) + t)[..8] == BE64(v) && (BE64(v) + t)[8..] == t;
  }

  type Utf8 = Octets -> bool

  // Length-prefixed fields. The writer truncates the length to the width of its prefix.

  function Str16(s: Octets): Octets {
    BE16(|s| % TWO_16) + s
  }

  function Blob32(s: Octets): Octets {
    BE32(|s| % TWO_32) + s
  }

  function TakeBlob16(s: Octets): Parsed<Octets> {
    var (n, t) :- TakeU16(s);
    TakeN(t, n)
  }

  function TakeBlob32(s: Octets): Parsed<Octets> {
    var (n, t) :- TakeU32(s);
    TakeN(t, n)
  }

  /** A string: its bytes must also be valid UTF-8. */
  function TakeStr16(utf8: Utf8, s: Octets): Parsed<Octets> {
    var (bytes, t) :- TakeBlob16(s);
    if utf8(bytes) then Ok(bytes, t) else Err(InvalidUtf8)
  }

  lemma TakeBlob16Append(x: Octets, t: Octets)
    requires |x| < TWO_16
    ensures TakeBlob16(Str16(x) + t) == Ok(x, t)
  {
    hide BE16, FromBE16;
    assert Str16(x) + t == BE16(|x|) + (x + t);
    TakeU16Append(|x|, x + t);
    TakeNAppend(x, t);
  }

  lemma TakeBlob32Append(x: Octets, t: Octets)
    requires |x| < TWO_32
    ensures TakeBlob32(Blob32(x) + t) == Ok(x, t)
  {
    hide BE32, FromBE32;
    assert Blob32(x) + t == BE32(|x|) + (x + t);
    TakeU32Append(|x|, x + t);
    TakeNAppend(x, t);
  }
}
