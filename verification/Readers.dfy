// The cursor that log replay and AMQP decoding read bytes through.
module Readers {
  import opened Bytes

  datatype Outcome<+T> = Success(value: T) | Failure(error: ReadError) {
    predicate IsFailure() { Failure? }

    function PropagateFailure<U>(): Outcome<U>
      requires Failure?
    {
      Failure(error)
    }

    function Extract(): T
      requires Success?
    {
      value
    }
  }

  function OutcomeOf<T>(p: Parsed<T>): Outcome<T> {
    match p case Ok(v, _) => Success(v) case Err(e) => Failure(e)
  }

  /** Reads a payload front to back; `data` is always what was consumed and what is left. */
  class ByteReader {
    const data: Octets
    var offset: nat
    ghost var consumed: Octets
    ghost var rest: Octets

    ghost predicate Valid()
      reads this
    {
      data == consumed + rest && offset == |consumed|
    }

    constructor (data: Octets)
      ensures Valid() && rest == data
    {
      this.data, this.offset, this.consumed, this.rest := data, 0, [], data;
    }

    method Advance(n: nat)
      requires Valid() && n <= |rest|
      modifies this
      ensures Valid() && rest == old(rest)[n..] && offset == old(offset) + n
    {
      offset := offset + n;
      consumed, rest := consumed + rest[..n], rest[n..];
    }

    method ReadU8() returns (r: Outcome<byte>)
      requires Valid()
      modifies this
      ensures Valid() && r == OutcomeOf(TakeU8(old(rest)))
      ensures r.Success? ==> rest == TakeU8(old(rest)).rest
    {
      if offset + 1 > |data| {
        return Failure(UnexpectedEof);
      }
      r := Success(data[offset]);
      Advance(1);
    }

    method ReadU16() returns (r: Outcome<u16>)
      requires Valid()
      modifies this
      ensures Valid() && r == OutcomeOf(TakeU16(old(rest)))
      ensures r.Success? ==> rest == TakeU16(old(rest)).rest
    {
      if offset + 2 > |data| {
        return Failure(UnexpectedEof);
      }
      assert data[offset..offset + 2] == rest[..2];
      r := Success(FromBE16(data[offset..offset + 2]));
      Advance(2);
    }

    method ReadU32() returns (r: Outcome<u32>)
      requires Valid()
      modifies this
      ensures Valid() && r == OutcomeOf(TakeU32(old(rest)))
      ensures r.Success? ==> rest == TakeU32(old(rest)).rest
    {
      if offset + 4 > |data| {
        return Failure(UnexpectedEof);
      }
      assert data[offset..offset + 4] == rest[..4];
      r := Success(FromBE32(data[offset..offset + 4]));
      Advance(4);
    }

    method ReadU64() returns (r: Outcome<u64>)
      requires Valid()
      modifies this
      ensures Valid() && r == OutcomeOf(TakeU64(old(rest)))
      ensures r.Success? ==> rest == TakeU64(old(rest)).rest
    {
      if offset + 8 > |data| {
        return Failure(UnexpectedEof);
      }
      assert data[offset..offset + 8] == rest[..8];
      r := Success(FromBE64(data[offset..offset + 8]));
      Advance(8);
    }

    method ReadSlice(len: nat) returns (r: Outcome<Octets>)
      requires Valid()
      modifies this
      ensures Valid() && r == OutcomeOf(TakeN(old(rest), len))
      ensures r.Success? ==> rest == TakeN(old(rest), len).rest
    {
      if offset + len > |data| {
        return Failure(UnexpectedEof);
      }
      assert data[offset..offset + len] == rest[..len];
      r := Success(data[offset..offset + len]);
      Advance(len);
    }

    method ReadBytesU32() returns (r: Outcome<Octets>)
      requires Valid()
      modifies this
      ensures Valid() && r == OutcomeOf(TakeBlob32(old(rest)))
      ensures r.Success? ==> rest == TakeBlob32(old(rest)).rest
    {
      var len :- ReadU32();
      r := ReadSlice(len);
    }

    method ReadStringU16(utf8: Utf8) returns (r: Outcome<Octets>)
      requires Valid()
      modifies this
      ensures Valid() && r == OutcomeOf(TakeStr16(utf8, old(rest)))
      ensures r.Success? ==> rest == TakeStr16(utf8, old(rest)).rest
    {
      var len :- ReadU16();
      var bytes :- ReadSlice(len);
      r := if utf8(bytes) then Success(bytes) else Failure(InvalidUtf8);
    }
  }
}
