// What the replay readers accept: exactly the encodings of records, followed by anything, except
// that a flag may be any octet and only 1 counts as set.
module RecordReading {
  import opened Bytes
  import opened WalFormat
  import opened WalRecords
  import opened Recovery
  import Compaction

  lemma CutAt(s: Octets, n: nat)
    requires n <= |s|
    ensures s == s[..n] + s[n..]
  {
  }

  lemma TakeU16Iff(s: Octets, v: u16, t: Octets)
    ensures TakeU16(s) == Ok(v, t) <==> s == BE16(v) + t
  {
    hide BE16, FromBE16;
    if |s| >= 2 {
      BE16OfFrom(s[..2]);
      CutAt(s, 2);
    }
    TakeU16Append(v, t);
  }

  lemma TakeU32Iff(s: Octets, v: u32, t: Octets)
    ensures TakeU32(s) == Ok(v, t) <==> s == BE32(v) + t
  {
    hide BE32, FromBE32;
    if |s| >= 4 {
      BE32OfFrom(s[..4]);
      CutAt(s, 4);
    }
    TakeU32Append(v, t);
  }

  lemma TakeU64Iff(s: Octets, v: u64, t: Octets)
    ensures TakeU64(s) == Ok(v, t) <==> s == BE64(v) + t
  {
    hide BE64, FromBE64;
    if |s| >= 8 {
      BE64OfFrom(s[..8]);
      CutAt(s, 8);
    }
    TakeU64Append(v, t);
  }

  lemma TakeNIs(s: Octets, n: nat, x: Octets, t: Octets)
    requires TakeN(s, n) == Ok(x, t)
    ensures |x| == n && s == x + t
  {
    CutAt(s, n);
  }

  /** A string is taken exactly from its length, its octets, which are UTF-8, and what follows. */
  lemma TakeStr16Iff(utf8: Utf8, s: Octets, x: Octets, t: Octets)
    ensures TakeStr16(utf8, s) == Ok(x, t) <==> |x| < 0x1_0000 && utf8(x) && s == Str16(x) + t
  {
    hide BE16, FromBE16, TakeU16, TakeN;
    if TakeStr16(utf8, s) == Ok(x, t) {
      var n := TakeU16(s);
      TakeU16Iff(s, n.value, n.rest);
      TakeNIs(n.rest, n.value, x, t);
      assert BE16(|x|) + (x + t) == BE16(|x|) + x + t;
    }
    if |x| < TWO_16 { TakeBlob16Append(x, t); }
  }

  lemma TakeBlob32Iff(s: Octets, x: Octets, t: Octets)
    ensures TakeBlob32(s) == Ok(x, t) && |x| < 0x1_0000_0000 <==> |x| < 0x1_0000_0000 && s == Blob32(x) + t
  {
    hide BE32, FromBE32, TakeU32, TakeN;
    if TakeBlob32(s) == Ok(x, t) {
      var n := TakeU32(s);
      TakeU32Iff(s, n.value, n.rest);
      TakeNIs(n.rest, n.value, x, t);
      assert BE32(|x|) + (x + t) == BE32(|x|) + x + t;
    }
    if |x| < TWO_32 { TakeBlob32Append(x, t); }
  }

  lemma BlobIsShort(s: Octets)
    requires TakeBlob32(s).Ok?
    ensures |TakeBlob32(s).value| < 0x1_0000_0000
  {
    hide FromBE32;
    TakeNIs(TakeU32(s).rest, TakeU32(s).value, TakeBlob32(s).value, TakeBlob32(s).rest);
  }

  lemma TakeU8Iff(s: Octets, b: byte, t: Octets)
    ensures TakeU8(s) == Ok(b, t) <==> s == [b] + t
  {
    if |s| >= 1 { CutAt(s, 1); }
  }

  // The readers.

  /** A declaration of a queue: its name, and a flag that is set by the octet 1 alone. */
  lemma ReadDeclareQueueIff(utf8: Utf8, data: Octets, name: Octets, durable: bool, rest: Octets)
    ensures ReadDeclareQueue(utf8, data) == Ok(DeclareQueueRecord(name, durable), rest) <==>
            && |name| < 0x1_0000 && utf8(name)
            && exists b: byte :: (durable <==> b == 1) && data == Str16(name) + ([b] + rest)
  {
    hide Str16, TakeStr16, TakeU8;
    if ReadDeclareQueue(utf8, data) == Ok(DeclareQueueRecord(name, durable), rest) {
      var s := TakeStr16(utf8, data).rest;
      TakeStr16Iff(utf8, data, name, s);
      TakeU8Iff(s, TakeU8(s).value, rest);
    }
    if |name| < 0x1_0000 && utf8(name)
      && exists b: byte :: (durable <==> b == 1) && data == Str16(name) + ([b] + rest) {
      var b: byte :| (durable <==> b == 1) && data == Str16(name) + ([b] + rest);
      TakeStr16Iff(utf8, data, name, [b] + rest);
      TakeU8Iff([b] + rest, b, rest);
    }
  }

  /** A declaration of an exchange: its name, the octet of its kind, and such a flag. */
  lemma ReadDeclareExchangeIff(utf8: Utf8, data: Octets, name: Octets, kind: byte, durable: bool, rest: Octets)
    ensures ReadDeclareExchange(utf8, data) == Ok(DeclareExchangeRecord(name, kind, durable), rest) <==>
            && |name| < 0x1_0000 && utf8(name)
            && exists b: byte :: (durable <==> b == 1) && data == Str16(name) + ([kind] + ([b] + rest))
  {
    hide Str16, TakeStr16, TakeU8;
    if ReadDeclareExchange(utf8, data) == Ok(DeclareExchangeRecord(name, kind, durable), rest) {
      var s := TakeStr16(utf8, data).rest;
      var t := TakeU8(s).rest;
      TakeStr16Iff(utf8, data, name, s);
      TakeU8Iff(s, kind, t);
      TakeU8Iff(t, TakeU8(t).value, rest);
    }
    if |name| < 0x1_0000 && utf8(name)
      && exists b: byte :: (durable <==> b == 1) && data == Str16(name) + ([kind] + ([b] + rest)) {
      var b: byte :| (durable <==> b == 1) && data == Str16(name) + ([kind] + ([b] + rest));
      TakeStr16Iff(utf8, data, name, [kind] + ([b] + rest));
      TakeU8Iff([kind] + ([b] + rest), kind, [b] + rest);
      TakeU8Iff([b] + rest, b, rest);
    }
  }

  /** A binding: three strings. */
  lemma ReadBindIff(utf8: Utf8, data: Octets, x: Octets, q: Octets, key: Octets, rest: Octets)
    ensures ReadBind(utf8, data) == Ok(BindRecord(x, q, key), rest) <==>
            && |x| < 0x1_0000 && |q| < 0x1_0000 && |key| < 0x1_0000 && utf8(x) && utf8(q) && utf8(key)
            && data == Str16(x) + (Str16(q) + (Str16(key) + rest))
  {
    hide Str16, TakeStr16;
    if ReadBind(utf8, data) == Ok(BindRecord(x, q, key), rest) {
      var s := TakeStr16(utf8, data).rest;
      var t := TakeStr16(utf8, s).rest;
      TakeStr16Iff(utf8, data, x, s);
      TakeStr16Iff(utf8, s, q, t);
      TakeStr16Iff(utf8, t, key, rest);
    }
    TakeStr16Iff(utf8, data, x, Str16(q) + (Str16(key) + rest));
    TakeStr16Iff(utf8, Str16(q) + (Str16(key) + rest), q, Str16(key) + rest);
    TakeStr16Iff(utf8, Str16(key) + rest, key, rest);
  }

  /** The strings of a message fit and are UTF-8. */
  predicate Spelled(utf8: Utf8, r: Record)
    requires r.EnqueueRecord?
  {
    && |r.queue| < 0x1_0000 && |r.exchange| < 0x1_0000 && |r.routingKey| < 0x1_0000
    && |r.headers| < 0x1_0000_0000 && |r.body| < 0x1_0000_0000
    && utf8(r.queue) && utf8(r.exchange) && utf8(r.routingKey)
  }

  /** A message is restored exactly from its six fields, unless its id is acknowledged. */
  lemma ReadEnqueueIff(utf8: Utf8, acked: set<u64>, data: Octets, r: Record, rest: Octets)
    requires r.EnqueueRecord?
    ensures ReadEnqueue(utf8, acked, data) == Ok(Some(r), rest) <==>
            && Spelled(utf8, r) && r.msgId !in acked
            && data == Str16(r.queue) + (BE64(r.msgId) + (Str16(r.exchange) + (Str16(r.routingKey)
                                        + (Blob32(r.headers) + (Blob32(r.body) + rest)))))
  {
    if ReadEnqueue(utf8, acked, data) == Ok(Some(r), rest) {
      EnqueueReadIsSpelled(utf8, acked, data, r, rest);
    }
    if Spelled(utf8, r) && r.msgId !in acked {
      SpelledIsRead(utf8, acked, r, rest);
    }
    hide *;
  }

  lemma EnqueueReadIsSpelled(utf8: Utf8, acked: set<u64>, data: Octets, r: Record, rest: Octets)
    requires r.EnqueueRecord? && ReadEnqueue(utf8, acked, data) == Ok(Some(r), rest)
    ensures Spelled(utf8, r) && r.msgId !in acked
    ensures data == Str16(r.queue) + (BE64(r.msgId) + (Str16(r.exchange) + (Str16(r.routingKey)
                                    + (Blob32(r.headers) + (Blob32(r.body) + rest)))))
  {
    hide Str16, Blob32, BE64, TakeStr16, TakeBlob32, TakeU64;
    var s1 := TakeStr16(utf8, data).rest;
    var s2 := TakeU64(s1).rest;
    var s3 := TakeStr16(utf8, s2).rest;
    var s4 := TakeStr16(utf8, s3).rest;
    var s5 := TakeBlob32(s4).rest;
    TakeStr16Iff(utf8, data, r.queue, s1);
    TakeU64Iff(s1, r.msgId, s2);
    TakeStr16Iff(utf8, s2, r.exchange, s3);
    TakeStr16Iff(utf8, s3, r.routingKey, s4);
    BlobIsShort(s4);
    BlobIsShort(s5);
    TakeBlob32Iff(s4, r.headers, s5);
    TakeBlob32Iff(s5, r.body, rest);
  }

  lemma SpelledIsRead(utf8: Utf8, acked: set<u64>, r: Record, rest: Octets)
    requires r.EnqueueRecord? && Spelled(utf8, r) && r.msgId !in acked
    ensures ReadEnqueue(utf8, acked,
              Str16(r.queue) + (BE64(r.msgId) + (Str16(r.exchange) + (Str16(r.routingKey)
                               + (Blob32(r.headers) + (Blob32(r.body) + rest))))))
         == Ok(Some(r), rest)
  {
    hide Str16, Blob32, BE64, TakeStr16, TakeBlob32, TakeU64;
    var s5 := Blob32(r.body) + rest;
    var s4 := Blob32(r.headers) + s5;
    var s3 := Str16(r.routingKey) + s4;
    var s2 := Str16(r.exchange) + s3;
    var s1 := BE64(r.msgId) + s2;
    TakeStr16Iff(utf8, Str16(r.queue) + s1, r.queue, s1);
    TakeU64Iff(s1, r.msgId, s2);
    TakeStr16Iff(utf8, s2, r.exchange, s3);
    TakeStr16Iff(utf8, s3, r.routingKey, s4);
    TakeBlob32Iff(s4, r.headers, s5);
    TakeBlob32Iff(s5, r.body, rest);
  }

  /** A schema: its id, the queue, two blobs and the name of the message. */
  lemma ReadSchemaIff(utf8: Utf8, data: Octets, r: Record, rest: Octets)
    requires r.SchemaRecord?
    ensures ReadSchema(utf8, data) == Ok(r, rest) <==>
            && |r.schemaQueue| < 0x1_0000 && |r.messageName| < 0x1_0000 && utf8(r.schemaQueue) && utf8(r.messageName)
            && |r.rawProto| < 0x1_0000_0000 && |r.descriptorSet| < 0x1_0000_0000
            && data == BE64(r.schemaId) + (Str16(r.schemaQueue) + (Blob32(r.rawProto)
                       + (Blob32(r.descriptorSet) + (Str16(r.messageName) + rest))))
  {
    hide Str16, Blob32, BE64, TakeStr16, TakeBlob32, TakeU64;
    if ReadSchema(utf8, data) == Ok(r, rest) {
      var s1 := TakeU64(data).rest;
      var s2 := TakeStr16(utf8, s1).rest;
      var s3 := TakeBlob32(s2).rest;
      var s4 := TakeBlob32(s3).rest;
      TakeU64Iff(data, r.schemaId, s1);
      TakeStr16Iff(utf8, s1, r.schemaQueue, s2);
      BlobIsShort(s2);
      BlobIsShort(s3);
      TakeBlob32Iff(s2, r.rawProto, s3);
      TakeBlob32Iff(s3, r.descriptorSet, s4);
      TakeStr16Iff(utf8, s4, r.messageName, rest);
    } else {
      var t4 := Str16(r.messageName) + rest;
      var t3 := Blob32(r.descriptorSet) + t4;
      var t2 := Blob32(r.rawProto) + t3;
      var t1 := Str16(r.schemaQueue) + t2;
      TakeU64Iff(data, r.schemaId, t1);
      TakeStr16Iff(utf8, t1, r.schemaQueue, t2);
      TakeBlob32Iff(t2, r.rawProto, t3);
      TakeBlob32Iff(t3, r.descriptorSet, t4);
      TakeStr16Iff(utf8, t4, r.messageName, rest);
    }
  }

  /** The octet under which each kind of record is logged. */
  lemma LoggedUnder(r: Record)
    ensures EntryOf(r) == Entry(TypeOf(r), Encode(r))
    ensures TypeOf(r).Tag() ==
      match r
      case DeclareQueueRecord(_, _) => 1
      case EnqueueRecord(_, _, _, _, _, _) => 2
      case AckRecord(_) => 3
      case DeclareExchangeRecord(_, _, _) => 4
      case BindRecord(_, _, _) => 5
      case SchemaRecord(_, _, _, _, _) => 6
  {
    hide Encode;
  }

  /** An id is acknowledged exactly when an acknowledgement starts with its eight octets. */
  lemma AckedIff(es: seq<Entry>, id: u64)
    ensures id in AckedIds(es) <==> exists e :: e in es && e.kind == Ack && BE64(id) <= e.data
  {
    AckedIdsSpec(es, id);
    forall e: Entry ensures AckOf(e) == Some(id) <==> e.kind == Ack && BE64(id) <= e.data {
      AckOfIff(e, id);
    }
    hide AckedIds, AckOf, BE64;
  }

  lemma AckOfIff(e: Entry, id: u64)
    ensures AckOf(e) == Some(id) <==> e.kind == Ack && BE64(id) <= e.data
  {
    hide BE64, FromBE64;
    if |e.data| >= 8 { BE64OfFrom(e.data[..8]); }
    if BE64(id) <= e.data { assert e.data[..8] == BE64(id) && FromBE64(BE64(id)) == id; }
  }

  // What compaction keeps.

  /** The payload starts with a name, whether or not it is UTF-8, and an id. */
  ghost predicate NamesThenId(data: Octets, id: u64) {
    exists q: Octets :: |q| < 0x1_0000 && Str16(q) + BE64(id) <= data
  }

  ghost predicate Droppable(e: Entry, acked: set<u64>) {
    exists id: u64 :: id in acked
      && ((e.kind == Ack && BE64(id) <= e.data) || (e.kind == Enqueue && NamesThenId(e.data, id)))
  }

  lemma IdAtIff(data: Octets, id: u64)
    ensures Compaction.EnqueueIdAt(data) == Some(id) <==> NamesThenId(data, id)
  {
    hide BE16, BE64, FromBE16, FromBE64;
    if Compaction.EnqueueIdAt(data) == Some(id) {
      IdIsThere(data, id);
    }
    if NamesThenId(data, id) {
      var q: Octets :| |q| < 0x1_0000 && Str16(q) + BE64(id) <= data;
      PrefixParts(BE16(|q|), q, BE64(id), data);
      assert FromBE16(BE16(|q|)) == |q| && FromBE64(BE64(id)) == id;
    }
  }

  /** Where the parts of a prefix lie. */
  lemma PrefixParts(a: Octets, b: Octets, c: Octets, s: Octets)
    requires a + b + c <= s
    ensures |a| + |b| + |c| <= |s|
    ensures s[..|a|] == a && s[|a|..|a| + |b|] == b && s[|a| + |b|..|a| + |b| + |c|] == c
  {
    var n, f := |a| + |b| + |c|, a + b + c;
    assert s[..n] == f;
    assert s[..|a|] == s[..n][..|a|] == f[..|a|];
    assert s[|a|..|a| + |b|] == s[..n][|a|..|a| + |b|] == f[|a|..|a| + |b|];
    assert s[|a| + |b|..n] == s[..n][|a| + |b|..] == f[|a| + |b|..];
  }

  lemma IdIsThere(data: Octets, id: u64)
    requires Compaction.EnqueueIdAt(data) == Some(id)
    ensures NamesThenId(data, id)
  {
    var n: int := FromBE16(data[..2]);
    var q, octets := data[2..2 + n], data[2 + n..2 + n + 8];
    hide *;
    assert |data[..2]| == 2 && |octets| == 8;
    BE16OfFrom(data[..2]);
    BE64OfFrom(octets);
    Whole(data, 2, 2 + n, 2 + n + 8);
    Starts(data, q, id, data[..2], octets);
  }

  lemma Starts(data: Octets, q: Octets, id: u64, a: Octets, c: Octets)
    requires |q| < 0x1_0000 && a == BE16(|q|) && c == BE64(id) && a + q + c <= data
    ensures NamesThenId(data, id)
  {
    StringIs(q);
    hide *;
    NamedBy(data, q, id, a + q + c);
  }

  lemma StringIs(q: Octets)
    requires |q| < 0x1_0000
    ensures Str16(q) == BE16(|q|) + q
  {
    hide BE16;
  }

  lemma NamedBy(data: Octets, q: Octets, id: u64, front: Octets)
    requires |q| < 0x1_0000 && front == Str16(q) + BE64(id) && front <= data
    ensures NamesThenId(data, id)
  {
    hide BE64, Str16;
  }

  lemma Whole(s: Octets, i: nat, j: nat, k: nat)
    requires i <= j <= k <= |s|
    ensures s[..i] + s[i..j] + s[j..k] <= s
  {
  }

  /** Compaction keeps every entry but the acknowledgements of acknowledged ids and the messages that have one. */
  lemma CompactedKeepsIff(es: seq<Entry>, e: Entry)
    ensures e in Compaction.Compacted(es) <==> e in es && !Droppable(e, AckedIds(es))
  {
    var acked := AckedIds(es);
    Compaction.KeptMembers(es, acked);
    forall id: u64 ensures Compaction.EnqueueIdAt(e.data) == Some(id) <==> NamesThenId(e.data, id) {
      IdAtIff(e.data, id);
    }
    forall id: u64 ensures AckOf(e) == Some(id) <==> e.kind == Ack && BE64(id) <= e.data {
      AckOfIff(e, id);
    }
    hide Compaction.EnqueueIdAt, NamesThenId, AckOf, BE64, AckedIds, Compaction.Kept;
  }
}
