// Octet by octet, what is on disk and on the wire: integers, log entries and their payloads,
// AMQP frames, content headers and field values. Everything is stated with positions and
// numbers, so a log or a peer that knows only the formats can be checked against it.
module WireLayout {
  import opened Bytes
  import FieldTables
  import Framing
  import Properties
  import WalFormat
  import WalRecords

  // Big-endian integers at a position.

  function Big16(s: Octets, k: nat): int
    requires k + 2 <= |s|
  {
    s[k] as int * 0x100 + s[k + 1]
  }

  function Big32(s: Octets, k: nat): int
    requires k + 4 <= |s|
  {
    s[k] as int * 0x100_0000 + s[k + 1] as int * 0x1_0000 + s[k + 2] as int * 0x100 + s[k + 3]
  }

  function Big64(s: Octets, k: nat): int
    requires k + 8 <= |s|
  {
    Big32(s, k) * 0x1_0000_0000 + Big32(s, k + 4)
  }

  /** The octets at a position. */
  predicate At(s: Octets, k: nat, x: Octets) {
    k + |x| <= |s| && s[k..k + |x|] == x
  }

  lemma BigEndian16(v: u16)
    ensures Big16(BE16(v), 0) == v
  {
  }

  lemma BigEndian32(v: u32)
    ensures Big32(BE32(v), 0) == v
  {
    var hi, lo := BE16(v / TWO_16), BE16(v % TWO_16);
    assert BE32(v) == hi + lo;
    BigEndian16(v / TWO_16);
    BigEndian16(v % TWO_16);
    hide BE32;
  }

  lemma BigEndian64(v: u64)
    ensures Big64(BE64(v), 0) == v
  {
    var hi, lo := BE32(v / TWO_32), BE32(v % TWO_32);
    assert BE64(v) == hi + lo;
    BigEndian32(v / TWO_32);
    BigEndian32(v % TWO_32);
    hide BE64, BE32;
    assert Big32(hi + lo, 0) == Big32(hi, 0) && Big32(hi + lo, 4) == Big32(lo, 0);
  }

  lemma Big16At(s: Octets, k: nat, v: u16)
    requires At(s, k, BE16(v))
    ensures k + 2 <= |s| && Big16(s, k) == v
  {
    BigEndian16(v);
    hide BE16;
    assert s[k..k + 2][0] == s[k] && s[k..k + 2][1] == s[k + 1];
  }

  lemma Big32At(s: Octets, k: nat, v: u32)
    requires At(s, k, BE32(v))
    ensures k + 4 <= |s| && Big32(s, k) == v
  {
    BigEndian32(v);
    hide BE32;
    var x := s[k..k + 4];
    assert x[0] == s[k] && x[1] == s[k + 1] && x[2] == s[k + 2] && x[3] == s[k + 3];
  }

  lemma Big64At(s: Octets, k: nat, v: u64)
    requires At(s, k, BE64(v))
    ensures k + 8 <= |s| && Big64(s, k) == v
  {
    BigEndian64(v);
    hide BE64;
    var x := s[k..k + 8];
    assert x[0] == s[k] && x[1] == s[k + 1] && x[2] == s[k + 2] && x[3] == s[k + 3];
    assert x[4] == s[k + 4] && x[5] == s[k + 5] && x[6] == s[k + 6] && x[7] == s[k + 7];
  }

  // Log entries.

  function KindTag(kind: WalFormat.EntryType): byte {
    match kind
    case DeclareQueue => 1
    case Enqueue => 2
    case Ack => 3
    case DeclareExchange => 4
    case Bind => 5
    case SetQueueSchema => 6
    case RaftEntry => 16
    case RaftVote => 17
  }

  /** Length of what follows the first eight octets, checksum of that, type, data. */
  lemma LogFrameLayout(crc: WalFormat.Checksum, e: WalFormat.Entry)
    ensures var f := WalFormat.Frame(crc, e);
      && |f| == 9 + |e.data|
      && Big32(f, 0) == (1 + |e.data|) % 0x1_0000_0000
      && Big32(f, 4) == crc([KindTag(e.kind)] + e.data)
      && f[8] == KindTag(e.kind) && f[9..] == e.data
  {
    var f, payload := WalFormat.Frame(crc, e), WalFormat.Payload(e);
    assert payload == [KindTag(e.kind)] + e.data;
    hide BE32;
    assert f[0..4] == BE32(|payload| % TWO_32) && f[4..8] == BE32(crc(payload));
    Big32At(f, 0, |payload| % TWO_32);
    Big32At(f, 4, crc(payload));
  }

  lemma Str16At(s: Octets, k: nat, x: Octets)
    requires At(s, k, Str16(x))
    ensures k + 2 + |x| <= |s| && Big16(s, k) == |x| % 0x1_0000 && At(s, k + 2, x)
  {
    hide BE16;
    assert s[k..k + 2 + |x|] == Str16(x);
    assert s[k..k + 2] == s[k..k + 2 + |x|][..2];
    assert s[k + 2..k + 2 + |x|] == s[k..k + 2 + |x|][2..];
    Big16At(s, k, |x| % TWO_16);
  }

  lemma Blob32At(s: Octets, k: nat, x: Octets)
    requires At(s, k, Blob32(x))
    ensures k + 4 + |x| <= |s| && Big32(s, k) == |x| % 0x1_0000_0000 && At(s, k + 4, x)
  {
    hide BE32;
    assert s[k..k + 4 + |x|] == Blob32(x);
    assert s[k..k + 4] == s[k..k + 4 + |x|][..4];
    assert s[k + 4..k + 4 + |x|] == s[k..k + 4 + |x|][4..];
    Big32At(s, k, |x| % TWO_32);
  }

  /** Where the parts of a concatenation lie. */
  lemma HeadAt(s: Octets, k: nat, x: Octets, y: Octets)
    requires At(s, k, x + y)
    ensures At(s, k, x) && At(s, k + |x|, y)
  {
    var xy := x + y;
    assert s[k..k + |x|] == s[k..k + |xy|][..|x|];
    assert s[k + |x|..k + |xy|] == s[k..k + |xy|][|x|..];
  }

  /** A string with its length in front, and where it ends. */
  predicate StrAt(s: Octets, k: nat, x: Octets) {
    k + 2 <= |s| && Big16(s, k) == |x| % 0x1_0000 && At(s, k + 2, x)
  }

  predicate BlobAt(s: Octets, k: nat, x: Octets) {
    k + 4 <= |s| && Big32(s, k) == |x| % 0x1_0000_0000 && At(s, k + 4, x)
  }

  /** Queue, message id, exchange, routing key, headers, body. */
  lemma EnqueueLayout(r: WalRecords.Record)
    requires r.EnqueueRecord?
    ensures var p, q, x, y, z := WalRecords.Encode(r), |r.queue|, |r.exchange|, |r.routingKey|, |r.headers|;
      && |p| == 22 + q + x + y + z + |r.body|
      && StrAt(p, 0, r.queue) && Big64(p, 2 + q) == r.msgId
      && StrAt(p, 10 + q, r.exchange) && StrAt(p, 12 + q + x, r.routingKey)
      && BlobAt(p, 14 + q + x + y, r.headers) && BlobAt(p, 18 + q + x + y + z, r.body)
  {
    hide BE16, BE32, BE64, Str16, Blob32, At, Big16, Big32, Big64;
    var p, q, x, y := WalRecords.Encode(r), |r.queue|, |r.exchange|, |r.routingKey|;
    StrLengths(r.queue, r.headers);
    StrLengths(r.exchange, r.body);
    StrLengths(r.routingKey, r.body);
    WholeAt(p);
    var p4 := Blob32(r.headers) + Blob32(r.body);
    var p3 := Str16(r.routingKey) + p4;
    var p2 := Str16(r.exchange) + p3;
    assert p == Str16(r.queue) + (BE64(r.msgId) + p2);
    hide WalRecords.Encode;
    HeadAt(p, 0, Str16(r.queue), BE64(r.msgId) + p2);
    HeadAt(p, 2 + q, BE64(r.msgId), p2);
    Str16At(p, 0, r.queue);
    Big64At(p, 2 + q, r.msgId);
    RestAt(p, 10 + q, r.exchange, r.routingKey, r.headers, r.body);
  }

  /** Two strings and two blobs, from a position on. */
  lemma RestAt(p: Octets, k: nat, a: Octets, b: Octets, c: Octets, d: Octets)
    requires At(p, k, Str16(a) + (Str16(b) + (Blob32(c) + Blob32(d))))
    ensures StrAt(p, k, a) && StrAt(p, k + 2 + |a|, b)
    ensures BlobAt(p, k + 4 + |a| + |b|, c) && BlobAt(p, k + 8 + |a| + |b| + |c|, d)
  {
    hide Str16, Blob32, At, Big16, Big32;
    StrLengths(a, c);
    StrLengths(b, d);
    HeadAt(p, k, Str16(a), Str16(b) + (Blob32(c) + Blob32(d)));
    HeadAt(p, k + 2 + |a|, Str16(b), Blob32(c) + Blob32(d));
    HeadAt(p, k + 4 + |a| + |b|, Blob32(c), Blob32(d));
    Str16At(p, k, a);
    Str16At(p, k + 2 + |a|, b);
    Blob32At(p, k + 4 + |a| + |b|, c);
    Blob32At(p, k + 8 + |a| + |b| + |c|, d);
  }

  lemma WholeAt(s: Octets)
    ensures At(s, 0, s)
  {
    assert s[0..|s|] == s;
  }

  lemma StrLengths(x: Octets, y: Octets)
    ensures |Str16(x)| == 2 + |x| && |Blob32(y)| == 4 + |y|
  {
  }

  /** A queue's name and a flag; an acknowledged id; an exchange's name, kind and flag. */
  lemma DeclarationLayouts(r: WalRecords.Record)
    ensures var p := WalRecords.Encode(r);
      && (r.DeclareQueueRecord? ==>
            |p| == 3 + |r.name| && StrAt(p, 0, r.name) && p[2 + |r.name|] == if r.durable then 1 else 0)
      && (r.AckRecord? ==> |p| == 8 && Big64(p, 0) == r.ackId)
      && (r.DeclareExchangeRecord? ==>
            && |p| == 4 + |r.exName| && StrAt(p, 0, r.exName)
            && p[2 + |r.exName|] == r.kind && p[3 + |r.exName|] == if r.exDurable then 1 else 0)
  {
    hide BE16, BE64, Str16, At, Big16, Big64;
    var p := WalRecords.Encode(r);
    WholeAt(p);
    match r {
      case DeclareQueueRecord(name, durable) =>
        StrLengths(name, []);
        HeadAt(p, 0, Str16(name), [WalRecords.Flag(durable)]);
        Str16At(p, 0, name);
      case AckRecord(id) =>
        Big64At(p, 0, id);
      case DeclareExchangeRecord(name, kind, durable) =>
        StrLengths(name, []);
        HeadAt(p, 0, Str16(name), [kind] + [WalRecords.Flag(durable)]);
        Str16At(p, 0, name);
      case _ =>
    }
  }

  /** Exchange, queue, routing key. */
  lemma BindLayout(r: WalRecords.Record)
    requires r.BindRecord?
    ensures var p, x, q := WalRecords.Encode(r), |r.bindExchange|, |r.bindQueue|;
      && |p| == 6 + x + q + |r.bindKey|
      && StrAt(p, 0, r.bindExchange) && StrAt(p, 2 + x, r.bindQueue) && StrAt(p, 4 + x + q, r.bindKey)
  {
    hide BE16, Str16, At, Big16;
    var p, x, q := WalRecords.Encode(r), |r.bindExchange|, |r.bindQueue|;
    WholeAt(p);
    StrLengths(r.bindExchange, []);
    StrLengths(r.bindQueue, []);
    StrLengths(r.bindKey, []);
    HeadAt(p, 0, Str16(r.bindExchange), Str16(r.bindQueue) + Str16(r.bindKey));
    HeadAt(p, 2 + x, Str16(r.bindQueue), Str16(r.bindKey));
    Str16At(p, 0, r.bindExchange);
    Str16At(p, 2 + x, r.bindQueue);
    Str16At(p, 4 + x + q, r.bindKey);
  }

  /** Schema id, queue, source, descriptors, message name. */
  lemma SchemaLayout(r: WalRecords.Record)
    requires r.SchemaRecord?
    ensures var p, q, x, y := WalRecords.Encode(r), |r.schemaQueue|, |r.rawProto|, |r.descriptorSet|;
      && |p| == 20 + q + x + y + |r.messageName|
      && Big64(p, 0) == r.schemaId && StrAt(p, 8, r.schemaQueue) && BlobAt(p, 10 + q, r.rawProto)
      && BlobAt(p, 14 + q + x, r.descriptorSet) && StrAt(p, 18 + q + x + y, r.messageName)
  {
    hide BE16, BE32, BE64, Str16, Blob32, At, Big16, Big32, Big64;
    var p, q, x, y := WalRecords.Encode(r), |r.schemaQueue|, |r.rawProto|, |r.descriptorSet|;
    WholeAt(p);
    StrLengths(r.schemaQueue, r.rawProto);
    StrLengths(r.messageName, r.descriptorSet);
    var p3 := Blob32(r.descriptorSet) + Str16(r.messageName);
    var p2 := Blob32(r.rawProto) + p3;
    HeadAt(p, 0, BE64(r.schemaId), Str16(r.schemaQueue) + p2);
    HeadAt(p, 8, Str16(r.schemaQueue), p2);
    HeadAt(p, 10 + q, Blob32(r.rawProto), p3);
    HeadAt(p, 14 + q + x, Blob32(r.descriptorSet), Str16(r.messageName));
    Big64At(p, 0, r.schemaId);
    Str16At(p, 8, r.schemaQueue);
    Blob32At(p, 10 + q, r.rawProto);
    Blob32At(p, 14 + q + x, r.descriptorSet);
    Str16At(p, 18 + q + x + y, r.messageName);
  }

  // AMQP frames and content.

  /** Type, channel, size of the payload, payload, and the octet 0xCE. */
  lemma FrameLayout(f: Framing.AmqpFrame)
    ensures var w, n := Framing.FrameBytes(f), |f.payload|;
      && |w| == 8 + n && w[0] == f.frameType && Big16(w, 1) == f.channel
      && Big32(w, 3) == n % 0x1_0000_0000 && w[7..7 + n] == f.payload && w[7 + n] == 0xCE
  {
    hide BE16, BE32, Big16, Big32;
    var w := Framing.FrameBytes(f);
    assert w[1..3] == BE16(f.channel) && w[3..7] == BE32(|f.payload| % TWO_32);
    Big16At(w, 1, f.channel);
    Big32At(w, 3, |f.payload| % TWO_32);
  }

  lemma Big16From(s: Octets, k: nat)
    requires k + 2 <= |s|
    ensures Big16(s, k) == FromBE16(s[k..k + 2])
  {
  }

  lemma Big32From(s: Octets, k: nat)
    requires k + 4 <= |s|
    ensures Big32(s, k) == FromBE32(s[k..k + 4])
  {
    assert s[k..k + 4][..2] == s[k..k + 2] && s[k..k + 4][2..] == s[k + 2..k + 4];
    Big16From(s, k);
    Big16From(s, k + 2);
    hide FromBE16;
  }

  /** When bytes are a frame, which one, and otherwise what is wrong with them. */
  lemma FrameOrError(data: Octets)
    ensures var r := Framing.DecodeFrame(data);
      if |data| < 8 then r == Framing.Refused(Framing.FrameTooShort)
      else
        var size := Big32(data, 3);
        if |data| < 8 + size then r == Framing.Refused(Framing.IncompleteFrame)
        else if data[7 + size] != 0xCE then r == Framing.Refused(Framing.InvalidFrameEnd(data[7 + size]))
        else
          && r.Framed? && r.consumed == 8 + size
          && r.frame.frameType == data[0] && r.frame.channel == Big16(data, 1)
          && r.frame.payload == data[7..7 + size]
  {
    if |data| >= 8 {
      Big32From(data, 3);
      Big16From(data, 1);
      hide Big16, Big32, FromBE16, FromBE32;
    }
  }

  /** A publish is one frame of type 2, then frames of type 3, all on its channel. */
  lemma ContentFrameTypes(channel: u16, h: Framing.ContentHeader, body: Octets, frameMax: u32)
    requires Framing.HeaderPayload(h).Written?
    ensures var frames := Framing.ContentFrames(channel, h, body, frameMax);
      && |frames| > 0 && (forall f <- frames :: f.channel == channel)
      && frames[0].frameType == 2 && forall i :: 0 < i < |frames| ==> frames[i].frameType == 3
  {
    hide Framing.HeaderPayload, Framing.BodyChunks;
    var bodies := Framing.BodyFrames(channel, Framing.BodyChunks(body, frameMax));
    var frames := Framing.ContentFrames(channel, h, body, frameMax);
    assert frames[1..] == bodies;
    assert forall i :: 0 < i < |frames| ==> frames[i] == bodies[i - 1];
  }

  /** Class, the unused weight, the size of the body, and the properties. */
  lemma ContentHeaderLayout(h: Framing.ContentHeader)
    requires Framing.HeaderPayload(h).Written?
    ensures var p := Framing.HeaderPayload(h).bytes;
      && |p| >= 14 && Big16(p, 0) == h.classId && p[2] == 0 && p[3] == 0 && Big64(p, 4) == h.bodySize
      && Properties.EncodeProperties(h.properties) == FieldTables.Written(p[12..])
  {
    Framing.HeaderParts(h);
    var p := Framing.HeaderPayload(h).bytes;
    assert p[2] == 0 && p[3] == 0 by {
      var t := BE64(h.bodySize) + Properties.EncodeProperties(h.properties).bytes;
      assert p == BE16(h.classId) + (BE16(0) + t);
      assert p[2] == (BE16(0) + t)[0] && p[3] == (BE16(0) + t)[1];
      hide Framing.HeaderPayload, Properties.EncodeProperties, BE64;
    }
    hide Framing.HeaderPayload, Properties.EncodeProperties, BE16, BE64, Big16, Big64;
    Big16At(p, 0, h.classId);
    Big64At(p, 4, h.bodySize);
  }

  // Field values.

  /** The octets a value is announced by. */
  function TypeOctet(v: FieldTables.FieldValue): char {
    match v
    case Boolean(_) => 't'
    case ShortShortInt(_) => 'b'
    case ShortShortUint(_) => 'B'
    case ShortInt(_) => 'U'
    case ShortUint(_) => 'u'
    case LongInt(_) => 'I'
    case LongUint(_) => 'i'
    case LongLongInt(_) => 'L'
    case LongLongUint(_) => 'l'
    case Float(_) => 'f'
    case Double(_) => 'd'
    case ShortString(_) => 's'
    case LongString(_) => 'S'
    case Timestamp(_) => 'T'
    case Table(_) => 'F'
    case Void => 'V'
  }

  /** Each value starts with the octet of its type. */
  lemma ValueStartsWithType(v: FieldTables.FieldValue)
    requires FieldTables.EncodeValue(v).Written?
    ensures var b := FieldTables.EncodeValue(v).bytes; |b| >= 1 && b[0] as char == TypeOctet(v)
  {
    hide FieldTables.EncodePayload;
  }

  lemma TypeThenPayload(v: FieldTables.FieldValue)
    requires FieldTables.EncodePayload(v).Written?
    ensures FieldTables.EncodeValue(v)
         == FieldTables.Written([TypeOctet(v) as int] + FieldTables.EncodePayload(v).bytes)
  {
    hide FieldTables.EncodePayload;
  }

  lemma Behind(t: byte, x: Octets)
    ensures At([t] + x, 1, x)
  {
    assert ([t] + x)[1..1 + |x|] == x;
  }

  lemma TwosComplement(v: int, width: int)
    requires 0 < width && -width <= v < width
    ensures FieldTables.Unsigned(v, width) == v % width
  {
    if v < 0 { assert (v + width) % width == v % width; }
  }

  /** Signed integers follow in two's complement. */
  lemma OctetLayout(n: FieldTables.i8)
    ensures FieldTables.EncodeValue(FieldTables.ShortShortInt(n)) == FieldTables.Written(['b' as int, n % 0x100])
  {
    assert FieldTables.EncodePayload(FieldTables.ShortShortInt(n)) == FieldTables.Written([n % 0x100]);
    TypeThenPayload(FieldTables.ShortShortInt(n));
    hide FieldTables.EncodeValue, FieldTables.EncodePayload;
    assert ['b' as int] + [n % 0x100] == ['b' as int, n % 0x100];
  }

  lemma ShortIntLayout(n: FieldTables.i16)
    ensures var w := FieldTables.EncodeValue(FieldTables.ShortInt(n));
      w.Written? && |w.bytes| == 3 && Big16(w.bytes, 1) == n % 0x1_0000
  {
    hide BE16, FieldTables.Unsigned;
    TwosComplement(n, TWO_16);
    assert FieldTables.EncodePayload(FieldTables.ShortInt(n)) == FieldTables.Written(BE16(n % TWO_16));
    TypeThenPayload(FieldTables.ShortInt(n));
    hide Big16, FieldTables.EncodeValue, FieldTables.EncodePayload;
    Behind('U' as int, BE16(n % TWO_16));
    Big16At(['U' as int] + BE16(n % TWO_16), 1, n % TWO_16);
  }

  lemma LongIntLayout(n: FieldTables.i32)
    ensures var w := FieldTables.EncodeValue(FieldTables.LongInt(n));
      w.Written? && |w.bytes| == 5 && Big32(w.bytes, 1) == n % 0x1_0000_0000
  {
    hide BE32, FieldTables.Unsigned;
    TwosComplement(n, TWO_32);
    assert FieldTables.EncodePayload(FieldTables.LongInt(n)) == FieldTables.Written(BE32(n % TWO_32));
    TypeThenPayload(FieldTables.LongInt(n));
    hide Big32, FieldTables.EncodeValue, FieldTables.EncodePayload;
    Behind('I' as int, BE32(n % TWO_32));
    Big32At(['I' as int] + BE32(n % TWO_32), 1, n % TWO_32);
  }

  lemma LongLongIntLayout(n: FieldTables.i64)
    ensures var w := FieldTables.EncodeValue(FieldTables.LongLongInt(n));
      w.Written? && |w.bytes| == 9 && Big64(w.bytes, 1) == n % 0x1_0000_0000_0000_0000
  {
    hide BE64, FieldTables.Unsigned;
    TwosComplement(n, TWO_64);
    assert FieldTables.EncodePayload(FieldTables.LongLongInt(n)) == FieldTables.Written(BE64(n % TWO_64));
    TypeThenPayload(FieldTables.LongLongInt(n));
    hide Big64, FieldTables.EncodeValue, FieldTables.EncodePayload;
    Behind('L' as int, BE64(n % TWO_64));
    Big64At(['L' as int] + BE64(n % TWO_64), 1, n % TWO_64);
  }

  /** A boolean is 1 or 0, and a short string carries its length in one octet. */
  lemma ShortLayouts(t: bool, text: Octets)
    requires |text| <= 255
    ensures FieldTables.EncodeValue(FieldTables.Boolean(t)) == FieldTables.Written(['t' as int, if t then 1 else 0])
    ensures FieldTables.EncodeValue(FieldTables.ShortString(text))
         == FieldTables.Written(['s' as int, |text|] + text)
  {
    assert FieldTables.EncodePayload(FieldTables.Boolean(t)) == FieldTables.Written([if t then 1 else 0]);
    assert FieldTables.EncodePayload(FieldTables.ShortString(text)) == FieldTables.Written([|text|] + text);
    TypeThenPayload(FieldTables.Boolean(t));
    TypeThenPayload(FieldTables.ShortString(text));
    hide FieldTables.EncodeValue, FieldTables.EncodePayload;
    assert ['t' as int] + [if t then 1 else 0] == ['t' as int, if t then 1 else 0];
    assert ['s' as int] + ([|text|] + text) == ['s' as int, |text|] + text;
  }

  /** Long strings and tables carry their length in four octets. */
  lemma LongLayouts(data: Octets, fields: FieldTables.FieldTable)
    requires FieldTables.EncodeFields(fields).Written?
    ensures var w := FieldTables.EncodeValue(FieldTables.LongString(data));
      w.Written? && BlobAt(w.bytes, 1, data) && |w.bytes| == 5 + |data|
    ensures var w, body := FieldTables.EncodeValue(FieldTables.Table(fields)), FieldTables.EncodeFields(fields).bytes;
      w.Written? && BlobAt(w.bytes, 1, body) && |w.bytes| == 5 + |body|
  {
    hide Blob32;
    var body := FieldTables.EncodeFields(fields).bytes;
    assert FieldTables.EncodePayload(FieldTables.LongString(data)) == FieldTables.Written(Blob32(data));
    assert FieldTables.EncodePayload(FieldTables.Table(fields)) == FieldTables.Written(Blob32(body));
    TypeThenPayload(FieldTables.LongString(data));
    TypeThenPayload(FieldTables.Table(fields));
    hide Big32, At, FieldTables.EncodeValue, FieldTables.EncodePayload, FieldTables.EncodeFields;
    StrLengths([], data);
    StrLengths([], body);
    Behind('S' as int, Blob32(data));
    Behind('F' as int, Blob32(body));
    Blob32At(['S' as int] + Blob32(data), 1, data);
    Blob32At(['F' as int] + Blob32(body), 1, body);
  }

  /** A field is its name, with the length in one octet, and its value; fields follow one another. */
  lemma {:induction false} FieldsLayout(f: FieldTables.Field, rest: FieldTables.FieldTable)
    requires FieldTables.EncodeFields([f] + rest).Written?
    ensures FieldTables.EncodeValue(f.value).Written? && FieldTables.EncodeFields(rest).Written?
    ensures |f.name| <= 255
    ensures FieldTables.EncodeFields([f] + rest).bytes
         == [|f.name|] + f.name + FieldTables.EncodeValue(f.value).bytes + FieldTables.EncodeFields(rest).bytes
  {
    assert ([f] + rest)[1..] == rest && ([f] + rest)[0] == f;
    hide FieldTables.EncodeValue;
  }

  // The property bitmap.

  lemma {:induction false} SetBitAdds(f: nat, k: nat)
    requires !Properties.Bit(f, k)
    ensures Properties.SetBit(f, k) == f + Properties.Pow2(k)
  {
    if k > 0 {
      SetBitAdds(f / 2, k - 1);
    }
  }

  /** What property k adds to the bitmap. */
  function Worth(p: Properties.BasicProperties, k: nat): nat
    requires k < 14
  {
    if Properties.SlotAt(p, k).Some? then Properties.Pow2(15 - k) else 0
  }

  function WorthUpTo(p: Properties.BasicProperties, n: nat): nat
    requires n <= 14
  {
    if n == 0 then 0 else WorthUpTo(p, n - 1) + Worth(p, n - 1)
  }

  lemma {:induction false} FlagsAdd(p: Properties.BasicProperties, n: nat)
    requires n <= 14
    ensures Properties.FlagsUpTo(p, n) == WorthUpTo(p, n)
  {
    if n > 0 {
      FlagsAdd(p, n - 1);
      Properties.FlagsAnnounce(p, n - 1, n - 1);
      hide Properties.Bit, Properties.SetBit, Properties.Pow2, Properties.SlotAt;
      SetBitAdds(Properties.FlagsUpTo(p, n - 1), 16 - n);
    }
  }

  function If(b: bool, n: nat): nat {
    if b then n else 0
  }

  lemma HighWorth(p: Properties.BasicProperties)
    ensures WorthUpTo(p, 7)
         == If(p.contentType.Some?, 0x8000) + If(p.contentEncoding.Some?, 0x4000) + If(p.headers.Some?, 0x2000)
            + If(p.deliveryMode.Some?, 0x1000) + If(p.priority.Some?, 0x800) + If(p.correlationId.Some?, 0x400)
            + If(p.replyTo.Some?, 0x200)
  {
    Powers();
    hide Properties.Pow2;
    assert WorthUpTo(p, 1) == If(p.contentType.Some?, 0x8000);
    assert WorthUpTo(p, 2) == WorthUpTo(p, 1) + If(p.contentEncoding.Some?, 0x4000);
    assert WorthUpTo(p, 3) == WorthUpTo(p, 2) + If(p.headers.Some?, 0x2000);
    assert WorthUpTo(p, 4) == WorthUpTo(p, 3) + If(p.deliveryMode.Some?, 0x1000);
    assert WorthUpTo(p, 5) == WorthUpTo(p, 4) + If(p.priority.Some?, 0x800);
    assert WorthUpTo(p, 6) == WorthUpTo(p, 5) + If(p.correlationId.Some?, 0x400);
    assert WorthUpTo(p, 7) == WorthUpTo(p, 6) + If(p.replyTo.Some?, 0x200);
    hide *;
  }

  lemma LowWorth(p: Properties.BasicProperties)
    ensures WorthUpTo(p, 14)
         == WorthUpTo(p, 7)
            + If(p.expiration.Some?, 0x100) + If(p.messageId.Some?, 0x80) + If(p.timestamp.Some?, 0x40)
            + If(p.typeField.Some?, 0x20) + If(p.userId.Some?, 0x10) + If(p.appId.Some?, 8) + If(p.clusterId.Some?, 4)
  {
    Powers();
    hide Properties.Pow2;
    assert WorthUpTo(p, 8) == WorthUpTo(p, 7) + If(p.expiration.Some?, 0x100);
    assert WorthUpTo(p, 9) == WorthUpTo(p, 8) + If(p.messageId.Some?, 0x80);
    assert WorthUpTo(p, 10) == WorthUpTo(p, 9) + If(p.timestamp.Some?, 0x40);
    assert WorthUpTo(p, 11) == WorthUpTo(p, 10) + If(p.typeField.Some?, 0x20);
    assert WorthUpTo(p, 12) == WorthUpTo(p, 11) + If(p.userId.Some?, 0x10);
    assert WorthUpTo(p, 13) == WorthUpTo(p, 12) + If(p.appId.Some?, 8);
    assert WorthUpTo(p, 14) == WorthUpTo(p, 13) + If(p.clusterId.Some?, 4);
    hide *;
  }

  lemma Powers()
    ensures Properties.Pow2(2) == 4 && Properties.Pow2(3) == 8 && Properties.Pow2(4) == 0x10
    ensures Properties.Pow2(5) == 0x20 && Properties.Pow2(6) == 0x40 && Properties.Pow2(7) == 0x80
    ensures Properties.Pow2(8) == 0x100 && Properties.Pow2(9) == 0x200 && Properties.Pow2(10) == 0x400
    ensures Properties.Pow2(11) == 0x800 && Properties.Pow2(12) == 0x1000 && Properties.Pow2(13) == 0x2000
    ensures Properties.Pow2(14) == 0x4000 && Properties.Pow2(15) == 0x8000
  {
    assert Properties.Pow2(1) == 2;
    assert Properties.Pow2(3) == 8;
    assert Properties.Pow2(5) == 0x20;
    assert Properties.Pow2(7) == 0x80;
    assert Properties.Pow2(9) == 0x200;
    assert Properties.Pow2(11) == 0x800;
    assert Properties.Pow2(13) == 0x2000;
  }

  /** The properties start with a bitmap of those present. */
  lemma BitmapLayout(p: Properties.BasicProperties)
    requires Properties.EncodeProperties(p).Written?
    ensures var b := Properties.EncodeProperties(p).bytes;
      && 2 <= |b|
      && Big16(b, 0)
         == If(p.contentType.Some?, 0x8000) + If(p.contentEncoding.Some?, 0x4000) + If(p.headers.Some?, 0x2000)
            + If(p.deliveryMode.Some?, 0x1000) + If(p.priority.Some?, 0x800) + If(p.correlationId.Some?, 0x400)
            + If(p.replyTo.Some?, 0x200) + If(p.expiration.Some?, 0x100) + If(p.messageId.Some?, 0x80)
            + If(p.timestamp.Some?, 0x40) + If(p.typeField.Some?, 0x20) + If(p.userId.Some?, 0x10)
            + If(p.appId.Some?, 8) + If(p.clusterId.Some?, 4)
  {
    FlagsAdd(p, 14);
    HighWorth(p);
    LowWorth(p);
    hide BE16, Big16, Properties.EncodeSlots, Properties.FlagsUpTo, WorthUpTo, If;
    var b := Properties.EncodeProperties(p).bytes;
    assert b[0..2] == BE16(Properties.Flags(p));
    Big16At(b, 0, Properties.Flags(p));
  }

  /** A text that is present, with its length in one octet. */
  function Text(o: Option<Octets>): Octets {
    if o.None? then [] else [|o.value| % 0x100] + o.value
  }

  function Octet(o: Option<byte>): Octets {
    if o.None? then [] else [o.value]
  }

  function Stamp(o: Option<u64>): Octets {
    if o.None? then [] else BE64(o.value)
  }

  function Headers(o: Option<FieldTables.FieldTable>): Octets {
    if o.None? || FieldTables.EncodeFields(o.value).TooLong? then []
    else Blob32(FieldTables.EncodeFields(o.value).bytes)
  }

  /** What slot k adds to the octets, and that the others follow. */
  ghost predicate Leads(p: Properties.BasicProperties, k: nat, octets: Octets)
    requires k < 14
  {
    Properties.EncodeSlots(p, k).Written? ==>
      && Properties.EncodeSlots(p, k + 1).Written?
      && Properties.EncodeSlots(p, k).bytes == octets + Properties.EncodeSlots(p, k + 1).bytes
  }

  lemma TextLeads(p: Properties.BasicProperties, k: nat, o: Option<Octets>)
    requires k < 14 && Properties.SlotAt(p, k) == Properties.TextSlot(o)
    ensures Leads(p, k, Text(o))
  {
    hide Properties.SlotAt;
  }

  lemma OctetLeads(p: Properties.BasicProperties, k: nat, o: Option<byte>)
    requires k < 14 && Properties.SlotAt(p, k) == Properties.SmallSlot(o)
    ensures Leads(p, k, Octet(o))
  {
    hide Properties.SlotAt;
  }

  lemma TableOctets(t: FieldTables.FieldTable)
    ensures FieldTables.EncodeTable(t)
         == if FieldTables.EncodeFields(t).TooLong? then FieldTables.TooLong
            else FieldTables.Written(Blob32(FieldTables.EncodeFields(t).bytes))
  {
    hide Blob32, FieldTables.EncodeFields;
  }

  lemma HeadersLead(p: Properties.BasicProperties)
    ensures Leads(p, 2, Headers(p.headers))
  {
    hide Blob32, FieldTables.EncodeFields, FieldTables.EncodeTable;
    if p.headers.Some? { TableOctets(p.headers.value); }
  }

  lemma StampLeads(p: Properties.BasicProperties)
    ensures Leads(p, 9, Stamp(p.timestamp))
  {
    hide BE64;
  }

  lemma AllLead(p: Properties.BasicProperties)
    ensures Leads(p, 0, Text(p.contentType)) && Leads(p, 1, Text(p.contentEncoding)) && Leads(p, 2, Headers(p.headers))
    ensures Leads(p, 3, Octet(p.deliveryMode)) && Leads(p, 4, Octet(p.priority))
    ensures Leads(p, 5, Text(p.correlationId)) && Leads(p, 6, Text(p.replyTo)) && Leads(p, 7, Text(p.expiration))
    ensures Leads(p, 8, Text(p.messageId)) && Leads(p, 9, Stamp(p.timestamp)) && Leads(p, 10, Text(p.typeField))
    ensures Leads(p, 11, Text(p.userId)) && Leads(p, 12, Text(p.appId)) && Leads(p, 13, Text(p.clusterId))
  {
    hide Leads, Text, Octet, Stamp, Headers;
    TextLeads(p, 0, p.contentType);
    TextLeads(p, 1, p.contentEncoding);
    HeadersLead(p);
    OctetLeads(p, 3, p.deliveryMode);
    OctetLeads(p, 4, p.priority);
    TextLeads(p, 5, p.correlationId);
    TextLeads(p, 6, p.replyTo);
    TextLeads(p, 7, p.expiration);
    TextLeads(p, 8, p.messageId);
    StampLeads(p);
    TextLeads(p, 10, p.typeField);
    TextLeads(p, 11, p.userId);
    TextLeads(p, 12, p.appId);
    TextLeads(p, 13, p.clusterId);
  }

  /** Behind the bitmap come the values of the properties that are present, in this order. */
  lemma ValuesLayout(p: Properties.BasicProperties)
    requires Properties.EncodeProperties(p).Written?
    ensures Properties.EncodeProperties(p).bytes[2..]
         == Text(p.contentType) + (Text(p.contentEncoding) + (Headers(p.headers) + (Octet(p.deliveryMode)
            + (Octet(p.priority) + (Text(p.correlationId) + (Text(p.replyTo) + (Text(p.expiration)
            + (Text(p.messageId) + (Stamp(p.timestamp) + (Text(p.typeField) + (Text(p.userId)
            + (Text(p.appId) + Text(p.clusterId)))))))))))))
  {
    AllLead(p);
    assert Properties.EncodeSlots(p, 14) == FieldTables.Written([]);
    hide Properties.EncodeSlots, Text, Octet, Stamp, Headers, BE16;
    assert Properties.EncodeProperties(p).bytes[2..] == Properties.EncodeSlots(p, 0).bytes;
    assert Text(p.clusterId) + [] == Text(p.clusterId);
  }

  // What decoders make of octets that no encoder writes.

  /** Any octet but 0 is read as true. */
  lemma BooleanRead(utf8: Utf8, b: byte, rest: Octets)
    ensures FieldTables.TakeValue(utf8, ['t' as int, b] + rest) == Ok(FieldTables.Boolean(b != 0), rest)
  {
    var s := ['t' as int, b] + rest;
    assert s[1..] == [b] + rest && ([b] + rest)[1..] == rest;
  }

  /** An octet that announces no type is an error that names it. */
  lemma UnknownType(utf8: Utf8, tag: byte, rest: Octets)
    requires tag as char !in ['t', 'b', 'B', 'U', 'u', 'I', 'i', 'L', 'l', 'f', 'd', 's', 'S', 'T', 'F', 'V']
    ensures FieldTables.TakeValue(utf8, [tag] + rest) == Err(InvalidTag(tag))
  {
    assert TakeU8([tag] + rest) == Ok(tag, rest) by { assert ([tag] + rest)[1..] == rest; }
    assert FieldTables.TakePayload(utf8, tag, rest) == Err(InvalidTag(tag));
    hide FieldTables.TakePayload, TakeU8;
  }

  /** A short string that is not UTF-8 is an error. */
  lemma NotUtf8(utf8: Utf8, text: Octets, rest: Octets)
    requires |text| <= 255 && !utf8(text)
    ensures FieldTables.TakeShortStr(utf8, [|text|] + (text + rest)) == Err(InvalidUtf8)
    ensures FieldTables.TakeValue(utf8, ['s' as int] + ([|text|] + (text + rest))) == Err(InvalidUtf8)
  {
    var t := [|text|] + (text + rest);
    assert FieldTables.TakeShortStr(utf8, t) == Err(InvalidUtf8) by {
      assert t[1..] == text + rest;
      TakeNAppend(text, rest);
    }
    assert TakeU8(['s' as int] + t) == Ok('s' as int, t) by { assert (['s' as int] + t)[1..] == t; }
    hide FieldTables.TakeShortStr, TakeU8;
    assert FieldTables.TakePayload(utf8, 's' as int, t) == Err(InvalidUtf8);
    hide FieldTables.TakePayload;
  }

  lemma {:induction false} ReadAsAnnounced(
    utf8: Utf8, flags: u16, k: nat, q: Properties.BasicProperties, s: Octets, j: nat)
    requires k <= 14 && j < 14 && (j >= k ==> Properties.SlotAt(q, j).None?)
    ensures var r := Properties.TakeSlots(utf8, flags, k, q, s);
      r.Ok? ==> (Properties.SlotAt(r.value, j).Some? <==>
                 if j < k then Properties.SlotAt(q, j).Some? else Properties.Bit(flags, 15 - j))
    decreases 14 - k
  {
    hide Properties.Bit, Properties.SlotAt, Properties.WithSlot, Properties.TakeSlot, Properties.KindOf;
    if k < 14 {
      Properties.TakeStep(utf8, flags, k, q, s);
      hide Properties.TakeSlots;
      if !Properties.Bit(flags, 15 - k) {
        ReadAsAnnounced(utf8, flags, k + 1, q, s, j);
      } else {
        var v := Properties.TakeSlot(utf8, Properties.KindOf(k), s);
        if v.Ok? {
          SlotTaken(utf8, k, s);
          Properties.WithSlotFills(q, k, v.value, j);
          ReadAsAnnounced(utf8, flags, k + 1, Properties.WithSlot(q, k, v.value), v.rest, j);
        }
      }
    }
  }

  lemma SlotTaken(utf8: Utf8, k: nat, s: Octets)
    requires k < 14 && Properties.TakeSlot(utf8, Properties.KindOf(k), s).Ok?
    ensures Properties.OfKind(Properties.TakeSlot(utf8, Properties.KindOf(k), s).value, Properties.KindOf(k))
  {
    hide Properties.KindOf;
  }

  /** Whatever the bitmap, what is read has exactly the properties that its upper fourteen bits announce. */
  lemma PropertiesReadAsAnnounced(utf8: Utf8, s: Octets, k: nat)
    requires k < 14 && Properties.TakeProperties(utf8, s).Ok?
    ensures |s| >= 2
    ensures Properties.SlotAt(Properties.TakeProperties(utf8, s).value, k).Some?
       <==> Properties.Bit(Big16(s, 0), 15 - k)
  {
    Big16From(s, 0);
    ReadAsAnnounced(utf8, FromBE16(s[..2]), 0, Properties.NO_PROPERTIES, s[2..], k);
    hide Properties.Bit, Properties.TakeSlots, FromBE16;
    assert s[0..2] == s[..2];
  }
}
