// The content header's properties (AMQP 0-9-1 section 4.2.6.1): a bitmap of the properties
// that are present, followed by their values in order.
module Properties {
  import opened Bytes
  import opened Readers
  import opened FieldTables

  datatype BasicProperties = BasicProperties(
    contentType: Option<Octets>, contentEncoding: Option<Octets>, headers: Option<FieldTable>,
    deliveryMode: Option<byte>, priority: Option<byte>, correlationId: Option<Octets>,
    replyTo: Option<Octets>, expiration: Option<Octets>, messageId: Option<Octets>,
    timestamp: Option<u64>, typeField: Option<Octets>, userId: Option<Octets>,
    appId: Option<Octets>, clusterId: Option<Octets>)

  const NO_PROPERTIES := BasicProperties(
    None, None, None, None, None, None, None, None, None, None, None, None, None, None)

  // The properties as a list of slots, in wire order.

  datatype Value = Text(text: Octets) | Headers(table: FieldTable) | Small(octet: byte) | Stamp(time: u64)

  type Slot = Option<Value>

  const SLOTS: int := 14

  function TextSlot(o: Option<Octets>): Slot {
    if o.Some? then Some(Text(o.value)) else None
  }

  function SmallSlot(o: Option<byte>): Slot {
    if o.Some? then Some(Small(o.value)) else None
  }

  function HeadersSlot(o: Option<FieldTable>): Slot {
    if o.Some? then Some(Headers(o.value)) else None
  }

  function StampSlot(o: Option<u64>): Slot {
    if o.Some? then Some(Stamp(o.value)) else None
  }

  function SlotAt(p: BasicProperties, k: nat): Slot {
    if k == 0 then TextSlot(p.contentType)
    else if k == 1 then TextSlot(p.contentEncoding)
    else if k == 2 then HeadersSlot(p.headers)
    else if k == 3 then SmallSlot(p.deliveryMode)
    else if k == 4 then SmallSlot(p.priority)
    else if k == 5 then TextSlot(p.correlationId)
    else if k == 6 then TextSlot(p.replyTo)
    else if k == 7 then TextSlot(p.expiration)
    else if k == 8 then TextSlot(p.messageId)
    else if k == 9 then StampSlot(p.timestamp)
    else if k == 10 then TextSlot(p.typeField)
    else if k == 11 then TextSlot(p.userId)
    else if k == 12 then TextSlot(p.appId)
    else if k == 13 then TextSlot(p.clusterId)
    else None
  }

  /** The property record with one more slot filled in. */
  function WithSlot(p: BasicProperties, k: nat, v: Value): BasicProperties {
    match v
    case Text(x) =>
      if k == 0 then p.(contentType := Some(x))
      else if k == 1 then p.(contentEncoding := Some(x))
      else if k == 5 then p.(correlationId := Some(x))
      else if k == 6 then p.(replyTo := Some(x))
      else if k == 7 then p.(expiration := Some(x))
      else if k == 8 then p.(messageId := Some(x))
      else if k == 10 then p.(typeField := Some(x))
      else if k == 11 then p.(userId := Some(x))
      else if k == 12 then p.(appId := Some(x))
      else if k == 13 then p.(clusterId := Some(x))
      else p
    case Headers(t) => p.(headers := Some(t))
    case Small(b) => if k == 3 then p.(deliveryMode := Some(b)) else p.(priority := Some(b))
    case Stamp(t) => p.(timestamp := Some(t))
  }

  // Bits of a 16-bit word.

  predicate Bit(f: nat, k: nat) {
    if k == 0 then f % 2 == 1 else Bit(f / 2, k - 1)
  }

  /** The word with one more bit set. */
  function SetBit(f: nat, k: nat): nat {
    if k == 0 then (if f % 2 == 1 then f else f + 1) else 2 * SetBit(f / 2, k - 1) + f % 2
  }

  function Pow2(n: nat): nat {
    if n == 0 then 1 else 2 * Pow2(n - 1)
  }

  lemma Pow2Of16()
    ensures Pow2(16) == TWO_16
  {
    assert Pow2(4) == 16;
    assert Pow2(8) == 256;
    assert Pow2(12) == 4096;
  }

  lemma {:induction false} SetBitSets(f: nat, k: nat, j: nat)
    ensures Bit(SetBit(f, k), j) <==> j == k || Bit(f, j)
  {
    if k > 0 && j > 0 {
      SetBitSets(f / 2, k - 1, j - 1);
      assert SetBit(f, k) / 2 == SetBit(f / 2, k - 1);
    } else if k > 0 {
      assert SetBit(f, k) % 2 == f % 2;
    } else if j > 0 {
      assert SetBit(f, 0) / 2 == f / 2;
    }
  }

  lemma Halves(f: nat, half: nat)
    requires f < 2 * half
    ensures f / 2 < half && (f % 2 != 1 ==> f + 1 < 2 * half)
  {
  }

  lemma {:induction false} SetBitFits(f: nat, k: nat, n: nat)
    requires f < Pow2(n) && k < n
    ensures SetBit(f, k) < Pow2(n)
  {
    var half := Pow2(n - 1);
    assert Pow2(n) == 2 * half;
    hide Pow2;
    Halves(f, half);
    if k > 0 {
      SetBitFits(f / 2, k - 1, n - 1);
      assert SetBit(f, k) == 2 * SetBit(f / 2, k - 1) + f % 2;
      hide SetBit;
    }
  }

  lemma {:induction false} ZeroBits(k: nat)
    ensures !Bit(0, k)
  {
    if k > 0 {
      ZeroBits(k - 1);
    }
  }

  /** One property's bit: property k is announced by bit 15 - k. */
  function Marked(f: nat, p: BasicProperties, k: nat): nat
    requires k < SLOTS
  {
    if SlotAt(p, k).Some? then SetBit(f, 15 - k) else f
  }

  function FlagsUpTo(p: BasicProperties, n: nat): nat
    requires n <= SLOTS
  {
    if n == 0 then 0 else Marked(FlagsUpTo(p, n - 1), p, n - 1)
  }

  lemma {:induction false} FlagsAnnounce(p: BasicProperties, n: nat, k: nat)
    requires n <= SLOTS && k < 16
    ensures FlagsUpTo(p, n) < Pow2(16)
    ensures Bit(FlagsUpTo(p, n), 15 - k) <==> k < n && SlotAt(p, k).Some?
  {
    Pow2Of16();
    hide Pow2, Bit, SetBit, SlotAt;
    if n == 0 {
      ZeroBits(15 - k);
    } else {
      FlagsAnnounce(p, n - 1, k);
      SetBitSets(FlagsUpTo(p, n - 1), 16 - n, 15 - k);
      SetBitFits(FlagsUpTo(p, n - 1), 16 - n, 16);
    }
  }

  function Flags(p: BasicProperties): u16 {
    FlagsAnnounce(p, SLOTS, 0);
    Pow2Of16();
    FlagsUpTo(p, SLOTS)
  }

  /** A property's bit is set exactly when it is present; the two lowest bits never are. */
  lemma FlagSetIffPresent(p: BasicProperties, k: nat)
    requires k < 16
    ensures Bit(Flags(p), 15 - k) <==> k < SLOTS && SlotAt(p, k).Some?
  {
    FlagsAnnounce(p, SLOTS, k);
  }

  lemma HighFlags(p: BasicProperties)
    ensures Bit(Flags(p), 15) <==> p.contentType.Some?
    ensures Bit(Flags(p), 14) <==> p.contentEncoding.Some?
    ensures Bit(Flags(p), 13) <==> p.headers.Some?
    ensures Bit(Flags(p), 12) <==> p.deliveryMode.Some?
    ensures Bit(Flags(p), 11) <==> p.priority.Some?
    ensures Bit(Flags(p), 10) <==> p.correlationId.Some?
    ensures Bit(Flags(p), 9) <==> p.replyTo.Some?
    ensures Bit(Flags(p), 8) <==> p.expiration.Some?
  {
    hide Flags, Bit;
    FlagSetIffPresent(p, 0);
    FlagSetIffPresent(p, 1);
    FlagSetIffPresent(p, 2);
    FlagSetIffPresent(p, 3);
    FlagSetIffPresent(p, 4);
    FlagSetIffPresent(p, 5);
    FlagSetIffPresent(p, 6);
    FlagSetIffPresent(p, 7);
  }

  lemma LowFlags(p: BasicProperties)
    ensures Bit(Flags(p), 7) <==> p.messageId.Some?
    ensures Bit(Flags(p), 6) <==> p.timestamp.Some?
    ensures Bit(Flags(p), 5) <==> p.typeField.Some?
    ensures Bit(Flags(p), 4) <==> p.userId.Some?
    ensures Bit(Flags(p), 3) <==> p.appId.Some?
    ensures Bit(Flags(p), 2) <==> p.clusterId.Some?
    ensures !Bit(Flags(p), 1) && !Bit(Flags(p), 0)
  {
    hide Flags, Bit;
    FlagSetIffPresent(p, 8);
    FlagSetIffPresent(p, 9);
    FlagSetIffPresent(p, 10);
    FlagSetIffPresent(p, 11);
    FlagSetIffPresent(p, 12);
    FlagSetIffPresent(p, 13);
    FlagSetIffPresent(p, 14);
    FlagSetIffPresent(p, 15);
  }

  /** The bits of the bitmap, from the highest down, in the order of the AMQP standard. */
  lemma FlagsInWireOrder(p: BasicProperties)
    ensures Bit(Flags(p), 15) <==> p.contentType.Some?
    ensures Bit(Flags(p), 14) <==> p.contentEncoding.Some?
    ensures Bit(Flags(p), 13) <==> p.headers.Some?
    ensures Bit(Flags(p), 12) <==> p.deliveryMode.Some?
    ensures Bit(Flags(p), 11) <==> p.priority.Some?
    ensures Bit(Flags(p), 10) <==> p.correlationId.Some?
    ensures Bit(Flags(p), 9) <==> p.replyTo.Some?
    ensures Bit(Flags(p), 8) <==> p.expiration.Some?
    ensures Bit(Flags(p), 7) <==> p.messageId.Some?
    ensures Bit(Flags(p), 6) <==> p.timestamp.Some?
    ensures Bit(Flags(p), 5) <==> p.typeField.Some?
    ensures Bit(Flags(p), 4) <==> p.userId.Some?
    ensures Bit(Flags(p), 3) <==> p.appId.Some?
    ensures Bit(Flags(p), 2) <==> p.clusterId.Some?
    ensures !Bit(Flags(p), 1) && !Bit(Flags(p), 0)
  {
    HighFlags(p);
    LowFlags(p);
    hide *;
  }

  // Encoding.

  function EncodeSlot(v: Value): Written {
    match v
    case Text(s) => ShortStr(s)
    case Headers(t) => EncodeTable(t)
    case Small(b) => Written([b])
    case Stamp(t) => Written(BE64(t))
  }

  function EncodeSlots(p: BasicProperties, k: nat): Written
    requires k <= SLOTS
    decreases SLOTS - k
  {
    if k == SLOTS then Written([])
    else if SlotAt(p, k).None? then EncodeSlots(p, k + 1)
    else
      var value :- EncodeSlot(SlotAt(p, k).value);
      var more :- EncodeSlots(p, k + 1);
      Written(value + more)
  }

  function EncodeProperties(p: BasicProperties): Written {
    var values :- EncodeSlots(p, 0);
    Written(BE16(Flags(p)) + values)
  }

  predicate SlotShortEnough(v: Value) {
    match v
    case Text(s) => |s| <= 255
    case Headers(t) => FieldsShortEnough(t)
    case _ => true
  }

  /** Encoding fails exactly on a text, or a short string in the headers, over 255 bytes. */
  lemma {:induction false} EncodeSlotsFailsIff(p: BasicProperties, k: nat)
    requires k <= SLOTS
    ensures EncodeSlots(p, k).Written? <==>
            forall j: nat :: k <= j < SLOTS && SlotAt(p, j).Some? ==> SlotShortEnough(SlotAt(p, j).value)
    decreases SLOTS - k
  {
    hide SlotAt, EncodeSlot, SlotShortEnough;
    if k < SLOTS {
      hide EncodeSlots;
      EncodeSlotsFailsIff(p, k + 1);
      EncodeNeedsBoth(p, k);
    }
  }

  lemma EncodeNeedsBoth(p: BasicProperties, k: nat)
    requires k < SLOTS
    ensures EncodeSlots(p, k).Written? <==>
            && (SlotAt(p, k).Some? ==> SlotShortEnough(SlotAt(p, k).value))
            && EncodeSlots(p, k + 1).Written?
  {
    hide SlotAt;
    if SlotAt(p, k).Some? {
      EncodeSlotFailsIff(SlotAt(p, k).value);
      hide EncodeSlot, SlotShortEnough;
    }
  }

  lemma EncodeSlotFailsIff(v: Value)
    ensures EncodeSlot(v).Written? <==> SlotShortEnough(v)
  {
    if v.Headers? {
      EncodeFieldsFailsIff(v.table);
    }
    hide EncodeFields, FieldsShortEnough;
  }

  // Decoding.

  datatype Kind = TextKind | HeadersKind | SmallKind | StampKind

  function KindOf(k: nat): Kind {
    if k == 2 then HeadersKind
    else if k == 3 || k == 4 then SmallKind
    else if k == 9 then StampKind
    else TextKind
  }

  function TakeSlot(utf8: Utf8, kind: Kind, s: Octets): Parsed<Value> {
    match kind
    case TextKind => var (x, t) :- TakeShortStr(utf8, s); Ok(Text(x), t)
    case HeadersKind => var (x, t) :- TakeTable(utf8, s); Ok(Headers(x), t)
    case SmallKind => var (x, t) :- TakeU8(s); Ok(Small(x), t)
    case StampKind => var (x, t) :- TakeU64(s); Ok(Stamp(x), t)
  }

  function TakeSlots(utf8: Utf8, flags: u16, k: nat, p: BasicProperties, s: Octets)
    : Parsed<BasicProperties>
    requires k <= SLOTS
    decreases SLOTS - k
  {
    if k == SLOTS then Ok(p, s)
    else if !Bit(flags, 15 - k) then TakeSlots(utf8, flags, k + 1, p, s)
    else
      var (v, t) :- TakeSlot(utf8, KindOf(k), s);
      TakeSlots(utf8, flags, k + 1, WithSlot(p, k, v), t)
  }

  function TakeProperties(utf8: Utf8, s: Octets): Parsed<BasicProperties> {
    var (flags, t) :- TakeU16(s);
    TakeSlots(utf8, flags, 0, NO_PROPERTIES, t)
  }

  // Round trip.

  predicate SlotOk(utf8: Utf8, v: Value) {
    match v
    case Text(s) => utf8(s)
    case Headers(t) => TableOk(utf8, t)
    case _ => true
  }

  /** What the types promise: text is UTF-8 and the table's names are in order. */
  predicate PropertiesOk(utf8: Utf8, p: BasicProperties) {
    forall k: nat :: k < SLOTS && SlotAt(p, k).Some? ==> SlotOk(utf8, SlotAt(p, k).value)
  }

  predicate HeadersFit(p: BasicProperties) {
    p.headers.None? ||
    (EncodeTable(p.headers.value).Written? && |EncodeFields(p.headers.value).bytes| < TWO_32)
  }

  lemma SlotRoundTrip(utf8: Utf8, p: BasicProperties, k: nat, rest: Octets)
    requires k < SLOTS && SlotAt(p, k).Some? && SlotOk(utf8, SlotAt(p, k).value)
    requires SlotAt(p, k).value.Headers? ==> HeadersFit(p)
    requires EncodeSlot(SlotAt(p, k).value).Written?
    ensures TakeSlot(utf8, KindOf(k), EncodeSlot(SlotAt(p, k).value).bytes + rest)
         == Ok(SlotAt(p, k).value, rest)
  {
    hide TakeShortStr, ShortStr, TakeTable, EncodeTable, EncodeFields, BE64, TakeU64, TableOk;
    match SlotAt(p, k).value
    case Text(s) => ShortStrRoundTrip(utf8, s, rest);
    case Headers(t) => TableRoundTrip(utf8, t, rest);
    case Small(b) => assert ([b] + rest)[1..] == rest;
    case Stamp(t) => TakeU64Append(t, rest);
  }

  lemma ShortStrRoundTrip(utf8: Utf8, s: Octets, rest: Octets)
    requires ShortStr(s).Written? && utf8(s)
    ensures TakeShortStr(utf8, ShortStr(s).bytes + rest) == Ok(s, rest)
  {
    TakeShortStrAppend(utf8, s, rest);
  }

  /** The properties from slot k on are still missing from q. */
  predicate FilledUpTo(p: BasicProperties, q: BasicProperties, n: nat) {
    forall k: nat :: k < SLOTS ==> SlotAt(q, k) == if k < n then SlotAt(p, k) else None
  }

  predicate OfKind(v: Value, kind: Kind) {
    match kind
    case TextKind => v.Text?
    case HeadersKind => v.Headers?
    case SmallKind => v.Small?
    case StampKind => v.Stamp?
  }

  lemma SlotIsOfKind(p: BasicProperties, k: nat)
    ensures SlotAt(p, k).Some? ==> OfKind(SlotAt(p, k).value, KindOf(k))
  {
  }

  lemma WithSlotFills(q: BasicProperties, n: nat, v: Value, k: nat)
    requires n < SLOTS && k < SLOTS && OfKind(v, KindOf(n))
    ensures SlotAt(WithSlot(q, n, v), k) == if k == n then Some(v) else SlotAt(q, k)
  {
  }

  lemma FillNext(p: BasicProperties, q: BasicProperties, n: nat)
    requires FilledUpTo(p, q, n) && n < SLOTS
    ensures SlotAt(p, n).None? ==> FilledUpTo(p, q, n + 1)
    ensures SlotAt(p, n).Some? ==> FilledUpTo(p, WithSlot(q, n, SlotAt(p, n).value), n + 1)
  {
    hide SlotAt, WithSlot, OfKind, KindOf;
    if SlotAt(p, n).Some? {
      SlotIsOfKind(p, n);
      forall k: nat | k < SLOTS
        ensures SlotAt(WithSlot(q, n, SlotAt(p, n).value), k) == if k < n + 1 then SlotAt(p, k) else None
      {
        WithSlotFills(q, n, SlotAt(p, n).value, k);
      }
    }
  }

  lemma FilledIsSame(p: BasicProperties, q: BasicProperties)
    requires FilledUpTo(p, q, SLOTS)
    ensures p == q
  {
    assert forall k: nat :: k < SLOTS ==> SlotAt(q, k) == SlotAt(p, k);
    assert SlotAt(q, 0) == SlotAt(p, 0) && SlotAt(q, 1) == SlotAt(p, 1) && SlotAt(q, 2) == SlotAt(p, 2);
    assert SlotAt(q, 3) == SlotAt(p, 3) && SlotAt(q, 4) == SlotAt(p, 4) && SlotAt(q, 5) == SlotAt(p, 5);
    assert SlotAt(q, 6) == SlotAt(p, 6) && SlotAt(q, 7) == SlotAt(p, 7) && SlotAt(q, 8) == SlotAt(p, 8);
    assert SlotAt(q, 9) == SlotAt(p, 9) && SlotAt(q, 10) == SlotAt(p, 10) && SlotAt(q, 11) == SlotAt(p, 11);
    assert SlotAt(q, 12) == SlotAt(p, 12) && SlotAt(q, 13) == SlotAt(p, 13);
  }

  lemma {:induction false} SlotsRoundTrip(
    utf8: Utf8, p: BasicProperties, q: BasicProperties, k: nat, rest: Octets)
    requires k <= SLOTS && PropertiesOk(utf8, p) && HeadersFit(p) && FilledUpTo(p, q, k)
    requires EncodeSlots(p, k).Written?
    ensures TakeSlots(utf8, Flags(p), k, q, EncodeSlots(p, k).bytes + rest) == Ok(p, rest)
    decreases SLOTS - k
  {
    hide Flags, SlotAt, WithSlot, EncodeSlot, TakeSlot, SlotOk, Bit, FilledUpTo, HeadersFit;
    if k == SLOTS {
      FilledIsSame(p, q);
      assert [] + rest == rest;
    } else {
      FlagSetIffPresent(p, k);
      FillNext(p, q, k);
      if SlotAt(p, k).None? {
        SlotsRoundTrip(utf8, p, q, k + 1, rest);
      } else {
        var v, more := SlotAt(p, k).value, EncodeSlots(p, k + 1).bytes;
        var value := EncodeSlot(v).bytes;
        assert value + more + rest == value + (more + rest);
        SlotRoundTrip(utf8, p, k, more + rest);
        SlotsRoundTrip(utf8, p, WithSlot(q, k, v), k + 1, rest);
      }
    }
  }

  lemma PropertiesRoundTrip(utf8: Utf8, p: BasicProperties, rest: Octets)
    requires PropertiesOk(utf8, p) && HeadersFit(p) && EncodeProperties(p).Written?
    ensures TakeProperties(utf8, EncodeProperties(p).bytes + rest) == Ok(p, rest)
  {
    var values := EncodeSlots(p, 0).bytes;
    assert FilledUpTo(p, NO_PROPERTIES, 0);
    SlotsRoundTrip(utf8, p, NO_PROPERTIES, 0, rest);
    FlagsThenValues(utf8, p, rest);
    hide *;
  }

  lemma FlagsThenValues(utf8: Utf8, p: BasicProperties, rest: Octets)
    requires EncodeProperties(p).Written?
    ensures EncodeSlots(p, 0).Written?
    ensures TakeProperties(utf8, EncodeProperties(p).bytes + rest)
         == TakeSlots(utf8, Flags(p), 0, NO_PROPERTIES, EncodeSlots(p, 0).bytes + rest)
  {
    hide Flags, BE16, TakeU16, TakeSlots, EncodeSlots;
    var values := EncodeSlots(p, 0).bytes;
    TakeU16Append(Flags(p), values + rest);
    assert BE16(Flags(p)) + values + rest == BE16(Flags(p)) + (values + rest);
  }

  // When the headers do not fit.

  lemma SlotLeavesMost(utf8: Utf8, kind: Kind, s: Octets)
    requires kind != HeadersKind
    ensures var r := TakeSlot(utf8, kind, s); r.Ok? ==> |r.rest| + 256 >= |s|
  {
  }

  lemma {:induction false} SlotsLeaveMost(
    utf8: Utf8, flags: u16, k: nat, q: BasicProperties, s: Octets)
    requires 3 <= k <= SLOTS
    ensures var r := TakeSlots(utf8, flags, k, q, s);
      r.Ok? ==> |r.rest| + 256 * (SLOTS - k) >= |s|
    decreases SLOTS - k
  {
    hide TakeSlot, WithSlot, Bit;
    if k < SLOTS {
      if Bit(flags, 15 - k) {
        SlotLeavesMost(utf8, KindOf(k), s);
        var slot := TakeSlot(utf8, KindOf(k), s);
        if slot.Ok? { SlotsLeaveMost(utf8, flags, k + 1, WithSlot(q, k, slot.value), slot.rest); }
      } else {
        SlotsLeaveMost(utf8, flags, k + 1, q, s);
      }
    }
  }

  /** Headers whose length is cut leave gigabytes that no later property can consume. */
  lemma TextFirst(utf8: Utf8, p: BasicProperties, k: nat)
    requires k < 2 && PropertiesOk(utf8, p) && SlotAt(p, k).Some?
    ensures SlotOk(utf8, SlotAt(p, k).value) && SlotAt(p, k).value.Text?
  {
  }

  lemma {:induction false} CutHeadersLeaveBytes(
    utf8: Utf8, p: BasicProperties, q: BasicProperties, k: nat, rest: Octets)
    requires k <= 2 && PropertiesOk(utf8, p) && !HeadersFit(p) && EncodeSlots(p, k).Written?
    ensures var r := TakeSlots(utf8, Flags(p), k, q, EncodeSlots(p, k).bytes + rest);
      r.Ok? ==> |r.rest| > |rest|
    decreases 2 - k
  {
    assert k < SLOTS;
    hide *;
    if k == 2 {
      CutHeadersSlot(utf8, p, q, rest);
    } else {
      EncodeStep(p, k, rest);
      TakeStep(utf8, Flags(p), k, q, EncodeSlots(p, k).bytes + rest);
      FlagSetIffPresent(p, k);
      SlotIsOfKind(p, k);
      if SlotAt(p, k).Some? { TextFirst(utf8, p, k); }
      if SlotAt(p, k).None? {
        CutHeadersLeaveBytes(utf8, p, q, k + 1, rest);
      } else {
        SlotRoundTrip(utf8, p, k, EncodeSlots(p, k + 1).bytes + rest);
        CutHeadersLeaveBytes(utf8, p, WithSlot(q, k, SlotAt(p, k).value), k + 1, rest);
      }
    }
  }

  lemma EncodeStep(p: BasicProperties, k: nat, rest: Octets)
    requires k < SLOTS && EncodeSlots(p, k).Written?
    ensures EncodeSlots(p, k + 1).Written?
    ensures var more := EncodeSlots(p, k + 1).bytes;
      if SlotAt(p, k).None? then EncodeSlots(p, k).bytes == more
      else (
        && EncodeSlot(SlotAt(p, k).value).Written?
        && EncodeSlots(p, k).bytes + rest == EncodeSlot(SlotAt(p, k).value).bytes + (more + rest))
  {
    hide SlotAt, EncodeSlot;
  }

  lemma TakeStep(utf8: Utf8, flags: u16, k: nat, q: BasicProperties, s: Octets)
    requires k < SLOTS
    ensures TakeSlots(utf8, flags, k, q, s) ==
      if !Bit(flags, 15 - k) then TakeSlots(utf8, flags, k + 1, q, s)
      else match TakeSlot(utf8, KindOf(k), s)
        case Ok(v, t) => TakeSlots(utf8, flags, k + 1, WithSlot(q, k, v), t)
        case Err(e) => Err(e)
  {
    hide Bit, TakeSlot, WithSlot, KindOf;
  }

  lemma CutHeadersSlot(utf8: Utf8, p: BasicProperties, q: BasicProperties, rest: Octets)
    requires !HeadersFit(p) && EncodeSlots(p, 2).Written?
    ensures var r := TakeSlots(utf8, Flags(p), 2, q, EncodeSlots(p, 2).bytes + rest);
      r.Ok? ==> |r.rest| > |rest|
  {
    FlagSetIffPresent(p, 2);
    EncodeStep(p, 2, rest);
    var after, s := EncodeSlots(p, 3).bytes + rest, EncodeSlots(p, 2).bytes + rest;
    TakeStep(utf8, Flags(p), 2, q, s);
    HeadersAreCut(utf8, p, after);
    var r := TakeSlot(utf8, KindOf(2), s);
    hide *;
    if r.Ok? {
      SlotsLeaveMost(utf8, Flags(p), 3, WithSlot(q, 2, r.value), r.rest);
    }
  }

  lemma HeadersAreCut(utf8: Utf8, p: BasicProperties, rest: Octets)
    requires !HeadersFit(p)
    requires SlotAt(p, 2).Some? && EncodeSlot(SlotAt(p, 2).value).Written?
    ensures var r := TakeSlot(utf8, KindOf(2), EncodeSlot(SlotAt(p, 2).value).bytes + rest);
      r.Ok? ==> |r.rest| >= |rest| + TWO_32
  {
    CutTable(utf8, p.headers.value, rest);
    hide TakeTable, EncodeTable;
  }

  lemma CutTable(utf8: Utf8, t: FieldTable, rest: Octets)
    requires EncodeTable(t).Written? && |EncodeFields(t).bytes| >= TWO_32
    ensures var r := TakeTable(utf8, EncodeTable(t).bytes + rest);
      r.Ok? ==> |r.rest| >= |rest| + TWO_32
  {
    hide TakeFields, EncodeFields, Blob32, TakeBlob32;
    CutLength(EncodeFields(t).bytes, rest);
  }

  /**
   * Encoded properties followed by any bytes decode to themselves and leave those bytes,
   * whichever of the fourteen are present, exactly when the header table's data fits its
   * 32-bit length.
   */
  lemma PropertiesRoundTripIff(utf8: Utf8, p: BasicProperties, rest: Octets)
    requires PropertiesOk(utf8, p) && EncodeProperties(p).Written?
    ensures TakeProperties(utf8, EncodeProperties(p).bytes + rest) == Ok(p, rest) <==> HeadersFit(p)
  {
    if HeadersFit(p) {
      PropertiesRoundTrip(utf8, p, rest);
    } else {
      FlagsThenValues(utf8, p, rest);
      CutHeadersLeaveBytes(utf8, p, NO_PROPERTIES, 0, rest);
      hide *;
    }
  }

  /** Headers holding a string of 2^32 octets are encoded, and not read back. */
  lemma HugeHeadersAreLost(utf8: Utf8, rest: Octets)
    requires utf8([])
    ensures var p := NO_PROPERTIES.(headers := Some(ZeroTable(TWO_32)));
      && PropertiesOk(utf8, p) && EncodeProperties(p).Written?
      && TakeProperties(utf8, EncodeProperties(p).bytes + rest) != Ok(p, rest)
  {
    var p := NO_PROPERTIES.(headers := Some(ZeroTable(TWO_32)));
    ZeroTableBytes(utf8, TWO_32);
    assert SlotAt(p, 2) == Some(Headers(ZeroTable(TWO_32)));
    assert forall k: nat :: k < SLOTS && k != 2 ==> SlotAt(p, k).None?;
    EncodeFieldsFailsIff(ZeroTable(TWO_32));
    hide EncodeFields, EncodeSlots, Flags, TakeProperties, SlotAt, ZeroTable, TableOk, FieldsShortEnough;
    EncodeSlotsFailsIff(p, 0);
    PropertiesRoundTripIff(utf8, p, rest);
  }

  // The property record's own methods.

  method FlagWord(p: BasicProperties) returns (f: nat)
    ensures f == Flags(p)
  {
    hide SetBit;
    f := 0;
    if p.contentType.Some? { f := SetBit(f, 15); }
    assert f == FlagsUpTo(p, 1);
    if p.contentEncoding.Some? { f := SetBit(f, 14); }
    assert f == FlagsUpTo(p, 2);
    if p.headers.Some? { f := SetBit(f, 13); }
    assert f == FlagsUpTo(p, 3);
    if p.deliveryMode.Some? { f := SetBit(f, 12); }
    assert f == FlagsUpTo(p, 4);
    if p.priority.Some? { f := SetBit(f, 11); }
    assert f == FlagsUpTo(p, 5);
    if p.correlationId.Some? { f := SetBit(f, 10); }
    assert f == FlagsUpTo(p, 6);
    if p.replyTo.Some? { f := SetBit(f, 9); }
    assert f == FlagsUpTo(p, 7);
    if p.expiration.Some? { f := SetBit(f, 8); }
    assert f == FlagsUpTo(p, 8);
    if p.messageId.Some? { f := SetBit(f, 7); }
    assert f == FlagsUpTo(p, 9);
    if p.timestamp.Some? { f := SetBit(f, 6); }
    assert f == FlagsUpTo(p, 10);
    if p.typeField.Some? { f := SetBit(f, 5); }
    assert f == FlagsUpTo(p, 11);
    if p.userId.Some? { f := SetBit(f, 4); }
    assert f == FlagsUpTo(p, 12);
    if p.appId.Some? { f := SetBit(f, 3); }
    assert f == FlagsUpTo(p, 13);
    if p.clusterId.Some? { f := SetBit(f, 2); }
    assert f == FlagsUpTo(p, 14);
  }

  /** The words written before the properties from slot k on. */
  ghost predicate WrittenUpTo(p: BasicProperties, k: nat, before: Octets, now: Octets)
    requires k <= SLOTS
  {
    && (EncodeSlots(p, 0).Written? <==> EncodeSlots(p, k).Written?)
    && (EncodeSlots(p, k).Written? ==>
          before + EncodeSlots(p, 0).bytes == now + EncodeSlots(p, k).bytes)
  }

  lemma WriteNext(p: BasicProperties, k: nat, before: Octets, now: Octets)
    requires k < SLOTS && WrittenUpTo(p, k, before, now)
    ensures SlotAt(p, k).None? ==> WrittenUpTo(p, k + 1, before, now)
    ensures SlotAt(p, k).Some? && EncodeSlot(SlotAt(p, k).value).Written? ==>
              WrittenUpTo(p, k + 1, before, now + EncodeSlot(SlotAt(p, k).value).bytes)
    ensures SlotAt(p, k).Some? && EncodeSlot(SlotAt(p, k).value).TooLong? ==>
              EncodeSlots(p, 0).TooLong?
  {
    hide EncodeSlot, SlotAt;
    if SlotAt(p, k).Some? && EncodeSlot(SlotAt(p, k).value).Written? && EncodeSlots(p, k + 1).Written? {
      var x, more := EncodeSlot(SlotAt(p, k).value).bytes, EncodeSlots(p, k + 1).bytes;
      assert now + (x + more) == now + x + more;
    }
  }

  method WriteText(
    w: Buffer, o: Option<Octets>, ghost p: BasicProperties, ghost k: nat, ghost start: Octets)
    returns (ok: bool)
    requires k < SLOTS && SlotAt(p, k) == TextSlot(o) && WrittenUpTo(p, k, start, w.bytes)
    modifies w
    ensures if ok then WrittenUpTo(p, k + 1, start, w.bytes) else EncodeSlots(p, 0).TooLong?
  {
    hide WrittenUpTo, SlotAt, ShortStr, EncodeTable;
    WriteNext(p, k, start, w.bytes);
    ok := true;
    if o.Some? {
      ok := WriteShortStr(w, o.value);
    }
  }

  method WriteHeaders(
    w: Buffer, o: Option<FieldTable>, ghost p: BasicProperties, ghost k: nat, ghost start: Octets)
    returns (ok: bool)
    requires k < SLOTS && SlotAt(p, k) == HeadersSlot(o) && WrittenUpTo(p, k, start, w.bytes)
    modifies w
    ensures if ok then WrittenUpTo(p, k + 1, start, w.bytes) else EncodeSlots(p, 0).TooLong?
  {
    hide WrittenUpTo, SlotAt, ShortStr, EncodeTable;
    WriteNext(p, k, start, w.bytes);
    ok := true;
    if o.Some? {
      ok := WriteFieldTable(w, o.value);
    }
  }

  method WriteSmall(
    w: Buffer, o: Option<byte>, ghost p: BasicProperties, ghost k: nat, ghost start: Octets)
    returns (ok: bool)
    requires k < SLOTS && SlotAt(p, k) == SmallSlot(o) && WrittenUpTo(p, k, start, w.bytes)
    modifies w
    ensures if ok then WrittenUpTo(p, k + 1, start, w.bytes) else EncodeSlots(p, 0).TooLong?
  {
    hide WrittenUpTo, SlotAt, ShortStr, EncodeTable;
    WriteNext(p, k, start, w.bytes);
    ok := true;
    if o.Some? {
      w.Put([o.value]);
    }
  }

  method WriteStamp(
    w: Buffer, o: Option<u64>, ghost p: BasicProperties, ghost k: nat, ghost start: Octets)
    returns (ok: bool)
    requires k < SLOTS && SlotAt(p, k) == StampSlot(o) && WrittenUpTo(p, k, start, w.bytes)
    modifies w
    ensures if ok then WrittenUpTo(p, k + 1, start, w.bytes) else EncodeSlots(p, 0).TooLong?
  {
    hide WrittenUpTo, SlotAt, ShortStr, EncodeTable;
    WriteNext(p, k, start, w.bytes);
    ok := true;
    if o.Some? {
      w.Put(BE64(o.value));
    }
  }

  method EncodeTo(p: BasicProperties, w: Buffer) returns (ok: bool)
    modifies w
    ensures ok <==> EncodeProperties(p).Written?
    ensures ok ==> w.bytes == old(w.bytes) + EncodeProperties(p).bytes
  {
    hide EncodeSlots, Flags, BE16;
    var flags := FlagWord(p);
    w.Put(BE16(flags));
    ghost var start := w.bytes;
    ok := WriteValues(p, w);
    ghost var values := EncodeSlots(p, 0);
    assert ok ==> start + values.bytes == old(w.bytes) + (BE16(Flags(p)) + values.bytes);
  }

  method WriteValues(p: BasicProperties, w: Buffer) returns (ok: bool)
    modifies w
    ensures ok <==> EncodeSlots(p, 0).Written?
    ensures ok ==> w.bytes == old(w.bytes) + EncodeSlots(p, 0).bytes
  {
    ghost var start := w.bytes;
    assert WrittenUpTo(p, 0, start, w.bytes);
    hide WrittenUpTo, EncodeSlots;
    ok := WriteFirstValues(p, w, start);
    if !ok { return; }
    ok := WriteLastValues(p, w, start);
    if !ok { return; }
    AllWritten(p, start, w.bytes);
  }

  method WriteFirstValues(p: BasicProperties, w: Buffer, ghost start: Octets) returns (ok: bool)
    requires WrittenUpTo(p, 0, start, w.bytes)
    modifies w
    ensures if ok then WrittenUpTo(p, 7, start, w.bytes) else EncodeSlots(p, 0).TooLong?
  {
    hide WrittenUpTo, EncodeSlots, TextSlot, HeadersSlot, SmallSlot, StampSlot;
    ok := WriteText(w, p.contentType, p, 0, start);
    if !ok { return; }
    ok := WriteText(w, p.contentEncoding, p, 1, start);
    if !ok { return; }
    ok := WriteHeaders(w, p.headers, p, 2, start);
    if !ok { return; }
    ok := WriteSmall(w, p.deliveryMode, p, 3, start);
    if !ok { return; }
    ok := WriteSmall(w, p.priority, p, 4, start);
    if !ok { return; }
    ok := WriteText(w, p.correlationId, p, 5, start);
    if !ok { return; }
    ok := WriteText(w, p.replyTo, p, 6, start);
    if !ok { return; }
  }

  method WriteLastValues(p: BasicProperties, w: Buffer, ghost start: Octets) returns (ok: bool)
    requires WrittenUpTo(p, 7, start, w.bytes)
    modifies w
    ensures if ok then WrittenUpTo(p, SLOTS, start, w.bytes) else EncodeSlots(p, 0).TooLong?
  {
    hide WrittenUpTo, EncodeSlots, TextSlot, HeadersSlot, SmallSlot, StampSlot;
    ok := WriteText(w, p.expiration, p, 7, start);
    if !ok { return; }
    ok := WriteText(w, p.messageId, p, 8, start);
    if !ok { return; }
    ok := WriteStamp(w, p.timestamp, p, 9, start);
    if !ok { return; }
    ok := WriteText(w, p.typeField, p, 10, start);
    if !ok { return; }
    ok := WriteText(w, p.userId, p, 11, start);
    if !ok { return; }
    ok := WriteText(w, p.appId, p, 12, start);
    if !ok { return; }
    ok := WriteText(w, p.clusterId, p, 13, start);
    if !ok { return; }
  }

  lemma AllWritten(p: BasicProperties, start: Octets, now: Octets)
    requires WrittenUpTo(p, SLOTS, start, now)
    ensures EncodeSlots(p, 0).Written? && now == start + EncodeSlots(p, 0).bytes
  {
    assert now + [] == now;
  }

  // Reading.

  method ReadText(
    r: ByteReader, utf8: Utf8, flags: u16, k: nat, p: BasicProperties,
    ghost all: Parsed<BasicProperties>)
    returns (o: Outcome<BasicProperties>)
    requires r.Valid() && k < SLOTS && KindOf(k) == TextKind
    requires TakeSlots(utf8, flags, k, p, r.rest) == all
    modifies r
    ensures r.Valid()
    ensures match o
      case Success(q) => TakeSlots(utf8, flags, k + 1, q, r.rest) == all
      case Failure(e) => all == Err(e)
  {
    hide Bit, WithSlot, KindOf, TakeShortStr;
    if Bit(flags, 15 - k) {
      var x :- ReadShortStr(r, utf8);
      o := Success(WithSlot(p, k, Text(x)));
    } else {
      o := Success(p);
    }
  }

  method ReadHeaders(
    r: ByteReader, utf8: Utf8, flags: u16, k: nat, p: BasicProperties,
    ghost all: Parsed<BasicProperties>)
    returns (o: Outcome<BasicProperties>)
    requires r.Valid() && k < SLOTS && KindOf(k) == HeadersKind
    requires TakeSlots(utf8, flags, k, p, r.rest) == all
    modifies r
    ensures r.Valid()
    ensures match o
      case Success(q) => TakeSlots(utf8, flags, k + 1, q, r.rest) == all
      case Failure(e) => all == Err(e)
  {
    hide Bit, WithSlot, KindOf, TakeTable;
    if Bit(flags, 15 - k) {
      var t :- ReadFieldTable(r, utf8);
      o := Success(WithSlot(p, k, Headers(t)));
    } else {
      o := Success(p);
    }
  }

  method ReadSmall(
    r: ByteReader, utf8: Utf8, flags: u16, k: nat, p: BasicProperties,
    ghost all: Parsed<BasicProperties>)
    returns (o: Outcome<BasicProperties>)
    requires r.Valid() && k < SLOTS && KindOf(k) == SmallKind
    requires TakeSlots(utf8, flags, k, p, r.rest) == all
    modifies r
    ensures r.Valid()
    ensures match o
      case Success(q) => TakeSlots(utf8, flags, k + 1, q, r.rest) == all
      case Failure(e) => all == Err(e)
  {
    hide Bit, WithSlot, KindOf, TakeU8;
    if Bit(flags, 15 - k) {
      var b :- r.ReadU8();
      o := Success(WithSlot(p, k, Small(b)));
    } else {
      o := Success(p);
    }
  }

  method ReadStamp(
    r: ByteReader, utf8: Utf8, flags: u16, k: nat, p: BasicProperties,
    ghost all: Parsed<BasicProperties>)
    returns (o: Outcome<BasicProperties>)
    requires r.Valid() && k < SLOTS && KindOf(k) == StampKind
    requires TakeSlots(utf8, flags, k, p, r.rest) == all
    modifies r
    ensures r.Valid()
    ensures match o
      case Success(q) => TakeSlots(utf8, flags, k + 1, q, r.rest) == all
      case Failure(e) => all == Err(e)
  {
    hide Bit, WithSlot, KindOf, TakeU64;
    if Bit(flags, 15 - k) {
      var t :- r.ReadU64();
      o := Success(WithSlot(p, k, Stamp(t)));
    } else {
      o := Success(p);
    }
  }

  method DecodeFrom(r: ByteReader, utf8: Utf8) returns (o: Outcome<BasicProperties>)
    requires r.Valid()
    modifies r
    ensures r.Valid() && o == OutcomeOf(TakeProperties(utf8, old(r.rest)))
    ensures o.Success? ==> r.rest == TakeProperties(utf8, old(r.rest)).rest
  {
    hide TakeSlots, TakeU16;
    var flags :- r.ReadU16();
    o := ReadValues(r, utf8, flags);
  }

  method ReadValues(r: ByteReader, utf8: Utf8, flags: u16) returns (o: Outcome<BasicProperties>)
    requires r.Valid()
    modifies r
    ensures r.Valid() && o == OutcomeOf(TakeSlots(utf8, flags, 0, NO_PROPERTIES, old(r.rest)))
    ensures o.Success? ==> r.rest == TakeSlots(utf8, flags, 0, NO_PROPERTIES, old(r.rest)).rest
  {
    ghost var all := TakeSlots(utf8, flags, 0, NO_PROPERTIES, r.rest);
    hide TakeSlots;
    var p :- ReadFirstValues(r, utf8, flags, NO_PROPERTIES, all);
    p :- ReadLastValues(r, utf8, flags, p, all);
    AllRead(utf8, flags, p, r.rest);
    o := Success(p);
  }

  method ReadFirstValues(
    r: ByteReader, utf8: Utf8, flags: u16, before: BasicProperties,
    ghost all: Parsed<BasicProperties>)
    returns (o: Outcome<BasicProperties>)
    requires r.Valid() && TakeSlots(utf8, flags, 0, before, r.rest) == all
    modifies r
    ensures r.Valid()
    ensures match o
      case Success(q) => TakeSlots(utf8, flags, 7, q, r.rest) == all
      case Failure(e) => all == Err(e)
  {
    hide TakeSlots;
    var p := before;
    p :- ReadText(r, utf8, flags, 0, p, all);
    p :- ReadText(r, utf8, flags, 1, p, all);
    p :- ReadHeaders(r, utf8, flags, 2, p, all);
    p :- ReadSmall(r, utf8, flags, 3, p, all);
    p :- ReadSmall(r, utf8, flags, 4, p, all);
    p :- ReadText(r, utf8, flags, 5, p, all);
    p :- ReadText(r, utf8, flags, 6, p, all);
    o := Success(p);
  }

  method ReadLastValues(
    r: ByteReader, utf8: Utf8, flags: u16, before: BasicProperties,
    ghost all: Parsed<BasicProperties>)
    returns (o: Outcome<BasicProperties>)
    requires r.Valid() && TakeSlots(utf8, flags, 7, before, r.rest) == all
    modifies r
    ensures r.Valid()
    ensures match o
      case Success(q) => TakeSlots(utf8, flags, SLOTS, q, r.rest) == all
      case Failure(e) => all == Err(e)
  {
    hide TakeSlots;
    var p := before;
    p :- ReadText(r, utf8, flags, 7, p, all);
    p :- ReadText(r, utf8, flags, 8, p, all);
    p :- ReadStamp(r, utf8, flags, 9, p, all);
    p :- ReadText(r, utf8, flags, 10, p, all);
    p :- ReadText(r, utf8, flags, 11, p, all);
    p :- ReadText(r, utf8, flags, 12, p, all);
    p :- ReadText(r, utf8, flags, 13, p, all);
    o := Success(p);
  }

  lemma AllRead(utf8: Utf8, flags: u16, p: BasicProperties, s: Octets)
    ensures TakeSlots(utf8, flags, SLOTS, p, s) == Ok(p, s)
  {
  }
}
