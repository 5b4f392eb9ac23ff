// AMQP 0-9-1 field tables (section 4.2.5.5): the encoder and decoder call themselves for
// tables nested in tables.
module FieldTables {
  import opened Bytes
  import opened Readers

  type i8 = x: int | -0x80 <= x < 0x80
  type i16 = x: int | -0x8000 <= x < 0x8000
  type i32 = x: int | -0x8000_0000 <= x < 0x8000_0000
  type i64 = x: int | -0x8000_0000_0000_0000 <= x < 0x8000_0000_0000_0000

  /** A typed value; floating-point numbers are their bit patterns. */
  datatype FieldValue =
    | Boolean(bool)
    | ShortShortInt(i8)
    | ShortShortUint(byte)
    | ShortInt(i16)
    | ShortUint(u16)
    | LongInt(i32)
    | LongUint(u32)
    | LongLongInt(i64)
    | LongLongUint(u64)
    | Float(bits32: u32)
    | Double(bits64: u64)
    | ShortString(text: Octets)
    | LongString(data: Octets)
    | Timestamp(u64)
    | Table(fields: FieldTable)
    | Void

  datatype Field = Field(name: Octets, value: FieldValue)

  /** The fields in the order of their names. */
  type FieldTable = seq<Field>

  // Tables as ordered maps.

  predicate Less(a: Octets, b: Octets) {
    if b == [] then false
    else if a == [] then true
    else a[0] < b[0] || (a[0] == b[0] && Less(a[1..], b[1..]))
  }

  lemma {:induction false} LessIsStrict(a: Octets, b: Octets)
    requires Less(a, b)
    ensures !Less(b, a) && a != b
  {
    if a != [] && a[0] == b[0] {
      LessIsStrict(a[1..], b[1..]);
    }
  }

  /** Inserting under a name replaces what the name held. */
  function Insert(t: FieldTable, f: Field): FieldTable {
    if t == [] || Less(f.name, t[0].name) then [f] + t
    else if f.name == t[0].name then [f] + t[1..]
    else [t[0]] + Insert(t[1..], f)
  }

  predicate NamesAscend(t: FieldTable) {
    forall i, j :: 0 <= i < j < |t| ==> Less(t[i].name, t[j].name)
  }

  lemma {:induction false} InsertLast(t: FieldTable, f: Field)
    requires forall g <- t :: Less(g.name, f.name)
    ensures Insert(t, f) == t + [f]
  {
    if t != [] {
      LessIsStrict(t[0].name, f.name);
      InsertLast(t[1..], f);
      assert t == [t[0]] + t[1..];
    }
  }

  lemma {:induction false} LessIsTotal(a: Octets, b: Octets)
    ensures a == b || Less(a, b) || Less(b, a)
  {
    if a != [] && b != [] && a[0] == b[0] {
      LessIsTotal(a[1..], b[1..]);
      assert a == [a[0]] + a[1..] && b == [b[0]] + b[1..];
    }
  }

  lemma {:induction false} LessIsTransitive(a: Octets, b: Octets, c: Octets)
    requires Less(a, b) && Less(b, c)
    ensures Less(a, c)
  {
    if a != [] && a[0] == b[0] == c[0] {
      LessIsTransitive(a[1..], b[1..], c[1..]);
    }
  }

  /** Inserting a field keeps the names in order, replaces the field of that name, and keeps the others. */
  lemma {:induction false} InsertReplaces(t: FieldTable, f: Field)
    requires NamesAscend(t)
    ensures NamesAscend(Insert(t, f))
    ensures forall g :: g in Insert(t, f) <==> g == f || (g in t && g.name != f.name)
  {
    if t != [] {
      var x, rest := t[0], t[1..];
      assert t == [x] + rest;
      LessIsTotal(f.name, x.name);
      hide Less;
      AscendsFrom(x, rest);
      if Less(f.name, x.name) {
        LessIsStrictBelow(f, t);
        AscendsFrom(f, t);
      } else if f.name == x.name {
        AscendsFrom(f, rest);
        LessIsStrictAbove(x, rest);
      } else {
        InsertReplaces(rest, f);
        AscendsFrom(x, Insert(rest, f));
      }
    }
  }

  lemma AscendsFrom(x: Field, t: FieldTable)
    ensures NamesAscend([x] + t) <==> NamesAscend(t) && forall g <- t :: Less(x.name, g.name)
  {
    hide Less;
    var all := [x] + t;
    assert all[0] == x && forall i :: 0 <= i < |t| ==> t[i] == all[i + 1];
    if NamesAscend(all) {
      forall i | 0 <= i < |t| ensures Less(x.name, t[i].name) {
        assert Less(all[0].name, all[i + 1].name);
      }
      forall i, j | 0 <= i < j < |t| ensures Less(t[i].name, t[j].name) {
        assert Less(all[i + 1].name, all[j + 1].name);
      }
    }
  }

  lemma LessIsStrictBelow(f: Field, t: FieldTable)
    requires t != [] && NamesAscend(t) && Less(f.name, t[0].name)
    ensures forall g <- t :: Less(f.name, g.name) && g.name != f.name
  {
    forall g | g in t ensures Less(f.name, g.name) && g.name != f.name {
      var i :| 0 <= i < |t| && t[i] == g;
      if i > 0 { LessIsTransitive(f.name, t[0].name, g.name); }
      LessIsStrict(f.name, g.name);
    }
  }

  lemma LessIsStrictAbove(x: Field, t: FieldTable)
    requires forall g <- t :: Less(x.name, g.name)
    ensures forall g <- t :: g.name != x.name
  {
    forall g | g in t ensures g.name != x.name {
      LessIsStrict(x.name, g.name);
    }
  }

  // Encoding.

  /** What a writer produced, or its refusal of a short string over 255 bytes. */
  datatype Written = Written(bytes: Octets) | TooLong {
    predicate IsFailure() { TooLong? }

    function PropagateFailure(): Written
      requires TooLong?
    {
      this
    }

    function Extract(): Octets
      requires Written?
    {
      bytes
    }
  }

  function ShortStr(s: Octets): Written {
    if |s| > 255 then TooLong else Written([|s|] + s)
  }

  /** Two's complement. */
  function Unsigned(v: int, width: int): int {
    if v < 0 then v + width else v
  }

  function Signed(v: int, width: int): int {
    if v < width / 2 then v else v - width
  }

  const TWO_8: int := 0x100

  function Tag(v: FieldValue): byte {
    match v
    case Boolean(_) => 't' as int
    case ShortShortInt(_) => 'b' as int
    case ShortShortUint(_) => 'B' as int
    case ShortInt(_) => 'U' as int
    case ShortUint(_) => 'u' as int
    case LongInt(_) => 'I' as int
    case LongUint(_) => 'i' as int
    case LongLongInt(_) => 'L' as int
    case LongLongUint(_) => 'l' as int
    case Float(_) => 'f' as int
    case Double(_) => 'd' as int
    case ShortString(_) => 's' as int
    case LongString(_) => 'S' as int
    case Timestamp(_) => 'T' as int
    case Table(_) => 'F' as int
    case Void => 'V' as int
  }

  function EncodeValue(v: FieldValue): Written
    decreases v, 1
  {
    var payload :- EncodePayload(v);
    Written([Tag(v)] + payload)
  }

  function EncodePayload(v: FieldValue): Written
    decreases v, 0
  {
    match v
    case Boolean(b) => Written([if b then 1 else 0])
    case ShortShortInt(n) => Written([Unsigned(n, TWO_8)])
    case ShortShortUint(n) => Written([n])
    case ShortInt(n) => Written(BE16(Unsigned(n, TWO_16)))
    case ShortUint(n) => Written(BE16(n))
    case LongInt(n) => Written(BE32(Unsigned(n, TWO_32)))
    case LongUint(n) => Written(BE32(n))
    case LongLongInt(n) => Written(BE64(Unsigned(n, TWO_64)))
    case LongLongUint(n) => Written(BE64(n))
    case Float(bits) => Written(BE32(bits))
    case Double(bits) => Written(BE64(bits))
    case ShortString(s) => ShortStr(s)
    case LongString(data) => Written(Blob32(data))
    case Timestamp(n) => Written(BE64(n))
    case Table(fields) => EncodeTable(fields)
    case Void => Written([])
  }

  function EncodeTable(t: FieldTable): Written
    decreases t, 3
  {
    var body :- EncodeFields(t);
    Written(Blob32(body))
  }

  function EncodeFields(t: FieldTable): Written
    decreases t, 2
  {
    if t == [] then Written([])
    else
      var name :- ShortStr(t[0].name);
      var value :- EncodeValue(t[0].value);
      var more :- EncodeFields(t[1..]);
      Written(name + (value + more))
  }

  /** Every short string in the table, at any depth, has at most 255 bytes. */
  predicate ShortEnough(v: FieldValue)
    decreases v
  {
    match v
    case ShortString(s) => |s| <= 255
    case Table(fields) => FieldsShortEnough(fields)
    case _ => true
  }

  predicate FieldsShortEnough(t: FieldTable)
    decreases t
  {
    t == [] ||
    (|t[0].name| <= 255 && ShortEnough(t[0].value) && FieldsShortEnough(t[1..]))
  }

  /** Encoding fails exactly on a short string that is too long, however deep it lies. */
  lemma {:induction false} EncodeFieldsFailsIff(t: FieldTable)
    ensures EncodeFields(t).Written? <==> FieldsShortEnough(t)
    decreases t
  {
    if t != [] {
      EncodeValueFailsIff(t[0].value);
      EncodeFieldsFailsIff(t[1..]);
    }
  }

  lemma {:induction false} EncodeValueFailsIff(v: FieldValue)
    ensures EncodeValue(v).Written? <==> ShortEnough(v)
    decreases v
  {
    hide BE16, BE32, BE64, Blob32, Tag, Unsigned;
    assert EncodeValue(v).Written? <==> EncodePayload(v).Written?;
    hide EncodeValue;
    match v {
      case Table(fields) =>
        EncodeFieldsFailsIff(fields);
        assert EncodePayload(v) == EncodeTable(fields);
      case _ =>
    }
  }

  // Decoding.

  function TakeShortStr(utf8: Utf8, s: Octets): (r: Parsed<Octets>)
    ensures r.Ok? ==> |r.rest| < |s|
  {
    var (n, t) :- TakeU8(s);
    var (bytes, u) :- TakeN(t, n);
    if utf8(bytes) then Ok(bytes, u) else Err(InvalidUtf8)
  }

  function TakeValue(utf8: Utf8, s: Octets): (r: Parsed<FieldValue>)
    ensures r.Ok? ==> |r.rest| < |s|
    decreases |s|, 0
  {
    var (tag, t) :- TakeU8(s);
    TakePayload(utf8, tag, t)
  }

  function TakePayload(utf8: Utf8, tag: byte, t: Octets): (r: Parsed<FieldValue>)
    ensures r.Ok? ==> |r.rest| <= |t|
    decreases |t|, 1
  {
    match tag as char {
      case 't' => var (b, u) :- TakeU8(t); Ok(Boolean(b != 0), u)
      case 'b' => var (n, u) :- TakeU8(t); Ok(ShortShortInt(Signed(n, TWO_8)), u)
      case 'B' => var (n, u) :- TakeU8(t); Ok(ShortShortUint(n), u)
      case 'U' => var (n, u) :- TakeU16(t); Ok(ShortInt(Signed(n, TWO_16)), u)
      case 'u' => var (n, u) :- TakeU16(t); Ok(ShortUint(n), u)
      case 'I' => var (n, u) :- TakeU32(t); Ok(LongInt(Signed(n, TWO_32)), u)
      case 'i' => var (n, u) :- TakeU32(t); Ok(LongUint(n), u)
      case 'L' => var (n, u) :- TakeU64(t); Ok(LongLongInt(Signed(n, TWO_64)), u)
      case 'l' => var (n, u) :- TakeU64(t); Ok(LongLongUint(n), u)
      case 'f' => var (n, u) :- TakeU32(t); Ok(Float(n), u)
      case 'd' => var (n, u) :- TakeU64(t); Ok(Double(n), u)
      case 's' => var (x, u) :- TakeShortStr(utf8, t); Ok(ShortString(x), u)
      case 'S' => var (x, u) :- TakeBlob32(t); Ok(LongString(x), u)
      case 'T' => var (n, u) :- TakeU64(t); Ok(Timestamp(n), u)
      case 'F' => var (x, u) :- TakeTable(utf8, t); Ok(Table(x), u)
      case 'V' => Ok(Void, t)
      case _ => Err(InvalidTag(tag))
    }
  }

  function TakeTable(utf8: Utf8, s: Octets): (r: Parsed<FieldTable>)
    ensures r.Ok? ==> |r.rest| < |s|
    decreases |s|, 0
  {
    var (data, rest) :- TakeBlob32(s);
    var (table, _) :- TakeFields(utf8, data, []);
    Ok(table, rest)
  }

  /** The fields of a table's data, inserted one after another into `table`. */
  function TakeFields(utf8: Utf8, data: Octets, table: FieldTable): (r: Parsed<FieldTable>)
    decreases |data|, 2
  {
    if data == [] then Ok(table, [])
    else
      var (field, rest) :- TakeField(utf8, data);
      TakeFields(utf8, rest, Insert(table, field))
  }

  function TakeField(utf8: Utf8, data: Octets): (r: Parsed<Field>)
    ensures r.Ok? ==> |r.rest| < |data|
    decreases |data|, 1
  {
    var (name, t) :- TakeShortStr(utf8, data);
    var (value, u) :- TakeValue(utf8, t);
    Ok(Field(name, value), u)
  }

  // Round trips.

  /** What the types promise: strings are UTF-8 and a table's names are in order. */
  predicate ValueOk(utf8: Utf8, v: FieldValue)
    decreases v
  {
    match v
    case ShortString(s) => utf8(s)
    case Table(fields) => TableOk(utf8, fields)
    case _ => true
  }

  predicate TableOk(utf8: Utf8, t: FieldTable)
    decreases t, 1
  {
    NamesAscend(t) && FieldsOk(utf8, t)
  }

  predicate FieldsOk(utf8: Utf8, t: FieldTable)
    decreases t, 0
  {
    t == [] ||
    (utf8(t[0].name) && ValueOk(utf8, t[0].value) && FieldsOk(utf8, t[1..]))
  }

  lemma SignedUnsigned(v: int, width: int)
    requires width % 2 == 0 && -(width / 2) <= v < width / 2
    ensures 0 <= Unsigned(v, width) < width && Signed(Unsigned(v, width), width) == v
  {
  }

  lemma TakeShortStrAppend(utf8: Utf8, x: Octets, rest: Octets)
    requires |x| <= 255 && utf8(x)
    ensures TakeShortStr(utf8, ShortStr(x).bytes + rest) == Ok(x, rest)
  {
    assert ([|x|] + x + rest)[1..] == x + rest;
    TakeNAppend(x, rest);
  }

  /** What follows the tag is read back by the branch of that tag. */
  lemma TakeTagged(utf8: Utf8, v: FieldValue, rest: Octets)
    requires EncodeValue(v).Written?
    ensures var p := EncodePayload(v);
      && p.Written?
      && TakeValue(utf8, EncodeValue(v).bytes + rest) == TakePayload(utf8, Tag(v), p.bytes + rest)
  {
    hide TakePayload, EncodePayload, Tag;
    assert EncodeValue(v).bytes + rest == [Tag(v)] + (EncodePayload(v).bytes + rest);
  }

  /** One-byte and empty payloads. */
  lemma SmallRoundTrip(utf8: Utf8, v: FieldValue, rest: Octets)
    requires v.Boolean? || v.ShortShortInt? || v.ShortShortUint? || v.Void?
    requires EncodeValue(v).Written?
    ensures TakeValue(utf8, EncodeValue(v).bytes + rest) == Ok(v, rest)
  {
    TakeTagged(utf8, v, rest);
    var p := EncodePayload(v).bytes;
    if !v.Void? {
      assert (p + rest)[0] == p[0] && (p + rest)[1..] == rest;
    } else {
      assert p + rest == rest;
    }
    if v.ShortShortInt? {
      var ShortShortInt(n) := v;
      SignedUnsigned(n, TWO_8);
    }
  }

  lemma ShortIntRoundTrip(utf8: Utf8, n: i16, rest: Octets)
    requires EncodeValue(ShortInt(n)).Written?
    ensures TakeValue(utf8, EncodeValue(ShortInt(n)).bytes + rest) == Ok(ShortInt(n), rest)
  {
    hide BE16, TakeU16;
    TakeTagged(utf8, ShortInt(n), rest);
    SignedUnsigned(n, TWO_16);
    TakeU16Append(Unsigned(n, TWO_16), rest);
    hide TakeValue, EncodeValue;
  }

  lemma LongIntRoundTrip(utf8: Utf8, n: i32, rest: Octets)
    requires EncodeValue(LongInt(n)).Written?
    ensures TakeValue(utf8, EncodeValue(LongInt(n)).bytes + rest) == Ok(LongInt(n), rest)
  {
    hide BE32, TakeU32;
    TakeTagged(utf8, LongInt(n), rest);
    SignedUnsigned(n, TWO_32);
    TakeU32Append(Unsigned(n, TWO_32), rest);
    hide TakeValue, EncodeValue;
  }

  lemma LongLongIntRoundTrip(utf8: Utf8, n: i64, rest: Octets)
    requires EncodeValue(LongLongInt(n)).Written?
    ensures TakeValue(utf8, EncodeValue(LongLongInt(n)).bytes + rest) == Ok(LongLongInt(n), rest)
  {
    hide BE64, TakeU64;
    TakeTagged(utf8, LongLongInt(n), rest);
    SignedUnsigned(n, TWO_64);
    TakeU64Append(Unsigned(n, TWO_64), rest);
    hide TakeValue, EncodeValue;
  }

  lemma ShortUintRoundTrip(utf8: Utf8, n: u16, rest: Octets)
    requires EncodeValue(ShortUint(n)).Written?
    ensures TakeValue(utf8, EncodeValue(ShortUint(n)).bytes + rest) == Ok(ShortUint(n), rest)
  {
    hide BE16, TakeU16;
    TakeTagged(utf8, ShortUint(n), rest);
    TakeU16Append(n, rest);
    hide TakeValue, EncodeValue;
  }

  lemma LongUintRoundTrip(utf8: Utf8, n: u32, rest: Octets)
    requires EncodeValue(LongUint(n)).Written?
    ensures TakeValue(utf8, EncodeValue(LongUint(n)).bytes + rest) == Ok(LongUint(n), rest)
  {
    hide BE32, TakeU32;
    TakeTagged(utf8, LongUint(n), rest);
    TakeU32Append(n, rest);
    hide TakeValue, EncodeValue;
  }

  lemma LongLongUintRoundTrip(utf8: Utf8, n: u64, rest: Octets)
    requires EncodeValue(LongLongUint(n)).Written?
    ensures TakeValue(utf8, EncodeValue(LongLongUint(n)).bytes + rest) == Ok(LongLongUint(n), rest)
  {
    hide BE64, TakeU64;
    TakeTagged(utf8, LongLongUint(n), rest);
    TakeU64Append(n, rest);
    hide TakeValue, EncodeValue;
  }

  lemma FloatRoundTrip(utf8: Utf8, n: u32, rest: Octets)
    requires EncodeValue(Float(n)).Written?
    ensures TakeValue(utf8, EncodeValue(Float(n)).bytes + rest) == Ok(Float(n), rest)
  {
    hide BE32, TakeU32;
    TakeTagged(utf8, Float(n), rest);
    TakeU32Append(n, rest);
    hide TakeValue, EncodeValue;
  }

  lemma DoubleRoundTrip(utf8: Utf8, n: u64, rest: Octets)
    requires EncodeValue(Double(n)).Written?
    ensures TakeValue(utf8, EncodeValue(Double(n)).bytes + rest) == Ok(Double(n), rest)
  {
    hide BE64, TakeU64;
    TakeTagged(utf8, Double(n), rest);
    TakeU64Append(n, rest);
    hide TakeValue, EncodeValue;
  }

  lemma TimestampRoundTrip(utf8: Utf8, n: u64, rest: Octets)
    requires EncodeValue(Timestamp(n)).Written?
    ensures TakeValue(utf8, EncodeValue(Timestamp(n)).bytes + rest) == Ok(Timestamp(n), rest)
  {
    hide BE64, TakeU64;
    TakeTagged(utf8, Timestamp(n), rest);
    TakeU64Append(n, rest);
    hide TakeValue, EncodeValue;
  }

  /** The length of a long string, or of a table's data, fits its 32-bit prefix. */
  predicate LengthFits(v: FieldValue) {
    match v
    case LongString(data) => |data| < TWO_32
    case Table(fields) => EncodeFields(fields).Written? && |EncodeFields(fields).bytes| < TWO_32
    case _ => true
  }

  lemma ShortValuesFit(v: FieldValue)
    requires EncodeValue(v).Written? && |EncodeValue(v).bytes| < TWO_32
    ensures LengthFits(v)
  {
    hide BE32;
    match v {
      case Table(fields) => assert EncodePayload(v) == EncodeTable(fields);
      case LongString(data) => assert EncodePayload(v) == Written(Blob32(data));
      case _ =>
    }
  }

  lemma ShortStringRoundTrip(utf8: Utf8, x: Octets, rest: Octets)
    requires utf8(x) && EncodeValue(ShortString(x)).Written?
    ensures TakeValue(utf8, EncodeValue(ShortString(x)).bytes + rest) == Ok(ShortString(x), rest)
  {
    hide TakeShortStr;
    TakeTagged(utf8, ShortString(x), rest);
    TakeShortStrAppend(utf8, x, rest);
    hide TakeValue, EncodeValue;
  }

  lemma LongStringRoundTrip(utf8: Utf8, x: Octets, rest: Octets)
    requires |x| < TWO_32 && EncodeValue(LongString(x)).Written?
    ensures TakeValue(utf8, EncodeValue(LongString(x)).bytes + rest) == Ok(LongString(x), rest)
  {
    hide Blob32, TakeBlob32;
    TakeTagged(utf8, LongString(x), rest);
    TakeBlob32Append(x, rest);
    hide TakeValue, EncodeValue;
  }

  lemma TableParts(utf8: Utf8, t: FieldTable, rest: Octets)
    requires EncodeValue(Table(t)).Written?
    ensures EncodeTable(t).Written?
    ensures TakeTable(utf8, EncodeTable(t).bytes + rest) == Ok(t, rest) ==>
              TakeValue(utf8, EncodeValue(Table(t)).bytes + rest) == Ok(Table(t), rest)
  {
    hide TakeTable, EncodeTable;
    TakeTagged(utf8, Table(t), rest);
    hide TakeValue, EncodeValue;
  }

  lemma {:induction false} ValueRoundTrip(utf8: Utf8, v: FieldValue, rest: Octets)
    requires ValueOk(utf8, v) && EncodeValue(v).Written? && LengthFits(v)
    ensures TakeValue(utf8, EncodeValue(v).bytes + rest) == Ok(v, rest)
    decreases v, 1
  {
    hide TakeValue, EncodeValue, TakePayload, EncodePayload, TakeTable, EncodeTable, TableOk;
    match v {
      case ShortInt(n) => ShortIntRoundTrip(utf8, n, rest);
      case LongInt(n) => LongIntRoundTrip(utf8, n, rest);
      case LongLongInt(n) => LongLongIntRoundTrip(utf8, n, rest);
      case ShortUint(n) => ShortUintRoundTrip(utf8, n, rest);
      case LongUint(n) => LongUintRoundTrip(utf8, n, rest);
      case LongLongUint(n) => LongLongUintRoundTrip(utf8, n, rest);
      case Float(n) => FloatRoundTrip(utf8, n, rest);
      case Double(n) => DoubleRoundTrip(utf8, n, rest);
      case Timestamp(n) => TimestampRoundTrip(utf8, n, rest);
      case ShortString(x) => ShortStringRoundTrip(utf8, x, rest);
      case LongString(x) => LongStringRoundTrip(utf8, x, rest);
      case Table(fields) =>
        TableParts(utf8, fields, rest);
        TableRoundTrip(utf8, fields, rest);
      case _ => SmallRoundTrip(utf8, v, rest);
    }
  }

  lemma {:induction false} TableRoundTrip(utf8: Utf8, t: FieldTable, rest: Octets)
    requires TableOk(utf8, t) && EncodeTable(t).Written? && |EncodeFields(t).bytes| < TWO_32
    ensures TakeTable(utf8, EncodeTable(t).bytes + rest) == Ok(t, rest)
    decreases t, 1
  {
    var body := EncodeFields(t).bytes;
    TakeBlob32Append(body, rest);
    assert [] + t == t;
    FieldsRoundTrip(utf8, [], t);
    hide Blob32, TakeBlob32, TakeFields;
  }

  lemma {:induction false} FieldsRoundTrip(utf8: Utf8, before: FieldTable, t: FieldTable)
    requires NamesAscend(before + t) && FieldsOk(utf8, t)
    requires EncodeFields(t).Written? && |EncodeFields(t).bytes| < TWO_32
    ensures TakeFields(utf8, EncodeFields(t).bytes, before) == Ok(before + t, [])
    decreases t, 0
  {
    if t == [] {
      assert before + t == before;
    } else {
      FieldsParts(utf8, t);
      LastNameAscends(before, t);
      var name, value := ShortStr(t[0].name).bytes, EncodeValue(t[0].value).bytes;
      var more := EncodeFields(t[1..]).bytes;
      hide *;
      TakeShortStrAppend(utf8, t[0].name, value + more);
      ValueRoundTrip(utf8, t[0].value, more);
      InsertLast(before, t[0]);
      TakeFieldsStep(utf8, EncodeFields(t).bytes, before, t[0], value + more, more);
      FieldsRoundTrip(utf8, before + [t[0]], t[1..]);
    }
  }

  lemma FieldsParts(utf8: Utf8, t: FieldTable)
    requires t != [] && FieldsOk(utf8, t)
    requires EncodeFields(t).Written? && |EncodeFields(t).bytes| < TWO_32
    ensures |t[0].name| <= 255 && utf8(t[0].name) && ShortStr(t[0].name).Written?
    ensures ValueOk(utf8, t[0].value) && EncodeValue(t[0].value).Written? && LengthFits(t[0].value)
    ensures FieldsOk(utf8, t[1..])
    ensures EncodeFields(t[1..]).Written? && |EncodeFields(t[1..]).bytes| < TWO_32
    ensures EncodeFields(t).bytes
         == ShortStr(t[0].name).bytes + (EncodeValue(t[0].value).bytes + EncodeFields(t[1..]).bytes)
  {
    hide EncodeValue, LengthFits;
    ShortValuesFit(t[0].value);
  }

  lemma TakeFieldsStep(
    utf8: Utf8, data: Octets, before: FieldTable, f: Field, afterName: Octets, more: Octets)
    requires TakeShortStr(utf8, data) == Ok(f.name, afterName)
    requires TakeValue(utf8, afterName) == Ok(f.value, more)
    ensures TakeFields(utf8, data, before) == TakeFields(utf8, more, Insert(before, f))
  {
    hide TakeValue, Insert;
    assert f == Field(f.name, f.value);
  }

  lemma LastNameAscends(before: FieldTable, t: FieldTable)
    requires NamesAscend(before + t) && t != []
    ensures forall g <- before :: Less(g.name, t[0].name)
    ensures before + t == (before + [t[0]]) + t[1..]
  {
    hide Less;
    forall g | g in before ensures Less(g.name, t[0].name) {
      var i :| 0 <= i < |before| && before[i] == g;
      assert (before + t)[i] == g && (before + t)[|before|] == t[0];
    }
  }

  /**
   * An encoded table, nested to any depth and followed by any bytes, decodes to itself and
   * leaves those bytes, exactly when its data fits the 32-bit length. The lengths of nested
   * tables and long strings then fit as well.
   */
  lemma TableRoundTripIff(utf8: Utf8, t: FieldTable, rest: Octets)
    requires TableOk(utf8, t) && EncodeTable(t).Written?
    ensures TakeTable(utf8, EncodeTable(t).bytes + rest) == Ok(t, rest)
       <==> |EncodeFields(t).bytes| < TWO_32
  {
    var body := EncodeFields(t).bytes;
    if |body| < TWO_32 {
      TableRoundTrip(utf8, t, rest);
    } else {
      CutLength(body, rest);
    }
  }

  /** A length that does not fit is cut, so bytes of the data are left over. */
  lemma CutLength(body: Octets, rest: Octets)
    requires |body| >= TWO_32
    ensures var r := TakeBlob32(Blob32(body) + rest); r.Ok? && |r.rest| >= |rest| + TWO_32
  {
    var n: int := |body| % TWO_32;
    assert Blob32(body) + rest == BE32(n) + (body + rest);
    TakeU32Append(n, body + rest);
    hide BE32, TakeU32;
    assert n + TWO_32 <= |body|;
  }

  /** A table whose one field holds that many zero octets. */
  function ZeroTable(n: nat): FieldTable {
    [Field([], LongString(seq(n, _ => 0)))]
  }

  lemma ZeroTableBytes(utf8: Utf8, n: nat)
    requires utf8([])
    ensures TableOk(utf8, ZeroTable(n)) && EncodeFields(ZeroTable(n)).Written?
    ensures EncodeFields(ZeroTable(n)).bytes == [0, 'S' as int] + BE32(n % TWO_32) + seq(n, _ => 0)
  {
    var f := ZeroTable(n)[0];
    hide BE32;
    assert EncodePayload(f.value) == Written(Blob32(seq(n, _ => 0)));
    assert EncodeValue(f.value) == Written(['S' as int] + Blob32(seq(n, _ => 0)));
    assert ZeroTable(n)[1..] == [] && EncodeFields([]) == Written([]);
    assert ValueOk(utf8, f.value) && FieldsOk(utf8, []);
    assert FieldsOk(utf8, ZeroTable(n));
  }

  /** A length that is 2^32 too small leaves that many octets behind. */
  lemma LeavesBehind(small: Octets, zeros: Octets, rest: Octets)
    requires |small| < TWO_32 == |zeros|
    ensures TakeBlob32(Blob32(small + zeros) + rest) == Ok(small, zeros + rest)
  {
    assert |small + zeros| % TWO_32 == |small| % TWO_32;
    hide BE32;
    assert Blob32(small + zeros) + rest == Blob32(small) + (zeros + rest);
    TakeBlob32Append(small, zeros + rest);
    hide *;
  }

  /** A string of 2^32 octets is read back empty, and its octets are left behind the table. */
  lemma HugeTableIsLost(utf8: Utf8, rest: Octets)
    requires utf8([])
    ensures TableOk(utf8, ZeroTable(TWO_32)) && EncodeTable(ZeroTable(TWO_32)).Written?
    ensures TakeTable(utf8, EncodeTable(ZeroTable(TWO_32)).bytes + rest)
         == Ok(ZeroTable(0), seq(TWO_32, _ => 0) + rest)
  {
    var zeros: Octets := seq(TWO_32, _ => 0);
    ZeroTableBytes(utf8, TWO_32);
    ZeroTableBytes(utf8, 0);
    var body, small := EncodeFields(ZeroTable(TWO_32)).bytes, EncodeFields(ZeroTable(0)).bytes;
    hide EncodeFields, TakeFields, ZeroTable, BE32, FieldsOk;
    assert [] + ZeroTable(0) == ZeroTable(0);
    FieldsRoundTrip(utf8, [], ZeroTable(0));
    hide Blob32, TakeBlob32, TableOk;
    assert |small| == 6 && body == small + zeros;
    LeavesBehind(small, zeros, rest);
  }

  // The readers advance a cursor.

  method ReadShortStr(r: ByteReader, utf8: Utf8) returns (o: Outcome<Octets>)
    requires r.Valid()
    modifies r
    ensures r.Valid() && o == OutcomeOf(TakeShortStr(utf8, old(r.rest)))
    ensures o.Success? ==> r.rest == TakeShortStr(utf8, old(r.rest)).rest
  {
    var len :- r.ReadU8();
    var bytes :- r.ReadSlice(len);
    o := if utf8(bytes) then Success(bytes) else Failure(InvalidUtf8);
  }

  method ReadFieldTable(r: ByteReader, utf8: Utf8) returns (o: Outcome<FieldTable>)
    requires r.Valid()
    modifies r
    ensures r.Valid() && o == OutcomeOf(TakeTable(utf8, old(r.rest)))
    ensures o.Success? ==> r.rest == TakeTable(utf8, old(r.rest)).rest
    decreases |r.rest|, 1
  {
    var data :- r.ReadBytesU32();
    assert TakeBlob32(old(r.rest)) == Ok(data, r.rest);
    hide TakeBlob32;
    var cursor := new ByteReader(data);
    var table := [];
    hide TakeField, Insert, TakeU32, FromBE32;
    while cursor.offset < |cursor.data|
      invariant cursor.Valid() && fresh(cursor)
      invariant r.Valid() && r.rest == TakeBlob32(old(r.rest)).rest
      invariant |cursor.rest| <= |data| < |old(r.rest)|
      invariant TakeFields(utf8, cursor.rest, table) == TakeFields(utf8, data, [])
      decreases |cursor.rest|
    {
      var field :- ReadField(cursor, utf8);
      table := Insert(table, field);
    }
    o := Success(table);
  }

  method ReadField(r: ByteReader, utf8: Utf8) returns (o: Outcome<Field>)
    requires r.Valid()
    modifies r
    ensures r.Valid() && o == OutcomeOf(TakeField(utf8, old(r.rest)))
    ensures o.Success? ==> r.rest == TakeField(utf8, old(r.rest)).rest
    decreases |r.rest|, 1
  {
    hide TakeShortStr, TakeValue;
    var name :- ReadShortStr(r, utf8);
    var value :- ReadFieldValue(r, utf8);
    o := Success(Field(name, value));
  }

  method ReadFieldValue(r: ByteReader, utf8: Utf8) returns (o: Outcome<FieldValue>)
    requires r.Valid()
    modifies r
    ensures r.Valid() && o == OutcomeOf(TakeValue(utf8, old(r.rest)))
    ensures o.Success? ==> r.rest == TakeValue(utf8, old(r.rest)).rest
    decreases |r.rest|, 0
  {
    var tag :- r.ReadU8();
    assert TakeValue(utf8, old(r.rest)) == TakePayload(utf8, tag, r.rest);
    hide TakeValue, TakeTable, TakeShortStr, TakeBlob32, TakeU8, TakeU16, TakeU32, TakeU64, Signed;
    match tag as char {
      case 't' => var n :- r.ReadU8(); o := Success(Boolean(n != 0));
      case 'b' => var n :- r.ReadU8(); o := Success(ShortShortInt(Signed(n, TWO_8)));
      case 'B' => var n :- r.ReadU8(); o := Success(ShortShortUint(n));
      case 'U' => var n :- r.ReadU16(); o := Success(ShortInt(Signed(n, TWO_16)));
      case 'u' => var n :- r.ReadU16(); o := Success(ShortUint(n));
      case 'I' => var n :- r.ReadU32(); o := Success(LongInt(Signed(n, TWO_32)));
      case 'i' => var n :- r.ReadU32(); o := Success(LongUint(n));
      case 'L' => var n :- r.ReadU64(); o := Success(LongLongInt(Signed(n, TWO_64)));
      case 'l' => var n :- r.ReadU64(); o := Success(LongLongUint(n));
      case 'f' => var n :- r.ReadU32(); o := Success(Float(n));
      case 'd' => var n :- r.ReadU64(); o := Success(Double(n));
      case 's' => var x :- ReadShortStr(r, utf8); o := Success(ShortString(x));
      case 'S' => var x :- r.ReadBytesU32(); o := Success(LongString(x));
      case 'T' => var n :- r.ReadU64(); o := Success(Timestamp(n));
      case 'F' => var x :- ReadFieldTable(r, utf8); o := Success(Table(x));
      case 'V' => o := Success(Void);
      case _ => o := Failure(InvalidTag(tag));
    }
  }

  // The writers append to a buffer.

  class Buffer {
    var bytes: Octets

    constructor ()
      ensures bytes == []
    {
      bytes := [];
    }

    method Put(data: Octets)
      modifies this
      ensures bytes == old(bytes) + data
    {
      bytes := bytes + data;
    }
  }

  method WriteShortStr(w: Buffer, s: Octets) returns (ok: bool)
    modifies w
    ensures ok <==> ShortStr(s).Written?
    ensures w.bytes == old(w.bytes) + if ok then ShortStr(s).bytes else []
  {
    if |s| > 255 {
      assert w.bytes + [] == w.bytes;
      return false;
    }
    w.Put([|s|]);
    w.Put(s);
    assert w.bytes == old(w.bytes) + ([|s|] + s);
    ok := true;
  }

  method WriteLongStr(w: Buffer, data: Octets)
    modifies w
    ensures w.bytes == old(w.bytes) + Blob32(data)
  {
    w.Put(BE32(|data| % TWO_32));
    w.Put(data);
  }

  method WriteFieldTable(w: Buffer, t: FieldTable) returns (ok: bool)
    modifies w
    ensures ok <==> EncodeTable(t).Written?
    ensures w.bytes == old(w.bytes) + if ok then EncodeTable(t).bytes else []
    decreases t, 1
  {
    hide EncodeValue, ShortStr, EncodeFields, EncodeTable, Behind, Blob32;
    var buf := new Buffer();
    var i := 0;
    NothingWritten(t);
    while i < |t|
      invariant 0 <= i <= |t| && fresh(buf) && w.bytes == old(w.bytes)
      invariant EncodeFields(t) == Behind(buf.bytes, EncodeFields(t[i..]))
    {
      FieldsStep(t, i, buf.bytes);
      TooLongAnywhere(t);
      var named := WriteShortStr(buf, t[i].name);
      if !named {
        return false;
      }
      var valued := WriteFieldValue(buf, t[i].value);
      if !valued {
        return false;
      }
      i := i + 1;
    }
    NoFieldsLeft(t[i..]);
    AllFieldsWritten(t, buf.bytes);
    WriteLongStr(w, buf.bytes);
    ok := true;
  }

  lemma NothingWritten(t: FieldTable)
    ensures EncodeFields(t) == Behind([], EncodeFields(t[0..]))
  {
    assert t[0..] == t;
    hide EncodeFields;
    if EncodeFields(t).Written? { assert [] + EncodeFields(t).bytes == EncodeFields(t).bytes; }
  }

  lemma TooLongAnywhere(t: FieldTable)
    ensures EncodeFields(t).TooLong? ==> EncodeTable(t).TooLong?
  {
    hide EncodeFields;
  }

  lemma AllFieldsWritten(t: FieldTable, data: Octets)
    requires EncodeFields(t) == Behind(data, Written([]))
    ensures EncodeTable(t) == Written(Blob32(data))
  {
    hide EncodeFields, Blob32;
    assert data + [] == data;
  }

  lemma NoFieldsLeft(rest: FieldTable)
    requires rest == []
    ensures EncodeFields(rest) == Written([])
  {
  }

  /** What is written so far, in front of what is still to be written. */
  function Behind(before: Octets, more: Written): Written {
    if more.TooLong? then TooLong else Written(before + more.bytes)
  }

  lemma FieldsStep(t: FieldTable, i: nat, before: Octets)
    requires i < |t|
    ensures var name, value := ShortStr(t[i].name), EncodeValue(t[i].value);
      Behind(before, EncodeFields(t[i..])) ==
        if name.Written? && value.Written?
        then Behind(before + name.bytes + value.bytes, EncodeFields(t[i + 1..])) else TooLong
  {
    hide EncodeValue, ShortStr;
    assert t[i..][1..] == t[i + 1..] && t[i..][0] == t[i];
  }

  /** A value that is refused leaves its tag behind. */
  method WriteFieldValue(w: Buffer, v: FieldValue) returns (ok: bool)
    modifies w
    ensures ok <==> EncodeValue(v).Written?
    ensures w.bytes == old(w.bytes) + if ok then EncodeValue(v).bytes else [Tag(v)]
    decreases v, 1
  {
    hide EncodePayload, Tag, EncodeValue;
    w.Put([Tag(v)]);
    ok := WritePayload(w, v);
    TagThenPayload(old(w.bytes), v);
  }

  lemma TagThenPayload(before: Octets, v: FieldValue)
    ensures EncodeValue(v).Written? <==> EncodePayload(v).Written?
    ensures EncodeValue(v).Written? ==>
              before + [Tag(v)] + EncodePayload(v).bytes == before + EncodeValue(v).bytes
  {
    hide EncodePayload, Tag;
  }

  method WritePayload(w: Buffer, v: FieldValue) returns (ok: bool)
    modifies w
    ensures ok <==> EncodePayload(v).Written?
    ensures w.bytes == old(w.bytes) + if ok then EncodePayload(v).bytes else []
    decreases v, 0
  {
    ok := true;
    hide BE16, BE32, BE64, Blob32, ShortStr, EncodeTable;
    match v {
      case Boolean(b) => w.Put([if b then 1 else 0]);
      case ShortShortInt(n) => w.Put([Unsigned(n, TWO_8)]);
      case ShortShortUint(n) => w.Put([n]);
      case ShortInt(n) => w.Put(BE16(Unsigned(n, TWO_16)));
      case ShortUint(n) => w.Put(BE16(n));
      case LongInt(n) => w.Put(BE32(Unsigned(n, TWO_32)));
      case LongUint(n) => w.Put(BE32(n));
      case LongLongInt(n) => w.Put(BE64(Unsigned(n, TWO_64)));
      case LongLongUint(n) => w.Put(BE64(n));
      case Float(bits) => w.Put(BE32(bits));
      case Double(bits) => w.Put(BE64(bits));
      case ShortString(s) => ok := WriteShortStr(w, s);
      case LongString(data) => WriteLongStr(w, data);
      case Timestamp(n) => w.Put(BE64(n));
      case Table(fields) => ok := WriteFieldTable(w, fields);
      case Void =>
    }
  }
}
