// The log as the broker sees it: appending one record, reading everything back, truncating.
module Wal {
  import opened Bytes
  import opened WalFormat
  import opened WalRecords
  import opened Segments
  import Recovery

  /** Builds the payload of a record, field by field. */
  method BuildPayload(r: Record) returns (data: Octets)
    ensures data == Encode(r)
  {
    hide Str16, Blob32, BE64;
    var w := new WalWriter();
    match r {
      case DeclareQueueRecord(name, durable) =>
        w.WriteStrU16(name);
        w.WriteU8(Flag(durable));
      case EnqueueRecord(_, _, _, _, _, _) =>
        WriteEnqueue(w, r);
      case AckRecord(msgId) =>
        w.WriteU64(msgId);
      case DeclareExchangeRecord(name, kind, durable) =>
        w.WriteStrU16(name);
        w.WriteU8(kind);
        w.WriteU8(Flag(durable));
      case BindRecord(exchange, queue, routingKey) =>
        w.WriteStrU16(exchange);
        w.WriteStrU16(queue);
        w.WriteStrU16(routingKey);
      case SchemaRecord(_, _, _, _, _) =>
        WriteSchema(w, r);
    }
    data := w.buf;
    assert data == [] + data;
    assert data == Encode(r);
  }

  method WriteEnqueue(w: WalWriter, r: Record)
    requires r.EnqueueRecord? && w.buf == []
    modifies w
    ensures w.buf == Encode(r)
  {
    w.WriteStrU16(r.queue);
    w.WriteU64(r.msgId);
    w.WriteStrU16(r.exchange);
    w.WriteStrU16(r.routingKey);
    w.WriteBytesU32(r.headers);
    w.WriteBytesU32(r.body);
    Regroup([Str16(r.queue), BE64(r.msgId), Str16(r.exchange), Str16(r.routingKey),
             Blob32(r.headers), Blob32(r.body)]);
  }

  method WriteSchema(w: WalWriter, r: Record)
    requires r.SchemaRecord? && w.buf == []
    modifies w
    ensures w.buf == Encode(r)
  {
    w.WriteU64(r.schemaId);
    w.WriteStrU16(r.schemaQueue);
    w.WriteBytesU32(r.rawProto);
    w.WriteBytesU32(r.descriptorSet);
    w.WriteStrU16(r.messageName);
    Regroup([BE64(r.schemaId), Str16(r.schemaQueue), Blob32(r.rawProto),
             Blob32(r.descriptorSet), Str16(r.messageName)]);
  }

  /** Fields written one after another are the fields concatenated, however they are grouped. */
  lemma Regroup(p: seq<Octets>)
    ensures |p| == 5 ==>
      [] + p[0] + p[1] + p[2] + p[3] + p[4] == p[0] + (p[1] + (p[2] + (p[3] + p[4])))
    ensures |p| == 6 ==>
      [] + p[0] + p[1] + p[2] + p[3] + p[4] + p[5]
      == p[0] + (p[1] + (p[2] + (p[3] + (p[4] + p[5]))))
  {
  }

  class Wal {
    const manager: SegmentCoordinator
    var entryCount: nat

    ghost predicate Valid()
      reads this, manager, manager.active
    {
      manager.Valid()
    }

    ghost function Repr(): set<object>
      reads this, manager
    {
      {this, manager, manager.active}
    }

    constructor (manager: SegmentCoordinator)
      requires manager.Valid()
      ensures Valid() && this.manager == manager
      ensures entryCount == |ReadAll(manager.crc, manager.View())|
    {
      this.manager := manager;
      var entries := manager.ReadAllEntries();
      entryCount := |entries|;
    }

    method Append(kind: EntryType, data: Octets) returns (loc: Locator)
      requires Valid()
      modifies Repr()
      ensures Valid() && fresh(Repr() - old(Repr())) && entryCount == old(entryCount) + 1
      ensures (manager.View(), loc) ==
        AppendTo(manager.crc, manager.maxSegmentSize, old(manager.View()), Entry(kind, data))
    {
      loc := manager.Append(kind, data);
      entryCount := entryCount + 1;
    }

    /** Logs one record and returns where it was written. */
    method Log(r: Record) returns (loc: Locator)
      requires Valid()
      modifies Repr()
      ensures Valid() && fresh(Repr() - old(Repr())) && entryCount == old(entryCount) + 1
      ensures (manager.View(), loc) == AppendTo(
        manager.crc, manager.maxSegmentSize, old(manager.View()), Recovery.EntryOf(r))
    {
      var data := BuildPayload(r);
      loc := Append(Recovery.TypeOf(r), data);
    }

    method ReadAllLogged() returns (entries: seq<Entry>)
      requires Valid()
      ensures entries == ReadAll(manager.crc, manager.View())
    {
      entries := manager.ReadAllEntries();
    }

    method Truncate()
      requires Valid()
      modifies Repr()
      ensures Valid() && fresh(Repr() - old(Repr()))
      ensures manager.View() == EMPTY_DISK && entryCount == 0
    {
      manager.Truncate();
      entryCount := 0;
    }
  }
}
