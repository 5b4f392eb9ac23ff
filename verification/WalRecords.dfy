// The payload of each kind of log entry: the writer that builds it field by field, the
// value it builds, and the parsers that read it back.
module WalRecords {
  import opened Bytes

  // Records.

  datatype Record =
    | DeclareQueueRecord(name: Octets, durable: bool)
    | EnqueueRecord(queue: Octets, msgId: u64, exchange: Octets, routingKey: Octets,
                    headers: Octets, body: Octets)
    | AckRecord(ackId: u64)
    | DeclareExchangeRecord(exName: Octets, kind: byte, exDurable: bool)
    | BindRecord(bindExchange: Octets, bindQueue: Octets, bindKey: Octets)
    | SchemaRecord(schemaId: u64, schemaQueue: Octets, rawProto: Octets,
                   descriptorSet: Octets, messageName: Octets)

  function Flag(b: bool): byte {
    if b then 1 else 0
  }

  function Encode(r: Record): Octets {
    match r
    case DeclareQueueRecord(name, durable) =>
      Str16(name) + [Flag(durable)]
    case EnqueueRecord(queue, msgId, exchange, routingKey, headers, body) =>
      Str16(queue) + (BE64(msgId) + (Str16(exchange) + (Str16(routingKey)
                                                        + (Blob32(headers) + Blob32(body)))))
    case AckRecord(msgId) =>
      BE64(msgId)
    case DeclareExchangeRecord(name, kind, durable) =>
      Str16(name) + ([kind] + [Flag(durable)])
    case BindRecord(exchange, queue, routingKey) =>
      Str16(exchange) + (Str16(queue) + Str16(routingKey))
    case SchemaRecord(schemaId, queue, raw, descriptors, message) =>
      BE64(schemaId) + (Str16(queue) + (Blob32(raw) + (Blob32(descriptors) + Str16(message))))
  }

  /** Every field fits the width of its length prefix. */
  predicate Fits(r: Record) {
    match r
    case DeclareQueueRecord(name, _) => |name| < TWO_16
    case EnqueueRecord(queue, _, exchange, routingKey, headers, body) =>
      && |queue| < TWO_16 && |exchange| < TWO_16 && |routingKey| < TWO_16
      && |headers| < TWO_32 && |body| < TWO_32
    case AckRecord(_) => true
    case DeclareExchangeRecord(name, _, _) => |name| < TWO_16
    case BindRecord(exchange, queue, routingKey) =>
      |exchange| < TWO_16 && |queue| < TWO_16 && |routingKey| < TWO_16
    case SchemaRecord(_, queue, raw, descriptors, message) =>
      && |queue| < TWO_16 && |raw| < TWO_32 && |descriptors| < TWO_32 && |message| < TWO_16
  }

  /** Builds a payload field by field. */
  class WalWriter {
    var buf: Octets

    constructor ()
      ensures buf == []
    {
      buf := [];
    }

    method WriteStrU16(s: Octets)
      modifies this
      ensures buf == old(buf) + Str16(s)
    {
      buf := buf + BE16(|s| % TWO_16);
      buf := buf + s;
    }

    method WriteBytesU32(data: Octets)
      modifies this
      ensures buf == old(buf) + Blob32(data)
    {
      buf := buf + BE32(|data| % TWO_32);
      buf := buf + data;
    }

    method WriteU8(v: byte)
      modifies this
      ensures buf == old(buf) + [v]
    {
      buf := buf + [v];
    }

    method WriteU64(v: u64)
      modifies this
      ensures buf == old(buf) + BE64(v)
    {
      buf := buf + BE64(v);
    }
  }
}
