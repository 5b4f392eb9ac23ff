// Messages as queues hold them: materialised, or as a reference into a log segment.
module Messages {
  import opened Bytes

  datatype Message = Message(
    id: u64, headers: Octets, body: Octets, priority: byte, expiration: Option<int>,
    redelivered: bool, deliveryCount: u32, exchange: Octets, routingKey: Octets)

  function NewRouted(id: u64, headers: Octets, body: Octets, exchange: Octets, routingKey: Octets)
    : Message
  {
    Message(id, headers, body, 0, None, false, 0, exchange, routingKey)
  }

  datatype MessageRef = MessageRef(
    id: u64, segmentId: u64, offset: u64, length: u32, priority: byte, expiration: Option<int>,
    redelivered: bool, deliveryCount: u32, exchange: Octets, routingKey: Octets)

  datatype QueueMessage = Ref(ref: MessageRef) | Full(message: Message) {
    function Id(): u64 {
      match this case Ref(r) => r.id case Full(m) => m.id
    }

    function Priority(): byte {
      match this case Ref(r) => r.priority case Full(m) => m.priority
    }
  }

  /** Reading the payload a reference points to: headers and body, or a read failure. */
  type PayloadReader = MessageRef -> Option<(Octets, Octets)>

  /** The message itself; a reference keeps its own metadata and fetches headers and body. */
  function Resolve(read: PayloadReader, qm: QueueMessage): (r: Option<Message>)
    ensures r.Some? ==> r.value.id == qm.Id() && r.value.priority == qm.Priority()
  {
    match qm
    case Full(m) => Some(m)
    case Ref(r) =>
      match read(r)
      case None => None
      case Some((headers, body)) =>
        Some(Message(r.id, headers, body, r.priority, r.expiration, r.redelivered,
                     r.deliveryCount, r.exchange, r.routingKey))
  }
}
