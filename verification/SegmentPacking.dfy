// How entries are packed into segment files, and what a locator read finds there.
module SegmentPacking {
  import opened Bytes
  import opened WalFormat
  import opened WalRecords
  import opened Segments
  import Messages

  /**
   * One append: the entry opens the next segment exactly when it would take the counted size of
   * the active one over the limit; otherwise it goes behind what is there. No other file changes.
   */
  lemma AppendOutcome(crc: Checksum, limit: nat, d: Disk, e: Entry)
    requires d.Valid()
    ensures var (r, loc) := AppendTo(crc, limit, d, e);
      var n := 9 + |e.data|;
      var rotates := d.size + n > limit;
      && r.active == (if rotates then d.active + 1 else d.active)
      && r.files.Keys == d.files.Keys + {r.active}
      && r.files[r.active] == (if rotates then [] else d.files[d.active]) + Frame(crc, e)
      && (forall id <- d.files :: id != r.active ==> r.files[id] == d.files[id])
      && r.size == (if rotates then 0 else d.size) + n % 0x1_0000_0000
      && loc == Locator(r.active, if rotates then 0 else d.size, n % 0x1_0000_0000)
  {
    var frame := Frame(crc, e);
    assert |frame| == 9 + |e.data|;
    hide Frame;
    assert [] + frame == frame;
  }

  // Segments are left only when they are full.

  /** The file starts with a frame that would not have fitted into the file before. */
  ghost predicate Overflows(crc: Checksum, limit: nat, before: Octets, file: Octets) {
    exists e: Entry :: Frame(crc, e) <= file && |before| + |Frame(crc, e)| > limit
  }

  ghost predicate Packed(crc: Checksum, limit: nat, d: Disk) {
    forall id: int :: id in d.files && id + 1 in d.files ==> Overflows(crc, limit, d.files[id], d.files[id + 1])
  }

  lemma OverflowStays(crc: Checksum, limit: nat, before: Octets, file: Octets, longer: Octets)
    requires Overflows(crc, limit, before, file) && file <= longer
    ensures Overflows(crc, limit, before, longer)
  {
    hide Frame;
    var e: Entry :| Frame(crc, e) <= file && |before| + |Frame(crc, e)| > limit;
    assert Frame(crc, e) <= longer;
  }

  lemma NewSegmentOverflows(crc: Checksum, limit: nat, before: Octets, e: Entry)
    requires |before| + |Frame(crc, e)| > limit
    ensures Overflows(crc, limit, before, Frame(crc, e))
  {
    hide Frame;
  }

  lemma AppendKeepsPacked(crc: Checksum, limit: nat, d: Disk, e: Entry)
    requires d.Valid() && d.InSync() && Packed(crc, limit, d)
    ensures Packed(crc, limit, AppendTo(crc, limit, d, e).0)
  {
    hide Frame, Overflows;
    var r := AppendTo(crc, limit, d, e).0;
    forall id: int | id in r.files && id + 1 in r.files
      ensures Overflows(crc, limit, r.files[id], r.files[id + 1])
    {
      if id + 1 == r.active {
        if r.active == d.active {
          OverflowStays(crc, limit, d.files[id], d.files[id + 1], r.files[id + 1]);
        } else {
          NewSegmentOverflows(crc, limit, d.files[id], e);
        }
      }
    }
  }

  lemma AppendKeepsValid(crc: Checksum, limit: nat, d: Disk, e: Entry)
    requires d.Valid() && d.InSync() && FrameFits(e)
    ensures AppendTo(crc, limit, d, e).0.Valid() && AppendTo(crc, limit, d, e).0.InSync()
  {
    assert |Frame(crc, e)| == WAL_HEADER_SIZE + |e.data|;
    hide Frame;
  }

  /**
   * Whatever is appended, as long as frames fit 32 bits, a segment is followed by another one
   * only when the first frame of that one would have taken it over the limit.
   */
  lemma {:induction false} SegmentsAreFull(crc: Checksum, limit: nat, d: Disk, es: seq<Entry>)
    requires d.Valid() && d.InSync() && Packed(crc, limit, d) && AllFit(es)
    ensures Packed(crc, limit, AppendAll(crc, limit, d, es))
    decreases |es|
  {
    if es != [] {
      hide AppendTo, Packed, Frame;
      var next := AppendTo(crc, limit, d, es[0]).0;
      AppendKeepsPacked(crc, limit, d, es[0]);
      AppendKeepsValid(crc, limit, d, es[0]);
      SegmentsAreFull(crc, limit, next, es[1..]);
    }
  }

  lemma EmptyIsPacked(crc: Checksum, limit: nat)
    ensures EMPTY_DISK.Valid() && EMPTY_DISK.InSync() && Packed(crc, limit, EMPTY_DISK)
  {
  }

  // Locator reads.

  /** The entry in front of these bytes is an enqueued message with these headers and body. */
  ghost predicate StartsWithMessage(crc: Checksum, s: Octets, headers: Octets, body: Octets) {
    exists data: Octets :: Sized(Entry(Enqueue, data)) && Frame(crc, Entry(Enqueue, data)) <= s
      && HeadersAndBody(data).Ok? && HeadersAndBody(data).value == (headers, body)
  }

  /**
   * A read yields a message exactly when a whole, checked enqueue entry lies at the locator and
   * its fields can be read, and then it yields the headers and body of that entry.
   */
  lemma YieldsIff(crc: Checksum, s: Octets, headers: Octets, body: Octets)
    ensures ReadPayloadAt(crc, s) == Message(headers, body) <==> StartsWithMessage(crc, s, headers, body)
  {
    if ReadPayloadAt(crc, s) == Message(headers, body) {
      YieldsWhole(crc, s, headers, body);
    }
    if StartsWithMessage(crc, s, headers, body) {
      hide Sized, Frame, HeadersAndBody, ReadPayloadAt;
      var data: Octets :| Sized(Entry(Enqueue, data)) && Frame(crc, Entry(Enqueue, data)) <= s
        && HeadersAndBody(data).Ok? && HeadersAndBody(data).value == (headers, body);
      FrameYieldsPayload(crc, Entry(Enqueue, data), s);
    }
  }

  lemma YieldsWhole(crc: Checksum, s: Octets, headers: Octets, body: Octets)
    requires ReadPayloadAt(crc, s) == Message(headers, body)
    ensures StartsWithMessage(crc, s, headers, body)
  {
    hide HeadersAndBody, FromBE32, BE32;
    var total := FromBE32(s[..4]);
    var data := s[9..8 + total];
    assert [s[8]] + data == s[8..8 + total];
    assert [s[8]] + data == Payload(Entry(Enqueue, data));
    BE32OfFrom(s[..4]);
    BE32OfFrom(s[4..8]);
    assert Frame(crc, Entry(Enqueue, data)) == s[..4] + s[4..8] + s[8..8 + total];
    assert s[..8 + total] == s[..4] + s[4..8] + s[8..8 + total];
  }

  // Queued references.

  /** How a queue fetches what a reference points to. */
  function ReaderOf(crc: Checksum, d: Disk): Messages.PayloadReader {
    (ref: Messages.MessageRef) =>
      match ReadPayload(crc, d, Locator(ref.segmentId, ref.offset, ref.length))
      case Message(headers, body) => Some((headers, body))
      case Failed(_) => None
  }

  /**
   * A reference made with the locator of a logged message resolves, after any later appends, to a
   * message with the headers and body that were logged and everything else as the reference says;
   * a message that is held itself is that message.
   */
  lemma ReferenceResolves(
    crc: Checksum, limit: nat, d: Disk, r: Record, later: seq<Entry>, ref: Messages.MessageRef,
    held: Messages.Message)
    requires d.Valid() && r.EnqueueRecord? && Fits(r) && Sized(Entry(Enqueue, Encode(r)))
    requires d.InSync() || d.size + |Frame(crc, Entry(Enqueue, Encode(r)))| > limit
    requires var loc := AppendTo(crc, limit, d, Entry(Enqueue, Encode(r))).1;
      ref.segmentId == loc.segment && ref.offset == loc.offset && ref.length == loc.length
    ensures var d1 := AppendTo(crc, limit, d, Entry(Enqueue, Encode(r))).0;
      var read := ReaderOf(crc, AppendAll(crc, limit, d1, later));
      && Messages.Resolve(read, Messages.Ref(ref))
         == Some(Messages.Message(
              ref.id, r.headers, r.body, ref.priority, ref.expiration, ref.redelivered, ref.deliveryCount,
              ref.exchange, ref.routingKey))
      && Messages.Resolve(read, Messages.Full(held)) == Some(held)
  {
    hide AppendTo, AppendAll, ReadPayload, Encode, Fits, Frame;
    LocatorKeepsYielding(crc, limit, d, r, later);
  }
}
