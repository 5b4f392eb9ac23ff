// AMQP 0-9-1 frames (section 4.2.3) and content (section 4.2.6): a publish travels as a
// header frame and body frames, and the receiver puts it together again.
module Framing {
  import opened Bytes
  import opened Readers
  import opened FieldTables
  import opened Properties

  const FRAME_HEADER: byte := 2
  const FRAME_BODY: byte := 3
  const FRAME_END: byte := 0xCE

  datatype AmqpFrame = AmqpFrame(frameType: byte, channel: u16, payload: Octets)

  // Frames.

  function FrameBytes(f: AmqpFrame): Octets {
    [f.frameType] + (BE16(f.channel) + (BE32(|f.payload| % TWO_32) + (f.payload + [FRAME_END])))
  }

  datatype FrameError = FrameTooShort | IncompleteFrame | InvalidFrameEnd(end: byte)

  datatype Decoded = Framed(frame: AmqpFrame, consumed: nat) | Refused(error: FrameError)

  function DecodeFrame(data: Octets): (r: Decoded)
    ensures r.Framed? ==> 8 <= r.consumed <= |data|
  {
    if |data| < 8 then Refused(FrameTooShort)
    else
      var size := FromBE32(data[3..7]);
      if |data| < 7 + size + 1 then Refused(IncompleteFrame)
      else if data[7 + size] != FRAME_END then Refused(InvalidFrameEnd(data[7 + size]))
      else Framed(AmqpFrame(data[0], FromBE16(data[1..3]), data[7..7 + size]), 7 + size + 1)
  }

  lemma FrameParts(f: AmqpFrame, rest: Octets)
    ensures var data, n := FrameBytes(f) + rest, |f.payload|;
      && |data| == 8 + n + |rest| && data[0] == f.frameType
      && data[1..3] == BE16(f.channel) && data[3..7] == BE32(n % TWO_32)
      && data[7..7 + n] == f.payload && data[7 + n] == FRAME_END && data[8 + n..] == rest
  {
    hide BE16, BE32;
  }

  /** A frame followed by any bytes is read back exactly when its payload fits 32 bits. */
  lemma FrameRoundTripIff(f: AmqpFrame, rest: Octets)
    ensures DecodeFrame(FrameBytes(f) + rest) == Framed(f, |FrameBytes(f)|)
       <==> |f.payload| < TWO_32
  {
    FrameParts(f, rest);
    FrameParts(f, []);
    assert FrameBytes(f) + [] == FrameBytes(f);
    hide FrameBytes, BE16, BE32, FromBE16, FromBE32;
    var n: int := |f.payload|;
    assert n < TWO_32 <==> n % TWO_32 == n;
  }

  /** A payload of 2^32 octets counts as none: the octet after the header is not the frame end. */
  lemma HugeFrameIsRefused(channel: u16, rest: Octets)
    ensures DecodeFrame(FrameBytes(AmqpFrame(FRAME_BODY, channel, seq(TWO_32, _ => 0))) + rest)
         == Refused(InvalidFrameEnd(0))
  {
    var f := AmqpFrame(FRAME_BODY, channel, seq(TWO_32, _ => 0));
    FrameParts(f, rest);
    hide FrameBytes, BE16;
    assert (FrameBytes(f) + rest)[7] == f.payload[0];
  }

  /** The frames a reader finds, up to the first one it refuses. */
  function DecodeAll(data: Octets): seq<AmqpFrame>
    decreases |data|
  {
    var r := DecodeFrame(data);
    if r.Refused? then [] else [r.frame] + DecodeAll(data[r.consumed..])
  }

  function Wire(frames: seq<AmqpFrame>): Octets {
    if frames == [] then [] else FrameBytes(frames[0]) + Wire(frames[1..])
  }

  lemma WireStep(f: AmqpFrame, rest: Octets)
    requires |f.payload| < TWO_32
    ensures DecodeAll(FrameBytes(f) + rest) == [f] + DecodeAll(rest)
  {
    hide FrameBytes, DecodeFrame;
    FrameRoundTripIff(f, rest);
    assert (FrameBytes(f) + rest)[|FrameBytes(f)|..] == rest;
  }

  lemma {:induction false} DecodeAllOfWire(frames: seq<AmqpFrame>)
    requires forall f <- frames :: |f.payload| < TWO_32
    ensures DecodeAll(Wire(frames)) == frames
  {
    if frames != [] {
      hide FrameBytes, DecodeFrame, DecodeAll;
      WireStep(frames[0], Wire(frames[1..]));
      DecodeAllOfWire(frames[1..]);
      assert [frames[0]] + frames[1..] == frames;
    }
  }

  // Content.

  datatype ContentHeader = ContentHeader(classId: u16, bodySize: u64, properties: BasicProperties)

  function HeaderPayload(h: ContentHeader): Written {
    var props :- EncodeProperties(h.properties);
    Written(BE16(h.classId) + (BE16(0) + (BE64(h.bodySize) + props)))
  }

  function DecodeContentHeader(utf8: Utf8, payload: Octets): Outcome<ContentHeader> {
    if |payload| < 14 then Failure(UnexpectedEof)
    else
      match TakeProperties(utf8, payload[12..])
      case Ok(p, _) => Success(ContentHeader(FromBE16(payload[0..2]), FromBE64(payload[4..12]), p))
      case Err(e) => Failure(e)
  }

  lemma FourParts(a: Octets, b: Octets, c: Octets, d: Octets)
    requires |a| == 2 && |b| == 2 && |c| == 8
    ensures var p := a + (b + (c + d));
      |p| == 12 + |d| && p[0..2] == a && p[4..12] == c && p[12..] == d
  {
  }

  lemma HeaderParts(h: ContentHeader)
    requires HeaderPayload(h).Written?
    ensures EncodeProperties(h.properties).Written?
    ensures var p := HeaderPayload(h).bytes;
      && |p| >= 14 && p[0..2] == BE16(h.classId) && p[4..12] == BE64(h.bodySize)
      && p[12..] == EncodeProperties(h.properties).bytes
      && |p| == 12 + |EncodeProperties(h.properties).bytes|
  {
    assert |EncodeProperties(h.properties).bytes| >= 2 by { hide EncodeSlots, Flags, BE16; }
    hide BE16, BE64, EncodeProperties;
    FourParts(BE16(h.classId), BE16(0), BE64(h.bodySize), EncodeProperties(h.properties).bytes);
  }

  /** A header whose payload fits a frame is read back. */
  lemma HeaderRoundTrip(utf8: Utf8, h: ContentHeader)
    requires PropertiesOk(utf8, h.properties) && HeaderPayload(h).Written?
    requires |HeaderPayload(h).bytes| < TWO_32
    ensures DecodeContentHeader(utf8, HeaderPayload(h).bytes) == Success(h)
  {
    HeaderParts(h);
    SmallHeadersFit(h.properties);
    PropertiesRoundTrip(utf8, h.properties, []);
    hide HeaderPayload, TakeProperties, EncodeProperties, HeadersFit, PropertiesOk, FromBE16, FromBE64, BE16, BE64;
    assert EncodeProperties(h.properties).bytes + [] == EncodeProperties(h.properties).bytes;
  }

  /** A header table inside a payload that fits has data that fits. */
  lemma SmallHeadersFit(p: BasicProperties)
    requires EncodeProperties(p).Written? && |EncodeProperties(p).bytes| < TWO_32
    ensures HeadersFit(p)
  {
    EncodeStep(p, 0, []);
    EncodeStep(p, 1, []);
    EncodeStep(p, 2, []);
    hide Flags, BE16, BE32, EncodeSlots, EncodeFields;
  }

  /** The body in pieces of at most n bytes; only the last one can be shorter. */
  function Chunks(body: Octets, n: nat): (c: seq<Octets>)
    requires n > 0
    decreases |body|
  {
    if body == [] then []
    else if |body| <= n then [body]
    else [body[..n]] + Chunks(body[n..], n)
  }

  function Join(pieces: seq<Octets>): Octets {
    if pieces == [] then [] else pieces[0] + Join(pieces[1..])
  }

  lemma {:induction false} ChunksJoin(body: Octets, n: nat)
    requires n > 0
    ensures Join(Chunks(body, n)) == body
    ensures forall c <- Chunks(body, n) :: 0 < |c| <= n
    ensures body != [] ==> |Chunks(body, n)| > 0
    ensures forall i :: 0 <= i < |Chunks(body, n)| - 1 ==> |Chunks(body, n)[i]| == n
    decreases |body|
  {
    if |body| > n {
      ChunksJoin(body[n..], n);
      assert body == body[..n] + body[n..];
      var rest := Chunks(body[n..], n);
      assert forall i :: 0 < i < |rest| + 1 ==> ([body[..n]] + rest)[i] == rest[i - 1];
    } else if body != [] {
      assert Join([body]) == body + [];
    }
  }

  function BodyFrames(channel: u16, chunks: seq<Octets>): (frames: seq<AmqpFrame>)
    ensures |frames| == |chunks|
    ensures forall i :: 0 <= i < |frames| ==> frames[i] == AmqpFrame(FRAME_BODY, channel, chunks[i])
  {
    if chunks == [] then []
    else [AmqpFrame(FRAME_BODY, channel, chunks[0])] + BodyFrames(channel, chunks[1..])
  }

  /** How a body is cut: a frame adds eight bytes, and a smaller limit means no cutting. */
  function BodyChunks(body: Octets, frameMax: u32): seq<Octets> {
    if body == [] then [] else Chunks(body, if frameMax > 8 then frameMax - 8 else |body|)
  }

  lemma BodyChunksJoin(body: Octets, frameMax: u32)
    ensures var chunks := BodyChunks(body, frameMax);
      && Join(chunks) == body && (body == [] <==> chunks == [])
      && (forall i :: 0 <= i < |chunks| ==> chunks[i] != [])
      && (forall c <- chunks :: |c| <= if frameMax > 8 then frameMax - 8 else |body|)
  {
    if body != [] {
      ChunksJoin(body, if frameMax > 8 then frameMax - 8 else |body|);
      var chunks := BodyChunks(body, frameMax);
      assert forall i :: 0 <= i < |chunks| ==> chunks[i] in chunks;
    }
  }

  function Encoded(frames: seq<AmqpFrame>): seq<Octets> {
    if frames == [] then [] else [FrameBytes(frames[0])] + Encoded(frames[1..])
  }

  function SplitBodyFrames(channel: u16, body: Octets, frameMax: u32): seq<Octets> {
    Encoded(BodyFrames(channel, BodyChunks(body, frameMax)))
  }

  lemma {:induction false} EncodedIsWire(frames: seq<AmqpFrame>)
    ensures Join(Encoded(frames)) == Wire(frames)
    ensures |Encoded(frames)| == |frames|
    ensures forall i :: 0 <= i < |frames| ==> Encoded(frames)[i] == FrameBytes(frames[i])
  {
    hide FrameBytes;
    if frames != [] {
      EncodedIsWire(frames[1..]);
    }
  }

  /** Every body frame fits the negotiated limit, and all but the last one fill it. */
  lemma BodyFramesFit(channel: u16, body: Octets, frameMax: u32)
    requires frameMax > 8
    ensures var frames := SplitBodyFrames(channel, body, frameMax);
      && (forall f <- frames :: |f| <= frameMax)
      && forall i :: 0 <= i < |frames| - 1 ==> |frames[i]| == frameMax
  {
    var chunks := BodyChunks(body, frameMax);
    BodyChunksJoin(body, frameMax);
    if body != [] { ChunksJoin(body, frameMax - 8); }
    EncodedIsWire(BodyFrames(channel, chunks));
    hide Encoded, BodyFrames, Chunks;
    forall i | 0 <= i < |chunks|
      ensures var f := SplitBodyFrames(channel, body, frameMax)[i];
        |f| <= frameMax && (i < |chunks| - 1 ==> |f| == frameMax)
    {
      FrameParts(AmqpFrame(FRAME_BODY, channel, chunks[i]), []);
      assert chunks[i] in chunks;
    }
  }

  /** Under a limit of at most eight bytes a body is not cut. */
  lemma TinyLimitMeansOneFrame(channel: u16, body: Octets, frameMax: u32)
    requires frameMax <= 8 && body != []
    ensures SplitBodyFrames(channel, body, frameMax) == [FrameBytes(AmqpFrame(FRAME_BODY, channel, body))]
  {
    assert BodyChunks(body, frameMax) == [body];
    hide FrameBytes;
    assert Encoded([]) == [] && BodyFrames(channel, []) == [];
    assert BodyFrames(channel, [body]) == [AmqpFrame(FRAME_BODY, channel, body)];
  }

  // The receiver.

  datatype Publish = Publish(
    exchange: Octets, routingKey: Octets, mandatory: bool, properties: BasicProperties,
    body: Octets, channel: u16)

  datatype ContentState = ContentState(
    exchange: Octets, routingKey: Octets, mandatory: bool, properties: BasicProperties,
    bodySize: u64, bodyReceived: Octets, channel: u16)

  function Flushed(cs: ContentState): Publish {
    Publish(cs.exchange, cs.routingKey, cs.mandatory, cs.properties, cs.bodyReceived, cs.channel)
  }

  function OnHeader(utf8: Utf8, st: Option<ContentState>, payload: Octets)
    : (Option<ContentState>, seq<Publish>)
  {
    if st.None? then (None, [])
    else
      match DecodeContentHeader(utf8, payload)
      case Failure(_) => (None, [])
      case Success(h) =>
        var cs := st.value.(bodySize := h.bodySize, properties := h.properties);
        if h.bodySize == 0 then (None, [Flushed(cs)]) else (Some(cs), [])
  }

  function OnBody(st: Option<ContentState>, payload: Octets): (Option<ContentState>, seq<Publish>) {
    if st.None? then (None, [])
    else
      var cs := st.value.(bodyReceived := st.value.bodyReceived + payload);
      if |cs.bodyReceived| >= cs.bodySize then (None, [Flushed(cs)]) else (Some(cs), [])
  }

  /**
   * Header, body and heartbeat frames, on whatever channel. A basic.publish method frame
   * replaces the content under way; `Multiplexing` adds it.
   */
  function OnFrame(utf8: Utf8, st: Option<ContentState>, f: AmqpFrame)
    : (Option<ContentState>, seq<Publish>)
  {
    if f.frameType == FRAME_HEADER then OnHeader(utf8, st, f.payload)
    else if f.frameType == FRAME_BODY then OnBody(st, f.payload)
    else (st, [])
  }

  function Receive(utf8: Utf8, st: Option<ContentState>, frames: seq<AmqpFrame>)
    : (Option<ContentState>, seq<Publish>)
    decreases |frames|
  {
    if frames == [] then (st, [])
    else
      var (next, published) := OnFrame(utf8, st, frames[0]);
      var (last, more) := Receive(utf8, next, frames[1..]);
      (last, published + more)
  }

  /** What a basic.publish method leaves behind, waiting for content. */
  function Begun(exchange: Octets, routingKey: Octets, mandatory: bool, channel: u16): ContentState {
    ContentState(exchange, routingKey, mandatory, NO_PROPERTIES, 0, [], channel)
  }

  class ContentReceiver {
    const utf8: Utf8
    var contentState: Option<ContentState>
    /** The publishes handed to the broker, in order. */
    var published: seq<Publish>

    constructor (utf8: Utf8)
      ensures contentState == None && published == [] && this.utf8 == utf8
    {
      this.utf8, contentState, published := utf8, None, [];
    }

    method BeginPublish(exchange: Octets, routingKey: Octets, mandatory: bool, channel: u16)
      modifies this
      ensures contentState == Some(Begun(exchange, routingKey, mandatory, channel))
      ensures published == old(published)
    {
      contentState := Some(
        ContentState(exchange, routingKey, mandatory, NO_PROPERTIES, 0, [], channel));
    }

    method HandleContentHeaderFrame(payload: Octets)
      modifies this
      ensures var (st, out) := OnHeader(utf8, old(contentState), payload);
        contentState == st && published == old(published) + out
    {
      hide DecodeContentHeader;
      if contentState.None? {
        return;
      }
      var header := ParseContentHeader(utf8, payload);
      if header.Failure? {
        contentState := None;
        return;
      }
      contentState := Some(contentState.value.(
        bodySize := header.value.bodySize, properties := header.value.properties));
      if header.value.bodySize == 0 {
        FlushPublish();
      }
    }

    method HandleContentBodyFrame(payload: Octets)
      modifies this
      ensures var (st, out) := OnBody(old(contentState), payload);
        contentState == st && published == old(published) + out
    {
      if contentState.None? {
        return;
      }
      contentState := Some(contentState.value.(
        bodyReceived := contentState.value.bodyReceived + payload));
      if |contentState.value.bodyReceived| >= contentState.value.bodySize {
        FlushPublish();
      }
    }

    method FlushPublish()
      requires contentState.Some?
      modifies this
      ensures contentState == None
      ensures published == old(published) + [Flushed(old(contentState).value)]
    {
      var state := contentState.value;
      contentState := None;
      published := published + [Publish(
        state.exchange, state.routingKey, state.mandatory, state.properties,
        state.bodyReceived, state.channel)];
    }
  }

  method ParseContentHeader(utf8: Utf8, payload: Octets) returns (o: Outcome<ContentHeader>)
    ensures o == DecodeContentHeader(utf8, payload)
  {
    hide TakeProperties, FromBE16, FromBE64;
    if |payload| < 14 {
      return Failure(UnexpectedEof);
    }
    var classId := FromBE16(payload[0..2]);
    var bodySize := FromBE64(payload[4..12]);
    var cursor := new ByteReader(payload[12..]);
    var properties :- DecodeFrom(cursor, utf8);
    o := Success(ContentHeader(classId, bodySize, properties));
  }

  /**
   * The header frame, with its size filled in afterwards. `None` is the refusal of a text
   * that is too long, on which the broker panics.
   */
  method EncodeContentHeader(channel: u16, h: ContentHeader) returns (wire: Option<Octets>)
    ensures wire == if HeaderPayload(h).TooLong? then None
                    else Some(FrameBytes(AmqpFrame(FRAME_HEADER, channel, HeaderPayload(h).bytes)))
  {
    hide BE16, BE32, BE64, EncodeProperties;
    var buf := new Buffer();
    buf.Put([FRAME_HEADER] + BE16(channel) + BE32(0));
    buf.Put(BE16(h.classId));
    buf.Put(BE16(0));
    buf.Put(BE64(h.bodySize));
    ghost var front := buf.bytes;
    var ok := EncodeTo(h.properties, buf);
    if !ok {
      return None;
    }
    var payloadSize := |buf.bytes| - 7;
    Backpatch(channel, h, buf.bytes);
    var patched := buf.bytes[..3] + BE32(payloadSize % TWO_32) + buf.bytes[7..];
    wire := Some(patched + [FRAME_END]);
  }

  lemma Backpatch(channel: u16, h: ContentHeader, bytes: Octets)
    requires HeaderPayload(h).Written?
    requires bytes == [FRAME_HEADER] + BE16(channel) + BE32(0) + BE16(h.classId) + BE16(0)
      + BE64(h.bodySize) + EncodeProperties(h.properties).bytes
    ensures |bytes| - 7 == |HeaderPayload(h).bytes|
    ensures bytes[..3] + BE32(|HeaderPayload(h).bytes| % TWO_32) + bytes[7..] + [FRAME_END]
         == FrameBytes(AmqpFrame(FRAME_HEADER, channel, HeaderPayload(h).bytes))
  {
    hide BE16, BE32, BE64, EncodeProperties;
    var payload := HeaderPayload(h).bytes;
    assert bytes[..3] == [FRAME_HEADER] + BE16(channel);
    assert bytes[7..] == payload;
  }

  // End to end.

  lemma {:induction false} BodyArrives(
    utf8: Utf8, cs: ContentState, channel: u16, chunks: seq<Octets>)
    requires chunks != [] && forall i :: 0 <= i < |chunks| ==> chunks[i] != []
    requires cs.bodySize == |cs.bodyReceived| + |Join(chunks)|
    ensures Receive(utf8, Some(cs), BodyFrames(channel, chunks))
         == (None, [Flushed(cs.(bodyReceived := cs.bodyReceived + Join(chunks)))])
    decreases |chunks|
  {
    var frames, rest := BodyFrames(channel, chunks), chunks[1..];
    assert frames[1..] == BodyFrames(channel, rest);
    var next := cs.(bodyReceived := cs.bodyReceived + chunks[0]);
    assert cs.bodyReceived + Join(chunks) == next.bodyReceived + Join(rest);
    if rest == [] {
      assert next.bodyReceived + [] == next.bodyReceived;
      assert [Flushed(next)] + [] == [Flushed(next)];
    } else {
      assert rest[0] == chunks[1] && |Join(rest)| > 0;
      BodyArrives(utf8, next, channel, rest);
      var out := Receive(utf8, Some(next), BodyFrames(channel, rest)).1;
      assert [] + out == out;
    }
  }

  lemma JoinOneMore(chunks: seq<Octets>, i: nat)
    requires i < |chunks|
    ensures |Join(chunks[..i + 1])| == |chunks[0]| + |Join(chunks[1..][..i])|
  {
    assert chunks[..i + 1][1..] == chunks[1..][..i] && chunks[..i + 1][0] == chunks[0];
  }

  /**
   * Whatever pieces a body comes in, it is published by the first one that reaches the declared
   * size, with everything received so far, even what exceeds that size; before that it is held.
   */
  lemma {:induction false} PublishedWhenFull(utf8: Utf8, cs: ContentState, channel: u16, chunks: seq<Octets>)
    requires chunks != []
    requires forall i :: 0 < i < |chunks| ==> |cs.bodyReceived| + |Join(chunks[..i])| < cs.bodySize
    ensures var all := cs.bodyReceived + Join(chunks);
      Receive(utf8, Some(cs), BodyFrames(channel, chunks))
      == if |all| < cs.bodySize then (Some(cs.(bodyReceived := all)), [])
         else (None, [Publish(cs.exchange, cs.routingKey, cs.mandatory, cs.properties, all, cs.channel)])
    decreases |chunks|
  {
    var rest := chunks[1..];
    var next := cs.(bodyReceived := cs.bodyReceived + chunks[0]);
    assert BodyFrames(channel, chunks) == [AmqpFrame(FRAME_BODY, channel, chunks[0])] + BodyFrames(channel, rest);
    assert cs.bodyReceived + Join(chunks) == next.bodyReceived + Join(rest);
    ReceiveFirst(utf8, Some(cs), AmqpFrame(FRAME_BODY, channel, chunks[0]), BodyFrames(channel, rest));
    if rest == [] {
      assert next.bodyReceived + [] == next.bodyReceived;
      assert [Flushed(next)] + [] == [Flushed(next)];
      var none: seq<Publish> := [];
      assert none + none == none;
    } else {
      hide Receive, BodyFrames;
      PiecesLeft(cs, chunks);
      PublishedWhenFull(utf8, next, channel, rest);
      var out := Receive(utf8, Some(next), BodyFrames(channel, rest)).1;
      assert [] + out == out;
    }
  }

  /** Behind the first piece the others still fall short in the same way. */
  lemma PiecesLeft(cs: ContentState, chunks: seq<Octets>)
    requires |chunks| > 1
    requires forall i :: 0 < i < |chunks| ==> |cs.bodyReceived| + |Join(chunks[..i])| < cs.bodySize
    ensures |cs.bodyReceived + chunks[0]| < cs.bodySize
    ensures forall i :: 0 < i < |chunks| - 1 ==>
              |cs.bodyReceived + chunks[0]| + |Join(chunks[1..][..i])| < cs.bodySize
  {
    JoinOneMore(chunks, 0);
    assert |cs.bodyReceived| + |Join(chunks[..1])| < cs.bodySize;
    forall i | 0 < i < |chunks| - 1
      ensures |cs.bodyReceived + chunks[0]| + |Join(chunks[1..][..i])| < cs.bodySize
    {
      JoinOneMore(chunks, i);
      assert |cs.bodyReceived| + |Join(chunks[..i + 1])| < cs.bodySize;
    }
  }

  /** Without a publish under way, header, body and other frames have no effect. */
  lemma {:induction false} NothingUnderWay(utf8: Utf8, frames: seq<AmqpFrame>)
    ensures Receive(utf8, None, frames) == (None, [])
    decreases |frames|
  {
    if frames != [] {
      NothingUnderWay(utf8, frames[1..]);
      var none: seq<Publish> := [];
      assert none + none == none;
    }
  }

  /** A header that cannot be read abandons its publish: nothing that follows completes it. */
  lemma BadHeaderAbandons(utf8: Utf8, cs: ContentState, channel: u16, payload: Octets, frames: seq<AmqpFrame>)
    requires DecodeContentHeader(utf8, payload).Failure?
    ensures Receive(utf8, Some(cs), [AmqpFrame(FRAME_HEADER, channel, payload)] + frames) == (None, [])
  {
    hide DecodeContentHeader;
    var all := [AmqpFrame(FRAME_HEADER, channel, payload)] + frames;
    assert all[1..] == frames;
    NothingUnderWay(utf8, frames);
    var none: seq<Publish> := [];
    assert none + none == none;
  }

  /** Until the last body frame nothing is published. */
  lemma {:induction false} BodyIsHeld(
    utf8: Utf8, cs: ContentState, channel: u16, chunks: seq<Octets>, k: nat)
    requires k < |chunks| && forall i :: 0 <= i < |chunks| ==> chunks[i] != []
    requires cs.bodySize == |cs.bodyReceived| + |Join(chunks)|
    ensures Receive(utf8, Some(cs), BodyFrames(channel, chunks)[..k]).1 == []
    decreases k
  {
    if k > 0 {
      var frames, rest := BodyFrames(channel, chunks), chunks[1..];
      assert frames[1..] == BodyFrames(channel, rest);
      assert frames[..k][1..] == BodyFrames(channel, rest)[..k - 1];
      assert rest[0] == chunks[1] && |Join(rest)| > 0;
      BodyIsHeld(utf8, cs.(bodyReceived := cs.bodyReceived + chunks[0]), channel, rest, k - 1);
    }
  }

  /** The frames of one publish. */
  function ContentFrames(channel: u16, h: ContentHeader, body: Octets, frameMax: u32): seq<AmqpFrame>
    requires HeaderPayload(h).Written?
  {
    [AmqpFrame(FRAME_HEADER, channel, HeaderPayload(h).bytes)]
    + BodyFrames(channel, BodyChunks(body, frameMax))
  }

  /** What the sender writes for a publish is a stream of frames that decodes to itself. */
  lemma ContentIsFramed(channel: u16, h: ContentHeader, body: Octets, frameMax: u32)
    requires HeaderPayload(h).Written? && |HeaderPayload(h).bytes| < TWO_32
    requires frameMax > 8 || |body| < TWO_32
    ensures var header := FrameBytes(AmqpFrame(FRAME_HEADER, channel, HeaderPayload(h).bytes));
      DecodeAll(header + Join(SplitBodyFrames(channel, body, frameMax)))
      == ContentFrames(channel, h, body, frameMax)
  {
    var frames := ContentFrames(channel, h, body, frameMax);
    var bodyFrames := BodyFrames(channel, BodyChunks(body, frameMax));
    ContentPayloadsFit(channel, h, body, frameMax);
    EncodedIsWire(bodyFrames);
    hide FrameBytes, HeaderPayload, BodyFrames, BodyChunks, Encoded, DecodeAll;
    assert frames[1..] == bodyFrames;
    DecodeAllOfWire(frames);
  }

  lemma ContentPayloadsFit(channel: u16, h: ContentHeader, body: Octets, frameMax: u32)
    requires HeaderPayload(h).Written? && |HeaderPayload(h).bytes| < TWO_32
    requires frameMax > 8 || |body| < TWO_32
    ensures forall f <- ContentFrames(channel, h, body, frameMax) :: |f.payload| < TWO_32
  {
    var chunks, frames := BodyChunks(body, frameMax), ContentFrames(channel, h, body, frameMax);
    BodyChunksJoin(body, frameMax);
    hide HeaderPayload, BodyChunks;
    forall f | f in frames ensures |f.payload| < TWO_32 {
      var i :| 0 <= i < |frames| && frames[i] == f;
      if i > 0 { assert f.payload == chunks[i - 1] && chunks[i - 1] in chunks; }
    }
  }

  /**
   * Content travels end to end: for any body and any frame limit above eight bytes (below
   * that, for any body one frame can hold), decoding the header frame and the body frames and
   * feeding them to the receiver publishes exactly once, at the last frame (the header when
   * the body is empty), with the same body and properties, and leaves nothing under way.
   */
  lemma ContentArrivesOnce(
    utf8: Utf8, exchange: Octets, routingKey: Octets, mandatory: bool, channel: u16,
    h: ContentHeader, body: Octets, frameMax: u32)
    requires frameMax > 8 || |body| < TWO_32
    requires h.bodySize == |body| && PropertiesOk(utf8, h.properties)
    requires HeaderPayload(h).Written? && |HeaderPayload(h).bytes| < TWO_32
    ensures var begun := Begun(exchange, routingKey, mandatory, channel);
      var header := FrameBytes(AmqpFrame(FRAME_HEADER, channel, HeaderPayload(h).bytes));
      var frames := DecodeAll(header + Join(SplitBodyFrames(channel, body, frameMax)));
      && Receive(utf8, Some(begun), frames)
         == (None, [Publish(exchange, routingKey, mandatory, h.properties, body, channel)])
      && forall k: nat :: k < |frames| ==> Receive(utf8, Some(begun), frames[..k]).1 == []
  {
    var begun := Begun(exchange, routingKey, mandatory, channel);
    ContentIsFramed(channel, h, body, frameMax);
    HeaderRoundTrip(utf8, h);
    BodyChunksJoin(body, frameMax);
    var chunks := BodyChunks(body, frameMax);
    hide BodyChunks, HeaderPayload, DecodeContentHeader, DecodeAll, Receive, FrameBytes, Chunks, PropertiesOk;
    ContentIsReceived(utf8, begun, channel, h, chunks, HeaderPayload(h).bytes);
  }

  lemma ContentIsReceived(
    utf8: Utf8, begun: ContentState, channel: u16, h: ContentHeader, chunks: seq<Octets>,
    payload: Octets)
    requires begun.bodyReceived == [] && DecodeContentHeader(utf8, payload) == Success(h)
    requires h.bodySize == |Join(chunks)| && forall i :: 0 <= i < |chunks| ==> chunks[i] != []
    ensures var frames := [AmqpFrame(FRAME_HEADER, channel, payload)] + BodyFrames(channel, chunks);
      && Receive(utf8, Some(begun), frames) == (None,
           [Flushed(begun.(bodySize := h.bodySize, properties := h.properties,
                           bodyReceived := Join(chunks)))])
      && forall k: nat :: k < |frames| ==> Receive(utf8, Some(begun), frames[..k]).1 == []
  {
    hide *;
    AllIsReceived(utf8, begun, channel, h, chunks, payload);
    var frames := [AmqpFrame(FRAME_HEADER, channel, payload)] + BodyFrames(channel, chunks);
    forall k: nat | k < |frames| ensures Receive(utf8, Some(begun), frames[..k]).1 == [] {
      ContentIsHeld(utf8, begun, channel, h, chunks, payload, k);
    }
  }

  lemma ReceiveFirst(utf8: Utf8, st: Option<ContentState>, f: AmqpFrame, more: seq<AmqpFrame>)
    ensures var (next, published) := OnFrame(utf8, st, f);
      var (last, later) := Receive(utf8, next, more);
      Receive(utf8, st, [f] + more) == (last, published + later)
  {
    hide OnFrame;
    assert ([f] + more)[1..] == more;
  }

  lemma AllIsReceived(
    utf8: Utf8, begun: ContentState, channel: u16, h: ContentHeader, chunks: seq<Octets>, payload: Octets)
    requires begun.bodyReceived == [] && DecodeContentHeader(utf8, payload) == Success(h)
    requires h.bodySize == |Join(chunks)| && forall i :: 0 <= i < |chunks| ==> chunks[i] != []
    ensures Receive(utf8, Some(begun), [AmqpFrame(FRAME_HEADER, channel, payload)] + BodyFrames(channel, chunks))
         == (None, [Flushed(begun.(bodySize := h.bodySize, properties := h.properties,
                                   bodyReceived := Join(chunks)))])
  {
    ReceiveFirst(utf8, Some(begun), AmqpFrame(FRAME_HEADER, channel, payload), BodyFrames(channel, chunks));
    var cs := begun.(bodySize := h.bodySize, properties := h.properties);
    if chunks == [] {
      hide DecodeContentHeader, Flushed;
      assert [Flushed(cs)] + [] == [Flushed(cs)];
      assert cs == begun.(bodySize := h.bodySize, properties := h.properties, bodyReceived := []);
    } else {
      assert |chunks[0]| > 0 && |Join(chunks)| > 0;
      hide DecodeContentHeader, Flushed, BodyFrames, Receive, Join;
      assert [] + Join(chunks) == Join(chunks);
      BodyArrives(utf8, cs, channel, chunks);
      var out := Receive(utf8, Some(cs), BodyFrames(channel, chunks)).1;
      assert [] + out == out;
    }
  }

  lemma ContentIsHeld(
    utf8: Utf8, begun: ContentState, channel: u16, h: ContentHeader, chunks: seq<Octets>, payload: Octets, k: nat)
    requires begun.bodyReceived == [] && DecodeContentHeader(utf8, payload) == Success(h)
    requires h.bodySize == |Join(chunks)| && forall i :: 0 <= i < |chunks| ==> chunks[i] != []
    requires k < 1 + |BodyFrames(channel, chunks)|
    ensures Receive(utf8, Some(begun),
              ([AmqpFrame(FRAME_HEADER, channel, payload)] + BodyFrames(channel, chunks))[..k]).1 == []
  {
    var header, frames := AmqpFrame(FRAME_HEADER, channel, payload), BodyFrames(channel, chunks);
    if k > 0 {
      var cs := begun.(bodySize := h.bodySize, properties := h.properties);
      assert ([header] + frames)[..k] == [header] + frames[..k - 1];
      assert |chunks[0]| > 0 && |Join(chunks)| > 0;
      ReceiveFirst(utf8, Some(begun), header, frames[..k - 1]);
      hide DecodeContentHeader, BodyFrames, Receive, Join;
      BodyIsHeld(utf8, cs, channel, chunks, k - 1);
      var none: seq<Publish> := [];
      assert none + none == none;
    }
  }
}
