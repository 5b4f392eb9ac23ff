// Several channels over one connection. AMQP 0-9-1 lets their frames interleave, but the
// connection keeps one content under way for all of them.
module Multiplexing {
  import opened Bytes
  import opened Readers
  import opened Framing

  /** A basic.publish method, or a frame of another kind. */
  datatype Incoming =
    | Begin(exchange: Octets, routingKey: Octets, mandatory: bool, channel: u16)
    | Other(frame: AmqpFrame)

  function OnIncoming(utf8: Utf8, st: Option<ContentState>, x: Incoming)
    : (Option<ContentState>, seq<Publish>)
  {
    match x
    case Begin(exchange, key, mandatory, channel) => (Some(Begun(exchange, key, mandatory, channel)), [])
    case Other(f) => OnFrame(utf8, st, f)
  }

  function ReceiveAll(utf8: Utf8, st: Option<ContentState>, xs: seq<Incoming>)
    : (Option<ContentState>, seq<Publish>)
    decreases |xs|
  {
    if xs == [] then (st, [])
    else
      var (next, published) := OnIncoming(utf8, st, xs[0]);
      var (last, more) := ReceiveAll(utf8, next, xs[1..]);
      (last, published + more)
  }

  lemma {:induction false} ReceiveJoin(utf8: Utf8, st: Option<ContentState>, xs: seq<Incoming>, ys: seq<Incoming>)
    ensures var (mid, first) := ReceiveAll(utf8, st, xs);
      var (last, second) := ReceiveAll(utf8, mid, ys);
      ReceiveAll(utf8, st, xs + ys) == (last, first + second)
    decreases |xs|
  {
    hide OnIncoming;
    if xs == [] {
      assert xs + ys == ys;
      assert [] + ReceiveAll(utf8, st, ys).1 == ReceiveAll(utf8, st, ys).1;
    } else {
      assert (xs + ys)[1..] == xs[1..] + ys;
      var (next, out) := OnIncoming(utf8, st, xs[0]);
      ReceiveJoin(utf8, next, xs[1..], ys);
      var (mid, first) := ReceiveAll(utf8, next, xs[1..]);
      assert out + (first + ReceiveAll(utf8, mid, ys).1) == (out + first) + ReceiveAll(utf8, mid, ys).1;
    }
  }

  /** How many publishes were begun. */
  function Begins(xs: seq<Incoming>): nat {
    if xs == [] then 0 else (if xs[0].Begin? then 1 else 0) + Begins(xs[1..])
  }

  lemma {:induction false} BeginsJoin(xs: seq<Incoming>, ys: seq<Incoming>)
    ensures Begins(xs + ys) == Begins(xs) + Begins(ys)
  {
    if xs == [] {
      assert xs + ys == ys;
    } else {
      assert (xs + ys)[1..] == xs[1..] + ys;
      BeginsJoin(xs[1..], ys);
    }
  }

  /** Each publish that was begun reaches the broker at most once. */
  lemma {:induction false} AtMostOneEach(utf8: Utf8, st: Option<ContentState>, xs: seq<Incoming>)
    ensures |ReceiveAll(utf8, st, xs).1| <= (if st.Some? then 1 else 0) + Begins(xs)
    decreases |xs|
  {
    if xs != [] {
      OneStepOrNone(utf8, st, xs[0]);
      AtMostOneEach(utf8, OnIncoming(utf8, st, xs[0]).0, xs[1..]);
      hide OnIncoming;
    }
  }

  lemma OneStepOrNone(utf8: Utf8, st: Option<ContentState>, x: Incoming)
    ensures var (next, out) := OnIncoming(utf8, st, x);
      |out| + (if next.Some? then 1 else 0) <= (if st.Some? then 1 else 0) + (if x.Begin? then 1 else 0)
  {
    hide DecodeContentHeader;
  }

  // Messages cut into frames, and channels that send them.

  /** A message as a client sends it: the header's payload, and the body in pieces. */
  datatype Content = Content(
    exchange: Octets, routingKey: Octets, mandatory: bool, channel: u16, header: ContentHeader,
    payload: Octets, pieces: seq<Octets>)

  /** The payload holds the header, and the pieces are the body it announces. */
  predicate Complete(utf8: Utf8, m: Content) {
    && DecodeContentHeader(utf8, m.payload) == Success(m.header)
    && m.header.bodySize == |Join(m.pieces)|
    && forall i :: 0 <= i < |m.pieces| ==> m.pieces[i] != []
  }

  /** The message as it should reach the broker. */
  function Own(m: Content): Publish {
    Publish(m.exchange, m.routingKey, m.mandatory, m.header.properties, Join(m.pieces), m.channel)
  }

  function Wrapped(frames: seq<AmqpFrame>): (xs: seq<Incoming>)
    ensures |xs| == |frames| && forall i :: 0 <= i < |xs| ==> xs[i] == Other(frames[i])
  {
    if frames == [] then [] else [Other(frames[0])] + Wrapped(frames[1..])
  }

  function ContentOf(m: Content): seq<AmqpFrame> {
    [AmqpFrame(FRAME_HEADER, m.channel, m.payload)] + BodyFrames(m.channel, m.pieces)
  }

  function Opening(m: Content): Incoming {
    Begin(m.exchange, m.routingKey, m.mandatory, m.channel)
  }

  function FramesOf(m: Content): seq<Incoming> {
    [Opening(m)] + Wrapped(ContentOf(m))
  }

  function Stream(ms: seq<Content>): seq<Incoming> {
    if ms == [] then [] else FramesOf(ms[0]) + Stream(ms[1..])
  }

  /** What each channel sends. */
  function Streams(queues: seq<seq<Content>>): seq<seq<Incoming>> {
    seq(|queues|, c requires 0 <= c < |queues| => Stream(queues[c]))
  }

  /** A schedule names, frame by frame, the channel that sends next, until all are empty. */
  predicate Drains(streams: seq<seq<Incoming>>, sched: seq<nat>)
    decreases |sched|
  {
    if sched == [] then forall s <- streams :: s == []
    else
      var c := sched[0];
      && c < |streams| && streams[c] != []
      && Drains(streams[c := streams[c][1..]], sched[1..])
  }

  /** The frames in the order the connection receives them. */
  function Interleaved(streams: seq<seq<Incoming>>, sched: seq<nat>): seq<Incoming>
    requires Drains(streams, sched)
    decreases |sched|
  {
    if sched == [] then []
    else
      var c := sched[0];
      [streams[c][0]] + Interleaved(streams[c := streams[c][1..]], sched[1..])
  }

  predicate AllFrom(sched: seq<nat>, c: nat, n: nat) {
    n <= |sched| && forall i :: 0 <= i < n ==> sched[i] == c
  }

  /** No frame comes between a message's publish method and its last frame. */
  predicate Serial(queues: seq<seq<Content>>, sched: seq<nat>)
    decreases |sched|
  {
    sched == [] ||
    (var c := sched[0];
     && c < |queues| && queues[c] != []
     && AllFrom(sched, c, |FramesOf(queues[c][0])|)
     && Serial(queues[c := queues[c][1..]], sched[|FramesOf(queues[c][0])|..]))
  }

  /** The messages in the order of a serial schedule. */
  function InOrder(queues: seq<seq<Content>>, sched: seq<nat>): seq<Publish>
    requires Serial(queues, sched)
    decreases |sched|
  {
    if sched == [] then []
    else
      var c := sched[0];
      [Own(queues[c][0])] + InOrder(queues[c := queues[c][1..]], sched[|FramesOf(queues[c][0])|..])
  }

  // What one message does.

  lemma {:induction false} WrappedReceive(utf8: Utf8, st: Option<ContentState>, frames: seq<AmqpFrame>)
    ensures ReceiveAll(utf8, st, Wrapped(frames)) == Receive(utf8, st, frames)
    ensures Begins(Wrapped(frames)) == 0
    decreases |frames|
  {
    hide OnFrame;
    if frames != [] {
      assert Wrapped(frames)[1..] == Wrapped(frames[1..]);
      WrappedReceive(utf8, OnFrame(utf8, st, frames[0]).0, frames[1..]);
    }
  }

  /** Uninterrupted, a message is published at its last frame; until then nothing is. */
  lemma MessageReceived(utf8: Utf8, st: Option<ContentState>, m: Content, k: nat)
    requires Complete(utf8, m) && 0 < k <= |FramesOf(m)|
    ensures ReceiveAll(utf8, st, FramesOf(m)[..k]).1 == if k < |FramesOf(m)| then [] else [Own(m)]
    ensures k == |FramesOf(m)| ==> ReceiveAll(utf8, st, FramesOf(m)[..k]).0 == None
    ensures Begins(FramesOf(m)[..k]) == 1
  {
    var begun := Begun(m.exchange, m.routingKey, m.mandatory, m.channel);
    ContentIsReceived(utf8, begun, m.channel, m.header, m.pieces, m.payload);
    var (st', out) := Receive(utf8, Some(begun), ContentOf(m)[..k - 1]);
    assert k == |FramesOf(m)| ==> ContentOf(m)[..k - 1] == ContentOf(m) && st' == None && out == [Own(m)];
    assert k < |FramesOf(m)| ==> out == [];
    hide DecodeContentHeader, OnFrame, Receive, BodyFrames, Join, Own;
    MessageCut(utf8, st, m, k);
  }

  lemma MessageCut(utf8: Utf8, st: Option<ContentState>, m: Content, k: nat)
    requires 0 < k <= |FramesOf(m)|
    ensures var begun := Begun(m.exchange, m.routingKey, m.mandatory, m.channel);
      ReceiveAll(utf8, st, FramesOf(m)[..k]) == Receive(utf8, Some(begun), ContentOf(m)[..k - 1])
    ensures Begins(FramesOf(m)[..k]) == 1
  {
    var begun := Begun(m.exchange, m.routingKey, m.mandatory, m.channel);
    var frames := ContentOf(m)[..k - 1];
    CutFrames(m, k);
    hide ContentOf, Wrapped, FramesOf, Receive;
    WrappedReceive(utf8, Some(begun), frames);
    BeginReceived(utf8, st, Opening(m), Wrapped(frames));
  }

  lemma CutFrames(m: Content, k: nat)
    requires 0 < k <= |FramesOf(m)|
    ensures FramesOf(m)[..k] == [Opening(m)] + Wrapped(ContentOf(m)[..k - 1])
  {
    hide ContentOf;
  }

  lemma BeginReceived(utf8: Utf8, st: Option<ContentState>, x: Incoming, xs: seq<Incoming>)
    requires x.Begin?
    ensures var begun := Begun(x.exchange, x.routingKey, x.mandatory, x.channel);
      ReceiveAll(utf8, st, [x] + xs) == ReceiveAll(utf8, Some(begun), xs)
    ensures Begins([x] + xs) == 1 + Begins(xs)
  {
    hide OnFrame;
    assert ([x] + xs)[1..] == xs;
    var begun := Begun(x.exchange, x.routingKey, x.mandatory, x.channel);
    assert [] + ReceiveAll(utf8, Some(begun), xs).1 == ReceiveAll(utf8, Some(begun), xs).1;
  }

  // What a schedule does.

  lemma TakeOne(streams: seq<seq<Incoming>>, sched: seq<nat>, c: nat, k: nat)
    requires c < |streams| && 0 < k <= |streams[c]| && k <= |sched|
    ensures var next := streams[c := streams[c][1..]];
      && next[c := next[c][k - 1..]] == streams[c := streams[c][k..]]
      && [streams[c][0]] + next[c][..k - 1] == streams[c][..k]
      && sched[1..][k - 1..] == sched[k..]
  {
    assert streams[c][1..][k - 1..] == streams[c][k..];
  }

  /** While one channel sends, its frames arrive in order. */
  lemma {:induction false} OneChannelSends(streams: seq<seq<Incoming>>, sched: seq<nat>, c: nat, k: nat)
    requires Drains(streams, sched) && AllFrom(sched, c, k) && k > 0
    ensures c < |streams| && k <= |streams[c]|
    ensures Drains(streams[c := streams[c][k..]], sched[k..])
    ensures Interleaved(streams, sched)
         == streams[c][..k] + Interleaved(streams[c := streams[c][k..]], sched[k..])
    decreases k
  {
    var next := streams[c := streams[c][1..]];
    if k > 1 {
      assert AllFrom(sched[1..], c, k - 1);
      OneChannelSends(next, sched[1..], c, k - 1);
      TakeOne(streams, sched, c, k);
      hide AllFrom;
      var more := Interleaved(streams[c := streams[c][k..]], sched[k..]);
      assert [streams[c][0]] + (next[c][..k - 1] + more) == streams[c][..k] + more;
    }
  }

  lemma StreamsStep(queues: seq<seq<Content>>, c: nat)
    requires c < |queues| && queues[c] != []
    ensures var n := |FramesOf(queues[c][0])|;
      && n <= |Streams(queues)[c]| && Streams(queues)[c][..n] == FramesOf(queues[c][0])
      && Streams(queues)[c := Streams(queues)[c][n..]] == Streams(queues[c := queues[c][1..]])
  {
    hide FramesOf;
    var n := |FramesOf(queues[c][0])|;
    assert Stream(queues[c]) == FramesOf(queues[c][0]) + Stream(queues[c][1..]);
    assert Streams(queues)[c][n..] == Stream(queues[c][1..]);
  }

  /** How many of the next frames come from one channel, up to n. */
  function RunLength(sched: seq<nat>, c: nat, n: nat): (k: nat)
    requires n <= |sched|
    ensures k <= n && AllFrom(sched, c, k) && (k < n ==> sched[k] != c)
  {
    if n == 0 then 0
    else
      var k := RunLength(sched, c, n - 1);
      if k == n - 1 && sched[n - 1] == c then n else k
  }

  lemma {:induction false} ScheduleIsLongEnough(streams: seq<seq<Incoming>>, sched: seq<nat>, c: nat)
    requires Drains(streams, sched) && c < |streams|
    ensures |streams[c]| <= |sched|
    decreases |sched|
  {
    if sched == [] {
      assert streams[c] in streams;
    } else {
      ScheduleIsLongEnough(streams[sched[0] := streams[sched[0]][1..]], sched[1..], c);
    }
  }

  ghost predicate AllComplete(utf8: Utf8, queues: seq<seq<Content>>) {
    forall c: nat, i: nat :: c < |queues| && i < |queues[c]| ==> Complete(utf8, queues[c][i])
  }

  /** As many publishes as were begun. */
  ghost predicate NoneLost(utf8: Utf8, xs: seq<Incoming>) {
    |ReceiveAll(utf8, None, xs).1| == Begins(xs)
  }

  /** A message begun inside another one's frames costs that one its publish. */
  lemma InterruptionLoses(utf8: Utf8, m: Content, k: nat, xs: seq<Incoming>)
    requires Complete(utf8, m) && 0 < k < |FramesOf(m)| && xs != [] && xs[0].Begin?
    ensures !NoneLost(utf8, FramesOf(m)[..k] + xs)
  {
    var front := FramesOf(m)[..k];
    MessageReceived(utf8, None, m, k);
    ReceiveJoin(utf8, None, front, xs);
    BeginsJoin(front, xs);
    var (mid, out) := ReceiveAll(utf8, None, front);
    var (next, none) := OnIncoming(utf8, mid, xs[0]);
    AtMostOneEach(utf8, next, xs[1..]);
    hide FramesOf, OnFrame, Complete;
  }

  /** A message that is not interrupted is published, and the rest is received as if it came first. */
  lemma WholeMessageFirst(utf8: Utf8, m: Content, xs: seq<Incoming>)
    requires Complete(utf8, m)
    ensures ReceiveAll(utf8, None, FramesOf(m) + xs).1 == [Own(m)] + ReceiveAll(utf8, None, xs).1
    ensures ReceiveAll(utf8, None, FramesOf(m) + xs).0 == ReceiveAll(utf8, None, xs).0
    ensures NoneLost(utf8, FramesOf(m) + xs) <==> NoneLost(utf8, xs)
  {
    assert FramesOf(m)[..|FramesOf(m)|] == FramesOf(m);
    MessageReceived(utf8, None, m, |FramesOf(m)|);
    ReceiveJoin(utf8, None, FramesOf(m), xs);
    BeginsJoin(FramesOf(m), xs);
    hide FramesOf, ReceiveAll, Begins, Complete, Own;
  }

  /** After k frames of one message, the next frame of any other channel begins a message. */
  lemma OthersBegin(queues: seq<seq<Content>>, sched: seq<nat>, c: nat, k: nat)
    requires Drains(Streams(queues), sched) && AllFrom(sched, c, k) && 0 < k < |sched| && sched[k] != c
    ensures c < |queues| && k <= |Streams(queues)[c]|
    ensures Drains(Streams(queues)[c := Streams(queues)[c][k..]], sched[k..])
    ensures var xs := Interleaved(Streams(queues)[c := Streams(queues)[c][k..]], sched[k..]);
      xs != [] && xs[0].Begin?
  {
    OneChannelSends(Streams(queues), sched, c, k);
    var d := sched[k];
    assert sched[k..][0] == d;
    assert Stream(queues[d]) != [] ==> queues[d] != [] && Stream(queues[d])[0] == FramesOf(queues[d][0])[0];
  }

  lemma FirstOf(queues: seq<seq<Content>>, sched: seq<nat>) returns (m: Content, n: nat)
    requires Drains(Streams(queues), sched) && sched != []
    ensures sched[0] < |queues| && queues[sched[0]] != [] && m == queues[sched[0]][0]
    ensures n == |FramesOf(m)| && 0 < n <= |sched| && n <= |Streams(queues)[sched[0]]|
    ensures Streams(queues)[sched[0]][..n] == FramesOf(m)
  {
    var c := sched[0];
    m := queues[c][0];
    n := |FramesOf(m)|;
    StreamsStep(queues, c);
    ScheduleIsLongEnough(Streams(queues), sched, c);
    hide FramesOf;
  }

  lemma AllCompleteStep(utf8: Utf8, queues: seq<seq<Content>>, c: nat)
    requires AllComplete(utf8, queues) && c < |queues| && queues[c] != []
    ensures Complete(utf8, queues[c][0]) && AllComplete(utf8, queues[c := queues[c][1..]])
  {
    hide Complete;
  }

  lemma Interrupted(queues: seq<seq<Content>>, sched: seq<nat>, m: Content, k: nat) returns (xs: seq<Incoming>)
    requires Drains(Streams(queues), sched) && sched != []
    requires sched[0] < |queues| && queues[sched[0]] != [] && m == queues[sched[0]][0]
    requires k < |FramesOf(m)| <= |sched| && AllFrom(sched, sched[0], k) && sched[k] != sched[0]
    ensures Interleaved(Streams(queues), sched) == FramesOf(m)[..k] + xs
    ensures 0 < k && xs != [] && xs[0].Begin? && !Serial(queues, sched)
  {
    var c := sched[0];
    StreamsStep(queues, c);
    OthersBegin(queues, sched, c, k);
    OneChannelSends(Streams(queues), sched, c, k);
    hide Drains, Interleaved, Streams, FramesOf;
    xs := Interleaved(Streams(queues)[c := Streams(queues)[c][k..]], sched[k..]);
    var n := |FramesOf(m)|;
    assert Streams(queues)[c][..k] == Streams(queues)[c][..n][..k];
  }

  lemma Uninterrupted(queues: seq<seq<Content>>, sched: seq<nat>, m: Content) returns (rest: seq<seq<Content>>)
    requires Drains(Streams(queues), sched) && sched != []
    requires sched[0] < |queues| && queues[sched[0]] != [] && m == queues[sched[0]][0]
    requires AllFrom(sched, sched[0], |FramesOf(m)|)
    ensures rest == queues[sched[0] := queues[sched[0]][1..]]
    ensures var n := |FramesOf(m)|;
      && 0 < n <= |sched| && Drains(Streams(rest), sched[n..])
      && Interleaved(Streams(queues), sched) == FramesOf(m) + Interleaved(Streams(rest), sched[n..])
      && (Serial(queues, sched) <==> Serial(rest, sched[n..]))
      && (Serial(queues, sched) ==> InOrder(queues, sched) == [Own(m)] + InOrder(rest, sched[n..]))
  {
    rest := queues[sched[0] := queues[sched[0]][1..]];
    StreamsStep(queues, sched[0]);
    assert |FramesOf(m)| > 0;
    OneChannelSends(Streams(queues), sched, sched[0], |FramesOf(m)|);
    hide Drains, Interleaved, Streams, FramesOf, Own, AllFrom;
  }

  lemma {:induction false} NoneLostOnSchedule(utf8: Utf8, queues: seq<seq<Content>>, sched: seq<nat>)
    requires AllComplete(utf8, queues) && Drains(Streams(queues), sched)
    ensures NoneLost(utf8, Interleaved(Streams(queues), sched)) <==> Serial(queues, sched)
    ensures Serial(queues, sched) ==>
              ReceiveAll(utf8, None, Interleaved(Streams(queues), sched)) == (None, InOrder(queues, sched))
    decreases |sched|
  {
    if sched != [] {
      var c := sched[0];
      var m, n := FirstOf(queues, sched);
      var k := RunLength(sched, c, n);
      hide *;
      if k < n {
        AllCompleteStep(utf8, queues, c);
        var xs := Interrupted(queues, sched, m, k);
        InterruptionLoses(utf8, m, k, xs);
      } else {
        AllCompleteStep(utf8, queues, c);
        var rest := Uninterrupted(queues, sched, m);
        WholeMessageFirst(utf8, m, Interleaved(Streams(rest), sched[n..]));
        NoneLostOnSchedule(utf8, rest, sched[n..]);
      }
    }
  }

  predicate OfContent(x: Incoming) {
    x.Begin? || x.frame.frameType == FRAME_HEADER || x.frame.frameType == FRAME_BODY
  }

  /** Without heartbeats and the methods other than publish. */
  function ContentOnly(xs: seq<Incoming>): seq<Incoming> {
    if xs == [] then [] else (if OfContent(xs[0]) then [xs[0]] else []) + ContentOnly(xs[1..])
  }

  lemma {:induction false} OthersPass(utf8: Utf8, st: Option<ContentState>, xs: seq<Incoming>)
    ensures ReceiveAll(utf8, st, ContentOnly(xs)) == ReceiveAll(utf8, st, xs)
    ensures Begins(ContentOnly(xs)) == Begins(xs)
    decreases |xs|
  {
    if xs != [] {
      OtherPasses(utf8, st, xs[0], ContentOnly(xs[1..]));
      hide OnIncoming, OfContent;
      OthersPass(utf8, OnIncoming(utf8, st, xs[0]).0, xs[1..]);
    }
  }

  lemma OtherPasses(utf8: Utf8, st: Option<ContentState>, x: Incoming, rest: seq<Incoming>)
    ensures var ys := (if OfContent(x) then [x] else []) + rest;
      var (next, out) := OnIncoming(utf8, st, x);
      var (last, more) := ReceiveAll(utf8, next, rest);
      && ReceiveAll(utf8, st, ys) == (last, out + more)
      && Begins(ys) == (if x.Begin? then 1 else 0) + Begins(rest)
  {
    hide OnHeader, OnBody;
    if OfContent(x) {
      assert ([x] + rest)[1..] == rest;
    } else {
      assert [] + rest == rest && [] + ReceiveAll(utf8, st, rest).1 == ReceiveAll(utf8, st, rest).1;
    }
  }

  /**
   * Complete messages over several channels, their frames interleaved by any schedule: each
   * is published exactly when the schedule is serial, that is, when no publish method or
   * content frame of another channel comes between a message's publish method and its last
   * frame; frames of other kinds can come anywhere. Then each message arrives once, whole, in
   * the order of the schedule, and nothing is left under way.
   */
  lemma NoneLostIffSerial(utf8: Utf8, queues: seq<seq<Content>>, sched: seq<nat>, xs: seq<Incoming>)
    requires AllComplete(utf8, queues) && Drains(Streams(queues), sched)
    requires ContentOnly(xs) == Interleaved(Streams(queues), sched)
    ensures NoneLost(utf8, xs) <==> Serial(queues, sched)
    ensures Serial(queues, sched) ==> ReceiveAll(utf8, None, xs) == (None, InOrder(queues, sched))
  {
    OthersPass(utf8, None, xs);
    NoneLostOnSchedule(utf8, queues, sched);
    hide *;
    SameLosses(utf8, xs, ContentOnly(xs));
  }

  lemma SameLosses(utf8: Utf8, xs: seq<Incoming>, ys: seq<Incoming>)
    requires ReceiveAll(utf8, None, ys) == ReceiveAll(utf8, None, xs) && Begins(ys) == Begins(xs)
    ensures NoneLost(utf8, ys) <==> NoneLost(utf8, xs)
  {
  }

  function Bare(m: Content): Incoming {
    Other(AmqpFrame(FRAME_HEADER, m.channel, m.payload))
  }

  lemma BareFrames(m: Content)
    requires m.pieces == []
    ensures Stream([m]) == [Opening(m), Bare(m)]
  {
    assert BodyFrames(m.channel, m.pieces) == [];
    assert FramesOf(m) == [Opening(m), Bare(m)];
    assert Stream([m]) == FramesOf(m) + Stream([]);
  }

  lemma TakeTurns(w: Incoming, x: Incoming, y: Incoming, z: Incoming)
    ensures Drains([[w, x], [y, z]], [0, 1, 0, 1])
    ensures Interleaved([[w, x], [y, z]], [0, 1, 0, 1]) == [w, y, x, z]
  {
    assert [[w, x], [y, z]][0 := [x]] == [[x], [y, z]];
    assert [[x], [y, z]][1 := [z]] == [[x], [z]];
    assert [[x], [z]][0 := []] == [[], [z]];
    assert Drains([[], [z]], [1]);
    assert Drains([[x], [z]], [0, 1]);
    assert Drains([[x], [y, z]], [1, 0, 1]);
  }

  lemma ReceiveOne(utf8: Utf8, st: Option<ContentState>, x: Incoming, xs: seq<Incoming>)
    ensures var (next, out) := OnIncoming(utf8, st, x);
      ReceiveAll(utf8, st, [x] + xs).1 == out + ReceiveAll(utf8, next, xs).1
  {
    hide OnIncoming;
    assert ([x] + xs)[1..] == xs;
  }

  lemma ReceiveTurns(utf8: Utf8, a: Content, b: Content)
    requires Complete(utf8, a) && a.pieces == []
    ensures ReceiveAll(utf8, None, [Opening(a), Opening(b), Bare(a), Bare(b)]).1
         == [Publish(b.exchange, b.routingKey, b.mandatory, a.header.properties, [], b.channel)]
  {
    hide DecodeContentHeader;
    var begunA := Begun(a.exchange, a.routingKey, a.mandatory, a.channel);
    var begunB := Begun(b.exchange, b.routingKey, b.mandatory, b.channel);
    assert OnIncoming(utf8, Some(begunB), Bare(a)).0 == None;
    assert OnIncoming(utf8, None, Bare(b)) == (None, []);
    hide OnFrame;
    ReceiveOne(utf8, None, Bare(b), []);
    ReceiveOne(utf8, Some(begunB), Bare(a), [Bare(b)]);
    ReceiveOne(utf8, Some(begunA), Opening(b), [Bare(a), Bare(b)]);
    ReceiveOne(utf8, None, Opening(a), [Opening(b), Bare(a), Bare(b)]);
  }

  /**
   * Two channels taking turns: of two messages without a body, one is published, to the
   * exchange of the second with the properties of the first.
   */
  lemma TurnsMixTwoMessages(utf8: Utf8, a: Content, b: Content)
    requires Complete(utf8, a) && Complete(utf8, b) && a.pieces == b.pieces == []
    ensures Drains(Streams([[a], [b]]), [0, 1, 0, 1])
    ensures ReceiveAll(utf8, None, Interleaved(Streams([[a], [b]]), [0, 1, 0, 1])).1
         == [Publish(b.exchange, b.routingKey, b.mandatory, a.header.properties, [], b.channel)]
  {
    var h, k := Bare(a), Bare(b);
    var streams := Streams([[a], [b]]);
    BareFrames(a);
    BareFrames(b);
    hide FramesOf, Stream, DecodeContentHeader;
    assert streams == [[Opening(a), h], [Opening(b), k]];
    TakeTurns(Opening(a), h, Opening(b), k);
    hide Streams, Drains, Interleaved;
    ReceiveTurns(utf8, a, b);
  }
}
