// Entry framing of the write-ahead log and the recovery scan of one segment file.
//
// An entry is framed as  length(4) crc32(4) type(1) data, where the length counts the
// type byte and the data. The scan stops at the first frame it cannot accept. The
// checksum is a parameter: nothing below depends on how CRC-32 is computed.
module WalFormat {
  import opened Bytes

  const WAL_HEADER_SIZE: nat := 9

  type Checksum = Octets -> u32

  datatype EntryType =
    | DeclareQueue
    | Enqueue
    | Ack
    | DeclareExchange
    | Bind
    | SetQueueSchema
    | RaftEntry
    | RaftVote
  {
    function Tag(): (tag: byte)
      ensures FromTag(tag) == Some(this)
    {
      match this
      case DeclareQueue => 0x01
      case Enqueue => 0x02
      case Ack => 0x03
      case DeclareExchange => 0x04
      case Bind => 0x05
      case SetQueueSchema => 0x06
      case RaftEntry => 0x10
      case RaftVote => 0x11
    }

    static function FromTag(tag: byte): Option<EntryType>
    {
      match tag
      case 0x01 => Some(DeclareQueue)
      case 0x02 => Some(Enqueue)
      case 0x03 => Some(Ack)
      case 0x04 => Some(DeclareExchange)
      case 0x05 => Some(Bind)
      case 0x06 => Some(SetQueueSchema)
      case 0x10 => Some(RaftEntry)
      case 0x11 => Some(RaftVote)
      case _ => None
    }
  }

  datatype Entry = Entry(kind: EntryType, data: Octets)

  /** The length field is 32 bits wide, so this is what fits in it. */
  predicate Sized(e: Entry) {
    1 + |e.data| < TWO_32
  }

  predicate AllSized(es: seq<Entry>) {
    forall i :: 0 <= i < |es| ==> Sized(es[i])
  }

  function Payload(e: Entry): Octets {
    [e.kind.Tag()] + e.data
  }

  /** The bytes written for one entry; the length is truncated to 32 bits. */
  function Frame(crc: Checksum, e: Entry): (frame: Octets)
    ensures |frame| == WAL_HEADER_SIZE + |e.data|
  {
    BE32(|Payload(e)| % TWO_32) + BE32(crc(Payload(e))) + Payload(e)
  }

  function Frames(crc: Checksum, es: seq<Entry>): Octets {
    if es == [] then [] else Frame(crc, es[0]) + Frames(crc, es[1..])
  }

  /** The entry at the front of `s`, if its frame is whole, checks out and has a known type. */
  function First(crc: Checksum, s: Octets): Option<Entry> {
    if |s| < WAL_HEADER_SIZE then None
    else
      var total, expected := FromBE32(s[..4]), FromBE32(s[4..8]);
      if total == 0 || 8 + total > |s| then None
      else
        var payload := s[8..8 + total];
        if crc(payload) != expected then None
        else match EntryType.FromTag(payload[0])
          case None => None
          case Some(kind) => Some(Entry(kind, payload[1..]))
  }

  lemma FirstIsFramed(crc: Checksum, s: Octets)
    requires First(crc, s).Some?
    ensures Sized(First(crc, s).value) && Frame(crc, First(crc, s).value) <= s
  {
    hide BE32, FromBE32;
    var e := First(crc, s).value;
    var n := 8 + FromBE32(s[..4]);
    assert Payload(e) == s[8..n];
    BE32OfFrom(s[..4]);
    BE32OfFrom(s[4..8]);
    assert Frame(crc, e) == s[..4] + s[4..8] + s[8..n];
    assert s[..n] == s[..4] + s[4..8] + s[8..n];
  }

  /** Where the parts of a frame lie in bytes that start with it. */
  lemma ThreeParts(a: Octets, b: Octets, c: Octets, s: Octets)
    requires |a| == 4 && |b| == 4 && a + b + c <= s
    ensures s[..4] == a && s[4..8] == b && s[8..8 + |c|] == c
  {
    var f := a + b + c;
    assert f[..4] == a && f[4..8] == b && f[8..] == c;
    assert s[..4] == f[..4] && s[4..8] == f[4..8] && s[8..8 + |c|] == f[8..];
  }

  lemma FrameParts(crc: Checksum, e: Entry, s: Octets)
    requires Sized(e) && Frame(crc, e) <= s
    ensures FromBE32(s[..4]) == |Payload(e)| && FromBE32(s[4..8]) == crc(Payload(e))
    ensures s[8..8 + |Payload(e)|] == Payload(e)
  {
    assert |Payload(e)| % TWO_32 == |Payload(e)|;
    hide FromBE32, BE32, Payload;
    assert Frame(crc, e) == BE32(|Payload(e)|) + BE32(crc(Payload(e))) + Payload(e);
    ThreeParts(BE32(|Payload(e)|), BE32(crc(Payload(e))), Payload(e), s);
  }

  lemma FirstFindsFrame(crc: Checksum, e: Entry, s: Octets)
    requires Sized(e) && Frame(crc, e) <= s
    ensures First(crc, s) == Some(e)
  {
    hide FromBE32, Frame;
    FrameParts(crc, e, s);
  }

  /** All entries from the front of `s` up to the first frame that is not accepted. */
  function Scan(crc: Checksum, s: Octets): seq<Entry>
    decreases |s|
  {
    match First(crc, s)
    case None => []
    case Some(e) =>
      FirstIsFramed(crc, s);
      [e] + Scan(crc, s[|Frame(crc, e)|..])
  }

  /** Everything the scan returns is in the file, byte for byte, from its start. */
  lemma {:induction false} ScanIsFramed(crc: Checksum, s: Octets)
    ensures AllSized(Scan(crc, s)) && Frames(crc, Scan(crc, s)) <= s
    decreases |s|
  {
    hide BE32, FromBE32;
    match First(crc, s)
    case None =>
    case Some(e) =>
      FirstIsFramed(crc, s);
      var n := |Frame(crc, e)|;
      ScanIsFramed(crc, s[n..]);
      assert Scan(crc, s)[1..] == Scan(crc, s[n..]);
      assert s == Frame(crc, e) + s[n..];
  }

  /** Whatever follows them, entries whose frames start the file are all returned first. */
  lemma {:induction false} ScanFindsFrames(crc: Checksum, es: seq<Entry>, s: Octets)
    requires AllSized(es) && Frames(crc, es) <= s
    ensures es <= Scan(crc, s)
  {
    hide BE32, FromBE32;
    if es != [] {
      var n := |Frame(crc, es[0])|;
      FirstFindsFrame(crc, es[0], s);
      assert Frames(crc, es)[n..] == Frames(crc, es[1..]);
      ScanFindsFrames(crc, es[1..], s[n..]);
    }
  }

  lemma ScanOfFrames(crc: Checksum, es: seq<Entry>)
    requires AllSized(es)
    ensures Scan(crc, Frames(crc, es)) == es
  {
    var r := Scan(crc, Frames(crc, es));
    ScanFindsFrames(crc, es, Frames(crc, es));
    ScanIsFramed(crc, Frames(crc, es));
    if |r| > |es| {
      FramesLonger(crc, es, r);
    }
  }

  lemma FramesStep(crc: Checksum, es: seq<Entry>)
    requires es != []
    ensures Frames(crc, es) == Frame(crc, es[0]) + Frames(crc, es[1..])
  {
    hide Frame;
  }

  lemma {:induction false} FramesAppend(crc: Checksum, a: seq<Entry>, b: seq<Entry>)
    ensures Frames(crc, a + b) == Frames(crc, a) + Frames(crc, b)
  {
    hide Frame;
    if a == [] {
      assert a + b == b;
    } else {
      FramesStep(crc, a);
      FramesStep(crc, a + b);
      hide Frames;
      assert (a + b)[1..] == a[1..] + b && (a + b)[0] == a[0];
      FramesAppend(crc, a[1..], b);
    }
  }

  lemma FramesSingle(crc: Checksum, e: Entry)
    ensures Frames(crc, [e]) == Frame(crc, e)
  {
  }

  lemma FramesLonger(crc: Checksum, a: seq<Entry>, b: seq<Entry>)
    requires a < b
    ensures |Frames(crc, a)| + WAL_HEADER_SIZE <= |Frames(crc, b)|
  {
    var rest := b[|a|..];
    assert b == a + rest;
    FramesAppend(crc, a, rest);
    assert Frames(crc, rest) == Frame(crc, rest[0]) + Frames(crc, rest[1..]);
  }

  /**
   * A file cut at any byte: the scan returns the longest run of entries that lie wholly
   * before the cut, and nothing else.
   */
  lemma TornTail(crc: Checksum, es: seq<Entry>, cut: nat)
    requires AllSized(es) && cut <= |Frames(crc, es)|
    ensures var r := Scan(crc, Frames(crc, es)[..cut]);
      && r <= es
      && |Frames(crc, r)| <= cut
      && (|r| < |es| ==> cut < |Frames(crc, es[..|r| + 1])|)
  {
    hide BE32, FromBE32, Frame, Frames, Scan, Sized;
    var file := Frames(crc, es);
    var r := Scan(crc, file[..cut]);
    ScanIsFramed(crc, file[..cut]);
    ScanFindsFrames(crc, r, file);
    ScanOfFrames(crc, es);
    if |r| < |es| {
      var more := es[..|r| + 1];
      assert es == more + es[|r| + 1..];
      FramesAppend(crc, more, es[|r| + 1..]);
      if |Frames(crc, more)| <= cut {
        ScanFindsFrames(crc, more, file[..cut]);
      }
    }
  }

  /** An entry survives a write and a scan exactly when its length fits the length field. */
  lemma EntrySurvivesIffSized(crc: Checksum, e: Entry)
    ensures Scan(crc, Frame(crc, e)) == [e] <==> Sized(e)
  {
    if Sized(e) {
      FramesSingle(crc, e);
      ScanOfFrames(crc, [e]);
    } else {
      ScanIsFramed(crc, Frame(crc, e));
    }
  }

  /**
   * A reopened file accepts later appends (every entry written after `file` is read back
   * after the entries `file` already held) exactly when the scan consumes `file` to its
   * last byte, that is, when it has no torn tail.
   */
  lemma LaterAppendsReadableIffNoTornTail(crc: Checksum, file: Octets)
    ensures (forall e :: Sized(e) ==> Scan(crc, file + Frame(crc, e)) == Scan(crc, file) + [e])
       <==> Frames(crc, Scan(crc, file)) == file
  {
    var es := Scan(crc, file);
    ScanIsFramed(crc, file);
    if Frames(crc, es) == file {
      forall e | Sized(e)
        ensures Scan(crc, file + Frame(crc, e)) == es + [e]
      {
        FramesAppend(crc, es, [e]);
        FramesSingle(crc, e);
        ScanOfFrames(crc, es + [e]);
      }
    } else {
      var e := HiddenByTornTail(crc, file);
      assert Scan(crc, file + Frame(crc, e)) != es + [e];
    }
  }

  /**
   * A crash inside a frame, reopening and a further append: the entries before the crash are
   * read back, but there is an entry whose append is not.
   */
  lemma CutFrameHidesLaterAppend(crc: Checksum, es: seq<Entry>, e: Entry, cut: nat)
    returns (later: Entry)
    requires AllSized(es) && Sized(e) && 0 < cut < |Frame(crc, e)|
    ensures var file := Frames(crc, es) + Frame(crc, e)[..cut];
      && Scan(crc, file) == es && Sized(later)
      && Scan(crc, file + Frame(crc, later)) != es + [later]
  {
    var file := Frames(crc, es) + Frame(crc, e)[..cut];
    CutInsideFrame(crc, es, e, cut);
    later := HiddenByTornTail(crc, file);
  }

  lemma CutInsideFrame(crc: Checksum, es: seq<Entry>, e: Entry, cut: nat)
    requires AllSized(es) && Sized(e) && cut < |Frame(crc, e)|
    ensures Scan(crc, Frames(crc, es) + Frame(crc, e)[..cut]) == es
  {
    var full, n := es + [e], |Frames(crc, es)| + cut;
    FramesAppend(crc, es, [e]);
    FramesSingle(crc, e);
    hide Frame, Frames, Scan;
    assert Frames(crc, full)[..n] == Frames(crc, es) + Frame(crc, e)[..cut];
    TornTail(crc, full, n);
    var r := Scan(crc, Frames(crc, full)[..n]);
    assert full[..|es|] == es && r == full[..|r|];
    assert |r| < |es| ==> full[..|r| + 1] == es[..|r| + 1];
    assert |r| > |es| ==> r == full;
    if |r| < |es| { FramesMonotone(crc, es, |r| + 1); }
  }

  lemma FramesMonotone(crc: Checksum, es: seq<Entry>, n: nat)
    requires n <= |es|
    ensures |Frames(crc, es[..n])| <= |Frames(crc, es)|
  {
    FramesAppend(crc, es[..n], es[n..]);
    hide Frames;
    assert es == es[..n] + es[n..];
  }

  /** An entry whose length field wraps to 0 ends every scan, whatever follows it. */
  lemma OversizedEntryHidesRest(crc: Checksum, e: Entry, rest: Octets)
    requires 1 + |e.data| == TWO_32
    ensures Scan(crc, Frame(crc, e) + rest) == []
  {
    var s := Frame(crc, e) + rest;
    assert s[..4] == BE32(0);
    hide BE32, FromBE32;
  }

  lemma HiddenByTornTail(crc: Checksum, file: Octets) returns (e: Entry)
    requires Frames(crc, Scan(crc, file)) != file
    ensures Sized(e) && Scan(crc, file + Frame(crc, e)) != Scan(crc, file) + [e]
  {
    ScanIsFramed(crc, file);
    e := NotAfter(crc, TornTailOf(crc, file));
    if Scan(crc, file + Frame(crc, e)) == Scan(crc, file) + [e] {
      AppendedFrameFollowsTornTail(crc, file, e);
    }
  }

  /** The bytes of a segment file that the scan does not consume. */
  function TornTailOf(crc: Checksum, file: Octets): Octets {
    ScanIsFramed(crc, file);
    file[|Frames(crc, Scan(crc, file))|..]
  }

  lemma AppendedFrameFollowsTornTail(crc: Checksum, file: Octets, e: Entry)
    requires Scan(crc, file + Frame(crc, e)) == Scan(crc, file) + [e]
    ensures Frame(crc, e) <= TornTailOf(crc, file) + Frame(crc, e)
  {
    hide BE32, FromBE32;
    var es, f := Scan(crc, file), Frame(crc, e);
    ScanIsFramed(crc, file);
    ScanIsFramed(crc, file + f);
    FramesAppend(crc, es, [e]);
    FramesSingle(crc, e);
    var n := |Frames(crc, es)|;
    assert (Frames(crc, es) + f)[n..] == f && (file + f)[n..] == TornTailOf(crc, file) + f;
  }

  /** For any torn tail there is a frame that is not a prefix of the tail followed by itself. */
  lemma NotAfter(crc: Checksum, torn: Octets) returns (e: Entry)
    requires torn != []
    ensures Sized(e) && !(Frame(crc, e) <= torn + Frame(crc, e))
  {
    if |torn| < 4 {
      e := NotShortPeriod(crc, torn);
    } else {
      e := OtherLength(crc, torn);
    }
  }

  /** Zeros ending in a one do not repeat with so short a period. */
  lemma FrameDataAt(crc: Checksum, e: Entry, i: nat)
    requires i < |e.data|
    ensures Frame(crc, e)[WAL_HEADER_SIZE + i] == e.data[i]
  {
    hide BE32;
  }

  lemma PrefixShift(f: Octets, torn: Octets, k: nat)
    requires |torn| <= k < |f|
    ensures f <= torn + f ==> f[k] == f[k - |torn|]
  {
    assert (torn + f)[k] == f[k - |torn|];
  }

  lemma NotShortPeriod(crc: Checksum, torn: Octets) returns (e: Entry)
    requires 0 < |torn| < 4
    ensures Sized(e) && !(Frame(crc, e) <= torn + Frame(crc, e))
  {
    var data := [0, 0, 0, 0, 1];
    assert data[4] == 1 && data[4 - |torn|] == 0;
    e := Entry(Ack, data);
    hide Frame;
    FrameDataAt(crc, e, 4);
    FrameDataAt(crc, e, 4 - |torn|);
    PrefixShift(Frame(crc, e), torn, WAL_HEADER_SIZE + 4);
  }

  /** At most one of two lengths agrees with the torn tail's first four bytes. */
  lemma OtherLength(crc: Checksum, torn: Octets) returns (e: Entry)
    requires |torn| >= 4
    ensures Sized(e) && !(Frame(crc, e) <= torn + Frame(crc, e))
  {
    var e0, e1 := Entry(Ack, []), Entry(Ack, [0]);
    FrameLength(crc, e0);
    FrameLength(crc, e1);
    assert FromBE32(BE32(1)) == 1 && FromBE32(BE32(2)) == 2;
    hide Frame, BE32, FromBE32;
    e := if torn[..4] == BE32(1) then e1 else e0;
    assert (torn + Frame(crc, e))[..4] == torn[..4];
  }

  lemma FrameLength(crc: Checksum, e: Entry)
    requires Sized(e)
    ensures Frame(crc, e)[..4] == BE32(1 + |e.data|)
  {
    hide BE32, FromBE32;
  }

  lemma ScanNone(crc: Checksum, s: Octets)
    requires First(crc, s).None?
    ensures Scan(crc, s) == []
  {
    hide First, Frame;
  }

  lemma ScanSome(crc: Checksum, s: Octets)
    requires First(crc, s).Some?
    ensures var e := First(crc, s).value;
      |Frame(crc, e)| <= |s| && Scan(crc, s) == [e] + Scan(crc, s[|Frame(crc, e)|..])
  {
    FirstIsFramed(crc, s);
    hide First, Frame;
  }

  lemma ScanStep(crc: Checksum, s: Octets, before: seq<Entry>)
    ensures match First(crc, s)
      case None => before + Scan(crc, s) == before
      case Some(e) =>
        |Frame(crc, e)| <= |s| && before + Scan(crc, s) == before + [e] + Scan(crc, s[|Frame(crc, e)|..])
  {
    hide First, Frame, Scan;
    if First(crc, s).None? {
      ScanNone(crc, s);
    } else {
      ScanSome(crc, s);
    }
  }

  /** Reads and validates the entries of one segment file. */
  method ReadEntries(crc: Checksum, file: Octets) returns (entries: seq<Entry>)
    ensures entries == Scan(crc, file)
  {
    hide BE32, FromBE32, Scan;
    entries := [];
    var pos := 0;
    assert [] + Scan(crc, file[0..]) == Scan(crc, file);
    while pos + WAL_HEADER_SIZE <= |file|
      invariant 0 <= pos <= |file|
      invariant entries + Scan(crc, file[pos..]) == Scan(crc, file)
      decreases |file| - pos
    {
      ghost var rest := file[pos..];
      ScanStep(crc, rest, entries);
      var totalLen := FromBE32(file[pos..pos + 4]);
      var expectedCrc := FromBE32(file[pos + 4..pos + 8]);
      assert rest[..4] == file[pos..pos + 4] && rest[4..8] == file[pos + 4..pos + 8];
      if totalLen == 0 || pos + WAL_HEADER_SIZE + (totalLen - 1) > |file| {
        break;
      }
      var payload := file[pos + 8..pos + 8 + totalLen];
      assert rest[8..8 + totalLen] == payload;
      if crc(payload) != expectedCrc {
        break;
      }
      var kind := EntryType.FromTag(payload[0]);
      if kind.None? {
        break;
      }
      var e := Entry(kind.value, payload[1..]);
      entries := entries + [e];
      pos := pos + WAL_HEADER_SIZE + (totalLen - 1);
      assert rest[|Frame(crc, e)|..] == file[pos..];
    }
    assert First(crc, file[pos..]) == None;
    ScanStep(crc, file[pos..], entries);
  }
}
