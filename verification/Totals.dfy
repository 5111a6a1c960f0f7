/** Every counter of a decoder as a function of the bytes it has been fed. */
module Totals {
  import opened Bytes
  import opened Format
  import opened Protocol
  import opened Framing
  import opened Scanning
  import opened Sequencing

  datatype Counters = Counters(frames: nat, crc: nat, format: nat, overflow: nat, escape: nat,
                               resync: nat, track: Track)

  /** How many closed segments a decoder rejected with a given fault. */
  function Rejected(d: Decoder, segments: seq<seq<byte>>, fault: Fault): nat {
    if segments == [] then 0
    else Rejected(d, segments[..|segments| - 1], fault)
         + if Close(d, segments[|segments| - 1]) == Bad(fault) then 1 else 0
  }

  /** A fault is counted when it is noticed, which for overflow and bad escapes is before the segment
      is closed. */
  function Noticed(d: Decoder, open: seq<byte>, fault: Fault): nat {
    if ScanAll(d, open) == Dropping(fault) then 1 else 0
  }

  function Faults(d: Decoder, p: Parsed, fault: Fault): nat {
    Rejected(d, p.closed, fault) + Noticed(d, p.open, fault)
  }

  /** How many closed segments a decoder rejected at all. */
  function Resyncs(d: Decoder, segments: seq<seq<byte>>): nat {
    if segments == [] then 0
    else Resyncs(d, segments[..|segments| - 1]) + if Close(d, segments[|segments| - 1]).Bad? then 1 else 0
  }

  function Sequences(chunks: seq<SpectrumChunk>): (s: seq<u16>)
    ensures |s| == |chunks| && forall i :: 0 <= i < |s| ==> s[i] == chunks[i].sequence
  {
    seq(|chunks|, (i: nat) requires i < |chunks| => chunks[i].sequence)
  }

  /** The counters after the stream s, by counting its segments. */
  function CountersOf(d: Decoder, s: seq<byte>): Counters {
    var p := Cut(s);
    var chunks := Delivered(p.closed);
    Counters(|chunks|,
             Faults(d, p, CrcFault), Faults(d, p, FormatFault),
             Faults(d, p, OverflowFault), Faults(d, p, EscapeFault),
             Resyncs(d, p.closed), NoteAll(Sequences(chunks)))
  }

  function Blame(c: Counters, fault: Fault): Counters {
    match fault
    case CrcFault => c.(crc := c.crc + 1)
    case FormatFault => c.(format := c.format + 1)
    case OverflowFault => c.(overflow := c.overflow + 1)
    case EscapeFault => c.(escape := c.escape + 1)
  }

  lemma {:induction false} NoDelimiterInside(s: seq<byte>)
    ensures SOF !in Cut(s).open
    ensures forall segment :: segment in Cut(s).closed ==> SOF !in segment
  {
    if s != [] {
      NoDelimiterInside(s[..|s| - 1]);
    }
  }

  lemma PlainByteCounts(d: Decoder, s: seq<byte>, b: byte)
    requires b != SOF
    ensures var scan := ScanAll(d, Cut(s).open);
            var next := ScanByte(d, scan, b);
            && ScanAll(d, Cut(s + [b]).open) == next
            && CountersOf(d, s + [b])
               == if next.Dropping? && !scan.Dropping? then Blame(CountersOf(d, s), next.fault) else CountersOf(d, s)
  {
    hide Cut, Delivered, Close, NoteAll, Sequences;
    CutAppend(s, b);
    var open := Cut(s).open;
    assert (open + [b])[..|open + [b]| - 1] == open;
    ScanBounds(d, open);
    ScanBounds(d, open + [b]);
  }

  lemma RejectedAppend(d: Decoder, segments: seq<seq<byte>>, last: seq<byte>, fault: Fault)
    ensures Rejected(d, segments + [last], fault)
         == Rejected(d, segments, fault) + if Close(d, last) == Bad(fault) then 1 else 0
    ensures Resyncs(d, segments + [last]) == Resyncs(d, segments) + if Close(d, last).Bad? then 1 else 0
  {
    assert (segments + [last])[..|segments + [last]| - 1] == segments;
  }

  lemma SequencesAppend(chunks: seq<SpectrumChunk>, last: SpectrumChunk)
    ensures NoteAll(Sequences(chunks + [last])) == Note(NoteAll(Sequences(chunks)), last.sequence)
  {
    var all := Sequences(chunks + [last]);
    assert all[..|all| - 1] == Sequences(chunks);
  }

  /** What the counters become when a delimiter arrives. */
  function Closed(c: Counters, scan: Scan, verdict: Verdict): Counters {
    match verdict
    case Silent => c
    case Good(chunk) => c.(frames := c.frames + 1, track := Note(c.track, chunk.sequence))
    case Bad(fault) =>
      var resynced := c.(resync := c.resync + 1);
      if scan.Dropping? then resynced else Blame(resynced, fault)
  }

  lemma DelimiterCounts(d: Decoder, s: seq<byte>)
    ensures Cut(s + [SOF]).open == []
    ensures CountersOf(d, s + [SOF])
         == Closed(CountersOf(d, s), ScanAll(d, Cut(s).open), Close(d, Cut(s).open))
  {
    hide Cut, Delivered, NoteAll, Sequences, DecodeBody, BatchDelivers, Rejected, Resyncs;
    CutAppend(s, SOF);
    NoDelimiterInside(s);
    var p := Cut(s);
    CloseRefinesBatch(d, p.open);
    DeliveredAppend(p.closed, p.open);
    RejectedAppend(d, p.closed, p.open, CrcFault);
    RejectedAppend(d, p.closed, p.open, FormatFault);
    RejectedAppend(d, p.closed, p.open, OverflowFault);
    RejectedAppend(d, p.closed, p.open, EscapeFault);
    ScanBounds(d, p.open);
    assert ScanAll(d, []) == Collecting([]);
    assert forall fault :: Noticed(d, [], fault) == 0;
    assert Delivered(p.closed) + [] == Delivered(p.closed);
    if Close(d, p.open).Good? {
      SequencesAppend(Delivered(p.closed), Close(d, p.open).chunk);
    }
  }

  lemma {:induction false} RejectionsBalance(d: Decoder, segments: seq<seq<byte>>)
    ensures Rejected(d, segments, CrcFault) + Rejected(d, segments, FormatFault)
            + Rejected(d, segments, OverflowFault) + Rejected(d, segments, EscapeFault)
         == Resyncs(d, segments)
  {
    if segments != [] {
      hide Close;
      RejectionsBalance(d, segments[..|segments| - 1]);
      OneFault(Close(d, segments[|segments| - 1]));
    }
  }

  lemma OneFault(v: Verdict)
    ensures v.Bad? ==>
              || v.fault == CrcFault || v.fault == FormatFault
              || v.fault == OverflowFault || v.fault == EscapeFault
  {
  }

  /** On every stream, at every byte: the four fault counters together equal the resynchronisations,
      plus one while a faulty segment is still being dropped. */
  lemma FaultsBalance(d: Decoder, s: seq<byte>)
    ensures var c := CountersOf(d, s);
            c.crc + c.format + c.overflow + c.escape
            == c.resync + if ScanAll(d, Cut(s).open).Dropping? then 1 else 0
  {
    hide Cut, Delivered, NoteAll, Sequences, Rejected, Resyncs, ScanAll;
    RejectionsBalance(d, Cut(s).closed);
    ScanBounds(d, Cut(s).open);
  }

  lemma NothingCounted(d: Decoder, p: Parsed, fault: Fault)
    requires p == Parsed([], [])
    ensures Faults(d, p, fault) == 0 && Resyncs(d, p.closed) == 0 && Delivered(p.closed) == []
  {
  }

  lemma NothingNoted(sequences: seq<u16>)
    requires sequences == []
    ensures NoteAll(sequences) == UNSEEN
  {
  }

  lemma NothingScanned(d: Decoder, s: seq<byte>)
    requires s == []
    ensures Cut(s) == Parsed([], []) && ScanAll(d, s) == Collecting([])
  {
  }

  lemma NothingFed(d: Decoder, s: seq<byte>)
    requires s == []
    ensures Cut(s) == Parsed([], []) && ScanAll(d, s) == Collecting([])
    ensures CountersOf(d, s) == Counters(0, 0, 0, 0, 0, 0, UNSEEN)
    ensures StreamDelivers(s) == []
  {
    hide Faults, Resyncs, Delivered, NoteAll, ScanAll, Cut;
    NothingScanned(d, s);
    var p := Cut(s);
    NothingCounted(d, p, CrcFault);
    NothingCounted(d, p, FormatFault);
    NothingCounted(d, p, OverflowFault);
    NothingCounted(d, p, EscapeFault);
    NothingNoted(Sequences(Delivered(p.closed)));
  }

  /** Either decoder extends the delivered chunks exactly at a delimiter that closes a good segment. */
  lemma StreamStep(d: Decoder, s: seq<byte>, b: byte)
    ensures StreamDelivers(s + [b])
         == StreamDelivers(s)
            + if b != SOF then [] else (match Close(d, Cut(s).open) case Good(c) => [c] case _ => [])
  {
    hide Cut, Close, DecodeBody, BatchDelivers;
    CutAppend(s, b);
    NoDelimiterInside(s);
    CloseRefinesBatch(d, Cut(s).open);
    DeliveredAppend(Cut(s).closed, Cut(s).open);
  }

  lemma EmptyScan()
    ensures ScanAll(Firmware, []) == Collecting([]) == ScanAll(Host, [])
  {
  }

  lemma {:induction false} RejectionsAgree(segments: seq<seq<byte>>)
    ensures Rejected(Firmware, segments, CrcFault) == Rejected(Host, segments, CrcFault)
    ensures Resyncs(Firmware, segments) == Resyncs(Host, segments)
  {
    if segments != [] {
      hide Close;
      RejectionsAgree(segments[..|segments| - 1]);
      DecodersAgree(segments[|segments| - 1]);
    }
  }

  /** The two decoders simulate each other on every byte stream: at every byte the same chunks, frames,
      checksum errors, resynchronisations and sequence accounting; and the same total of errors whenever
      the last byte was a delimiter. */
  lemma DecodersSimulate(s: seq<byte>)
    ensures var f, h := CountersOf(Firmware, s), CountersOf(Host, s);
            && f.frames == h.frames && f.crc == h.crc && f.resync == h.resync && f.track == h.track
            && (Cut(s).open == [] ==>
                  f.crc + f.format + f.overflow + f.escape == h.crc + h.format + h.overflow + h.escape)
  {
    hide Delivered, NoteAll, Cut, Sequences, Rejected, Resyncs, ScanAll;
    EmptyScan();
    RejectionsAgree(Cut(s).closed);
    FaultsBalance(Firmware, s);
    FaultsBalance(Host, s);
    ScanBounds(Firmware, Cut(s).open);
    ScanBounds(Host, Cut(s).open);
  }
}
