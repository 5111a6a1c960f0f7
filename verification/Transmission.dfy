/** telemetry_task of app/tasks.c on a link whose writes may fail, and what reaches the decoders. */
module Transmission {
  import opened Bytes
  import opened Format
  import opened Protocol
  import opened Framing
  import opened Scanning
  import opened Sequencing
  import opened Totals
  import Encoder

  /** One UART write: it succeeds, or it fails after some leading bytes of the frame have left. */
  datatype Attempt = Written | Failed(bytes: nat)

  /** A write of a run; `index` is the number of successful writes before it. */
  datatype Write = Write(result: SpectrumResult, channel: nat, chunk: nat, index: nat, attempt: Attempt)

  predicate Proper(w: Write) {
    Sized(w.result) && w.channel < CHANNELS && w.chunk < CHUNKS
  }

  ghost predicate AllProper(ws: seq<Write>) {
    forall w :: w in ws ==> Proper(w)
  }

  function BodyOf(w: Write): (b: seq<byte>)
    requires Proper(w)
    ensures |b| == RAW_LENGTH
  {
    RawBody(OnWire(w.index), w.result, w.channel, w.chunk)
  }

  function Prefix(frame: seq<byte>, attempt: Attempt): seq<byte> {
    if attempt.Failed? && attempt.bytes < |frame| then frame[..attempt.bytes] else frame
  }

  /** The bytes of a write that leave the UART. */
  function Leaves(w: Write): seq<byte>
    requires Proper(w)
  {
    Prefix(Frame(BodyOf(w)), w.attempt)
  }

  function Wire(ws: seq<Write>): seq<byte>
    requires AllProper(ws)
  {
    if ws == [] then [] else Wire(ws[..|ws| - 1]) + Leaves(ws[|ws| - 1])
  }

  /** The whole stuffed body left, so that the next delimiter closes it; a failed write can do that. */
  predicate Arrives(w: Write)
    requires Proper(w)
  {
    w.attempt.Written? || w.attempt.bytes > |Escape(BodyOf(w))|
  }

  /** Something of the body left, but not all of it. */
  predicate Broken(w: Write)
    requires Proper(w)
  {
    !Arrives(w) && w.attempt.bytes >= 2
  }

  function Arrivals(ws: seq<Write>): (a: seq<Write>)
    requires AllProper(ws)
    ensures AllProper(a)
  {
    if ws == [] then []
    else Arrivals(ws[..|ws| - 1]) + if Arrives(ws[|ws| - 1]) then [ws[|ws| - 1]] else []
  }

  function BrokenWrites(ws: seq<Write>): nat
    requires AllProper(ws)
  {
    if ws == [] then 0
    else BrokenWrites(ws[..|ws| - 1]) + if Broken(ws[|ws| - 1]) then 1 else 0
  }

  function Chunks(ws: seq<Write>): (c: seq<SpectrumChunk>)
    requires AllProper(ws)
    ensures |c| == |ws| && forall i :: 0 <= i < |ws| ==> c[i] == ChunkAt(BodyOf(ws[i]))
  {
    seq(|ws|, (i: nat) requires i < |ws| => ChunkAt(BodyOf(ws[i])))
  }

  /** The segments that n leading bytes of a frame, and then a delimiter, add to a stream. */
  function NewSegments(stuffed: seq<byte>, n: nat): seq<seq<byte>>
    requires n <= |stuffed| + 2
  {
    if n == 0 then [] else if n == |stuffed| + 2 then [stuffed, []] else [stuffed[..n - 1]]
  }

  /** A delimiter, some bytes of a body, and then a delimiter again close one more segment. */
  lemma BodyPartCuts(noise: seq<byte>, part: seq<byte>)
    requires SOF !in part
    ensures Cut(noise + [SOF] + part) == Parsed(Cut(noise + [SOF]).closed, part)
    ensures Cut(noise + [SOF] + part + [SOF]) == Parsed(Cut(noise + [SOF]).closed + [part], [])
  {
    hide Cut;
    CutAppend(noise, SOF);
    CutJoinsPlain(noise + [SOF], part);
    CutAppend(noise + [SOF] + part, SOF);
    assert [] + part == part;
  }

  /** n leading bytes of a frame: the two ways of reading them. */
  lemma LeadingBytes(noise: seq<byte>, stuffed: seq<byte>, n: nat)
    requires n <= |stuffed| + 2
    ensures var sent := ([SOF] + stuffed + [SOF])[..n];
            noise + sent == if n == 0 then noise
            else if n == |stuffed| + 2 then noise + [SOF] + stuffed + [SOF]
            else noise + [SOF] + stuffed[..n - 1]
  {
  }

  lemma PartOfFrameCuts(noise: seq<byte>, stuffed: seq<byte>, n: nat)
    requires SOF !in stuffed && n <= |stuffed| + 2
    ensures Cut(noise + ([SOF] + stuffed + [SOF])[..n] + [SOF])
         == Parsed(Cut(noise + [SOF]).closed + NewSegments(stuffed, n), [])
    ensures Cut(noise + ([SOF] + stuffed + [SOF])[..n]).open
         == if n == 0 then Cut(noise).open else if n == |stuffed| + 2 then [] else stuffed[..n - 1]
  {
    hide Cut;
    LeadingBytes(noise, stuffed, n);
    if n == 0 {
      CutAppend(noise, SOF);
    } else if n == |stuffed| + 2 {
      BodyPartCuts(noise, stuffed);
      CutAppend(noise + [SOF] + stuffed + [SOF], SOF);
      assert Cut(noise + [SOF]).closed + [stuffed] + [[]] == Cut(noise + [SOF]).closed + [stuffed, []];
    } else {
      BodyPartCuts(noise, stuffed[..n - 1]);
    }
  }

  lemma ShortSegmentFails(d: Decoder, raw: seq<byte>, n: nat)
    requires |raw| == RAW_LENGTH && n < |Escape(raw)|
    ensures BatchDelivers(Escape(raw)[..n]) == None
    ensures Close(d, Escape(raw)[..n]) != Bad(CrcFault)
    ensures Close(d, Escape(raw)[..n]).Bad? <==> n > 0
  {
    var part := Escape(raw)[..n];
    EscapeHasNoDelimiter(raw);
    ShortStuffingFails(raw, n);
    HeldBody(d, part);
    CloseRefinesBatch(d, part);
    ScanBounds(d, part);
    hide Escape, Unescape, ScanAll;
  }

  lemma WholeSegmentDelivers(d: Decoder, w: Write)
    requires Proper(w)
    ensures BatchDelivers(Escape(BodyOf(w))) == Some(ChunkAt(BodyOf(w)))
    ensures Close(d, Escape(BodyOf(w))) == Good(ChunkAt(BodyOf(w)))
  {
    hide Escape, Unescape, ChunkAt, HeaderOk, Crc.Crc16, RawBody, Close;
    var raw := BodyOf(w);
    EscapeRoundTrip(raw);
    EscapeHasNoDelimiter(raw);
    BodyRoundTrip(OnWire(w.index), w.result, w.channel, w.chunk);
    CloseRefinesBatch(d, Escape(raw));
  }

  lemma NothingDelivers(d: Decoder, segment: seq<byte>)
    requires segment == []
    ensures BatchDelivers(segment) == None && Close(d, segment) == Silent
  {
    CloseRefinesBatch(d, segment);
  }

  /** What closed segments amount to. */
  datatype Tally = Tally(delivered: seq<SpectrumChunk>, crc: nat, resyncs: nat)

  function TallyOf(d: Decoder, segments: seq<seq<byte>>): Tally {
    Tally(Delivered(segments), Rejected(d, segments, CrcFault), Resyncs(d, segments))
  }

  lemma TallyAppend(d: Decoder, segments: seq<seq<byte>>, last: seq<byte>)
    ensures var t := TallyOf(d, segments);
            TallyOf(d, segments + [last])
            == Tally(t.delivered + (match BatchDelivers(last) case None => [] case Some(c) => [c]),
                     t.crc + (if Close(d, last) == Bad(CrcFault) then 1 else 0),
                     t.resyncs + (if Close(d, last).Bad? then 1 else 0))
  {
    hide BatchDelivers, Close;
    DeliveredAppend(segments, last);
    RejectedAppend(d, segments, last, CrcFault);
  }

  function BytesLeft(w: Write): (n: nat)
    requires Proper(w)
    ensures n <= |Escape(BodyOf(w))| + 2
  {
    var all := |Escape(BodyOf(w))| + 2;
    if w.attempt.Failed? && w.attempt.bytes < all then w.attempt.bytes else all
  }

  lemma WriteTallies(d: Decoder, segments: seq<seq<byte>>, w: Write)
    requires Proper(w)
    ensures var t := TallyOf(d, segments);
            TallyOf(d, segments + NewSegments(Escape(BodyOf(w)), BytesLeft(w)))
            == Tally(t.delivered + (if Arrives(w) then [ChunkAt(BodyOf(w))] else []), t.crc,
                     t.resyncs + (if Broken(w) then 1 else 0))
  {
    hide Escape, BodyOf, ChunkAt, TallyOf, BatchDelivers, Close;
    var stuffed, n := Escape(BodyOf(w)), BytesLeft(w);
    if n == 0 {
      assert segments + [] == segments;
    } else if n <= |stuffed| {
      ShortSegmentFails(d, BodyOf(w), n - 1);
      TallyAppend(d, segments, stuffed[..n - 1]);
    } else {
      WholeSegmentDelivers(d, w);
      TallyAppend(d, segments, stuffed);
      if n == |stuffed| + 1 {
        assert stuffed[..n - 1] == stuffed;
      } else {
        NothingDelivers(d, []);
        TallyAppend(d, segments + [stuffed], []);
        assert segments + [stuffed] + [[]] == segments + [stuffed, []];
      }
    }
  }

  lemma ChunksAppend(ws: seq<Write>, w: Write)
    requires AllProper(ws) && Proper(w)
    ensures var more := if Arrives(w) then [w] else [];
            && AllProper(ws + more)
            && Chunks(ws + more) == Chunks(ws) + if Arrives(w) then [ChunkAt(BodyOf(w))] else []
  {
    hide ChunkAt, BodyOf, Arrives;
  }

  lemma WireAppend(ws: seq<Write>, w: Write)
    requires AllProper(ws) && Proper(w)
    ensures AllProper(ws + [w])
    ensures Wire(ws + [w]) == Wire(ws) + Leaves(w)
    ensures Arrivals(ws + [w]) == Arrivals(ws) + if Arrives(w) then [w] else []
    ensures BrokenWrites(ws + [w]) == BrokenWrites(ws) + if Broken(w) then 1 else 0
  {
    assert (ws + [w])[..|ws + [w]| - 1] == ws;
  }

  lemma LeavesBytes(w: Write)
    requires Proper(w)
    ensures Leaves(w) == ([SOF] + Escape(BodyOf(w)) + [SOF])[..BytesLeft(w)]
  {
    hide Escape, BodyOf;
  }

  /** What one write closes, and what it leaves open. */
  lemma WriteCuts(noise: seq<byte>, w: Write)
    requires Proper(w)
    ensures var stuffed, n := Escape(BodyOf(w)), BytesLeft(w);
            && Cut(noise + Leaves(w) + [SOF]) == Parsed(Cut(noise + [SOF]).closed + NewSegments(stuffed, n), [])
            && Cut(noise + Leaves(w)).open
               == if n == 0 then Cut(noise).open else if n == |stuffed| + 2 then [] else stuffed[..n - 1]
  {
    hide Cut, Escape, BodyOf, Leaves, BytesLeft, NewSegments;
    EscapeHasNoDelimiter(BodyOf(w));
    LeavesBytes(w);
    PartOfFrameCuts(noise, Escape(BodyOf(w)), BytesLeft(w));
  }

  lemma Associates<T>(a: seq<T>, b: seq<T>, c: seq<T>)
    ensures a + (b + c) == a + b + c
  {
  }

  lemma OneWriteTallies(d: Decoder, noise: seq<byte>, rest: seq<Write>, w: Write)
    requires AllProper(rest) && Proper(w)
    ensures AllProper(rest + [w])
    ensures var before := TallyOf(d, Cut(noise + Wire(rest) + [SOF]).closed);
            && Cut(noise + Wire(rest + [w]) + [SOF]).open == []
            && TallyOf(d, Cut(noise + Wire(rest + [w]) + [SOF]).closed)
               == Tally(before.delivered + (if Arrives(w) then [ChunkAt(BodyOf(w))] else []), before.crc,
                        before.resyncs + (if Broken(w) then 1 else 0))
  {
    hide TallyOf, Cut, Escape, BodyOf, ChunkAt, Chunks, Arrives, Broken, Wire, Leaves, NewSegments, BytesLeft;
    WireAppend(rest, w);
    Associates(noise, Wire(rest), Leaves(w));
    WriteCuts(noise + Wire(rest), w);
    WriteTallies(d, Cut(noise + Wire(rest) + [SOF]).closed, w);
  }

  /** After any noise, the run closes every segment it opened, and those amount to its arrivals and its
      broken writes. */
  ghost predicate Tallied(d: Decoder, noise: seq<byte>, ws: seq<Write>)
    requires AllProper(ws)
  {
    var before, after := Cut(noise + [SOF]), Cut(noise + Wire(ws) + [SOF]);
    var t := TallyOf(d, before.closed);
    && after.open == []
    && TallyOf(d, after.closed)
       == Tally(t.delivered + Chunks(Arrivals(ws)), t.crc, t.resyncs + BrokenWrites(ws))
  }

  lemma NothingTallied(d: Decoder, noise: seq<byte>, ws: seq<Write>)
    requires ws == []
    ensures Tallied(d, noise, ws)
  {
    assert noise + Wire(ws) == noise;
    assert Chunks(Arrivals(ws)) == [];
    hide TallyOf, Cut;
    CutAppend(noise, SOF);
    var t := TallyOf(d, Cut(noise + [SOF]).closed);
    assert t.delivered + [] == t.delivered;
  }

  lemma TalliedStep(d: Decoder, noise: seq<byte>, rest: seq<Write>, w: Write)
    requires AllProper(rest) && Proper(w) && Tallied(d, noise, rest)
    ensures AllProper(rest + [w]) && Tallied(d, noise, rest + [w])
  {
    hide TallyOf, Cut, Chunks, ChunkAt, BodyOf, Arrives, Broken, Wire, Arrivals, BrokenWrites, AllProper, Proper;
    OneWriteTallies(d, noise, rest, w);
    WireAppend(rest, w);
    ChunksAppend(Arrivals(rest), w);
    Associates(TallyOf(d, Cut(noise + [SOF]).closed).delivered, Chunks(Arrivals(rest)),
               if Arrives(w) then [ChunkAt(BodyOf(w))] else []);
  }

  lemma {:induction false} WireTallies(d: Decoder, noise: seq<byte>, ws: seq<Write>)
    requires AllProper(ws)
    ensures Tallied(d, noise, ws)
  {
    if ws == [] {
      NothingTallied(d, noise, ws);
    } else {
      var rest, w := ws[..|ws| - 1], ws[|ws| - 1];
      assert ws == rest + [w] && AllProper(rest) && Proper(w);
      hide Tallied, AllProper, Proper;
      WireTallies(d, noise, rest);
      TalliedStep(d, noise, rest, w);
    }
  }

  function WrittenCount(ws: seq<Write>): nat {
    if ws == [] then 0
    else WrittenCount(ws[..|ws| - 1]) + if ws[|ws| - 1].attempt.Written? then 1 else 0
  }

  /** The task numbers each write with the count of those that succeeded before it. */
  ghost predicate Numbered(ws: seq<Write>) {
    ws == [] || (Numbered(ws[..|ws| - 1]) && ws[|ws| - 1].index == WrittenCount(ws[..|ws| - 1]))
  }

  /** Arrivals right after a frame that arrived although its write failed: they repeat its number. */
  function Repeated(ws: seq<Write>): nat
    requires AllProper(ws)
  {
    if ws == [] then 0
    else
      var before := Arrivals(ws[..|ws| - 1]);
      Repeated(ws[..|ws| - 1])
      + if Arrives(ws[|ws| - 1]) && before != [] && before[|before| - 1].attempt.Failed? then 1 else 0
  }

  function Indices(ws: seq<Write>): (n: seq<nat>)
    ensures |n| == |ws| && forall i :: 0 <= i < |ws| ==> n[i] == ws[i].index
  {
    seq(|ws|, (i: nat) requires i < |ws| => ws[i].index)
  }

  /** Indices that start at 0 and go up by at most one. */
  ghost predicate Steady(indices: seq<nat>, repeats: nat) {
    if indices == [] then repeats == 0
    else
      && indices[0] == 0 && InWindow(indices) && Highest(indices) == indices[|indices| - 1]
      && Advances(indices) == indices[|indices| - 1]
      && Repeats(indices) == repeats && Stragglers(indices) == 0
  }

  lemma SteadyStep(indices: seq<nat>, repeats: nat, n: nat)
    requires Steady(indices, repeats)
    requires if indices == [] then n == 0 else n == indices[|indices| - 1] || n == indices[|indices| - 1] + 1
    ensures Steady(indices + [n], repeats + if indices != [] && n == indices[|indices| - 1] then 1 else 0)
  {
    assert (indices + [n])[..|indices + [n]| - 1] == indices;
  }

  /** Where the numbering stands after the last arrival. */
  ghost predicate LastArrival(ws: seq<Write>)
    requires AllProper(ws)
  {
    var a := Arrivals(ws);
    if a == [] then WrittenCount(ws) == 0
    else
      var last := a[|a| - 1];
      WrittenCount(ws) == if last.attempt.Written? then last.index + 1 else last.index
  }

  lemma WrittenArrives(w: Write)
    requires Proper(w)
    ensures w.attempt.Written? ==> Arrives(w)
  {
  }

  lemma NumberedAppend(ws: seq<Write>, w: Write)
    requires AllProper(ws) && Proper(w)
    ensures AllProper(ws + [w])
    ensures WrittenCount(ws + [w]) == WrittenCount(ws) + if w.attempt.Written? then 1 else 0
    ensures Numbered(ws + [w]) <==> Numbered(ws) && w.index == WrittenCount(ws)
    ensures Arrivals(ws + [w]) == Arrivals(ws) + if Arrives(w) then [w] else []
    ensures var before := Arrivals(ws);
            Repeated(ws + [w])
            == Repeated(ws)
            + if Arrives(w) && before != [] && before[|before| - 1].attempt.Failed? then 1 else 0
  {
    assert (ws + [w])[..|ws + [w]| - 1] == ws;
  }

  lemma LastArrivalAppend(ws: seq<Write>, w: Write)
    requires AllProper(ws) && Proper(w) && w.index == WrittenCount(ws) && LastArrival(ws)
    ensures AllProper(ws + [w]) && LastArrival(ws + [w])
  {
    hide Arrives, Arrivals, Repeated, WrittenCount, Numbered, Proper, AllProper;
    NumberedAppend(ws, w);
    WrittenArrives(w);
    assert Arrivals(ws) + [] == Arrivals(ws);
  }

  lemma IndicesAppend(ws: seq<Write>, w: Write)
    ensures Indices(ws + [w]) == Indices(ws) + [w.index]
  {
  }

  lemma SteadyAppend(ws: seq<Write>, w: Write)
    requires AllProper(ws) && Proper(w) && w.index == WrittenCount(ws)
    requires Steady(Indices(Arrivals(ws)), Repeated(ws)) && LastArrival(ws)
    ensures AllProper(ws + [w])
    ensures Steady(Indices(Arrivals(ws + [w])), Repeated(ws + [w]))
  {
    hide Steady, Arrives, Arrivals, Repeated, WrittenCount, Numbered, Proper, AllProper;
    NumberedAppend(ws, w);
    var before := Arrivals(ws);
    if Arrives(w) {
      SteadyStep(Indices(before), Repeated(ws), w.index);
      IndicesAppend(before, w);
    } else {
      assert before + [] == before;
    }
  }

  lemma NumberedBefore(rest: seq<Write>, w: Write)
    requires AllProper(rest + [w]) && Numbered(rest + [w])
    ensures AllProper(rest) && Proper(w) && Numbered(rest) && w.index == WrittenCount(rest)
  {
    assert (rest + [w])[..|rest + [w]| - 1] == rest;
    assert w in rest + [w];
    assert forall x :: x in rest ==> x in rest + [w];
  }

  lemma NothingArrived(ws: seq<Write>)
    requires ws == []
    ensures Steady(Indices(Arrivals(ws)), Repeated(ws)) && LastArrival(ws)
  {
    assert Indices(Arrivals(ws)) == [];
  }

  lemma {:induction false} ArrivalsAreSteady(ws: seq<Write>)
    requires AllProper(ws) && Numbered(ws)
    ensures Steady(Indices(Arrivals(ws)), Repeated(ws)) && LastArrival(ws)
  {
    if ws == [] {
      NothingArrived(ws);
    } else {
      hide Steady, Arrivals, Repeated, LastArrival, Numbered, AllProper, Proper, WrittenCount, Indices;
      var rest, w := ws[..|ws| - 1], ws[|ws| - 1];
      assert ws == rest + [w];
      NumberedBefore(rest, w);
      ArrivalsAreSteady(rest);
      SteadyAppend(rest, w);
      LastArrivalAppend(rest, w);
    }
  }

  lemma ChunkSequence(w: Write)
    requires Proper(w)
    ensures ChunkAt(BodyOf(w)).sequence == OnWire(w.index)
  {
    hide ChunkAt, HeaderOk, Crc.Crc16, RawBody, MagnitudeClose;
    BodyRoundTrip(OnWire(w.index), w.result, w.channel, w.chunk);
  }

  lemma SteadyAccounting(indices: seq<nat>, repeats: nat)
    requires Steady(indices, repeats)
    ensures var t := NoteAll(AllOnWire(indices));
            t.lost == 0 && t.outOfOrder == 0 && t.duplicates == repeats
  {
    if indices == [] {
      assert AllOnWire(indices) == [];
    } else {
      AccountingIsExact(indices);
    }
  }

  lemma EmptySegmentTally(d: Decoder, noise: seq<byte>)
    requires noise == []
    ensures TallyOf(d, Cut(noise + [SOF]).closed) == Tally([], 0, 0)
  {
    var none: seq<seq<byte>> := [];
    CutAppend(noise, SOF);
    NothingDelivers(d, noise);
    hide Close, BatchDelivers;
    TallyAppend(d, none, noise);
    assert none + [noise] == [noise];
    assert TallyOf(d, none) == Tally([], 0, 0);
  }

  /** End to end, for every run of writes numbered by the task and every way they fail: what arrives is
      delivered once each and in order, nothing is ever counted as lost or out of order (however often
      the sixteen-bit number wraps), no checksum ever fails, and every error or resynchronisation is one
      write that broke off inside the body. */
  lemma RunArrives(d: Decoder, ws: seq<Write>)
    requires AllProper(ws) && Numbered(ws)
    ensures StreamDelivers(Wire(ws) + [SOF]) == Chunks(Arrivals(ws))
    ensures var c := CountersOf(d, Wire(ws) + [SOF]);
            && c.frames == |Arrivals(ws)|
            && c.track.lost == 0 && c.track.outOfOrder == 0 && c.track.duplicates == Repeated(ws)
            && c.crc == 0 && c.resync == BrokenWrites(ws)
            && c.format + c.overflow + c.escape == BrokenWrites(ws)
  {
    hide Steady, Arrives, Broken, Wire, Cut, ScanAll, BodyOf, ChunkAt, Delivered, Rejected, Resyncs, NoteAll;
    var none: seq<byte> := [];
    var s := Wire(ws) + [SOF];
    assert none + Wire(ws) + [SOF] == s;
    WireTallies(d, none, ws);
    EmptySegmentTally(d, none);
    assert [] + Chunks(Arrivals(ws)) == Chunks(Arrivals(ws));
    ArrivalsAreSteady(ws);
    SteadyAccounting(Indices(Arrivals(ws)), Repeated(ws));
    SequencesOnWire(Arrivals(ws));
    FaultsBalance(d, s);
    NothingOpen(d, Cut(s).open);
  }

  lemma SequencesOnWire(ws: seq<Write>)
    requires AllProper(ws)
    ensures Sequences(Chunks(ws)) == AllOnWire(Indices(ws))
  {
    hide ChunkAt, BodyOf;
    forall i | 0 <= i < |ws|
      ensures Sequences(Chunks(ws))[i] == AllOnWire(Indices(ws))[i]
    {
      ChunkSequence(ws[i]);
    }
  }

  lemma NothingOpen(d: Decoder, open: seq<byte>)
    requires open == []
    ensures !ScanAll(d, open).Dropping? && Noticed(d, open, CrcFault) == 0
  {
  }

  /** The arrival that still waits for a delimiter: a last write that failed after its whole body, but not
      its closing delimiter, had left. */
  function Waiting(ws: seq<Write>): (a: seq<Write>)
    requires AllProper(ws)
    ensures AllProper(a)
  {
    if ws == [] then []
    else
      var w := ws[|ws| - 1];
      if BytesLeft(w) == 0 then Waiting(ws[..|ws| - 1])
      else if BytesLeft(w) == |Escape(BodyOf(w))| + 1 then [w]
      else []
  }

  /** What a stream would deliver if its open part were closed. */
  function OpenDelivers(open: seq<byte>): seq<SpectrumChunk> {
    match BatchDelivers(open) case None => [] case Some(chunk) => [chunk]
  }

  lemma OpenAfterWrite(w: Write, open: seq<byte>)
    requires Proper(w) && BytesLeft(w) > 0
    requires open == if BytesLeft(w) == |Escape(BodyOf(w))| + 2 then [] else Escape(BodyOf(w))[..BytesLeft(w) - 1]
    ensures OpenDelivers(open)
         == if BytesLeft(w) == |Escape(BodyOf(w))| + 1 then [ChunkAt(BodyOf(w))] else []
  {
    hide Escape, BodyOf, ChunkAt, BatchDelivers, BytesLeft, Close;
    var stuffed, n := Escape(BodyOf(w)), BytesLeft(w);
    if n == |stuffed| + 2 {
      NothingDelivers(Host, open);
    } else if n == |stuffed| + 1 {
      assert stuffed[..n - 1] == stuffed;
      WholeSegmentDelivers(Host, w);
    } else {
      ShortSegmentFails(Host, BodyOf(w), n - 1);
    }
  }

  lemma WaitingAppend(rest: seq<Write>, w: Write)
    requires AllProper(rest) && Proper(w)
    ensures AllProper(rest + [w])
    ensures Waiting(rest + [w])
         == if BytesLeft(w) == 0 then Waiting(rest) else if BytesLeft(w) == |Escape(BodyOf(w))| + 1 then [w] else []
  {
    assert (rest + [w])[..|rest + [w]| - 1] == rest;
  }

  lemma WaitingStep(rest: seq<Write>, w: Write)
    requires AllProper(rest) && Proper(w) && OpenDelivers(Cut(Wire(rest)).open) == Chunks(Waiting(rest))
    ensures AllProper(rest + [w])
    ensures OpenDelivers(Cut(Wire(rest + [w])).open) == Chunks(Waiting(rest + [w]))
  {
    hide Cut, Escape, BodyOf, ChunkAt, BytesLeft, Wire, Leaves, Waiting, OpenDelivers, NewSegments;
    WireAppend(rest, w);
    WaitingAppend(rest, w);
    WriteCuts(Wire(rest), w);
    if BytesLeft(w) > 0 {
      OpenAfterWrite(w, Cut(Wire(rest + [w])).open);
    }
  }

  lemma NothingWaits(ws: seq<Write>)
    requires ws == []
    ensures OpenDelivers(Cut(Wire(ws)).open) == Chunks(Waiting(ws))
  {
    NothingDelivers(Host, Cut(Wire(ws)).open);
  }

  lemma {:induction false} OpenPartWaits(ws: seq<Write>)
    requires AllProper(ws)
    ensures OpenDelivers(Cut(Wire(ws)).open) == Chunks(Waiting(ws))
  {
    if ws == [] {
      NothingWaits(ws);
    } else {
      var rest, w := ws[..|ws| - 1], ws[|ws| - 1];
      assert ws == rest + [w] && AllProper(rest) && Proper(w);
      hide Cut, Wire, Waiting, OpenDelivers, AllProper, Proper;
      OpenPartWaits(rest);
      WaitingStep(rest, w);
    }
  }

  /** Without a further delimiter: everything that arrives has been delivered, but for the one frame that
      may wait for its delimiter. */
  lemma RunDelivers(ws: seq<Write>)
    requires AllProper(ws) && Numbered(ws)
    ensures StreamDelivers(Wire(ws)) + Chunks(Waiting(ws)) == Chunks(Arrivals(ws))
  {
    hide Cut, Wire, Waiting, Delivered, BatchDelivers, Arrivals, CountersOf, BrokenWrites, Repeated;
    RunArrives(Host, ws);
    OpenPartWaits(ws);
    CutAppend(Wire(ws), SOF);
    DeliveredAppend(Cut(Wire(ws)).closed, Cut(Wire(ws)).open);
  }

  /** Failed writes that leave out at least the last byte of the body. */
  ghost predicate FailuresFallShort(ws: seq<Write>)
    requires AllProper(ws)
  {
    forall w :: w in ws && w.attempt.Failed? ==> !Arrives(w)
  }

  function Successes(ws: seq<Write>): seq<Write> {
    if ws == [] then []
    else Successes(ws[..|ws| - 1]) + if ws[|ws| - 1].attempt.Written? then [ws[|ws| - 1]] else []
  }

  /** Then exactly the successful writes are delivered, and no number is repeated. */
  lemma {:induction false} SuccessesArrive(ws: seq<Write>)
    requires AllProper(ws) && FailuresFallShort(ws)
    ensures Arrivals(ws) == Successes(ws) && Repeated(ws) == 0
    ensures forall w :: w in Arrivals(ws) ==> w.attempt.Written?
    ensures |Successes(ws)| == WrittenCount(ws)
  {
    if ws != [] {
      hide Arrives;
      var rest, w := ws[..|ws| - 1], ws[|ws| - 1];
      assert ws == rest + [w];
      assert forall x :: x in rest ==> x in ws;
      SuccessesArrive(rest);
      WrittenArrives(w);
    }
  }

  lemma WaitsOnlyAfterFailure(w: Write)
    requires Proper(w)
    ensures BytesLeft(w) == |Escape(BodyOf(w))| + 1 ==> w.attempt.Failed? && Arrives(w)
  {
    hide Escape, BodyOf;
  }

  lemma FallShortBefore(rest: seq<Write>, w: Write)
    requires AllProper(rest + [w]) && FailuresFallShort(rest + [w])
    ensures AllProper(rest) && FailuresFallShort(rest) && Proper(w) && (w.attempt.Failed? ==> !Arrives(w))
  {
    hide Arrives, Proper;
    assert forall x :: x in rest ==> x in rest + [w];
    assert w in rest + [w];
  }

  lemma {:induction false} NoneWaits(ws: seq<Write>)
    requires AllProper(ws) && FailuresFallShort(ws)
    ensures Waiting(ws) == []
  {
    if ws != [] {
      var rest, w := ws[..|ws| - 1], ws[|ws| - 1];
      assert ws == rest + [w];
      hide AllProper, FailuresFallShort, Waiting, Arrives, Proper;
      FallShortBefore(rest, w);
      NoneWaits(rest);
      WaitsOnlyAfterFailure(w);
      WaitingAppend(rest, w);
    }
  }

  /** In terms of what was written: if failed writes leave out at least the last body byte, the stream as
      it is delivers exactly the successful writes. */
  lemma SuccessesDelivered(ws: seq<Write>)
    requires AllProper(ws) && Numbered(ws) && FailuresFallShort(ws)
    ensures AllProper(Successes(ws)) && StreamDelivers(Wire(ws)) == Chunks(Successes(ws))
  {
    SuccessesArrive(ws);
    NoneWaits(ws);
    hide StreamDelivers, Wire, Arrivals, Successes, Waiting, FailuresFallShort, Numbered;
    RunDelivers(ws);
    assert StreamDelivers(Wire(ws)) + [] == StreamDelivers(Wire(ws));
  }

  /** A failed write after which the whole body had left does arrive, and the next success repeats its
      number: the one way in which this link produces a duplicate. */
  lemma CompleteFailureRepeats(r: SpectrumResult, bytes: nat, next: SpectrumResult)
    requires Sized(r) && Sized(next)
    requires bytes > |Escape(RawBody(0, r, 0, 0))|
    ensures var ws := [Write(r, 0, 0, 0, Failed(bytes)), Write(next, 0, 0, 0, Written)];
            && AllProper(ws) && Numbered(ws)
            && CountersOf(Host, Wire(ws) + [SOF]).track.duplicates == 1
  {
    hide Escape, RawBody, Wire, CountersOf;
    var none: seq<Write> := [];
    var a, b := Write(r, 0, 0, 0, Failed(bytes)), Write(next, 0, 0, 0, Written);
    assert none + [a] == [a] && [a] + [b] == [a, b];
    assert Arrivals(none) == [] && WrittenCount(none) == Repeated(none) == 0 && Numbered(none);
    assert Arrives(a) && Arrives(b);
    hide Arrivals, WrittenCount, Numbered, Repeated, Arrives;
    NumberedAppend(none, a);
    NumberedAppend([a], b);
    RunArrives(Host, [a, b]);
  }

  predicate AllWritten(attempts: seq<Attempt>, k: nat)
    requires k <= |attempts|
  {
    forall i :: 0 <= i < k ==> attempts[i].Written?
  }

  /** What the task writes for one result: channel by channel, chunk by chunk, up to the first failure. */
  function WritesUpTo(r: SpectrumResult, n: nat, attempts: seq<Attempt>, k: nat): seq<Write>
    requires k <= |attempts|
  {
    if k == 0 then []
    else
      WritesUpTo(r, n, attempts, k - 1)
      + if AllWritten(attempts, k - 1)
      then [Write(r, (k - 1) / CHUNKS, (k - 1) % CHUNKS, n + (k - 1), attempts[k - 1])] else []
  }

  lemma {:induction false} NothingAfterFailure(r: SpectrumResult, n: nat, attempts: seq<Attempt>, k: nat, m: nat)
    requires k <= m <= |attempts| && !AllWritten(attempts, k)
    ensures !AllWritten(attempts, m) && WritesUpTo(r, n, attempts, m) == WritesUpTo(r, n, attempts, k)
  {
    if m > k {
      NothingAfterFailure(r, n, attempts, k, m - 1);
    }
  }

  const WRITES := CHANNELS * CHUNKS

  /** The task's static frame buffer and its sequence number, with the bytes that left the UART. */
  class TelemetryTask {
    var sequence: u16
    var frame: array<byte>
    var wire: seq<byte>
    ghost var writes: seq<Write>

    ghost predicate Valid()
      reads this
    {
      && frame.Length == MAX_FRAME
      && AllProper(writes) && Numbered(writes)
      && wire == Wire(writes) && sequence == OnWire(WrittenCount(writes))
    }

    constructor ()
      ensures Valid() && fresh(frame) && writes == [] && wire == []
    {
      sequence, wire, writes := 0, [], [];
      frame := new byte[MAX_FRAME](i => 0);
    }

    /** platform_uart_write_dma: some prefix of the frame leaves, the whole of it if this succeeds. */
    method UartWrite(length: nat, attempt: Attempt) returns (ok: bool)
      requires length <= frame.Length
      modifies this`wire
      ensures wire == old(wire) + Prefix(frame[..length], attempt)
      ensures ok == attempt.Written?
    {
      wire := wire + Prefix(frame[..length], attempt);
      return attempt.Written?;
    }

    method SendChunk(r: SpectrumResult, channel: nat, chunk: nat, attempt: Attempt) returns (ok: bool)
      requires Valid() && Sized(r) && channel < CHANNELS && chunk < CHUNKS
      modifies this, frame
      ensures Valid() && frame == old(frame)
      ensures writes == old(writes) + [Write(r, channel, chunk, WrittenCount(old(writes)), attempt)]
      ensures ok == attempt.Written?
    {
      hide Wire, Numbered, WrittenCount, Prefix, Escape, RawBody;
      ghost var w := Write(r, channel, chunk, WrittenCount(writes), attempt);
      WireAppend(writes, w);
      NumberedAppend(writes, w);
      var length := Encoder.EncodeSpectrumChunk(sequence, r, channel, chunk, frame, frame.Length);
      assert frame[..length] == Frame(BodyOf(w));
      writes := writes + [w];
      ok := UartWrite(length, attempt);
      if length == 0 || !ok {
        return false;
      }
      sequence := (sequence + 1) % TWO_16;
    }

    /** One result: the writes stop at the first failure; the vote follows only if all eight succeed. */
    method SendResult(r: SpectrumResult, attempts: seq<Attempt>) returns (transmitted: bool)
      requires Valid() && Sized(r) && |attempts| == WRITES
      modifies this, frame
      ensures Valid() && frame == old(frame)
      ensures writes == old(writes) + WritesUpTo(r, WrittenCount(old(writes)), attempts, WRITES)
      ensures transmitted <==> AllWritten(attempts, WRITES)
    {
      hide Wire, Numbered, WrittenCount, Valid;
      ghost var n := WrittenCount(writes);
      transmitted := true;
      var channel := 0;
      ghost var k := 0;
      while channel < CHANNELS && transmitted
        invariant channel <= CHANNELS && Valid() && frame == old(frame)
        invariant k <= WRITES && writes == old(writes) + WritesUpTo(r, n, attempts, k)
        invariant transmitted ==> k == CHUNKS * channel && WrittenCount(writes) == n + k
        invariant transmitted <==> AllWritten(attempts, k)
      {
        var chunk := 0;
        while chunk < CHUNKS
          invariant chunk <= CHUNKS && k == CHUNKS * channel + chunk && Valid() && frame == old(frame)
          invariant writes == old(writes) + WritesUpTo(r, n, attempts, k)
          invariant WrittenCount(writes) == n + k && AllWritten(attempts, k) && transmitted
        {
          ghost var before := writes;
          var ok := SendChunk(r, channel, chunk, attempts[CHUNKS * channel + chunk]);
          CountAppend(before, writes[|before|]);
          k := k + 1;
          if !ok {
            transmitted := false;
            break;
          }
          chunk := chunk + 1;
        }
        channel := channel + 1;
      }
      if !transmitted {
        NothingAfterFailure(r, n, attempts, k, WRITES);
      }
    }
  }

  lemma CountAppend(ws: seq<Write>, w: Write)
    ensures WrittenCount(ws + [w]) == WrittenCount(ws) + if w.attempt.Written? then 1 else 0
  {
    assert (ws + [w])[..|ws + [w]| - 1] == ws;
  }
}
