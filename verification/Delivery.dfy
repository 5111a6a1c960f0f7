/** From the results the telemetry task takes to the spectra the host assembles, over whole runs. */
module Delivery {
  import opened Format
  import opened Protocol
  import opened Framing
  import opened Sequencing
  import opened Transmission
  import opened HostDecoder
  import opened Assembler
  import opened Reassembly

  /** One result and how its eight writes would fare; those after a failure are not made. */
  datatype Sending = Sending(result: SpectrumResult, attempts: seq<Attempt>)

  ghost predicate Sendable(s: Sending) {
    Sized(s.result) && |s.attempts| == WRITES
  }

  ghost predicate AllSendable(ss: seq<Sending>) {
    forall i :: 0 <= i < |ss| ==> Sendable(ss[i])
  }

  /** The writes of a whole run. */
  function RunWrites(ss: seq<Sending>): seq<Write>
    requires AllSendable(ss)
  {
    if ss == [] then []
    else
      var before, s := RunWrites(ss[..|ss| - 1]), ss[|ss| - 1];
      before + WritesUpTo(s.result, WrittenCount(before), s.attempts, WRITES)
  }

  function NthWrite(s: Sending, n: nat, k: nat): Write
    requires k < |s.attempts|
  {
    Write(s.result, k / CHUNKS, k % CHUNKS, n + k, s.attempts[k])
  }

  lemma WritesStep(s: Sending, n: nat, k: nat)
    requires Sendable(s) && k < WRITES
    ensures Proper(NthWrite(s, n, k))
    ensures WritesUpTo(s.result, n, s.attempts, k + 1)
         == WritesUpTo(s.result, n, s.attempts, k) + if AllWritten(s.attempts, k) then [NthWrite(s, n, k)] else []
    ensures AllWritten(s.attempts, k + 1) <==> AllWritten(s.attempts, k) && s.attempts[k].Written?
  {
  }

  /** The first k writes of a sending continue the numbering of the run. */
  ghost predicate Continues(ws: seq<Write>, s: Sending, k: nat)
    requires Sendable(s) && k <= WRITES
  {
    var next := ws + WritesUpTo(s.result, WrittenCount(ws), s.attempts, k);
    && AllProper(next) && Numbered(next)
    && (AllWritten(s.attempts, k) ==> WrittenCount(next) == WrittenCount(ws) + k)
  }

  lemma NumberedStep(ws: seq<Write>, s: Sending, k: nat)
    requires Sendable(s) && k < WRITES && Continues(ws, s, k)
    ensures Continues(ws, s, k + 1)
  {
    hide Numbered, WrittenCount, WritesUpTo, AllWritten, NthWrite, AllProper, Proper, Arrivals, Repeated;
    var n := WrittenCount(ws);
    WritesStep(s, n, k);
    var before := WritesUpTo(s.result, n, s.attempts, k);
    if AllWritten(s.attempts, k) {
      var w := NthWrite(s, n, k);
      IndexOfNth(s, n, k);
      NumberedAppend(ws + before, w);
      assert ws + before + [w] == ws + (before + [w]);
    } else {
      assert before + [] == before;
    }
  }

  lemma {:induction false} SendingIsNumbered(ws: seq<Write>, s: Sending, k: nat)
    requires AllProper(ws) && Numbered(ws) && Sendable(s) && k <= WRITES
    ensures Continues(ws, s, k)
  {
    if k == 0 {
      assert ws + [] == ws;
    } else {
      hide Continues;
      SendingIsNumbered(ws, s, k - 1);
      NumberedStep(ws, s, k - 1);
    }
  }

  lemma IndexOfNth(s: Sending, n: nat, k: nat)
    requires k < |s.attempts|
    ensures var w := NthWrite(s, n, k); w.index == n + k && w.attempt == s.attempts[k]
  {
  }

  lemma {:induction false} RunIsNumbered(ss: seq<Sending>)
    requires AllSendable(ss)
    ensures AllProper(RunWrites(ss)) && Numbered(RunWrites(ss))
  {
    if ss != [] {
      RunIsNumbered(ss[..|ss| - 1]);
      SendingIsNumbered(RunWrites(ss[..|ss| - 1]), ss[|ss| - 1], WRITES);
    }
  }

  lemma {:induction false} WritesAreProper(s: Sending, n: nat, k: nat)
    requires Sendable(s) && k <= WRITES
    ensures AllProper(WritesUpTo(s.result, n, s.attempts, k))
  {
    if k > 0 {
      WritesAreProper(s, n, k - 1);
    }
  }

  /** The frames of one result that arrive. */
  function Arrived(s: Sending, n: nat): (a: seq<Write>)
    requires Sendable(s)
    ensures AllProper(a)
  {
    WritesAreProper(s, n, WRITES);
    Arrivals(WritesUpTo(s.result, n, s.attempts, WRITES))
  }

  /** They are its first ones, in order. */
  ghost predicate Leading(a: seq<Write>, s: Sending, n: nat)
    requires Sendable(s)
  {
    && |a| <= WRITES
    && forall i :: 0 <= i < |a| ==> a[i] == Write(s.result, i / CHUNKS, i % CHUNKS, n + i, s.attempts[i])
  }

  lemma LeadStep(a: seq<Write>, s: Sending, n: nat)
    requires Sendable(s) && Leading(a, s, n) && |a| < WRITES
    ensures Leading(a + [NthWrite(s, n, |a|)], s, n)
  {
  }

  lemma NoArrivals(s: Sending, n: nat, k: nat)
    requires Sendable(s) && k == 0
    ensures var none := WritesUpTo(s.result, n, s.attempts, k);
            none == [] && AllProper(none) && Arrivals(none) == [] && Leading([], s, n)
  {
  }

  lemma {:induction false} ArrivalsLead(s: Sending, n: nat, k: nat)
    requires Sendable(s) && k <= WRITES
    ensures AllProper(WritesUpTo(s.result, n, s.attempts, k))
    ensures var a := Arrivals(WritesUpTo(s.result, n, s.attempts, k));
            Leading(a, s, n) && |a| <= k && (AllWritten(s.attempts, k) ==> |a| == k)
  {
    hide Arrives, Arrivals, WritesUpTo, AllWritten, AllProper, Proper, WrittenCount, Numbered, Repeated;
    hide NthWrite, Leading;
    if k == 0 {
      NoArrivals(s, n, k);
    } else {
      ArrivalsLead(s, n, k - 1);
      WritesStep(s, n, k - 1);
      var before := WritesUpTo(s.result, n, s.attempts, k - 1);
      if AllWritten(s.attempts, k - 1) {
        var w := NthWrite(s, n, k - 1);
        IndexOfNth(s, n, k - 1);
        NumberedAppend(before, w);
        WrittenArrives(w);
        LeadStep(Arrivals(before), s, n);
        assert Arrivals(before) + [] == Arrivals(before);
      } else {
        assert before + [] == before;
      }
    }
  }

  lemma AllProperJoin(a: seq<Write>, b: seq<Write>)
    requires AllProper(a) && AllProper(b)
    ensures AllProper(a + b)
  {
  }

  lemma LastApart<T>(a: seq<T>, rest: seq<T>, x: T)
    ensures a + (rest + [x]) == a + rest + [x]
  {
  }

  lemma NothingJoined(a: seq<Write>, b: seq<Write>)
    requires AllProper(a) && b == []
    ensures AllProper(a + b) && Arrivals(a + b) == Arrivals(a) + Arrivals(b)
  {
    assert a + b == a && Arrivals(b) == [];
    hide Arrivals;
  }

  lemma {:induction false} ArrivalsJoin(a: seq<Write>, b: seq<Write>)
    requires AllProper(a) && AllProper(b)
    ensures AllProper(a + b) && Arrivals(a + b) == Arrivals(a) + Arrivals(b)
  {
    AllProperJoin(a, b);
    if b == [] {
      NothingJoined(a, b);
    } else {
      var rest, w := b[..|b| - 1], b[|b| - 1];
      assert b == rest + [w] && Proper(w) && AllProper(rest);
      hide Arrivals, Arrives, AllProper, Proper;
      ArrivalsJoin(a, rest);
      JoinStep(a, rest, w);
      LastApart(a, rest, w);
    }
  }

  lemma JoinStep(a: seq<Write>, rest: seq<Write>, w: Write)
    requires AllProper(a) && AllProper(rest) && Proper(w) && AllProper(a + rest)
    requires Arrivals(a + rest) == Arrivals(a) + Arrivals(rest)
    ensures AllProper(a + rest + [w]) && AllProper(rest + [w])
    ensures Arrivals(a + rest + [w]) == Arrivals(a) + Arrivals(rest + [w])
  {
    hide Arrivals, Arrives, AllProper, Proper, WrittenCount, Numbered, Repeated;
    NumberedAppend(a + rest, w);
    NumberedAppend(rest, w);
  }

  /** What the host makes of the frames that arrive. */
  function HostView(ws: seq<Write>): (c: seq<HostChunk>)
    requires AllProper(ws)
    ensures |c| == |ws|
  {
    AllKept(Chunks(ws))
  }

  /** A chunk as the host should see it. */
  ghost predicate HostCarries(c: HostChunk, r: SpectrumResult, channel: nat, chunk: nat)
    requires Sized(r) && channel < CHANNELS && chunk < CHUNKS
  {
    var source := r.channel[channel];
    && KeyOf(c) == Key(r.timestampUs, channel) && c.chunkIndex == chunk
    && MetadataOf(c) == Metadata(r.status, r.sampleRateHz, source.rmsQ15, source.peakQ15,
                                 source.dominantMillihz, r.processingUs, r.droppedBlocks)
    && |c.magnitudeU8| == BINS_PER_CHUNK
    && (forall i :: 0 <= i < BINS_PER_CHUNK ==>
                      MagnitudeClose(c.magnitudeU8[i], source.magnitudeQ15[chunk * BINS_PER_CHUNK + i]))
    && c.previewQ15 == source.previewQ15[chunk * PREVIEW_PER_CHUNK..(chunk + 1) * PREVIEW_PER_CHUNK]
  }

  lemma ArrivalCarries(w: Write)
    requires Proper(w)
    ensures HostCarries(Kept(ChunkAt(BodyOf(w))), w.result, w.channel, w.chunk)
    ensures Kept(ChunkAt(BodyOf(w))).sequence == w.index % 0x1_0000
    ensures Kept(ChunkAt(BodyOf(w))).binStart == 128 * w.chunk
  {
    hide ChunkAt, HeaderOk, Crc.Crc16, RawBody, MagnitudeClose;
    BodyRoundTrip(OnWire(w.index), w.result, w.channel, w.chunk);
  }

  /** A frame that shows a channel of a result: every bin to within its compression, and the preview
      sample by sample. */
  ghost predicate Shows(f: SpectrumFrame, r: SpectrumResult, channel: nat)
    requires Sized(r) && channel < CHANNELS
  {
    var source := r.channel[channel];
    && f.key == Key(r.timestampUs, channel)
    && f.metadata == Metadata(r.status, r.sampleRateHz, source.rmsQ15, source.peakQ15,
                              source.dominantMillihz, r.processingUs, r.droppedBlocks)
    && |f.magnitudes| == BINS
    && (forall i :: 0 <= i < BINS ==> MagnitudeClose(f.magnitudes[i], source.magnitudeQ15[i]))
    && f.preview == source.previewQ15
  }

  /** The chunks of one channel, from its first. */
  ghost predicate ChannelGroup(g: seq<HostChunk>, r: SpectrumResult, channel: nat)
    requires Sized(r) && channel < CHANNELS
  {
    |g| <= CHUNKS && forall i :: 0 <= i < |g| ==> HostCarries(g[i], r, channel, i)
  }

  lemma GroupMatches(g: seq<HostChunk>, r: SpectrumResult, channel: nat)
    requires Sized(r) && channel < CHANNELS && ChannelGroup(g, r, channel)
    ensures Indexed(g) && Matching(g, Key(r.timestampUs, channel))
  {
    hide MagnitudeClose;
  }

  lemma Quarters<T>(whole: seq<T>, size: nat)
    requires |whole| == 4 * size
    ensures whole[0 * size..1 * size] + whole[1 * size..2 * size]
            + whole[2 * size..3 * size] + whole[3 * size..4 * size]
         == whole
  {
  }

  lemma FourShow(p: map<nat, HostChunk>, r: SpectrumResult, channel: nat)
    requires Sized(r) && channel < CHANNELS
    requires 0 in p && 1 in p && 2 in p && 3 in p
    requires forall i :: 0 <= i < CHUNKS ==> HostCarries(p[i], r, channel, i)
    ensures Shows(FrameOf(Key(r.timestampUs, channel), p), r, channel)
  {
    hide MagnitudeClose;
    var source := r.channel[channel];
    var f := FrameOf(Key(r.timestampUs, channel), p);
    Quarters(source.previewQ15, PREVIEW_PER_CHUNK);
    forall i | 0 <= i < BINS
      ensures MagnitudeClose(f.magnitudes[i], source.magnitudeQ15[i])
    {
      var chunk := i / BINS_PER_CHUNK;
      assert f.magnitudes[i] == p[chunk].magnitudeU8[i - chunk * BINS_PER_CHUNK];
    }
  }

  lemma GroupShows(g: seq<HostChunk>, r: SpectrumResult, channel: nat)
    requires Sized(r) && channel < CHANNELS && ChannelGroup(g, r, channel) && |g| == CHUNKS
    ensures var p := ByIndex(g);
            && 0 in p && 1 in p && 2 in p && 3 in p
            && Shows(FrameOf(Key(r.timestampUs, channel), p), r, channel)
  {
    hide MagnitudeClose, Shows;
    ByIndexKeys(g);
    var p := ByIndex(g);
    assert g[0].chunkIndex == 0 && g[1].chunkIndex == 1 && g[2].chunkIndex == 2 && g[3].chunkIndex == 3;
    hide ByIndex;
    forall i | 0 <= i < CHUNKS
      ensures HostCarries(p[i], r, channel, i)
    {
      var j :| 0 <= j < |g| && g[j] == p[i];
    }
    FourShow(p, r, channel);
  }

  lemma {:induction false} OnlyOwnKey(cs: seq<HostChunk>, k: Key)
    requires forall i :: 0 <= i < |cs| ==> KeyOf(cs[i]) == k
    ensures OfKey(cs, k) == cs && OtherKeys(cs, k) == {}
  {
    if cs != [] {
      OnlyOwnKey(cs[..|cs| - 1], k);
    }
  }

  lemma PendingWasPushed(cs: seq<HostChunk>, k: Key)
    requires Indexed(cs) && k in Run(cs).state.pending
    ensures exists c :: c in cs && KeyOf(c) == k
  {
    FramesAreWhole(cs);
    hide Run;
    var parts := Run(cs).state.pending[k];
    assert PartsOk(k, parts);
    assert parts.chunks[parts.first] in cs;
  }

  lemma NotPending(cs: seq<HostChunk>, k: Key)
    requires Indexed(cs) && forall c :: c in cs ==> KeyOf(c) != k
    ensures k !in Run(cs).state.pending
  {
    if k in Run(cs).state.pending {
      PendingWasPushed(cs, k);
    }
  }

  lemma FramesJoinStep(a: seq<SpectrumFrame>, rest: seq<SpectrumFrame>, f: SpectrumFrame, k: Key)
    requires FramesOf(a + rest, k) == FramesOf(a, k) + FramesOf(rest, k)
    ensures FramesOf(a + rest + [f], k) == FramesOf(a, k) + FramesOf(rest + [f], k)
  {
    hide FramesOf;
    FramesAppend(a + rest, f, k);
    FramesAppend(rest, f, k);
  }

  lemma {:induction false} FramesJoin(a: seq<SpectrumFrame>, b: seq<SpectrumFrame>, k: Key)
    ensures FramesOf(a + b, k) == FramesOf(a, k) + FramesOf(b, k)
  {
    if b == [] {
      assert a + b == a;
    } else {
      hide FramesOf;
      var rest, f := b[..|b| - 1], b[|b| - 1];
      FramesJoin(a, rest, k);
      FramesJoinStep(a, rest, f, k);
      assert b == rest + [f] && a + b == a + rest + [f];
    }
  }

  lemma {:induction false} FramesOfOwn(a: seq<SpectrumFrame>, k: Key)
    requires forall i :: 0 <= i < |a| ==> a[i].key == k
    ensures FramesOf(a, k) == a
  {
    if a != [] {
      FramesOfOwn(a[..|a| - 1], k);
    }
  }

  /** Pushing chunks of one key adds only frames of that key. */
  lemma {:induction false} OnlyOwnFrames(pre: seq<HostChunk>, g: seq<HostChunk>, k: Key)
    returns (more: seq<SpectrumFrame>)
    requires Indexed(pre) && Indexed(g) && forall i :: 0 <= i < |g| ==> KeyOf(g[i]) == k
    ensures Run(pre + g).frames == Run(pre).frames + more
    ensures forall i :: 0 <= i < |more| ==> more[i].key == k
    decreases |g|
  {
    hide Run, Push;
    if g == [] {
      assert pre + g == pre;
      return [];
    }
    var rest, c := g[..|g| - 1], g[|g| - 1];
    more := OnlyOwnFrames(pre, rest, k);
    assert pre + g == pre + rest + [c];
    RunAppend(pre + rest, c);
    FrameHasPushedKey(Run(pre + rest).state, c);
    var frame := Push(Run(pre + rest).state, c).frame;
    more := Extended(more, frame);
  }

  /** A group of chunks of a new key emits a frame exactly when it has all four. */
  lemma GroupPushed(pre: seq<HostChunk>, g: seq<HostChunk>, k: Key)
    requires Indexed(pre) && Indexed(g) && Matching(g, k) && |g| <= CHUNKS
    requires forall c :: c in pre ==> KeyOf(c) != k
    ensures |g| == CHUNKS ==> 0 in ByIndex(g) && 1 in ByIndex(g) && 2 in ByIndex(g) && 3 in ByIndex(g)
    ensures Run(pre + g).frames
         == Run(pre).frames + if |g| == CHUNKS then [FrameOf(k, ByIndex(g))] else []
  {
    hide Run, ByIndex;
    OnlyOwnKey(g, k);
    NotPending(pre, k);
    CompletesOnce(pre, g, k);
    var more := OnlyOwnFrames(pre, g, k);
    FramesJoin(Run(pre).frames, more, k);
    FramesOfOwn(more, k);
    hide FramesOf;
    var before := FramesOf(Run(pre).frames, k);
    assert more == (before + more)[|before|..];
  }

  /** The chunks of the first and of the second channel of one result, as far as they arrived. */
  ghost predicate SendingView(cs: seq<HostChunk>, r: SpectrumResult)
    requires Sized(r)
  {
    |cs| <= WRITES && forall i :: 0 <= i < |cs| ==> HostCarries(cs[i], r, i / CHUNKS, i % CHUNKS)
  }

  lemma ArrivedView(s: Sending, n: nat)
    requires Sendable(s)
    ensures SendingView(HostView(Arrived(s, n)), s.result)
  {
    ArrivalsLead(s, n, WRITES);
    hide Arrivals, BodyOf, ChunkAt, HostCarries, Kept, WritesUpTo;
    var a := Arrived(s, n);
    forall i | 0 <= i < |a|
      ensures HostCarries(HostView(a)[i], s.result, i / CHUNKS, i % CHUNKS)
    {
      ArrivalCarries(a[i]);
    }
  }

  /** The first channel's chunks, and the second's only if the first is complete. */
  function FirstPart(n: nat): (m: nat)
    ensures m <= n && m <= CHUNKS && (m < n ==> m == CHUNKS)
    ensures n <= WRITES ==> m / CHUNKS + (n - m) / CHUNKS == n / CHUNKS
  {
    if n < CHUNKS then n else CHUNKS
  }

  lemma ViewSplits(cs: seq<HostChunk>, r: SpectrumResult)
    requires Sized(r) && SendingView(cs, r)
    ensures var m := FirstPart(|cs|);
            ChannelGroup(cs[..m], r, 0) && ChannelGroup(cs[m..], r, 1)
  {
    hide HostCarries;
    var m := FirstPart(|cs|);
    forall i | 0 <= i < |cs[m..]|
      ensures HostCarries(cs[m..][i], r, 1, i)
    {
      assert cs[m..][i] == cs[m + i] && (m + i) / CHUNKS == 1 && (m + i) % CHUNKS == i;
    }
    forall i | 0 <= i < m
      ensures HostCarries(cs[..m][i], r, 0, i)
    {
      assert cs[..m][i] == cs[i] && i / CHUNKS == 0 && i % CHUNKS == i;
    }
  }

  /** The frame a channel's chunks produce. */
  lemma ChannelPushed(pre: seq<HostChunk>, g: seq<HostChunk>, r: SpectrumResult, channel: nat)
    returns (more: seq<SpectrumFrame>)
    requires Sized(r) && channel < CHANNELS && Indexed(pre) && ChannelGroup(g, r, channel)
    requires forall c :: c in pre ==> KeyOf(c) != Key(r.timestampUs, channel)
    ensures Indexed(pre + g) && Run(pre + g).frames == Run(pre).frames + more
    ensures |more| == |g| / CHUNKS && (more != [] ==> Shows(more[0], r, channel))
  {
    hide Run, HostCarries, Shows, ByIndex, Matching;
    var k := Key(r.timestampUs, channel);
    GroupMatches(g, r, channel);
    GroupPushed(pre, g, k);
    if |g| == CHUNKS {
      GroupShows(g, r, channel);
      return [FrameOf(k, ByIndex(g))];
    }
    return [];
  }

  /** Nothing of a result has been pushed yet. */
  ghost predicate Unseen(cs: seq<HostChunk>, r: SpectrumResult) {
    forall c :: c in cs ==> c.timestampUs != r.timestampUs
  }

  lemma KeysApart(pre: seq<HostChunk>, g: seq<HostChunk>, r: SpectrumResult)
    requires Sized(r) && ChannelGroup(g, r, 0) && Unseen(pre, r)
    ensures forall c :: c in pre ==> KeyOf(c) != Key(r.timestampUs, 0)
    ensures forall c :: c in pre + g ==> KeyOf(c) != Key(r.timestampUs, 1)
  {
    hide MagnitudeClose;
  }

  /** The frames of one result, one per channel from the first. */
  ghost predicate EachShows(frames: seq<SpectrumFrame>, r: SpectrumResult)
    requires Sized(r)
  {
    |frames| <= CHANNELS && forall i :: 0 <= i < |frames| ==> Shows(frames[i], r, i)
  }

  lemma BothShow(first: seq<SpectrumFrame>, second: seq<SpectrumFrame>, r: SpectrumResult)
    requires Sized(r) && |second| <= |first| <= 1
    requires (first != [] ==> Shows(first[0], r, 0)) && (second != [] ==> Shows(second[0], r, 1))
    ensures EachShows(first + second, r)
  {
    hide Shows;
  }

  lemma ChannelsPushed(pre: seq<HostChunk>, g: seq<HostChunk>, h: seq<HostChunk>, r: SpectrumResult)
    returns (more: seq<SpectrumFrame>)
    requires Sized(r) && Indexed(pre) && ChannelGroup(g, r, 0) && ChannelGroup(h, r, 1) && Unseen(pre, r)
    requires h != [] ==> |g| == CHUNKS
    ensures Indexed(pre + g + h) && Run(pre + g + h).frames == Run(pre).frames + more
    ensures |more| == |g| / CHUNKS + |h| / CHUNKS && EachShows(more, r)
  {
    assert |g| <= CHUNKS && |h| <= CHUNKS;
    hide Run, Shows, HostCarries, ChannelGroup, Indexed, KeyOf, EachShows, Unseen;
    KeysApart(pre, g, r);
    var first := ChannelPushed(pre, g, r, 0);
    var second := ChannelPushed(pre + g, h, r, 1);
    Associates(Run(pre).frames, first, second);
    BothShow(first, second, r);
    more := first + second;
  }

  lemma JoinedAt<T>(a: seq<T>, b: seq<T>, m: nat)
    requires m <= |b|
    ensures a + b[..m] + b[m..] == a + b
  {
  }

  lemma SendingPushed(pre: seq<HostChunk>, cs: seq<HostChunk>, r: SpectrumResult)
    returns (more: seq<SpectrumFrame>)
    requires Sized(r) && Indexed(pre) && SendingView(cs, r) && Unseen(pre, r)
    ensures Indexed(pre + cs) && Run(pre + cs).frames == Run(pre).frames + more
    ensures |more| == |cs| / CHUNKS && EachShows(more, r)
  {
    var m := FirstPart(|cs|);
    ViewSplits(cs, r);
    assert |cs| <= WRITES;
    hide Run, SendingView, ChannelGroup, Indexed, EachShows, Unseen, FirstPart;
    more := ChannelsPushed(pre, cs[..m], cs[m..], r);
    JoinedAt(pre, cs, m);
  }

  datatype Spectrum = Spectrum(result: SpectrumResult, channel: nat)

  /** The channels of which all four chunks arrived. */
  function SpectraOf(s: Sending, n: nat): seq<Spectrum>
    requires Sendable(s)
  {
    seq(|Arrived(s, n)| / CHUNKS, (c: nat) => Spectrum(s.result, c))
  }

  function Spectra(ss: seq<Sending>): seq<Spectrum>
    requires AllSendable(ss)
  {
    if ss == [] then []
    else Spectra(ss[..|ss| - 1]) + SpectraOf(ss[|ss| - 1], WrittenCount(RunWrites(ss[..|ss| - 1])))
  }

  ghost predicate AllShow(frames: seq<SpectrumFrame>, spectra: seq<Spectrum>) {
    && |frames| == |spectra|
    && forall i :: 0 <= i < |frames| ==>
                     && Sized(spectra[i].result) && spectra[i].channel < CHANNELS
                     && Shows(frames[i], spectra[i].result, spectra[i].channel)
  }

  ghost predicate DistinctResults(ss: seq<Sending>) {
    forall i, j :: 0 <= i < j < |ss| ==> ss[i].result.timestampUs != ss[j].result.timestampUs
  }

  /** All chunks come from results that were sent. */
  ghost predicate FromResults(cs: seq<HostChunk>, ss: seq<Sending>) {
    forall c :: c in cs ==> exists i :: 0 <= i < |ss| && ss[i].result.timestampUs == c.timestampUs
  }

  function RunView(ss: seq<Sending>): seq<HostChunk>
    requires AllSendable(ss)
  {
    RunIsNumbered(ss);
    HostView(Arrivals(RunWrites(ss)))
  }

  lemma ViewJoins(ws: seq<Write>, s: Sending)
    requires AllProper(ws) && Sendable(s)
    ensures var n := WrittenCount(ws);
            var next := ws + WritesUpTo(s.result, n, s.attempts, WRITES);
            && AllProper(next)
            && HostView(Arrivals(next)) == HostView(Arrivals(ws)) + HostView(Arrived(s, n))
  {
    hide Arrivals, WritesUpTo, Kept, ChunkAt, BodyOf;
    var n := WrittenCount(ws);
    WritesAreProper(s, n, WRITES);
    ArrivalsJoin(ws, WritesUpTo(s.result, n, s.attempts, WRITES));
  }

  lemma RunStep(rest: seq<Sending>, s: Sending)
    requires AllSendable(rest) && Sendable(s)
    ensures AllSendable(rest + [s])
    ensures var n := WrittenCount(RunWrites(rest));
            && RunView(rest + [s]) == RunView(rest) + HostView(Arrived(s, n))
            && Spectra(rest + [s]) == Spectra(rest) + SpectraOf(s, n)
  {
    assert (rest + [s])[..|rest + [s]| - 1] == rest;
    RunIsNumbered(rest);
    hide HostView, Arrivals, Arrived, WritesUpTo, Numbered, Proper, SpectraOf, WrittenCount;
    ViewJoins(RunWrites(rest), s);
  }

  lemma AllShowJoin(frames: seq<SpectrumFrame>, spectra: seq<Spectrum>, more: seq<SpectrumFrame>, s: Sending, n: nat)
    requires AllShow(frames, spectra) && Sendable(s) && |more| == |SpectraOf(s, n)| && EachShows(more, s.result)
    ensures AllShow(frames + more, spectra + SpectraOf(s, n))
  {
    hide Shows, Arrived;
  }

  lemma SendingDelivered(rest: seq<Sending>, s: Sending)
    requires AllSendable(rest) && Sendable(s) && DistinctResults(rest + [s])
    requires Indexed(RunView(rest)) && FromResults(RunView(rest), rest)
    requires AllShow(Run(RunView(rest)).frames, Spectra(rest))
    ensures AllSendable(rest + [s])
    ensures Indexed(RunView(rest + [s])) && FromResults(RunView(rest + [s]), rest + [s])
    ensures AllShow(Run(RunView(rest + [s])).frames, Spectra(rest + [s]))
  {
    var n := WrittenCount(RunWrites(rest));
    RunStep(rest, s);
    ArrivedView(s, n);
    NewTimestamp(RunView(rest), rest, s);
    var cs := HostView(Arrived(s, n));
    assert |SpectraOf(s, n)| == |cs| / CHUNKS;
    hide Run, Shows, HostView, Arrived, RunView, RunWrites, Spectra, SpectraOf, FromResults, DistinctResults, AllShow;
    hide Unseen, EachShows;
    ViewFromResult(RunView(rest), cs, rest, s);
    assert |cs| <= WRITES;
    hide SendingView;
    var more := SendingPushed(RunView(rest), cs, s.result);
    AllShowJoin(Run(RunView(rest)).frames, Spectra(rest), more, s, n);
  }

  lemma NewTimestamp(cs: seq<HostChunk>, rest: seq<Sending>, s: Sending)
    requires FromResults(cs, rest) && DistinctResults(rest + [s])
    ensures Unseen(cs, s.result)
  {
    var ss := rest + [s];
    forall c | c in cs
      ensures c.timestampUs != s.result.timestampUs
    {
      var i :| 0 <= i < |rest| && rest[i].result.timestampUs == c.timestampUs;
      assert ss[i] == rest[i] && ss[|rest|] == s;
    }
  }

  lemma ViewFromResult(before: seq<HostChunk>, cs: seq<HostChunk>, rest: seq<Sending>, s: Sending)
    requires FromResults(before, rest) && Sized(s.result) && SendingView(cs, s.result)
    ensures FromResults(before + cs, rest + [s])
  {
    var ss := rest + [s];
    forall c | c in before + cs
      ensures exists i :: 0 <= i < |ss| && ss[i].result.timestampUs == c.timestampUs
    {
      if c in before {
        var i :| 0 <= i < |rest| && rest[i].result.timestampUs == c.timestampUs;
        assert ss[i] == rest[i];
      } else {
        assert KeyOf(c) == Key(s.result.timestampUs, KeyOf(c).channel);
        assert ss[|rest|] == s;
      }
    }
  }

  lemma NothingDelivered(ss: seq<Sending>)
    requires ss == []
    ensures RunView(ss) == [] && Spectra(ss) == [] && Run(RunView(ss)).frames == []
  {
    assert Arrivals(RunWrites(ss)) == [];
  }

  lemma {:induction false} RunDelivered(ss: seq<Sending>)
    requires AllSendable(ss) && DistinctResults(ss)
    ensures Indexed(RunView(ss)) && FromResults(RunView(ss), ss)
    ensures AllShow(Run(RunView(ss)).frames, Spectra(ss))
  {
    hide RunView, Run, Shows, Spectra;
    if ss == [] {
      NothingDelivered(ss);
    } else {
      var rest, s := ss[..|ss| - 1], ss[|ss| - 1];
      assert ss == rest + [s] && AllSendable(rest) && DistinctResults(rest) && Sendable(s);
      hide AllSendable, DistinctResults, AllShow, FromResults, Sendable;
      RunDelivered(rest);
      SendingDelivered(rest, s);
    }
  }

  /** End to end: over every run of results with different timestamps and every pattern of write
      failures, the host emits, in order, exactly the spectra of the channels whose four chunks all
      arrived, each showing its own result. */
  lemma SpectraDelivered(ss: seq<Sending>)
    requires AllSendable(ss) && DistinctResults(ss)
    ensures AllProper(RunWrites(ss))
    ensures var cs := AllKept(StreamDelivers(Wire(RunWrites(ss)) + [SOF]));
            Indexed(cs) && AllShow(Run(cs).frames, Spectra(ss))
  {
    RunIsNumbered(ss);
    hide Run, Shows, Spectra, Wire, RunWrites;
    RunDelivered(ss);
    RunArrives(Scanning.Host, RunWrites(ss));
  }

  lemma FallShortParts(a: seq<Write>, b: seq<Write>)
    requires AllProper(a + b) && FailuresFallShort(a + b)
    ensures AllProper(a) && AllProper(b) && FailuresFallShort(a) && FailuresFallShort(b)
  {
    hide Arrives, Proper;
    assert forall x :: x in a ==> x in a + b;
    assert forall x :: x in b ==> x in a + b;
  }

  /** Writes of a sending arrive exactly as far as all its attempts up to there were written. */
  ghost predicate ArrivedAsWritten(s: Sending, arrived: nat, k: nat)
    requires k <= |s.attempts|
  {
    forall j: nat :: j <= k ==> (arrived >= j <==> AllWritten(s.attempts, j))
  }

  lemma AsWrittenStep(s: Sending, before: nat, arrived: nat, k: nat)
    requires k < |s.attempts| && before <= k && ArrivedAsWritten(s, before, k)
    requires arrived == before + if AllWritten(s.attempts, k) && s.attempts[k].Written? then 1 else 0
    ensures ArrivedAsWritten(s, arrived, k + 1)
  {
    assert before >= k <==> AllWritten(s.attempts, k);
  }

  lemma ArrivedCount(s: Sending, n: nat, k: nat)
    requires Sendable(s) && k <= WRITES
    ensures AllProper(WritesUpTo(s.result, n, s.attempts, k))
    ensures |Arrivals(WritesUpTo(s.result, n, s.attempts, k))| <= k
  {
    ArrivalsLead(s, n, k);
  }

  /** How the number of arrivals goes on with one more position. */
  lemma OneMoreArrived(s: Sending, n: nat, k: nat)
    requires Sendable(s) && k < WRITES && AllProper(WritesUpTo(s.result, n, s.attempts, k + 1))
    requires FailuresFallShort(WritesUpTo(s.result, n, s.attempts, k + 1))
    ensures var before := WritesUpTo(s.result, n, s.attempts, k);
            && AllProper(before) && FailuresFallShort(before) && |Arrivals(before)| <= k
            && |Arrivals(WritesUpTo(s.result, n, s.attempts, k + 1))|
               == |Arrivals(before)| + if AllWritten(s.attempts, k) && s.attempts[k].Written? then 1 else 0
  {
    hide Arrives, Arrivals, WritesUpTo, Proper, FailuresFallShort, AllProper, AllWritten, WrittenCount;
    hide Numbered, NthWrite;
    var before := WritesUpTo(s.result, n, s.attempts, k);
    WritesStep(s, n, k);
    ArrivedCount(s, n, k);
    if AllWritten(s.attempts, k) {
      var w := NthWrite(s, n, k);
      IndexOfNth(s, n, k);
      FallShortBefore(before, w);
      NumberedAppend(before, w);
      WrittenArrives(w);
    } else {
      assert before + [] == before;
    }
  }

  /** ArrivedAsWritten for the first k writes of a sending. */
  ghost predicate WritesArrive(s: Sending, n: nat, k: nat)
    requires Sendable(s) && k <= WRITES && AllProper(WritesUpTo(s.result, n, s.attempts, k))
  {
    ArrivedAsWritten(s, |Arrivals(WritesUpTo(s.result, n, s.attempts, k))|, k)
  }

  lemma WritesArriveStep(s: Sending, n: nat, k: nat)
    requires Sendable(s) && k < WRITES
    requires AllProper(WritesUpTo(s.result, n, s.attempts, k + 1))
    requires FailuresFallShort(WritesUpTo(s.result, n, s.attempts, k + 1))
    ensures AllProper(WritesUpTo(s.result, n, s.attempts, k))
    ensures FailuresFallShort(WritesUpTo(s.result, n, s.attempts, k))
    ensures WritesArrive(s, n, k) ==> WritesArrive(s, n, k + 1)
  {
    hide Arrivals, WritesUpTo, ArrivedAsWritten, FailuresFallShort, AllProper, AllWritten;
    OneMoreArrived(s, n, k);
    if WritesArrive(s, n, k) {
      AsWrittenStep(s, |Arrivals(WritesUpTo(s.result, n, s.attempts, k))|,
                    |Arrivals(WritesUpTo(s.result, n, s.attempts, k + 1))|, k);
    }
  }

  lemma {:induction false} ArrivedAreWritten(s: Sending, n: nat, k: nat)
    requires Sendable(s) && k <= WRITES && AllProper(WritesUpTo(s.result, n, s.attempts, k))
    requires FailuresFallShort(WritesUpTo(s.result, n, s.attempts, k))
    ensures WritesArrive(s, n, k)
  {
    if k > 0 {
      hide WritesArrive, WritesUpTo, FailuresFallShort, AllProper;
      WritesArriveStep(s, n, k - 1);
      ArrivedAreWritten(s, n, k - 1);
    }
  }

  /** The channels of a result whose four attempts, and all before them, were written. */
  function WrittenSpectraOf(s: Sending): seq<Spectrum>
    requires Sendable(s)
  {
    (if AllWritten(s.attempts, CHUNKS) then [Spectrum(s.result, 0)] else [])
    + if AllWritten(s.attempts, WRITES) then [Spectrum(s.result, 1)] else []
  }

  function WrittenSpectra(ss: seq<Sending>): seq<Spectrum>
    requires AllSendable(ss)
  {
    if ss == [] then [] else WrittenSpectra(ss[..|ss| - 1]) + WrittenSpectraOf(ss[|ss| - 1])
  }

  lemma SpectraByCount(s: Sending, n: nat)
    requires Sendable(s) && ArrivedAsWritten(s, |Arrived(s, n)|, WRITES)
    ensures SpectraOf(s, n) == WrittenSpectraOf(s)
  {
    ArrivalsLead(s, n, WRITES);
    hide Arrived, AllWritten;
  }

  lemma SendingWritten(s: Sending, n: nat)
    requires Sendable(s) && AllProper(WritesUpTo(s.result, n, s.attempts, WRITES))
    requires FailuresFallShort(WritesUpTo(s.result, n, s.attempts, WRITES))
    ensures SpectraOf(s, n) == WrittenSpectraOf(s)
  {
    ArrivedAreWritten(s, n, WRITES);
    hide Arrivals, WritesUpTo, ArrivedAsWritten, SpectraOf, WrittenSpectraOf, FailuresFallShort;
    SpectraByCount(s, n);
  }

  lemma {:induction false} SpectraAreWritten(ss: seq<Sending>)
    requires AllSendable(ss) && AllProper(RunWrites(ss)) && FailuresFallShort(RunWrites(ss))
    ensures Spectra(ss) == WrittenSpectra(ss)
  {
    if ss != [] {
      var rest, s := ss[..|ss| - 1], ss[|ss| - 1];
      var n := WrittenCount(RunWrites(rest));
      hide AllProper, FailuresFallShort, WritesUpTo, SpectraOf, WrittenSpectraOf, WrittenCount;
      FallShortParts(RunWrites(rest), WritesUpTo(s.result, n, s.attempts, WRITES));
      SpectraAreWritten(rest);
      SendingWritten(s, n);
    }
  }

  /** In terms of what was written: if failed writes leave out at least the last body byte, the host emits
      from the stream as it is exactly the channels whose four chunks were written. */
  lemma WrittenSpectraDelivered(ss: seq<Sending>)
    requires AllSendable(ss) && DistinctResults(ss)
    requires AllProper(RunWrites(ss)) && FailuresFallShort(RunWrites(ss))
    ensures var cs := AllKept(StreamDelivers(Wire(RunWrites(ss))));
            Indexed(cs) && AllShow(Run(cs).frames, WrittenSpectra(ss))
  {
    RunIsNumbered(ss);
    SpectraAreWritten(ss);
    SpectraDelivered(ss);
    hide Run, Shows, Spectra, WrittenSpectra, Wire, RunWrites, StreamDelivers, AllShow, Indexed, FailuresFallShort;
    hide AllProper, Numbered, DistinctResults, AllSendable;
    SuccessesDelivered(RunWrites(ss));
    SuccessesArrive(RunWrites(ss));
    RunArrives(Scanning.Host, RunWrites(ss));
  }
}
