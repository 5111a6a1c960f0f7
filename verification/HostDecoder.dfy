/** decode_raw and FrameDecoder.feed of tools/spectrum_monitor.py: the host's own decoder, with a
    growing buffer and a header unpacked field by field. */
module HostDecoder {
  import opened Bytes
  import opened Format
  import opened Crc
  import opened Protocol
  import opened Framing
  import opened Scanning
  import opened Sequencing
  import opened Totals

  datatype HostDecoded = HostOk(chunk: HostChunk) | CrcError | FormatError

  /** A little-endian field of the given width. */
  function UnpackField(p: seq<byte>, at: nat, width: nat): nat
    requires at + width <= |p|
    decreases width
  {
    if width == 0 then 0 else p[at] as int + 256 * UnpackField(p, at + 1, width - 1)
  }

  function TotalWidth(widths: seq<nat>): nat {
    if widths == [] then 0 else widths[0] + TotalWidth(widths[1..])
  }

  /** struct.unpack_from: consecutive fields without padding. */
  function Unpack(widths: seq<nat>, p: seq<byte>, at: nat): (values: seq<nat>)
    requires at + TotalWidth(widths) <= |p|
    ensures |values| == |widths|
    decreases |widths|
  {
    if widths == [] then []
    else [UnpackField(p, at, widths[0])] + Unpack(widths[1..], p, at + widths[0])
  }

  /** "<BBHHIIBBBBIHHHHIII" */
  const HEADER: seq<nat> := [1, 1, 2, 2, 4, 4, 1, 1, 1, 1, 4, 2, 2, 2, 2, 4, 4, 4]
  const OFFSETS: seq<nat> := [0, 1, 2, 4, 6, 10, 14, 15, 16, 17, 18, 22, 24, 26, 28, 30, 34, 38]

  lemma {:induction false} UnpackedFields(widths: seq<nat>, offsets: seq<nat>, p: seq<byte>, at: nat)
    requires Consecutive(widths, offsets) && at + TotalWidth(widths) <= |p|
    requires widths != [] ==> offsets[0] == at
    ensures forall k :: 0 <= k < |widths| ==>
                          offsets[k] + widths[k] <= |p|
                          && Unpack(widths, p, at)[k] == UnpackField(p, offsets[k], widths[k])
    decreases |widths|
  {
    if widths != [] {
      if |widths| > 1 {
        assert offsets[1] == offsets[0] + widths[0];
      }
      UnpackedFields(widths[1..], offsets[1..], p, at + widths[0]);
      forall k | 0 <= k < |widths|
        ensures offsets[k] + widths[k] <= |p|
        ensures Unpack(widths, p, at)[k] == UnpackField(p, offsets[k], widths[k])
      {
        if k > 0 {
          assert widths[1..][k - 1] == widths[k] && offsets[1..][k - 1] == offsets[k];
        }
      }
    }
  }

  lemma {:induction false} WidthFromOffsets(widths: seq<nat>, offsets: seq<nat>)
    requires Consecutive(widths, offsets) && |widths| > 0
    ensures offsets[0] + TotalWidth(widths) == offsets[|widths| - 1] + widths[|widths| - 1]
    decreases |widths|
  {
    if |widths| > 1 {
      WidthFromOffsets(widths[1..], offsets[1..]);
    } else {
      assert widths[1..] == [];
    }
  }

  ghost predicate Consecutive(widths: seq<nat>, offsets: seq<nat>) {
    |offsets| == |widths|
    && forall k :: 0 < k < |widths| ==> offsets[k] == offsets[k - 1] + widths[k - 1]
  }

  lemma HeaderIsConsecutive()
    ensures |HEADER| == 18 && Consecutive(HEADER, OFFSETS)
  {
  }

  lemma HeaderWidth()
    ensures TotalWidth(HEADER) == 42
  {
    HeaderIsConsecutive();
    WidthFromOffsets(HEADER, OFFSETS);
  }

  function HeaderValues(raw: seq<byte>): (v: seq<nat>)
    requires |raw| == RAW_LENGTH
    ensures |v| == 18
  {
    HeaderWidth();
    Unpack(HEADER, raw, 0)
  }

  lemma FieldOf(widths: seq<nat>, offsets: seq<nat>, raw: seq<byte>, k: nat)
    requires Consecutive(widths, offsets) && k < |widths| && offsets[0] == 0
    requires TotalWidth(widths) <= |raw|
    ensures offsets[k] + widths[k] <= |raw|
    ensures Unpack(widths, raw, 0)[k] == UnpackField(raw, offsets[k], widths[k])
  {
    UnpackedFields(widths, offsets, raw, 0);
  }

  lemma HeaderField(raw: seq<byte>, k: nat)
    requires |raw| == RAW_LENGTH && k < 18
    ensures OFFSETS[k] + HEADER[k] <= |raw|
    ensures HeaderValues(raw)[k] == UnpackField(raw, OFFSETS[k], HEADER[k])
  {
    HeaderIsConsecutive();
    HeaderWidth();
    hide Unpack, UnpackField, TotalWidth, Consecutive;
    FieldOf(HEADER, OFFSETS, raw, k);
  }

  /** Field by field, the sequential unpacking reads what the firmware reads at fixed offsets. */
  lemma LeadingFields(raw: seq<byte>)
    requires |raw| == RAW_LENGTH
    ensures var v := HeaderValues(raw);
            && v[0] == raw[0] && v[1] == raw[1] && v[2] == GetU16(raw, 2) && v[3] == GetU16(raw, 4)
            && v[4] == GetU32(raw, 6) && v[5] == GetU32(raw, 10)
            && v[6] == raw[14] && v[7] == raw[15] && v[8] == raw[16] && v[9] == raw[17]
  {
    SmallFields(raw);
    hide HeaderValues, UnpackField, GetU16, GetU32;
    HeaderField(raw, 0);
    HeaderField(raw, 1);
    HeaderField(raw, 2);
    HeaderField(raw, 3);
    HeaderField(raw, 4);
    HeaderField(raw, 5);
    HeaderField(raw, 6);
    HeaderField(raw, 7);
    HeaderField(raw, 8);
    HeaderField(raw, 9);
  }

  lemma TrailingFields(raw: seq<byte>)
    requires |raw| == RAW_LENGTH
    ensures var v := HeaderValues(raw);
            && v[10] == GetU32(raw, 18) && v[11] == GetU16(raw, 22) && v[12] == GetU16(raw, 24)
            && v[13] == GetU16(raw, 26) && v[14] == GetU16(raw, 28)
            && v[15] == GetU32(raw, 30) && v[16] == GetU32(raw, 34) && v[17] == GetU32(raw, 38)
  {
    SmallFields(raw);
    hide HeaderValues, UnpackField, GetU16, GetU32;
    HeaderField(raw, 10);
    HeaderField(raw, 11);
    HeaderField(raw, 12);
    HeaderField(raw, 13);
    HeaderField(raw, 14);
    HeaderField(raw, 15);
    HeaderField(raw, 16);
    HeaderField(raw, 17);
  }

  lemma SmallFields(p: seq<byte>)
    ensures forall at: nat :: at + 1 <= |p| ==> UnpackField(p, at, 1) == p[at] as int
    ensures forall at: nat :: at + 2 <= |p| ==> UnpackField(p, at, 2) == GetU16(p, at)
    ensures forall at: nat :: at + 4 <= |p| ==> UnpackField(p, at, 4) == GetU32(p, at)
  {
    forall at: nat | at + 1 <= |p| ensures UnpackField(p, at, 1) == p[at] as int {
      FieldUnfolds(p, at, 1);
    }
    forall at: nat | at + 2 <= |p| ensures UnpackField(p, at, 2) == GetU16(p, at) {
      FieldUnfolds(p, at, 2);
      FieldUnfolds(p, at + 1, 1);
    }
    forall at: nat | at + 4 <= |p| ensures UnpackField(p, at, 4) == GetU32(p, at) {
      FieldUnfolds(p, at, 4);
      FieldUnfolds(p, at + 1, 3);
      FieldUnfolds(p, at + 2, 2);
      FieldUnfolds(p, at + 3, 1);
    }
  }

  lemma FieldUnfolds(p: seq<byte>, at: nat, width: nat)
    requires width > 0 && at + width <= |p|
    ensures UnpackField(p, at, width) == p[at] as int + 256 * UnpackField(p, at + 1, width - 1)
    ensures width == 1 ==> UnpackField(p, at, width) == p[at] as int
  {
  }

  /** The checks decode_raw makes on the unpacked header, in its order. */
  predicate HeaderAccepted(v: seq<nat>)
    requires |v| == 18
  {
    && !(v[0] != 2 || v[1] != 1)
    && !(v[2] != PAYLOAD_LENGTH || v[9] != 0)
    && !(v[6] >= CHANNELS || v[8] != CHUNKS || v[7] >= CHUNKS)
    && !(v[12] != BINS_PER_CHUNK || v[11] != v[7] * BINS_PER_CHUNK)
  }

  function FromHeader(v: seq<nat>, raw: seq<byte>): HostChunk
    requires |v| == 18 && |raw| == RAW_LENGTH
  {
    HostChunk(v[3], v[4], v[5], v[6], v[7], v[10], v[11], v[13], v[14], v[15], v[16], v[17],
              raw[42..170], Preview(raw))
  }

  /** decode_raw. */
  function DecodeRaw(raw: seq<byte>): HostDecoded {
    if |raw| != RAW_LENGTH then FormatError
    else if Crc16(raw[..|raw| - 2]) != UnpackField(raw, 234, 2) then CrcError
    else if !HeaderAccepted(HeaderValues(raw)) then FormatError
    else HostOk(FromHeader(HeaderValues(raw), raw))
  }

  /** A chunk as the host keeps it. */
  function Kept(c: SpectrumChunk): HostChunk {
    HostChunk(c.sequence, c.timestampUs, c.status, c.channel, c.chunkIndex, c.sampleRateHz, c.binStart,
              c.rmsQ15, c.peakQ15, c.dominantMillihz, c.processingUs, c.droppedBlocks,
              c.magnitudeU8, c.previewQ15)
  }

  function AllKept(chunks: seq<SpectrumChunk>): (k: seq<HostChunk>)
    ensures |k| == |chunks| && forall i :: 0 <= i < |k| ==> k[i] == Kept(chunks[i])
  {
    seq(|chunks|, (i: nat) requires i < |chunks| => Kept(chunks[i]))
  }

  lemma HeadersAgree(raw: seq<byte>)
    requires |raw| == RAW_LENGTH
    ensures HeaderAccepted(HeaderValues(raw)) == HeaderOk(raw)
  {
    LeadingFields(raw);
    TrailingFields(raw);
    hide HeaderValues, GetU16, GetU32;
  }

  lemma ChunksAgree(raw: seq<byte>)
    requires |raw| == RAW_LENGTH
    ensures FromHeader(HeaderValues(raw), raw) == Kept(ChunkAt(raw))
  {
    LeadingFields(raw);
    TrailingFields(raw);
    hide HeaderValues, GetU16, GetU32, Preview;
  }

  /** The two parsers accept the same bodies, reject the others for the same reason, and read the same
      values. */
  lemma ParsersAgree(raw: seq<byte>)
    ensures DecodeRaw(raw)
         == match DecodeBody(raw)
            case BodyOk(c) => HostOk(Kept(c))
            case BadCrc => CrcError
            case BadFormat => FormatError
  {
    hide Crc16, HeaderValues, HeaderAccepted, HeaderOk, FromHeader, ChunkAt, UnpackField, GetU16, Kept;
    if |raw| == RAW_LENGTH {
      SmallFields(raw);
      HeadersAgree(raw);
      ChunksAgree(raw);
      assert raw[..|raw| - 2] == raw[..234];
    }
  }

  /** What a judged body does to the counters. */
  function Judged(c: Counters, d: HostDecoded): Counters {
    match d
    case CrcError => Blame(c.(resync := c.resync + 1), CrcFault)
    case FormatError => Blame(c.(resync := c.resync + 1), FormatFault)
    case HostOk(chunk) =>
      c.(frames := c.frames + 1,
      track := if chunk.sequence < TWO_16 then Note(c.track, chunk.sequence) else c.track)
  }

  lemma SequenceIsU16(raw: seq<byte>)
    ensures DecodeRaw(raw).HostOk? ==> DecodeRaw(raw).chunk.sequence < TWO_16
  {
    hide DecodeRaw, DecodeBody;
    ParsersAgree(raw);
  }

  /** That is what closing a segment with this body calls for. */
  lemma JudgedAsClosed(c: Counters, body: seq<byte>)
    requires body != []
    ensures var verdict := match DecodeBody(body)
              case BodyOk(chunk) => Good(chunk)
              case BadCrc => Bad(CrcFault)
              case BadFormat => Bad(FormatFault);
            && Judged(c, DecodeRaw(body)) == Closed(c, Collecting(body), verdict)
            && (match DecodeRaw(body) case HostOk(chunk) => [chunk] case _ => [])
               == (match verdict case Good(chunk) => [Kept(chunk)] case _ => [])
  {
    hide DecodeRaw, DecodeBody, Note;
    ParsersAgree(body);
  }

  /** FrameDecoder. Its counters are unbounded; `errors` is their running total. */
  class FrameDecoder {
    var buffer: seq<byte>
    var escaped: bool
    var dropping: bool
    var frames: nat
    var errors: nat
    var crcErrors: nat
    var formatErrors: nat
    var overflowErrors: nat
    var escapeErrors: nat
    var resyncEvents: nat
    var lastSequence: Option<u16>
    var lost: nat
    var duplicates: nat
    var outOfOrder: nat
    /** Every byte fed since construction. */
    ghost var history: seq<byte>

    ghost predicate Holds(scan: Scan)
      reads this
    {
      match scan
      case Collecting(held) => !escaped && !dropping && buffer == held
      case Escaping(held) => escaped && !dropping && buffer == held
      case Dropping(_) => !escaped && dropping && buffer == []
    }

    ghost predicate Counts(c: Counters)
      reads this
    {
      && c == Counters(frames, crcErrors, formatErrors, overflowErrors, escapeErrors, resyncEvents,
                       Track(lastSequence, lost, duplicates, outOfOrder))
      && errors == c.crc + c.format + c.overflow + c.escape
    }

    /** The whole state is what the segments of the history call for. */
    ghost predicate Valid()
      reads this
    {
      Holds(ScanAll(Host, Cut(history).open)) && Counts(CountersOf(Host, history))
    }

    constructor ()
      ensures Valid() && history == []
    {
      buffer, escaped, dropping := [], false, false;
      frames, errors, crcErrors, formatErrors, overflowErrors, escapeErrors, resyncEvents := 0, 0, 0, 0, 0, 0, 0;
      lastSequence, lost, duplicates, outOfOrder := None, 0, 0, 0;
      history := [];
      new;
      hide *;
      StartsValid();
    }

    lemma StartsValid()
      requires history == [] && buffer == [] && !escaped && !dropping
      requires lastSequence == None && lost == duplicates == outOfOrder == 0
      requires frames == errors == crcErrors == formatErrors == overflowErrors == escapeErrors == resyncEvents == 0
      ensures Valid()
    {
      hide CountersOf, Cut, ScanAll;
      NothingFed(Host, history);
    }

    method NoteSequence(sequence: u16)
      modifies this`lastSequence, this`lost, this`duplicates, this`outOfOrder
      ensures Track(lastSequence, lost, duplicates, outOfOrder)
           == Note(old(Track(lastSequence, lost, duplicates, outOfOrder)), sequence)
    {
      if lastSequence.Some? {
        var delta := (sequence - lastSequence.value) % TWO_16;
        if delta == 0 {
          duplicates := duplicates + 1;
        } else if delta < 0x8000 {
          lost := lost + (delta - 1);
          lastSequence := Some(sequence);
        } else {
          outOfOrder := outOfOrder + 1;
        }
      } else {
        lastSequence := Some(sequence);
      }
    }

    /** The buffered body at a delimiter: counted, and yielded if it is good. */
    method Judge(ghost c: Counters) returns (yielded: seq<HostChunk>)
      requires Counts(c)
      modifies this
      ensures Counts(Judged(c, DecodeRaw(old(buffer)))) && buffer == []
      ensures escaped == old(escaped) && dropping == old(dropping) && history == old(history)
      ensures yielded == (match DecodeRaw(old(buffer)) case HostOk(chunk) => [chunk] case _ => [])
    {
      hide DecodeRaw, Note;
      SequenceIsU16(buffer);
      yielded := [];
      var decoded := DecodeRaw(buffer);
      buffer := [];
      match decoded
      case CrcError =>
        errors, crcErrors, resyncEvents := errors + 1, crcErrors + 1, resyncEvents + 1;
      case FormatError =>
        errors, formatErrors, resyncEvents := errors + 1, formatErrors + 1, resyncEvents + 1;
      case HostOk(chunk) =>
        NoteSequence(chunk.sequence);
        frames := frames + 1;
        yielded := [chunk];
    }

    method FeedDelimiter() returns (yielded: seq<HostChunk>)
      requires Valid()
      modifies this
      ensures Valid() && history == old(history) + [SOF]
      ensures yielded == (match Close(Host, Cut(old(history)).open) case Good(c) => [Kept(c)] case _ => [])
    {
      hide Cut, CountersOf, ScanAll, DecodeBody, DecodeRaw, Note;
      DelimiterCounts(Host, history);
      EmptyScan();
      ghost var c := CountersOf(Host, history);
      history := history + [SOF];
      yielded := [];
      if escaped {
        escaped, buffer := false, [];
        errors, escapeErrors, resyncEvents := errors + 1, escapeErrors + 1, resyncEvents + 1;
        return;
      }
      if dropping {
        dropping, buffer := false, [];
        resyncEvents := resyncEvents + 1;
        return;
      }
      if buffer != [] {
        JudgedAsClosed(c, buffer);
        yielded := Judge(c);
      }
    }

    method FeedPlain(b: byte)
      requires Valid() && b != SOF
      modifies this
      ensures Valid() && history == old(history) + [b]
    {
      hide Cut, CountersOf, ScanAll, Flip20;
      PlainByteCounts(Host, history, b);
      history := history + [b];
      if dropping {
        return;
      }
      if escaped {
        if b != Flip20(SOF) && b != Flip20(ESC) {
          escaped := false;
          buffer := [];
          dropping := true;
          errors := errors + 1;
          escapeErrors := escapeErrors + 1;
          return;
        }
        buffer := buffer + [Flip20(b)];
        escaped := false;
      } else if b == ESC {
        escaped := true;
      } else if |buffer| < RAW_LENGTH {
        buffer := buffer + [b];
      } else {
        buffer := [];
        dropping := true;
        errors := errors + 1;
        overflowErrors := overflowErrors + 1;
      }
    }

    /** Each counter, by name: the true count. */
    ghost predicate Shows(c: Counters)
      reads this
    {
      && frames == c.frames && crcErrors == c.crc && formatErrors == c.format
      && overflowErrors == c.overflow && escapeErrors == c.escape && resyncEvents == c.resync
      && errors == c.crc + c.format + c.overflow + c.escape
      && lost == c.track.lost && duplicates == c.track.duplicates && outOfOrder == c.track.outOfOrder
    }

    lemma ValidShows()
      requires Valid()
      ensures Shows(CountersOf(Host, history))
    {
      hide CountersOf, ScanAll, Cut;
    }

    /** feed: however the stream is divided into calls, the chunks yielded are those of the segments
        closed so far. */
    method Feed(data: seq<byte>) returns (yielded: seq<HostChunk>)
      requires Valid()
      modifies this
      ensures Valid() && history == old(history) + data && Shows(CountersOf(Host, history))
      ensures AllKept(StreamDelivers(history)) == AllKept(StreamDelivers(old(history))) + yielded
    {
      hide Cut, CountersOf, ScanAll, Close, Delivered, Unescape, Shows;
      yielded := [];
      for i := 0 to |data|
        invariant Valid() && history == old(history) + data[..i]
        invariant AllKept(StreamDelivers(history)) == AllKept(StreamDelivers(old(history))) + yielded
      {
        StreamStep(Host, history, data[i]);
        if data[i] == SOF {
          var more := FeedDelimiter();
          yielded := yielded + more;
        } else {
          FeedPlain(data[i]);
        }
        assert data[..i + 1] == data[..i] + [data[i]];
      }
      assert data[..|data|] == data;
      ValidShows();
    }
  }
}
