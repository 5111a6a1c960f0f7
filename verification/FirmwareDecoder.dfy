/** telemetry_decoder_feed of core/telemetry.c: a fixed 236-byte buffer fed one byte at a time. */
module FirmwareDecoder {
  import opened Bytes
  import opened Format
  import opened Crc
  import opened Protocol
  import opened Framing
  import opened Scanning
  import opened Sequencing
  import opened Totals

  datatype RawResult = RAW_OK | RAW_BAD_CRC | RAW_BAD_FORMAT

  datatype FeedResult = DECODE_NONE | DECODE_FRAME | DECODE_ERROR

  /** decode_body on the decoder's buffer. */
  method DecodeBuffer(body: array<byte>, length: nat) returns (raw: RawResult, chunk: Option<SpectrumChunk>)
    requires length <= body.Length == RAW_LENGTH
    ensures match DecodeBody(body[..length])
            case BodyOk(c) => raw == RAW_OK && chunk == Some(c)
            case BadCrc => raw == RAW_BAD_CRC && chunk == None
            case BadFormat => raw == RAW_BAD_FORMAT && chunk == None
  {
    hide Crc16;
    if length != RAW_LENGTH {
      return RAW_BAD_FORMAT, None;
    }
    ghost var b := body[..length];
    var crc := Crc16CcittFalse(body, 234);
    assert body[..234] == b[..234];
    if crc != GetU16(body[..], 234) {
      return RAW_BAD_CRC, None;
    }
    if !HeaderOk(body[..]) {
      return RAW_BAD_FORMAT, None;
    }
    var magnitude := new byte[BINS_PER_CHUNK](i => 0);
    for i := 0 to BINS_PER_CHUNK
      invariant forall j :: 0 <= j < i ==> magnitude[j] == b[42 + j]
    {
      magnitude[i] := body[42 + i];
    }
    assert magnitude[..] == b[42..170];
    var preview := new i16[PREVIEW_PER_CHUNK](i => 0);
    for i := 0 to PREVIEW_PER_CHUNK
      invariant magnitude[..] == b[42..170]
      invariant forall j :: 0 <= j < i ==> preview[j] == Preview(b)[j]
    {
      preview[i] := ToSigned(GetU16(body[..], 170 + 2 * i));
    }
    assert preview[..] == Preview(b) && body[..] == b;
    raw, chunk := RAW_OK, Some(
                    SpectrumChunk(
                      GetU16(body[..], 4), GetU32(body[..], 6), GetU32(body[..], 10), body[14], body[15], body[16],
                      GetU32(body[..], 18), GetU16(body[..], 22), GetU16(body[..], 24), GetU16(body[..], 26),
                      GetU16(body[..], 28), GetU32(body[..], 30), GetU32(body[..], 34), GetU32(body[..], 38),
                      magnitude[..], preview[..]));
  }

  /** telemetry_decoder_stats_t: nine wrapping counters. */
  datatype Stats = Stats(framesOk: u32, crcErrors: u32, formatErrors: u32, overflowErrors: u32,
                         escapeErrors: u32, resyncEvents: u32, sequenceLost: u32,
                         sequenceDuplicates: u32, sequenceOutOfOrder: u32)

  /** True counts as the 32-bit counters show them. */
  function Wrapped(c: Counters): Stats {
    Stats(c.frames % TWO_32, c.crc % TWO_32, c.format % TWO_32, c.overflow % TWO_32,
          c.escape % TWO_32, c.resync % TWO_32, c.track.lost % TWO_32,
          c.track.duplicates % TWO_32, c.track.outOfOrder % TWO_32)
  }

  lemma WrapIncrement(n: nat)
    ensures (n + 1) % TWO_32 == Increment(n % TWO_32)
  {
  }

  lemma WrapAdd(n: nat, k: nat)
    ensures (n + k) % TWO_32 == (n % TWO_32 + k) % TWO_32
  {
  }

  /** Each counter update of the source, on the wrapped values. */
  lemma WrappedUpdates(c: Counters)
    ensures var w := Wrapped(c);
            && Wrapped(Blame(c, CrcFault)) == w.(crcErrors := Increment(w.crcErrors))
            && Wrapped(Blame(c, FormatFault)) == w.(formatErrors := Increment(w.formatErrors))
            && Wrapped(Blame(c, OverflowFault)) == w.(overflowErrors := Increment(w.overflowErrors))
            && Wrapped(Blame(c, EscapeFault)) == w.(escapeErrors := Increment(w.escapeErrors))
            && Wrapped(c.(resync := c.resync + 1)) == w.(resyncEvents := Increment(w.resyncEvents))
    ensures forall fault :: Blame(c, fault).track == c.track
  {
    WrapIncrement(c.crc);
    WrapIncrement(c.format);
    WrapIncrement(c.overflow);
    WrapIncrement(c.escape);
    WrapIncrement(c.resync);
  }

  /** What feeding `b` after the stream s returns. */
  function Reported(s: seq<byte>, b: byte): FeedResult {
    var scan := ScanAll(Firmware, Cut(s).open);
    if b == SOF then
      match Close(Firmware, Cut(s).open)
      case Silent => DECODE_NONE
      case Good(_) => DECODE_FRAME
      case Bad(_) => DECODE_ERROR
    else if ScanByte(Firmware, scan, b).Dropping? && !scan.Dropping? then DECODE_ERROR
    else DECODE_NONE
  }

  /** Everything a decoder counts as going wrong. */
  function Troubles(c: Counters): nat {
    c.crc + c.format + c.overflow + c.escape + c.resync
  }

  /** An error is reported exactly when one of those counters grows, a frame exactly when `frames` does. */
  lemma ReportedMeans(s: seq<byte>, b: byte)
    ensures var before, after := CountersOf(Firmware, s), CountersOf(Firmware, s + [b]);
            && (Reported(s, b) == DECODE_ERROR <==> Troubles(after) > Troubles(before))
            && (Reported(s, b) == DECODE_FRAME <==> after.frames > before.frames)
  {
    hide CountersOf, ScanAll, Close, Cut, Note;
    if b == SOF {
      DelimiterCounts(Firmware, s);
    } else {
      PlainByteCounts(Firmware, s, b);
    }
  }

  class Decoder {
    var body: array<byte>
    var length: nat
    var lastSequence: u16
    var escaped: bool
    var dropping: bool
    var haveSequence: bool
    var stats: Stats
    /** Every byte fed since initialisation. */
    ghost var history: seq<byte>

    ghost predicate Holds(scan: Scan)
      reads this, body
    {
      && body.Length == RAW_LENGTH && length <= RAW_LENGTH
      && match scan
         case Collecting(held) => !escaped && !dropping && body[..length] == held
         case Escaping(held) => escaped && !dropping && body[..length] == held
         case Dropping(_) => !escaped && dropping && length == 0
    }

    ghost predicate Counts(c: Counters)
      reads this
    {
      && stats == Wrapped(c)
      && haveSequence == c.track.last.Some?
      && (haveSequence ==> lastSequence == c.track.last.value)
    }

    /** The whole state is what the segments of the history call for. */
    ghost predicate Valid()
      reads this, body
    {
      Holds(ScanAll(Firmware, Cut(history).open)) && Counts(CountersOf(Firmware, history))
    }

    constructor ()
      ensures Valid() && history == [] && fresh(body)
    {
      body := new byte[RAW_LENGTH](i => 0);
      length, lastSequence, escaped, dropping, haveSequence := 0, 0, false, false, false;
      stats := Stats(0, 0, 0, 0, 0, 0, 0, 0, 0);
      history := [];
      new;
      hide *;
      StartsValid();
    }

    lemma StartsValid()
      requires history == [] && body.Length == RAW_LENGTH && length == 0
      requires !escaped && !dropping && !haveSequence && stats == Stats(0, 0, 0, 0, 0, 0, 0, 0, 0)
      ensures Valid()
    {
      hide CountersOf, Cut, ScanAll;
      NothingFed(Firmware, history);
    }

    method NoteSequence(sequence: u16, ghost c: Counters)
      requires Counts(c)
      modifies this`lastSequence, this`haveSequence, this`stats
      ensures Counts(c.(frames := c.frames + 1, track := Note(c.track, sequence)))
    {
      WrapIncrement(c.frames);
      WrapIncrement(c.track.duplicates);
      WrapIncrement(c.track.outOfOrder);
      if haveSequence {
        var delta := Delta(sequence, lastSequence);
        hide Delta, Increment;
        if delta == 0 {
          stats := stats.(sequenceDuplicates := Increment(stats.sequenceDuplicates));
        } else if delta < 0x8000 {
          WrapAdd(c.track.lost, delta - 1);
          stats := stats.(sequenceLost := (stats.sequenceLost + (delta - 1)) % TWO_32);
          lastSequence := sequence;
        } else {
          stats := stats.(sequenceOutOfOrder := Increment(stats.sequenceOutOfOrder));
        }
      } else {
        lastSequence := sequence;
        haveSequence := true;
      }
      stats := stats.(framesOk := Increment(stats.framesOk));
    }

    method FeedDelimiter() returns (result: FeedResult, chunk: Option<SpectrumChunk>)
      requires Valid()
      modifies this
      ensures Valid() && body == old(body) && history == old(history) + [SOF]
      ensures result == Reported(old(history), SOF)
      ensures chunk == (match Close(Firmware, Cut(old(history)).open) case Good(c) => Some(c) case _ => None)
    {
      hide Cut, CountersOf, ScanAll, DecodeBody, Note, Increment, Wrapped, Blame;
      DelimiterCounts(Firmware, history);
      EmptyScan();
      ghost var c := CountersOf(Firmware, history);
      WrappedUpdates(c);
      WrappedUpdates(c.(resync := c.resync + 1));
      history := history + [SOF];
      chunk := None;
      if escaped {
        stats := stats.(escapeErrors := Increment(stats.escapeErrors));
        stats := stats.(resyncEvents := Increment(stats.resyncEvents));
        escaped := false;
        length := 0;
        return DECODE_ERROR, None;
      }
      if dropping {
        stats := stats.(resyncEvents := Increment(stats.resyncEvents));
        dropping := false;
        length := 0;
        return DECODE_ERROR, None;
      }
      if length == 0 {
        return DECODE_NONE, None;
      }
      var raw;
      raw, chunk := DecodeBuffer(body, length);
      length := 0;
      if raw != RAW_OK {
        if raw == RAW_BAD_CRC {
          stats := stats.(crcErrors := Increment(stats.crcErrors));
        } else {
          stats := stats.(formatErrors := Increment(stats.formatErrors));
        }
        stats := stats.(resyncEvents := Increment(stats.resyncEvents));
        return DECODE_ERROR, None;
      }
      NoteSequence(chunk.value.sequence, c);
      return DECODE_FRAME, chunk;
    }

    /** Any byte but the delimiter: no chunk comes of it. */
    method FeedPlain(b: byte) returns (result: FeedResult)
      requires Valid() && b != SOF
      modifies this, body
      ensures Valid() && body == old(body) && history == old(history) + [b]
      ensures result == Reported(old(history), b) && result != DECODE_FRAME
    {
      hide Cut, CountersOf, ScanAll, DecodeBody, Close, Delivered, Unescape, Increment, Flip20, Wrapped, Blame;
      PlainByteCounts(Firmware, history, b);
      WrappedUpdates(CountersOf(Firmware, history));
      history := history + [b];
      if dropping {
        return DECODE_NONE;
      }
      var plain := b;
      if escaped {
        if b != Flip20(SOF) && b != Flip20(ESC) {
          stats := stats.(escapeErrors := Increment(stats.escapeErrors));
          dropping, escaped, length := true, false, 0;
          return DECODE_ERROR;
        }
        plain := Flip20(b);
        escaped := false;
      } else if b == ESC {
        escaped := true;
        return DECODE_NONE;
      }
      if length >= RAW_LENGTH {
        stats := stats.(overflowErrors := Increment(stats.overflowErrors));
        dropping, length := true, 0;
        return DECODE_ERROR;
      }
      body[length] := plain;
      length := length + 1;
      return DECODE_NONE;
    }

    /** Each counter, by name: the true count modulo 2^32. */
    ghost predicate Shows(c: Counters)
      reads this
    {
      && stats.framesOk == c.frames % 0x1_0000_0000 && stats.crcErrors == c.crc % 0x1_0000_0000
      && stats.formatErrors == c.format % 0x1_0000_0000 && stats.overflowErrors == c.overflow % 0x1_0000_0000
      && stats.escapeErrors == c.escape % 0x1_0000_0000 && stats.resyncEvents == c.resync % 0x1_0000_0000
      && stats.sequenceLost == c.track.lost % 0x1_0000_0000
      && stats.sequenceDuplicates == c.track.duplicates % 0x1_0000_0000
      && stats.sequenceOutOfOrder == c.track.outOfOrder % 0x1_0000_0000
    }

    lemma ValidShows()
      requires Valid()
      ensures Shows(CountersOf(Firmware, history))
    {
      hide CountersOf, ScanAll, Cut;
    }

    /** telemetry_decoder_feed. */
    method Feed(b: byte) returns (result: FeedResult, chunk: Option<SpectrumChunk>)
      requires Valid()
      modifies this, body
      ensures Valid() && body == old(body) && history == old(history) + [b]
      ensures Shows(CountersOf(Firmware, history))
      ensures result == Reported(old(history), b)
      ensures result == DECODE_ERROR
         <==> Troubles(CountersOf(Firmware, history)) > Troubles(CountersOf(Firmware, old(history)))
      ensures result == DECODE_FRAME
         <==> CountersOf(Firmware, history).frames > CountersOf(Firmware, old(history)).frames
      ensures result == DECODE_FRAME ==>
                chunk.Some? && StreamDelivers(history) == StreamDelivers(old(history)) + [chunk.value]
      ensures result != DECODE_FRAME ==>
                chunk == None && StreamDelivers(history) == StreamDelivers(old(history))
    {
      hide Cut, Close, StreamDelivers, Valid, CountersOf, Shows;
      StreamStep(Firmware, history, b);
      ReportedMeans(history, b);
      if b == SOF {
        result, chunk := FeedDelimiter();
      } else {
        result := FeedPlain(b);
        chunk := None;
      }
      assert StreamDelivers(old(history)) + [] == StreamDelivers(old(history));
      ValidShows();
    }
  }
}
