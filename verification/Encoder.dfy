/** telemetry_encode_spectrum_chunk of core/telemetry.c: fields, checksum, stuffing and delimiters,
    written in place into the caller's buffer. */
module Encoder {
  import opened Bytes
  import opened Format
  import opened Crc
  import opened Protocol
  import opened Framing

  /** append_escaped: refuses, without writing, what does not fit below `capacity`. */
  method AppendEscaped(b: byte, out: array<byte>, capacity: nat, position: nat) returns (ok: bool, next: nat)
    requires capacity <= out.Length && position <= out.Length
    modifies out
    ensures ok <==> position + |EscapeByte(b)| <= capacity
    ensures ok ==> next == position + |EscapeByte(b)| && out[..next] == old(out[..position]) + EscapeByte(b)
    ensures !ok ==> next == position && out[..] == old(out[..])
  {
    if b == SOF || b == ESC {
      if position + 2 > capacity {
        return false, position;
      }
      out[position] := ESC;
      out[position + 1] := Flip20(b);
      return true, position + 2;
    } else {
      if position + 1 > capacity {
        return false, position;
      }
      out[position] := b;
      return true, position + 1;
    }
  }

  /** A field as the bytes wanted at its offset. */
  ghost predicate Field16(wanted: seq<byte>, at: nat, v: u16)
    requires at + 2 <= |wanted|
  {
    wanted[at] == FieldByte(v, 0) && wanted[at + 1] == FieldByte(v, 1)
  }

  ghost predicate Field32(wanted: seq<byte>, at: nat, v: u32)
    requires at + 4 <= |wanted|
  {
    && wanted[at] == FieldByte(v, 0) && wanted[at + 1] == FieldByte(v, 1)
    && wanted[at + 2] == FieldByte(v, 2) && wanted[at + 3] == FieldByte(v, 3)
  }

  /** put_u16 at the end of what `wanted` says has been written. */
  method PutU16(raw: array<byte>, at: nat, v: u16, ghost wanted: seq<byte>)
    requires at + 2 <= raw.Length == |wanted| && raw[..at] == wanted[..at] && Field16(wanted, at, v)
    modifies raw
    ensures raw[..at + 2] == wanted[..at + 2]
  {
    assert FieldByte(v, 1) == FieldByte(v / 256, 0) == v / 256;
    raw[at] := v % 256;
    raw[at + 1] := v / 256;
  }

  method PutU32(raw: array<byte>, at: nat, v: u32, ghost wanted: seq<byte>)
    requires at + 4 <= raw.Length == |wanted| && raw[..at] == wanted[..at] && Field32(wanted, at, v)
    modifies raw
    ensures raw[..at + 4] == wanted[..at + 4]
  {
    ShiftedBytes(v);
    raw[at] := v % 256;
    raw[at + 1] := v / 0x100 % 256;
    raw[at + 2] := v / 0x1_0000 % 256;
    raw[at + 3] := v / 0x100_0000;
  }

  lemma ShiftsCompose(v: nat)
    ensures v / 256 / 256 == v / 0x1_0000 && v / 256 / 256 / 256 == v / 0x100_0000
  {
  }

  lemma ShiftedBytes(v: u32)
    ensures FieldByte(v, 0) == v % 256 && FieldByte(v, 1) == v / 0x100 % 256
    ensures FieldByte(v, 2) == v / 0x1_0000 % 256 && FieldByte(v, 3) == v / 0x100_0000
  {
    ShiftsCompose(v);
    var a, b := v / 256, v / 256 / 256;
    assert FieldByte(v, 2) == FieldByte(a, 1) == FieldByte(b, 0);
    assert FieldByte(v, 3) == FieldByte(a, 2) == FieldByte(b, 1);
  }

  method PutByte(raw: array<byte>, at: nat, v: byte, ghost wanted: seq<byte>)
    requires at < raw.Length == |wanted| && raw[..at] == wanted[..at] && wanted[at] == v
    modifies raw
    ensures raw[..at + 1] == wanted[..at + 1]
  {
    raw[at] := v;
  }

  lemma HeaderFields(sequence: u16, r: SpectrumResult, channel: nat, chunk: nat, wanted: seq<byte>)
    requires Sized(r) && channel < CHANNELS && chunk < CHUNKS && |wanted| == RAW_LENGTH
    requires forall i :: 0 <= i < 42 ==> wanted[i] == HeaderByte(sequence, r, channel, chunk, i)
    ensures wanted[0] == 2 && wanted[1] == 1
    ensures Field16(wanted, 2, PAYLOAD_LENGTH) && Field16(wanted, 4, sequence)
    ensures Field32(wanted, 6, r.timestampUs) && Field32(wanted, 10, r.status)
    ensures wanted[14] == channel && wanted[15] == chunk && wanted[16] == CHUNKS && wanted[17] == 0
    ensures Field32(wanted, 18, r.sampleRateHz)
    ensures Field16(wanted, 22, chunk * BINS_PER_CHUNK) && Field16(wanted, 24, BINS_PER_CHUNK)
    ensures Field16(wanted, 26, r.channel[channel].rmsQ15) && Field16(wanted, 28, r.channel[channel].peakQ15)
    ensures Field32(wanted, 30, r.channel[channel].dominantMillihz)
    ensures Field32(wanted, 34, r.processingUs) && Field32(wanted, 38, r.droppedBlocks)
  {
    hide FieldByte;
  }

  /** The first eighteen bytes: version, type, length, sequence, time, status, channel and chunk. */
  method PutAddress(raw: array<byte>, sequence: u16, r: SpectrumResult, channel: nat, chunk: nat,
                    ghost wanted: seq<byte>)
    requires Sized(r) && channel < CHANNELS && chunk < CHUNKS && raw.Length == |wanted| == RAW_LENGTH
    requires forall i :: 0 <= i < 42 ==> wanted[i] == HeaderByte(sequence, r, channel, chunk, i)
    modifies raw
    ensures raw[..18] == wanted[..18]
  {
    HeaderFields(sequence, r, channel, chunk, wanted);
    hide HeaderByte, Field16, Field32;
    PutByte(raw, 0, 2, wanted);
    PutByte(raw, 1, 1, wanted);
    PutU16(raw, 2, PAYLOAD_LENGTH, wanted);
    PutU16(raw, 4, sequence, wanted);
    PutU32(raw, 6, r.timestampUs, wanted);
    PutU32(raw, 10, r.status, wanted);
    PutByte(raw, 14, channel, wanted);
    PutByte(raw, 15, chunk, wanted);
    PutByte(raw, 16, CHUNKS, wanted);
    PutByte(raw, 17, 0, wanted);
  }

  method PutHeader(raw: array<byte>, sequence: u16, r: SpectrumResult, channel: nat, chunk: nat,
                   ghost wanted: seq<byte>)
    requires Sized(r) && channel < CHANNELS && chunk < CHUNKS && raw.Length == |wanted| == RAW_LENGTH
    requires forall i :: 0 <= i < 42 ==> wanted[i] == HeaderByte(sequence, r, channel, chunk, i)
    modifies raw
    ensures raw[..42] == wanted[..42]
  {
    HeaderFields(sequence, r, channel, chunk, wanted);
    hide HeaderByte, Field16, Field32;
    PutAddress(raw, sequence, r, channel, chunk, wanted);
    PutU32(raw, 18, r.sampleRateHz, wanted);
    PutU16(raw, 22, chunk * BINS_PER_CHUNK, wanted);
    PutU16(raw, 24, BINS_PER_CHUNK, wanted);
    PutU16(raw, 26, r.channel[channel].rmsQ15, wanted);
    PutU16(raw, 28, r.channel[channel].peakQ15, wanted);
    PutU32(raw, 30, r.channel[channel].dominantMillihz, wanted);
    PutU32(raw, 34, r.processingUs, wanted);
    PutU32(raw, 38, r.droppedBlocks, wanted);
  }

  method BuildBody(sequence: u16, r: SpectrumResult, channel: nat, chunk: nat) returns (raw: array<byte>)
    requires Sized(r) && channel < CHANNELS && chunk < CHUNKS
    ensures fresh(raw) && raw[..] == RawBody(sequence, r, channel, chunk)
  {
    hide RawBody, RawData, Crc16, HeaderByte, FieldByte;
    raw := new byte[RAW_LENGTH](i => 0);
    ghost var wanted := RawBody(sequence, r, channel, chunk);
    RawBodyFields(sequence, r, channel, chunk);
    assert forall i :: 0 <= i < 42 ==> wanted[i] == DataByte(sequence, r, channel, chunk, i);
    PutHeader(raw, sequence, r, channel, chunk, wanted);
    var binStart := chunk * BINS_PER_CHUNK;
    for i := 0 to BINS_PER_CHUNK
      invariant raw[..42 + i] == wanted[..42 + i]
    {
      assert wanted[42 + i] == DataByte(sequence, r, channel, chunk, 42 + i);
      PutByte(raw, 42 + i, Compress(r.channel[channel].magnitudeQ15[binStart + i]), wanted);
    }
    var previewStart := chunk * PREVIEW_PER_CHUNK;
    for i := 0 to PREVIEW_PER_CHUNK
      invariant raw[..170 + 2 * i] == wanted[..170 + 2 * i]
    {
      assert wanted[170 + 2 * i] == DataByte(sequence, r, channel, chunk, 170 + 2 * i);
      assert wanted[170 + 2 * i + 1] == DataByte(sequence, r, channel, chunk, 170 + 2 * i + 1);
      PutU16(raw, 170 + 2 * i, ToUnsigned(r.channel[channel].previewQ15[previewStart + i]), wanted);
    }
    var crc := Crc16CcittFalse(raw, 234);
    BodyTrailer(sequence, r, channel, chunk);
    PutU16(raw, 234, crc, wanted);
    assert raw[..236] == raw[..] && wanted[..236] == wanted;
  }

  lemma BodyTrailer(sequence: u16, r: SpectrumResult, channel: nat, chunk: nat)
    requires Sized(r) && channel < CHANNELS && chunk < CHUNKS
    ensures var b := RawBody(sequence, r, channel, chunk);
            b[234] == FieldByte(Crc16(b[..234]), 0) && b[235] == FieldByte(Crc16(b[..234]), 1)
  {
    RawBodyFields(sequence, r, channel, chunk);
  }

  /** telemetry_encode_spectrum_chunk. It returns 0 exactly for a bad index or a buffer shorter than the
      frame, which never needs more than 474 bytes; otherwise the buffer starts with the whole frame. */
  method EncodeSpectrumChunk(sequence: u16, r: SpectrumResult, channel: nat, chunk: nat,
                             output: array<byte>, capacity: nat) returns (length: nat)
    requires Sized(r) && capacity <= output.Length
    modifies output
    ensures channel >= CHANNELS || chunk >= CHUNKS ==> length == 0
    ensures channel < CHANNELS && chunk < CHUNKS ==>
              var frame := Frame(RawBody(sequence, r, channel, chunk));
              && |frame| <= 474
              && (length == 0 <==> capacity < |frame|)
              && (length != 0 ==> length == |frame| && output[..length] == frame)
  {
    if channel >= CHANNELS || chunk >= CHUNKS {
      return 0;
    }
    var raw := BuildBody(sequence, r, channel, chunk);
    hide RawBody;
    EscapeLength(RawBody(sequence, r, channel, chunk));
    length := StuffBody(raw, output, capacity);
  }

  /** The stuffing loop with its delimiters. */
  method StuffBody(raw: array<byte>, output: array<byte>, capacity: nat) returns (length: nat)
    requires raw != output && capacity <= output.Length
    modifies output
    ensures length == 0 <==> capacity < |Frame(raw[..])|
    ensures length != 0 ==> length == |Frame(raw[..])| && output[..length] == Frame(raw[..])
  {
    hide Escape, EscapeByte;
    if capacity < 2 {
      return 0;
    }
    output[0] := SOF;
    var position := 1;
    EscapeStart(raw[..]);
    for i := 0 to raw.Length
      invariant position == 1 + |Escape(raw[..i])| <= capacity
      invariant output[..position] == [SOF] + Escape(raw[..i])
    {
      EscapeNext(raw[..], i);
      assert raw[..][..i] == raw[..i] && raw[..][..i + 1] == raw[..i + 1];
      var ok;
      ok, position := AppendEscaped(raw[i], output, capacity - 1, position);
      if !ok {
        return 0;
      }
    }
    assert raw[..raw.Length] == raw[..];
    if position >= capacity {
      return 0;
    }
    output[position] := SOF;
    assert output[..position + 1] == Frame(raw[..]);
    return position + 1;
  }

  lemma EscapeStart(body: seq<byte>)
    ensures Escape(body[..0]) == []
  {
  }

  /** One more byte stuffed, and still no longer than the whole. */
  lemma EscapeNext(body: seq<byte>, i: nat)
    requires i < |body|
    ensures Escape(body[..i + 1]) == Escape(body[..i]) + EscapeByte(body[i])
    ensures |Escape(body[..i + 1])| <= |Escape(body)|
  {
    assert body[..i + 1][..i] == body[..i];
    EscapeJoins(body[..i + 1], body[i + 1..]);
    assert body == body[..i + 1] + body[i + 1..];
  }
}
