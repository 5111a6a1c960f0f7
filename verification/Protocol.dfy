/** Telemetry protocol version 2: the records, the raw body of a spectrum chunk, and its parser. */
module Protocol {
  import opened Bytes
  import opened Crc
  import opened Format

  datatype ChannelSpectrum = ChannelSpectrum(
    magnitudeQ15: seq<u16>, previewQ15: seq<i16>, rmsQ15: u16, peakQ15: u16,
    clippedSamples: u16, dominantMillihz: u32)

  datatype SpectrumResult = SpectrumResult(
    timestampUs: u32, generation: u32, sampleRateHz: u32, processingUs: u32,
    droppedBlocks: u32, status: u32, channel: seq<ChannelSpectrum>)

  /** The array sizes the C types fix. */
  predicate Sized(r: SpectrumResult) {
    |r.channel| == CHANNELS
    && forall c :: 0 <= c < CHANNELS ==>
                     |r.channel[c].magnitudeQ15| == BINS && |r.channel[c].previewQ15| == PREVIEW_SAMPLES
  }

  datatype SpectrumChunk = SpectrumChunk(
    sequence: u16, timestampUs: u32, status: u32, channel: byte, chunkIndex: byte, chunkCount: byte,
    sampleRateHz: u32, binStart: u16, binCount: u16, rmsQ15: u16, peakQ15: u16,
    dominantMillihz: u32, processingUs: u32, droppedBlocks: u32,
    magnitudeU8: seq<byte>, previewQ15: seq<i16>)

  /** Byte k of a little-endian field. */
  function FieldByte(v: nat, k: nat): byte {
    if k == 0 then v % 256 else FieldByte(v / 256, k - 1)
  }

  /** (magnitude + 64) >> 7, clipped to a byte. */
  function Compress(magnitude: u16): byte {
    var compressed := (magnitude + 64) / 128;
    if compressed > 255 then 255 else compressed
  }

  /** Byte i of the 42-byte header. */
  function HeaderByte(sequence: u16, r: SpectrumResult, channel: nat, chunk: nat, i: nat): byte
    requires Sized(r) && channel < CHANNELS && chunk < CHUNKS && i < 42
  {
    var source := r.channel[channel];
    if i == 0 then 2
    else if i == 1 then 1
    else if i < 4 then FieldByte(PAYLOAD_LENGTH, i - 2)
    else if i < 6 then FieldByte(sequence, i - 4)
    else if i < 10 then FieldByte(r.timestampUs, i - 6)
    else if i < 14 then FieldByte(r.status, i - 10)
    else if i == 14 then channel
    else if i == 15 then chunk
    else if i == 16 then CHUNKS
    else if i == 17 then 0
    else if i < 22 then FieldByte(r.sampleRateHz, i - 18)
    else if i < 24 then FieldByte(chunk * BINS_PER_CHUNK, i - 22)
    else if i < 26 then FieldByte(BINS_PER_CHUNK, i - 24)
    else if i < 28 then FieldByte(source.rmsQ15, i - 26)
    else if i < 30 then FieldByte(source.peakQ15, i - 28)
    else if i < 34 then FieldByte(source.dominantMillihz, i - 30)
    else if i < 38 then FieldByte(r.processingUs, i - 34)
    else FieldByte(r.droppedBlocks, i - 38)
  }

  /** Byte i of the 234 bytes the checksum covers. */
  function DataByte(sequence: u16, r: SpectrumResult, channel: nat, chunk: nat, i: nat): byte
    requires Sized(r) && channel < CHANNELS && chunk < CHUNKS && i < 234
  {
    var source := r.channel[channel];
    if i < 42 then HeaderByte(sequence, r, channel, chunk, i)
    else if i < 170 then Compress(source.magnitudeQ15[chunk * BINS_PER_CHUNK + (i - 42)])
    else FieldByte(ToUnsigned(source.previewQ15[chunk * PREVIEW_PER_CHUNK + (i - 170) / 2]), (i - 170) % 2)
  }

  function RawData(sequence: u16, r: SpectrumResult, channel: nat, chunk: nat): (d: seq<byte>)
    requires Sized(r) && channel < CHANNELS && chunk < CHUNKS
    ensures |d| == 234
    ensures forall i :: 0 <= i < 234 ==> d[i] == DataByte(sequence, r, channel, chunk, i)
  {
    seq(234, (i: nat) requires i < 234 => DataByte(sequence, r, channel, chunk, i))
  }

  function RawBody(sequence: u16, r: SpectrumResult, channel: nat, chunk: nat): (b: seq<byte>)
    requires Sized(r) && channel < CHANNELS && chunk < CHUNKS
    ensures |b| == RAW_LENGTH
  {
    var d := RawData(sequence, r, channel, chunk);
    d + [FieldByte(Crc16(d), 0), FieldByte(Crc16(d), 1)]
  }

  datatype Decoded = BodyOk(chunk: SpectrumChunk) | BadCrc | BadFormat

  predicate HeaderOk(body: seq<byte>)
    requires |body| == RAW_LENGTH
  {
    && body[0] == 2 && body[1] == 1
    && GetU16(body, 2) == PAYLOAD_LENGTH
    && body[14] < CHANNELS && body[15] < CHUNKS
    && body[16] == CHUNKS && body[17] == 0
    && GetU16(body, 24) == BINS_PER_CHUNK
    && GetU16(body, 22) == body[15] * BINS_PER_CHUNK
  }

  /** decode_body: length first, then the checksum, then the header fields. */
  function DecodeBody(body: seq<byte>): Decoded {
    if |body| != RAW_LENGTH then BadFormat
    else if Crc16(body[..234]) != GetU16(body, 234) then BadCrc
    else if !HeaderOk(body) then BadFormat
    else BodyOk(ChunkAt(body))
  }

  function ChunkAt(body: seq<byte>): SpectrumChunk
    requires |body| == RAW_LENGTH
  {
    SpectrumChunk(
      GetU16(body, 4), GetU32(body, 6), GetU32(body, 10), body[14], body[15], body[16],
      GetU32(body, 18), GetU16(body, 22), GetU16(body, 24), GetU16(body, 26), GetU16(body, 28),
      GetU32(body, 30), GetU32(body, 34), GetU32(body, 38),
      body[42..170], Preview(body))
  }

  function Preview(body: seq<byte>): (p: seq<i16>)
    requires |body| == RAW_LENGTH
    ensures |p| == PREVIEW_PER_CHUNK
    ensures forall i :: 0 <= i < PREVIEW_PER_CHUNK ==> p[i] == ToSigned(GetU16(body, 170 + 2 * i))
  {
    seq(PREVIEW_PER_CHUNK, (i: nat) requires i < PREVIEW_PER_CHUNK => ToSigned(GetU16(body, 170 + 2 * i)))
  }

  /** What a receiver should see for one chunk of a result. */
  ghost predicate Carries(c: SpectrumChunk, sequence: u16, r: SpectrumResult, channel: nat, chunk: nat)
    requires Sized(r) && channel < CHANNELS && chunk < CHUNKS
  {
    var source := r.channel[channel];
    && c.sequence == sequence
    && c.timestampUs == r.timestampUs && c.status == r.status
    && c.channel == channel && c.chunkIndex == chunk && c.chunkCount == CHUNKS
    && c.sampleRateHz == r.sampleRateHz
    && c.binStart == chunk * BINS_PER_CHUNK && c.binCount == BINS_PER_CHUNK
    && c.rmsQ15 == source.rmsQ15 && c.peakQ15 == source.peakQ15
    && c.dominantMillihz == source.dominantMillihz
    && c.processingUs == r.processingUs && c.droppedBlocks == r.droppedBlocks
    && |c.magnitudeU8| == BINS_PER_CHUNK && |c.previewQ15| == PREVIEW_PER_CHUNK
    && (forall i :: 0 <= i < BINS_PER_CHUNK ==>
                      MagnitudeClose(c.magnitudeU8[i], source.magnitudeQ15[chunk * BINS_PER_CHUNK + i]))
    && c.previewQ15 == source.previewQ15[chunk * PREVIEW_PER_CHUNK..(chunk + 1) * PREVIEW_PER_CHUNK]
  }

  /** A compressed bin is the nearest multiple of 128 below 32704, and 255 from there on. */
  predicate MagnitudeClose(u8: byte, q15: u16) {
    && (q15 < 32704 ==> -63 <= 128 * u8 - q15 <= 64)
    && (q15 >= 32704 ==> u8 == 255)
    && (q15 <= 32767 ==> -127 <= 128 * u8 - q15 <= 127)
  }

  lemma U16Bytes(v: u16)
    ensures FieldByte(v, 0) as int + 0x100 * (FieldByte(v, 1) as int) == v
  {
  }

  lemma U32Bytes(v: u32)
    ensures FieldByte(v, 0) as int + 0x100 * (FieldByte(v, 1) as int)
            + 0x1_0000 * (FieldByte(v, 2) as int) + 0x100_0000 * (FieldByte(v, 3) as int) == v
  {
    assert FieldByte(v, 2) == FieldByte(v / 256, 1);
    assert FieldByte(v, 3) == FieldByte(v / 256, 2) == FieldByte(v / 256 / 256, 1);
  }

  lemma SignRoundTrip(v: i16)
    ensures ToSigned(ToUnsigned(v)) == v
  {
  }

  lemma CompressClose(q15: u16)
    ensures MagnitudeClose(Compress(q15), q15)
  {
  }

  lemma RawBodyFields(sequence: u16, r: SpectrumResult, channel: nat, chunk: nat)
    requires Sized(r) && channel < CHANNELS && chunk < CHUNKS
    ensures var b := RawBody(sequence, r, channel, chunk);
            && b[..234] == RawData(sequence, r, channel, chunk)
            && GetU16(b, 234) == Crc16(b[..234])
            && forall i :: 0 <= i < 234 ==> b[i] == DataByte(sequence, r, channel, chunk, i)
  {
    U16Bytes(Crc16(RawData(sequence, r, channel, chunk)));
  }

  lemma HeaderBytes(sequence: u16, r: SpectrumResult, channel: nat, chunk: nat, b: seq<byte>)
    requires Sized(r) && channel < CHANNELS && chunk < CHUNKS && |b| == RAW_LENGTH
    requires forall i :: 0 <= i < 42 ==> b[i] == HeaderByte(sequence, r, channel, chunk, i)
    ensures HeaderOk(b)
    ensures GetU16(b, 4) == sequence && GetU32(b, 6) == r.timestampUs && GetU32(b, 10) == r.status
    ensures b[14] == channel && b[15] == chunk && b[16] == CHUNKS
    ensures GetU32(b, 18) == r.sampleRateHz
    ensures GetU16(b, 22) == chunk * BINS_PER_CHUNK && GetU16(b, 24) == BINS_PER_CHUNK
    ensures GetU16(b, 26) == r.channel[channel].rmsQ15 && GetU16(b, 28) == r.channel[channel].peakQ15
    ensures GetU32(b, 30) == r.channel[channel].dominantMillihz
    ensures GetU32(b, 34) == r.processingUs && GetU32(b, 38) == r.droppedBlocks
  {
    hide FieldByte;
    U16Bytes(PAYLOAD_LENGTH);
    U16Bytes(sequence);
    U32Bytes(r.timestampUs);
    U32Bytes(r.status);
    U32Bytes(r.sampleRateHz);
    U16Bytes(chunk * BINS_PER_CHUNK);
    U16Bytes(BINS_PER_CHUNK);
    U16Bytes(r.channel[channel].rmsQ15);
    U16Bytes(r.channel[channel].peakQ15);
    U32Bytes(r.channel[channel].dominantMillihz);
    U32Bytes(r.processingUs);
    U32Bytes(r.droppedBlocks);
  }

  lemma PayloadBytes(sequence: u16, r: SpectrumResult, channel: nat, chunk: nat, b: seq<byte>)
    requires Sized(r) && channel < CHANNELS && chunk < CHUNKS && |b| == RAW_LENGTH
    requires forall i :: 0 <= i < 234 ==> b[i] == DataByte(sequence, r, channel, chunk, i)
    ensures forall i :: 0 <= i < BINS_PER_CHUNK ==>
                          MagnitudeClose(b[42..170][i], r.channel[channel].magnitudeQ15[chunk * BINS_PER_CHUNK + i])
    ensures Preview(b)
         == r.channel[channel].previewQ15[chunk * PREVIEW_PER_CHUNK..(chunk + 1) * PREVIEW_PER_CHUNK]
  {
    hide FieldByte, HeaderByte;
    var source := r.channel[channel];
    forall i | 0 <= i < BINS_PER_CHUNK
      ensures MagnitudeClose(b[42..170][i], source.magnitudeQ15[chunk * BINS_PER_CHUNK + i])
    {
      CompressClose(source.magnitudeQ15[chunk * BINS_PER_CHUNK + i]);
      assert b[42 + i] == DataByte(sequence, r, channel, chunk, 42 + i);
    }
    forall i | 0 <= i < PREVIEW_PER_CHUNK
      ensures Preview(b)[i] == source.previewQ15[chunk * PREVIEW_PER_CHUNK + i]
    {
      var v := source.previewQ15[chunk * PREVIEW_PER_CHUNK + i];
      U16Bytes(ToUnsigned(v));
      SignRoundTrip(v);
      assert b[170 + 2 * i] == DataByte(sequence, r, channel, chunk, 170 + 2 * i);
      assert b[170 + 2 * i + 1] == DataByte(sequence, r, channel, chunk, 170 + 2 * i + 1);
    }
  }

  /** Parsing what the encoder builds gives back every transmitted field. */
  lemma BodyRoundTrip(sequence: u16, r: SpectrumResult, channel: nat, chunk: nat)
    requires Sized(r) && channel < CHANNELS && chunk < CHUNKS
    ensures var d := DecodeBody(RawBody(sequence, r, channel, chunk));
            d.BodyOk? && Carries(d.chunk, sequence, r, channel, chunk)
  {
    hide RawBody, RawData, Crc16, HeaderByte, FieldByte, MagnitudeClose;
    var b := RawBody(sequence, r, channel, chunk);
    RawBodyFields(sequence, r, channel, chunk);
    HeaderBytes(sequence, r, channel, chunk, b);
    PayloadBytes(sequence, r, channel, chunk, b);
  }

  /** Little-endian fields, written out. */
  function Little2(b: seq<byte>, at: nat): nat
    requires at + 2 <= |b|
  {
    b[at] as int + 256 * (b[at + 1] as int)
  }

  function Little4(b: seq<byte>, at: nat): nat
    requires at + 4 <= |b|
  {
    b[at] as int + 256 * (b[at + 1] as int) + 65536 * (b[at + 2] as int) + 16777216 * (b[at + 3] as int)
  }

  lemma LittleEndian(b: seq<byte>, at: nat)
    requires at + 2 <= |b|
    ensures Little2(b, at) == GetU16(b, at)
    ensures at + 4 <= |b| ==> Little4(b, at) == GetU32(b, at)
  {
  }

  /** The header of a body on the wire: little-endian fields at the offsets of the protocol. */
  lemma HeaderLayout(sequence: u16, r: SpectrumResult, channel: nat, chunk: nat)
    requires Sized(r) && channel < CHANNELS && chunk < CHUNKS
    ensures var b, source := RawBody(sequence, r, channel, chunk), r.channel[channel];
            && b[0] == 2 && b[1] == 1 && Little2(b, 2) == 228
            && Little2(b, 4) == sequence && Little4(b, 6) == r.timestampUs && Little4(b, 10) == r.status
            && b[14] == channel && b[15] == chunk && b[16] == 4 && b[17] == 0
            && Little4(b, 18) == r.sampleRateHz && Little2(b, 22) == 128 * chunk && Little2(b, 24) == 128
            && Little2(b, 26) == source.rmsQ15 && Little2(b, 28) == source.peakQ15
            && Little4(b, 30) == source.dominantMillihz
            && Little4(b, 34) == r.processingUs && Little4(b, 38) == r.droppedBlocks
            && Little2(b, 234) == Crc16(b[..234])
  {
    var b := RawBody(sequence, r, channel, chunk);
    hide RawBody, RawData, Crc16, HeaderByte, FieldByte;
    RawBodyFields(sequence, r, channel, chunk);
    assert forall i :: 0 <= i < 42 ==> b[i] == HeaderByte(sequence, r, channel, chunk, i) by {
      assert forall i :: 0 <= i < 42 ==> b[i] == DataByte(sequence, r, channel, chunk, i);
    }
    hide DataByte;
    HeaderBytes(sequence, r, channel, chunk, b);
  }

  lemma SignedField(b: seq<byte>, at: nat, v: i16)
    requires at + 2 <= |b| && ToSigned(GetU16(b, at)) == v
    ensures Little2(b, at) == (v as int) % 0x1_0000
  {
  }

  /** Of the rest of the body, 128 compressed bins from offset 42. */
  lemma BinLayout(sequence: u16, r: SpectrumResult, channel: nat, chunk: nat)
    requires Sized(r) && channel < CHANNELS && chunk < CHUNKS
    ensures var b, source := RawBody(sequence, r, channel, chunk), r.channel[channel];
            forall i :: 42 <= i < 170 ==> MagnitudeClose(b[i], source.magnitudeQ15[128 * chunk + (i - 42)])
  {
    var b, source := RawBody(sequence, r, channel, chunk), r.channel[channel];
    hide RawBody, RawData, Crc16, HeaderByte, FieldByte, MagnitudeClose;
    RawBodyFields(sequence, r, channel, chunk);
    forall i | 42 <= i < 170
      ensures MagnitudeClose(b[i], source.magnitudeQ15[128 * chunk + (i - 42)])
    {
      CompressClose(source.magnitudeQ15[128 * chunk + (i - 42)]);
      assert b[i] == DataByte(sequence, r, channel, chunk, i);
    }
  }

  /** And 32 preview samples, in two's complement, from offset 170. */
  lemma PreviewLayout(sequence: u16, r: SpectrumResult, channel: nat, chunk: nat, k: nat)
    requires Sized(r) && channel < CHANNELS && chunk < CHUNKS && k < 32
    ensures Little2(RawBody(sequence, r, channel, chunk), 170 + 2 * k)
         == (r.channel[channel].previewQ15[32 * chunk + k] as int) % 0x1_0000
  {
    var b := RawBody(sequence, r, channel, chunk);
    var v := r.channel[channel].previewQ15[32 * chunk + k];
    hide RawBody, RawData, Crc16, HeaderByte, FieldByte, ToUnsigned, ToSigned;
    RawBodyFields(sequence, r, channel, chunk);
    assert b[170 + 2 * k] == DataByte(sequence, r, channel, chunk, 170 + 2 * k) == FieldByte(ToUnsigned(v), 0);
    assert b[170 + 2 * k + 1] == DataByte(sequence, r, channel, chunk, 170 + 2 * k + 1) == FieldByte(ToUnsigned(v), 1);
    U16Bytes(ToUnsigned(v));
    SignRoundTrip(v);
    SignedField(b, 170 + 2 * k, v);
  }

  /** A result that one body could have come from: the fields it carries, and nothing elsewhere. */
  function SourceOf(body: seq<byte>): (r: SpectrumResult)
    requires |body| == RAW_LENGTH && HeaderOk(body)
    ensures Sized(r)
  {
    var chunk := body[15];
    var source := ChannelSpectrum(
                    seq(BINS, (i: nat) =>
                      if i / BINS_PER_CHUNK == chunk then 128 * (body[42 + i % BINS_PER_CHUNK] as int) else 0),
                    seq(PREVIEW_SAMPLES,
                    (i: nat) => if i / PREVIEW_PER_CHUNK == chunk then Preview(body)[i % PREVIEW_PER_CHUNK] else 0),
                    GetU16(body, 26), GetU16(body, 28), 0, GetU32(body, 30));
    SpectrumResult(GetU32(body, 6), 0, GetU32(body, 18), GetU32(body, 34), GetU32(body, 38), GetU32(body, 10),
                   [source, source])
  }

  lemma FieldOfU16(b: seq<byte>, at: nat, k: nat)
    requires at + 2 <= |b| && k < 2
    ensures FieldByte(GetU16(b, at), k) == b[at + k]
  {
    assert FieldByte(GetU16(b, at), 1) == FieldByte(GetU16(b, at) / 256, 0);
  }

  lemma FieldOfU32(b: seq<byte>, at: nat, k: nat)
    requires at + 4 <= |b| && k < 4
    ensures FieldByte(GetU32(b, at), k) == b[at + k]
  {
    var v := GetU32(b, at);
    assert v / 256 == b[at + 1] as int + 256 * (b[at + 2] as int) + 65536 * (b[at + 3] as int);
    assert v / 256 / 256 == b[at + 2] as int + 256 * (b[at + 3] as int);
    assert v / 256 / 256 / 256 == b[at + 3];
    assert FieldByte(v, 1) == FieldByte(v / 256, 0);
    assert FieldByte(v, 2) == FieldByte(v / 256, 1) == FieldByte(v / 256 / 256, 0);
    assert FieldByte(v, 3) == FieldByte(v / 256, 2) == FieldByte(v / 256 / 256, 1) == FieldByte(v / 256 / 256 / 256, 0);
  }

  lemma HeaderIsEncoded(b: seq<byte>, i: nat)
    requires |b| == RAW_LENGTH && HeaderOk(b) && i < 42
    ensures HeaderByte(GetU16(b, 4), SourceOf(b), b[14], b[15], i) == b[i]
  {
    hide FieldByte, GetU16, GetU32, Preview;
    if i < 2 {
    } else if i < 4 {
      FieldOfU16(b, 2, i - 2);
    } else if i < 6 {
      FieldOfU16(b, 4, i - 4);
    } else if i < 10 {
      FieldOfU32(b, 6, i - 6);
    } else if i < 14 {
      FieldOfU32(b, 10, i - 10);
    } else if i < 18 {
    } else if i < 22 {
      FieldOfU32(b, 18, i - 18);
    } else if i < 24 {
      FieldOfU16(b, 22, i - 22);
    } else if i < 26 {
      FieldOfU16(b, 24, i - 24);
    } else if i < 28 {
      FieldOfU16(b, 26, i - 26);
    } else if i < 30 {
      FieldOfU16(b, 28, i - 28);
    } else if i < 34 {
      FieldOfU32(b, 30, i - 30);
    } else if i < 38 {
      FieldOfU32(b, 34, i - 34);
    } else {
      FieldOfU32(b, 38, i - 38);
    }
  }

  lemma PayloadIsEncoded(b: seq<byte>, i: nat)
    requires |b| == RAW_LENGTH && HeaderOk(b) && 42 <= i < 234
    ensures DataByte(GetU16(b, 4), SourceOf(b), b[14], b[15], i) == b[i]
  {
    hide FieldByte, HeaderByte;
    var chunk := b[15];
    var source := SourceOf(b).channel[b[14]];
    if i < 170 {
      var k := chunk * BINS_PER_CHUNK + (i - 42);
      assert k / BINS_PER_CHUNK == chunk && k % BINS_PER_CHUNK == i - 42;
      assert source.magnitudeQ15[k] == 128 * (b[i] as int);
    } else {
      var j := (i - 170) / 2;
      var k := chunk * PREVIEW_PER_CHUNK + j;
      assert k / PREVIEW_PER_CHUNK == chunk && k % PREVIEW_PER_CHUNK == j;
      assert source.previewQ15[k] == ToSigned(GetU16(b, 170 + 2 * j));
      FieldOfU16(b, 170 + 2 * j, (i - 170) % 2);
    }
  }

  /** Nothing but encodings is accepted: every body the parser takes is what the encoder builds for some
      result, sequence number, channel and chunk. With BodyRoundTrip: a body is accepted if and only if it
      is an encoding. */
  lemma AcceptedIsEncoded(b: seq<byte>)
    requires DecodeBody(b).BodyOk?
    ensures RawBody(GetU16(b, 4), SourceOf(b), b[14], b[15]) == b
  {
    hide Crc16, HeaderOk, SourceOf, HeaderByte, FieldByte, GetU16;
    var sequence, r := GetU16(b, 4), SourceOf(b);
    AcceptedIndices(b);
    var d := RawData(sequence, r, b[14], b[15]);
    forall i | 0 <= i < 234
      ensures d[i] == b[i]
    {
      if i < 42 {
        HeaderIsEncoded(b, i);
      } else {
        PayloadIsEncoded(b, i);
      }
    }
    assert d == b[..234];
    FieldOfU16(b, 234, 0);
    FieldOfU16(b, 234, 1);
  }

  lemma AcceptedIndices(b: seq<byte>)
    requires DecodeBody(b).BodyOk?
    ensures |b| == RAW_LENGTH && HeaderOk(b) && b[14] < CHANNELS && b[15] < CHUNKS
    ensures Crc16(b[..234]) == GetU16(b, 234)
  {
    hide Crc16;
  }

  /** The bodies accepted are exactly the encodings. */
  lemma AcceptedExactly(b: seq<byte>)
    ensures DecodeBody(b).BodyOk? <==>
            exists sequence: u16, r: SpectrumResult, channel: nat, chunk: nat ::
              && Sized(r) && channel < CHANNELS && chunk < CHUNKS
              && RawBody(sequence, r, channel, chunk) == b
  {
    hide DecodeBody, RawBody, Carries, SourceOf;
    if DecodeBody(b).BodyOk? {
      AcceptedIndices(b);
      AcceptedIsEncoded(b);
    }
    forall sequence: u16, r: SpectrumResult, channel: nat, chunk: nat |
      Sized(r) && channel < CHANNELS && chunk < CHUNKS && RawBody(sequence, r, channel, chunk) == b
      ensures DecodeBody(b).BodyOk?
    {
      BodyRoundTrip(sequence, r, channel, chunk);
    }
  }
}
