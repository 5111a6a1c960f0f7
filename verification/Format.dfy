/** Constants of the telemetry format, and the host's record of one received chunk. */
module Format {
  import opened Bytes

  datatype Option<+T> = None | Some(value: T)

  const SOF: byte := 0x7E
  const ESC: byte := 0x7D
  const CHANNELS := 2
  const BINS := 512
  const BINS_PER_CHUNK := 128
  const PREVIEW_SAMPLES := 128
  const PREVIEW_PER_CHUNK := 32
  const CHUNKS := 4
  const PAYLOAD_LENGTH := 228
  const RAW_LENGTH := 236
  const MAX_FRAME := 474

  /** SpectrumChunk of the host, with its scaled fields left as raw integers. */
  datatype HostChunk = HostChunk(
    sequence: nat, timestampUs: nat, status: nat, channel: nat, chunkIndex: nat,
    sampleRateHz: nat, binStart: nat, rmsQ15: nat, peakQ15: nat, dominantMillihz: nat,
    processingUs: nat, droppedBlocks: nat, magnitudeU8: seq<byte>, previewQ15: seq<i16>)
}
