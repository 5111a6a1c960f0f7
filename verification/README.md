# Spectrum analyzer: verified model

The firmware samples two ADC channels, computes their spectra and sends them in framed chunks; a host
tool decodes the chunks and puts the spectra together again. This project models the parts of that
chain whose correctness is not visible in any single function, and proves what they promise.

- **Telemetry codec.** `Protocol` holds the body layout and its parser, `Crc`, `Polynomials` and
  `CrcDetection` the checksum, `Framing` the byte stuffing and the batch rule "cut at the delimiters,
  unescape, check, deliver". `Encoder` is the firmware's encoder writing into a buffer;
  `FirmwareDecoder.Decoder` and `HostDecoder.FrameDecoder` are the two byte-at-a-time decoders as
  classes. Both are proved against one reference, a function of all bytes fed so far (`Scanning`,
  `Totals`), and `Sequencing` says what their sequence bookkeeping means.
- **Host assembler.** `Assembler` is the class and its conservation laws, `Reassembly` what whole runs
  of pushes emit.
- **End to end.** `Transmission` is the telemetry task on a link whose writes may fail after any number
  of bytes, with what then reaches a decoder; `Delivery` follows the results into the assembler.
- **Pipeline.** `Pipeline` is a transition system: DMA conversions, the ADC interrupt and the four tasks
  advance one atomic action at a time in any order. `Freshness`, `Conservation`, `BlockAccounting`,
  `StickyStatus`, `Votes` and `Provenance` prove invariants of every run; `Witnesses` gives runs that show why an
  assumption or a condition is needed.
- **Transforms.** `BitReversal` and `Fft` are the in-place radix-2 transform for every length 2^m over
  exact complex numbers; `Q15` and `Q15Fft` are the integer model of it with its rounding.
- **Acquisition.** `HealthMonitor`, `DcRemoval` and `PeakPicking` are the block accounting on wrapping
  counters, the removal of the mean from a block, and the search for the dominant frequency.

Conventions: `u16`, `u32`, `i16` and `byte` are integers in the range of the C types; wherever the
source can wrap, the wrap is written out. `Bytes`, `Format`, `StatusBits`, `Complexes`, `Norms` and
`Arithmetic` are the shared vocabulary.

What the environment does is a parameter: whether a UART write fails and after how many bytes, which
task moves next, when conversions and interrupts happen, the clock's timestamps, and the tables of
window and twiddle values. Every theorem about the pipeline assumes that the interrupt is never a whole
half late: the DMA does not fill a second half before the first is published (`Pipeline.Enabled`, where a
conversion needs `written < HALF * (generation + 2)`). The freshness theorem rests on two assumptions more,
stated as `Freshness.Timely`: task code never reads the sample buffer between the DMA's switch of halves
and the interrupt that publishes it, and fewer than 2^32 publications pass while one block is being read.
`Freshness.ReadIsOwn`, `Freshness.OldBlocksAreGone` and `Witnesses.LateInterruptTears` show that neither of
these can be dropped. The end-to-end theorems assume of `platform_uart_write_dma` that a write that returns
true has put its whole frame on the wire.

Where code and documentation disagree, the model follows the code:

- docs/protocol.md says that both decoders bound their input. The host bounds plain bytes only: after a
  full body it takes escape pairs without end (`Scanning.HostOverlong`, `Scanning.HostHoldsAnyLength`), where
  the firmware reports an overflow. The two then name the fault differently in exactly the segments of
  `Scanning.FaultNamesDiffer`, but deliver the same chunks and the same totals.
- The firmware's feed function returns an error a second time at the delimiter that ends a dropped
  segment, without counting one; the host counts no error there either (`Totals.DelimiterCounts`).
- The timing test of the health monitor is made in 32-bit arithmetic and is exact only while the period
  plus twice its tolerance fits (`HealthMonitor.TimingTestExact`); the shipped period of 10240 us does.
- A wait can return the same block as the one before it (`Witnesses.SameBlockTwice`). It does so exactly if
  nothing is published between the two snapshots, and then something was published between the first
  block's notification and its snapshot (`BlockAccounting.RepeatedExactly`); without such late publications
  generations strictly advance (`BlockAccounting.GenerationsAdvance`). The health monitor's drop count
  charges one drop too many for each block returned again (`BlockAccounting.DropsOverRuns`).
- A failed write after which the whole body had already left does arrive, and the next frame repeats its
  sequence number (`Transmission.CompleteFailureRepeats`).
- A sample more than 2047 counts above or 2048 below its block's mean wraps in the cast to 16 bits
  (`DcRemoval.SpikeWraps`), while the host's fixed-point model clips it.
- For odd sample rates below 512 Hz, and from 8589936 Hz on, where the limit wraps, the Nyquist test
  rejects a legitimate peak in the last bin; for all others it never fires (`PeakPicking.NyquistTestExact`).

## Model

| member | source | states |
|---|---|---|
| BitReversal.RevInvolution | core/spectrum.c:25-43 | Reversing m binary digits stays below 2^m and undoes itself, for every m. |
| BitReversal.NextReversed | core/spectrum.c:28-33 | The carry loop turns the reversal of i - 1 into the reversal of i. |
| BitReversal.BitReverse | core/spectrum.c:25-43 | Both arrays end as their old contents read through bit reversal: every entry is swapped with its mirror image once. |
| Fft.SplitEvenOdd | core/spectrum.c:47-69 | Decimation in time: a transform sum is the sum over even terms plus w^(stride k) times the sum over odd terms. |
| Fft.Merge | core/spectrum.c:55-63 | One butterfly turns entries k of two half-length transforms into entries k and k + half of the double-length one, given only w^(N/2) = -1. |
| Fft.StepIsPower | core/spectrum.c:48-50 | If each step is a square root of the one before, starting at -1, then every stage's step is the right power of the last one. |
| Fft.StartsReversed | core/spectrum.c:46-47 | After bit reversal every entry is the length-1 transform its block should hold. |
| Fft.StageAdvances | core/spectrum.c:47-69 | If every block of 2^s entries holds the transform of its residue class of samples, one stage makes that true of blocks of 2^(s+1). |
| Fft.EndsWithDft | core/spectrum.c:45-70 | After m stages entry k is the discrete Fourier transform of the whole input at k. |
| Fft.Butterfly | core/spectrum.c:56-63 | The in-place update leaves even + w odd and even - w odd and touches no other entry. |
| Fft.Stage | core/spectrum.c:51-68 | The two inner loops, with the twiddle built by repeated multiplication, apply every butterfly of a stage to the values the stage found. |
| Fft.FftInPlace | core/spectrum.c:45-70 | For every m and every input the arrays end up holding exactly the DFT sums of that input. |
| Q15.MultiplyNeverSaturates | tools/fft_precision_report.py:19-24 | With one factor within +-32767 and the other a 16-bit value the clamp of multiply_q15 never acts, and the product is within +-32767. |
| Q15.ProductRoundsDown | tools/fft_precision_report.py:23-24 | For all factors the product is rounded down to a multiple of 2^-15 before the clamp. |
| Q15.SaturationIsNearest | tools/fft_precision_report.py:19-20 | Saturation keeps 16-bit values and takes every other to the nearest one. |
| Q15.ButterflyRoundsDown | tools/fft_precision_report.py:58-66 | For all inputs, the integers of a butterfly exactly: which products are added and subtracted, and that each half is rounded down before the clamp. |
| Q15.RoundingError | tools/fft_precision_report.py:58-66 | All truncations of one butterfly together move each output by at most 1.9 units, so less than two, in modulus from the exact halved butterfly. |
| Q15.ModulusGrowth | tools/fft_precision_report.py:58-66 | For any twiddle with parts within +-32767 and modulus at most 32768: with two units of headroom no clamp of a butterfly acts, and the moduli grow by less than two. |
| Q15.ErrorGrowth | tools/fft_precision_report.py:58-66 | If the inputs follow c times exact values within err, the outputs follow c/2 times the exact butterfly within err + 3. |
| Q15Fft.StepsAreUnits | tools/fft_precision_report.py:53-55 | Every step of the root tower has modulus one. |
| Q15Fft.ButterflyInPlace | tools/fft_precision_report.py:56-66 | The in-place butterfly with its saved even entry stores the clamped upper and lower values of the old pair, which ButterflyRoundsDown gives to the bit, and leaves the rest. |
| Q15Fft.Stage | tools/fft_precision_report.py:50-66 | One pass of the length loop applies every clamped butterfly to the values the stage found. |
| Q15Fft.TransformInPlace | tools/fft_precision_report.py:47-67 | Bit reversal and all stages in place equal the staged run defined on values. |
| Q15Fft.RunNeverClamps | tools/fft_precision_report.py:47-67 | No overflow over the whole run: for any tables whose entries have parts within +-32767 and modulus at most 32768, and any input with two units of headroom per stage, no clamp acts in any stage and moduli grow by less than two per stage. |
| Q15Fft.RunTracks | tools/fft_precision_report.py:47-67 | With tables rounded from a root of unity, after s stages every entry is within 3s of the exact partial transform divided by 2^s. |
| Q15Fft.Q15Accuracy | tools/fft_precision_report.py:40-67 | Every output is within 3m units of the exact DFT times 1/2^m; clamped and unclamped runs coincide. |
| Q15Fft.Q15Transform | tools/fft_precision_report.py:40-67 | For all samples, windows and tables the lists are the clamped run on the windowed samples; with headroom the clamps change nothing for bounded tables, and the result is within 3m units of the DFT divided by 2^m for rounded roots of unity. |
| Polynomials.RemainderUnique | docs/protocol.md:4-6 | Two polynomials of degree below 16 that are congruent modulo the generator are equal. |
| Polynomials.DivideByPower | docs/protocol.md:4-6 | If the generator divides a polynomial shifted by any number of places, it divides the polynomial. |
| Polynomials.MultiplesAreEven | docs/protocol.md:4-6 | Every multiple of the generator has an even number of terms. |
| Crc.Crc16CcittFalse | core/telemetry.c:28-38 | The bit-serial loop over the buffer computes the checksum of its first `length` bytes. |
| Crc.CrcIsRemainder | core/telemetry.c:28-38 | For messages of any length a word is the checksum if and only if it is congruent, modulo x^16+x^12+x^5+1, to the message shifted by 16 plus the initial 0xFFFF. |
| Crc.UndetectedErrors | core/telemetry.c:28-38 | Two messages of one length share a checksum if and only if the generator divides their difference. |
| Crc.BurstDetected | core/telemetry.c:28-38 | Any error burst of at most 16 bits, anywhere, changes the checksum. |
| CrcDetection.NeighbouringBytes | core/telemetry.c:28-38 | Changing one byte or two neighbouring bytes always changes the checksum. |
| CrcDetection.OddFlipsRejected | core/telemetry.c:111-114 | Two 236-byte bodies that both pass the checksum differ in an even number of bits, checksum field included. |
| Protocol.BodyRoundTrip | core/telemetry.c:62-94 | Parsing an encoded body gives back every transmitted field, the preview with its signs, and magnitudes within 64 below 32704 and within 127 up to 32767. |
| Protocol.HeaderLayout | core/telemetry.c:62-94 | The bytes of an encoded header: every field little-endian at its offset, and the checksum over the first 234 bytes at offset 234. |
| Protocol.BinLayout | core/telemetry.c:84-88 | From offset 42, 128 bins of the chunk, each the nearest multiple of 128 up to its limit. |
| Protocol.PreviewLayout | core/telemetry.c:89-93 | From offset 170, 32 preview samples of the chunk, in two's complement and little-endian. |
| Protocol.AcceptedExactly | core/telemetry.c:109-125 | The parser accepts a body if and only if it is the encoding of some result, sequence number, channel and chunk. |
| Encoder.AppendEscaped | core/telemetry.c:40-51 | It succeeds exactly if the stuffed byte fits below the capacity, appends just that, and otherwise changes nothing. |
| Encoder.PutAddress | core/telemetry.c:66-75 | The first 18 header bytes are written as the layout wants them. |
| Encoder.PutHeader | core/telemetry.c:66-83 | The 42 header bytes are written as the layout wants them, one field after the other. |
| Encoder.BuildBody | core/telemetry.c:62-94 | The buffer ends as the 236-byte body whose parse is proved to return its fields. |
| Encoder.StuffBody | core/telemetry.c:96-106 | The loop returns 0 exactly if the capacity is below the length of the stuffed frame, and else leaves the whole frame at the start of the buffer. |
| Encoder.EncodeSpectrumChunk | core/telemetry.c:53-107 | It returns 0 exactly for a bad index or a capacity below the frame's length, which is never above 474; otherwise the buffer starts with the delimited, stuffed body. |
| Framing.Flip20IsXor | core/telemetry.c:45 | The flipped byte is the exclusive or with 0x20, for every byte. |
| Framing.StuffedBytes | core/telemetry.c:40-51 | On the wire 7E becomes 7D 5E, 7D becomes 7D 5D, and every other byte stays. |
| Framing.EscapeRoundTrip | tools/spectrum_monitor.py:119-127 | Unescaping a stuffed body gives the body back, for all bytes. |
| Framing.EscapeHasNoDelimiter | core/telemetry.c:40-51 | A stuffed body contains no delimiter. |
| Framing.EscapeLength | core/telemetry.c:96-106 | Stuffing at most doubles the length. |
| Framing.ShortStuffingFails | core/telemetry.c:96-106 | No proper prefix of a stuffed body unescapes to a body of full length. |
| Framing.SelfSynchronises | core/telemetry.c:157-213 | After any bytes at all, a frame delivers what those bytes and one delimiter deliver, and then exactly its own chunk. |
| Framing.FrameRoundTrip | core/telemetry.c:53-148 | From a fresh start an encoded frame delivers one chunk carrying every field. |
| Scanning.ScanBounds | core/telemetry.c:199-222 | Whatever is read, the firmware never holds more than 236 bytes, and only overflow or a bad escape makes either decoder drop. |
| Scanning.HeldBody | core/telemetry.c:199-222 | What a scanner holds while collecting is the batch inverse of the segment read so far; a segment that does not unescape is never collected. |
| Scanning.CloseRefinesBatch | core/telemetry.c:157-213 | At a delimiter either decoder delivers exactly what "unescape, length, checksum, header" delivers from the segment, and is silent exactly for an empty one. |
| Scanning.FirmwareVerdict | core/telemetry.c:154-223 | For every segment the firmware reports what a batch parser would, fault and all: overflow if some beginning unescapes to more than 236 bytes, else an escape fault if the segment does not unescape, else silence, a chunk, a checksum or a format fault by the unescaped body. |
| Scanning.OpenStatesCorrespond | tools/spectrum_monitor.py:207-227 | Inside a segment the two decoders are in the same state, or the firmware is dropping while the host is dropping or holds more than 236 bytes. |
| Scanning.DecodersAgree | tools/spectrum_monitor.py:167-206 | For every segment both deliver the same chunk or both reject, with checksum faults in common. |
| Scanning.HostOverlong | tools/spectrum_monitor.py:209-222 | The host holds more than 236 bytes if and only if a full body is followed by escape pairs alone, at least one of them complete, and then exactly one byte more for each pair. |
| Scanning.HostIsUnbounded | tools/spectrum_monitor.py:209-218 | Any full body followed by any number n of escape pairs is held as 236 + n bytes. |
| Scanning.HostHoldsAnyLength | tools/spectrum_monitor.py:209-218 | For every n there is such a segment: 236 plain bytes and n pairs. |
| Scanning.FaultNamesDiffer | tools/spectrum_monitor.py:209-227 | The two decoders name a segment's fault differently if and only if it is over-long in that way to its end or up to an invalid escape; then the firmware says overflow, the host format or escape. |
| Totals.PlainByteCounts | core/telemetry.c:199-222 | A byte other than the delimiter changes no counter except that of the fault it makes the decoder drop for. |
| Totals.DelimiterCounts | core/telemetry.c:157-198 | The counters after a delimiter follow from those before it and the verdict on the segment: a dropped segment adds no second error. |
| Totals.FaultsBalance | core/telemetry.c:154-223 | At every byte of every stream, checksum + format + overflow + escape errors = resynchronisations, plus one while dropping. |
| Totals.DecodersSimulate | tools/spectrum_monitor.py:165-227 | At every byte of every stream both decoders have the same frames, checksum errors, resynchronisations, lost, duplicate and out-of-order counts; after every delimiter also the same total of errors. |
| Totals.StreamStep | core/telemetry.c:157-213 | A byte extends the delivered chunks exactly if it is a delimiter that closes a good segment. |
| Sequencing.ModularDelta | core/telemetry.c:182-191 | Within half the sequence space the 16-bit difference determines the true one, across the wrap. |
| Sequencing.AccountingIsExact | core/telemetry.c:181-196 | If each index is within half the sequence space of the highest before it: the last sequence is the highest index, lost + advances = highest - first, and every frame is counted as first, advance, duplicate or out of order. |
| Sequencing.InOrderLoss | tools/spectrum_monitor.py:192-203 | On a link that only loses packets, `lost` is exactly the number missing. |
| FirmwareDecoder.DecodeBuffer | core/telemetry.c:109-148 | The buffer parser agrees with the parser on byte strings, in its result and every chunk field. |
| FirmwareDecoder.ReportedMeans | core/telemetry.c:154-223 | For every stream and byte: an error is reported if and only if an error or resynchronisation counter grows, a frame if and only if the frame counter does. |
| FirmwareDecoder.Decoder.constructor | core/telemetry.c:150-152 | A cleared decoder is in the state that an empty stream calls for. |
| FirmwareDecoder.Decoder.NoteSequence | core/telemetry.c:181-196 | The wrapping counters and the last sequence follow the unbounded accounting modulo 2^32. |
| FirmwareDecoder.Decoder.FeedDelimiter | core/telemetry.c:157-198 | Buffer, flags and all nine wrapping counters end as the whole history calls for; the chunk is the one the closed segment delivers. |
| FirmwareDecoder.Decoder.FeedPlain | core/telemetry.c:199-222 | The same for any other byte: the bound on the buffer is tested after unescaping, and no chunk comes of it. |
| FirmwareDecoder.Decoder.Feed | core/telemetry.c:154-223 | After every byte the state is that of the reference on all bytes fed (so the length is at most 236 and escaped and dropping exclude each other); an error is returned exactly when an error or resynchronisation counter grows, and a frame exactly when the frame counter and the batch delivery grow, with that chunk. |
| HostDecoder.UnpackedFields | tools/spectrum_monitor.py:95-99 | Reading consecutive fields of given widths yields each field at its offset. |
| HostDecoder.ParsersAgree | tools/spectrum_monitor.py:90-116 | The host's parser accepts the same bodies as the firmware's, rejects the others for the same reason and reads the same values. |
| HostDecoder.FrameDecoder.constructor | tools/spectrum_monitor.py:149-163 | A new decoder is in the state that an empty stream calls for. |
| HostDecoder.FrameDecoder.NoteSequence | tools/spectrum_monitor.py:192-202 | The host's branches compute the shared sequence accounting. |
| HostDecoder.FrameDecoder.Judge | tools/spectrum_monitor.py:180-205 | A complete buffer is counted under its own fault or as a frame, and yielded only if good. |
| HostDecoder.JudgedAsClosed | tools/spectrum_monitor.py:180-205 | Judging by the host's parser counts and yields what closing the segment calls for by the firmware's. |
| HostDecoder.FrameDecoder.FeedDelimiter | tools/spectrum_monitor.py:167-206 | The whole state ends as the history calls for, and the yielded chunk is the one the segment delivers. |
| HostDecoder.FrameDecoder.FeedPlain | tools/spectrum_monitor.py:207-227 | The same for any other byte. |
| HostDecoder.FrameDecoder.Feed | tools/spectrum_monitor.py:165-227 | However a stream is divided into calls, what is yielded so far is the batch delivery of all bytes so far. |
| Assembler.PushKeepsValid | tools/spectrum_monitor.py:237-273 | After every push at most sixteen keys are pending, each with one to three chunks that agree on key and metadata. |
| Assembler.PushConserves | tools/spectrum_monitor.py:237-273 | One push: chunks held before plus one = held after + four if a frame comes out + duplicates replaced + chunks evicted + chunks discarded. |
| Assembler.ChunksConserved | tools/spectrum_monitor.py:237-273 | Over every run: pushed = 4 frames + duplicates + evicted + discarded + held. |
| Reassembly.CountersCount | tools/spectrum_monitor.py:239-260 | Over every run `evictions`, `inconsistent` and `duplicates` are the pushes that evicted the oldest of sixteen, that dropped a key of other metadata and that replaced a chunk; each eviction lost one to three chunks, each inconsistency two to four. |
| Assembler.SpectrumAssembler.MakeRoomFor | tools/spectrum_monitor.py:239-243 | Only a new key that finds sixteen pending evicts, and it evicts the one inserted first. |
| Assembler.SpectrumAssembler.Store | tools/spectrum_monitor.py:259-273 | The chunk is stored under its index; the fourth index removes the entry and returns the frame in index order. |
| Assembler.SpectrumAssembler.PushChunk | tools/spectrum_monitor.py:237-273 | The object keeps its bounds and follows the push function in state and result. |
| Reassembly.OldestHasFifteenNewer | tools/spectrum_monitor.py:239-242 | When the oldest key is evicted, fifteen newer keys are pending. |
| Reassembly.CompletesOnce | tools/spectrum_monitor.py:237-273 | In any order, and with up to fifteen other keys arriving in between, a key's four agreeing chunks emit its frame once, when the fourth arrives, and fewer emit none. |
| Reassembly.FramesAreWhole | tools/spectrum_monitor.py:264-273 | In every run each emitted frame is four pushed chunks of one key with one metadata, joined in index order. |
| Reassembly.LatestWins | tools/spectrum_monitor.py:259-268 | In every run a later chunk replaces an earlier one of its key and index: what is held is the latest of each, and an emitted frame is made of the four latest. |
| Transmission.PartOfFrameCuts | core/telemetry.c:96-106 | After any bytes, n leading bytes of a frame and then a delimiter close no segment, the part of the body that left, or the whole body (and an empty one). |
| Transmission.ShortSegmentFails | core/telemetry.c:111-114 | A body cut short delivers nothing, never as a checksum error, and is an error exactly if a byte of it left. |
| Transmission.WireTallies | app/tasks.c:208-235 | After any noise, a run of writes delivers exactly the frames whose body left completely, in order, and resynchronises once for each that broke inside the body. |
| Transmission.ArrivalsAreSteady | app/tasks.c:208-232 | The numbers of the arriving frames start at 0 and go up by at most one; they repeat exactly after a failed write that arrived all the same. |
| Transmission.RunArrives | app/tasks.c:193-237 | End to end, once the next delimiter has come, for every run and every pattern of write failures and on either decoder: delivered = arrived, lost = 0, out of order = 0, duplicates = repeated numbers, checksum errors = 0, all other errors = broken writes. |
| Transmission.RunDelivers | app/tasks.c:193-237 | Of the stream as it is: what is delivered, and the one frame that may still wait for its delimiter, are what arrived. |
| Transmission.SuccessesArrive | app/tasks.c:223-232 | If failed writes leave out at least the last body byte, exactly the successful writes arrive and no number repeats. |
| Transmission.SuccessesDelivered | app/tasks.c:223-232 | Then the stream as it is, without a further delimiter, delivers exactly the chunks of the successful writes, in order. |
| Transmission.CompleteFailureRepeats | app/tasks.c:223-231 | Otherwise a duplicate does occur. |
| Transmission.TelemetryTask.SendChunk | app/tasks.c:212-232 | One encode and write: the sequence number advances only on success, and is the number of successes modulo 2^16. |
| Transmission.TelemetryTask.SendResult | app/tasks.c:208-236 | The nested loops write channel by channel and chunk by chunk up to the first failure; the vote follows only if all eight writes succeeded. |
| Delivery.SendingIsNumbered | app/tasks.c:208-232 | Each sending continues the numbering of the run. |
| Delivery.ArrivalsLead | app/tasks.c:208-235 | What arrives of a result is its first chunks, in order, and all of them if every write succeeded. |
| Delivery.ArrivalCarries | tools/spectrum_monitor.py:90-116 | The host's record of an arriving frame carries the fields of the result it was sent for, with its sequence number and first bin. |
| Delivery.GroupPushed | tools/spectrum_monitor.py:237-273 | Chunks of a new key emit one frame if all four are there, and nothing otherwise. |
| Delivery.FourShow | tools/spectrum_monitor.py:264-273 | A frame joined from a channel's four chunks shows all 512 bins to within their compression and the preview exactly. |
| Delivery.SpectraDelivered | app/tasks.c:193-237 | End to end over every run of results with distinct timestamps and every pattern of failures: the host emits, in order, exactly the channels whose four chunks arrived, each showing its own result. |
| Delivery.WrittenSpectraDelivered | app/tasks.c:193-237 | If failed writes leave out at least the last body byte, the host emits from the stream as it is exactly the channels whose four chunks, and all before them, were written. |
| Freshness.HalfFollowsGeneration | platform/stm32f446/board_skeleton.c:129-143 | completed_half = (completed_generation - 1) mod 2, on the 32-bit counter and across its wrap. |
| Freshness.LastIntoIsLast | platform/stm32f446/board_skeleton.c:109-112 | What a slot of the DMA buffer holds is the last conversion that went there. |
| Freshness.ReadIsOwn | app/tasks.c:90-121 | While a block is the latest, a read finds its own word if and only if the DMA has not yet come round to that slot, and otherwise the word of two generations later. |
| Freshness.OldBlocksAreGone | app/tasks.c:143-154 | Two generations on, no word of a block is left; the generation check is passed then exactly at multiples of 2^32. |
| Freshness.RunsStayFresh | app/tasks.c:143-154 | In every interleaving with timely reads, blocks name the half of their generation and every verified, ready, published or received block holds only own words. |
| Freshness.ResultsAreFresh | app/tasks.c:132-189 | Each received result was computed from the 1024 words of its own generation, read twice over, never torn or overwritten. |
| Freshness.PublicationsAccounted | platform/stm32f446/board_skeleton.c:129-163 | In every run: publications = blocks returned + overruns + notifications pending (+ the one just taken). |
| BlockAccounting.RepeatsAreExplained | platform/stm32f446/board_skeleton.c:149-163 | In every run a block whose successor is not newer had a publication between its notification and its snapshot. |
| BlockAccounting.SnapshotGeneration | platform/stm32f446/board_skeleton.c:155-162 | Block i of a run is what its snapshot found: the publications so far, the half last published, the time of that step. |
| BlockAccounting.GenerationsAdvance | platform/stm32f446/board_skeleton.c:149-163 | If no publication ever falls there, the generations of the blocks returned strictly advance. |
| BlockAccounting.RepeatedExactly | platform/stm32f446/board_skeleton.c:129-163 | For any two blocks in a row of any run: they share a generation if and only if nothing is published between their snapshots, and only if something was published late for the first. |
| BlockAccounting.MonitorIsTrue | app/tasks.c:64-71 | In every run the monitor has observed exactly the blocks shown to it, ADC_RUNNING is sticky once there is one, and BLOCK_GAP if and only if some two in a row were apart in generation or time. |
| BlockAccounting.DropsOverRuns | core/health_monitor.c:19-25 | Over every run of the pipeline whose blocks are less than 2^32 generations apart, the monitor's drop count is the generations missing between the first and the last, plus one per repeated block, modulo 2^32. |
| BlockAccounting.StrictDropsOverRuns | core/health_monitor.c:19-25 | Over such a run without late publications it is exactly the generations missing. |
| Conservation.LineIsAcquired | app/tasks.c:53-189 | Every block on its way was acquired and is no newer than the latest publication. |
| Conservation.BlocksConserved | app/tasks.c:53-207 | In every run each acquired block is in exactly one place: a task's hands, the queue of two, the result slot, received, dropped, rejected or superseded; those on their way or received are in order of acquisition. |
| Provenance.DroppedOnlyWhenFull | app/tasks.c:82-85 | In every run a block is dropped only after the acquisition task found two blocks in the queue. |
| StickyStatus.StickyNeverClears | app/tasks.c:33-44 | No step of any run clears a sticky bit. |
| StickyStatus.StatusGrows | app/tasks.c:166-189 | In every run each result carries the sticky bits of all results before it, and the bits that judge one signal never become sticky. |
| Provenance.ReportsAreAnalyses | app/tasks.c:143-181 | In every run, behind each received result there is the step that analysed its block, after both generation checks: its status is the sticky word of that step and the bits of that analysis, no more and no less. |
| Provenance.EventsAreCounted | app/tasks.c:53-76 | In every run the logged timeouts are exactly the waits that found no notification, the logged failures and writes the failed and successful chunk writes, and TEST_SIGNAL is sticky if and only if it was active at the start. |
| StickyStatus.LossesAreTold | app/tasks.c:81-84 | In every run drops and rejections have set their bits, and every result after such a loss carries them. |
| StickyStatus.NoSilentGap | app/tasks.c:64-189 | A block that a received result skips was superseded in the result slot, or the result carries FRAME_DROPPED. |
| StickyStatus.BitsAreTrue | app/tasks.c:53-235 | In every run DMA_STALE, FRAME_DROPPED, UART_BACKPRESSURE and WATCHDOG_RESET are sticky if and only if such a rejection, loss, failure or reset was reported; ADC_OVERRUN is set by every reported timeout or overrun and by nothing else. |
| Votes.FeedsAreEarned | app/tasks.c:239-252 | In every run each vote counts in exactly one window, each sample sees exactly the votes of its window, and the feeds are the windows with all three. |
| Votes.StarvesWithoutVotes | app/tasks.c:239-252 | From any point of any run on, if one task casts no more votes, at most one more feed happens. |
| Votes.PipelineVotesAreEarned | app/tasks.c:64-189 | In every run acquisition has one vote per block handed on or dropped, and the DSP task one per block published or rejected: timeouts earn none. |
| Votes.TelemetryVotesAreEarned | app/tasks.c:203-236 | In every run telemetry's votes are for different received results, in order, each with exactly eight successful writes. |
| Witnesses.LateInterruptTears | platform/stm32f446/board_skeleton.c:129-143 | A legal run with a late interrupt in which a block passes both checks, is received, and holds a foreign word. |
| Witnesses.SameBlockTwice | platform/stm32f446/board_skeleton.c:149-163 | A legal run in which two successive waits return the same generation. |
| HealthMonitor.TimingTestExact | core/health_monitor.c:26-33 | The wrapping test means abs(elapsed - period) > tolerance, for all elapsed times, if and only if period + 2 tolerance fits 32 bits. |
| HealthMonitor.DropsAreExact | core/health_monitor.c:19-25 | Over runs whose generations never go back: dropped = (last - first) - (accepted - 1) + 2 repetitions, modulo 2^32. |
| HealthMonitor.StrictRunsDropExactly | core/health_monitor.c:19-25 | With strictly advancing generations: dropped = (last - first) - (accepted - 1). |
| HealthMonitor.TimingFaultsAreExact | core/health_monitor.c:26-33 | Over every run whose blocks are less than 2^32 us apart, the timing faults are the successive pairs off the period, modulo 2^32. |
| HealthMonitor.GapMeansGap | core/health_monitor.c:17-34 | The gap bit is set exactly if the true generation did not advance by one or the true interval is off by more than the tolerance. |
| HealthMonitor.AcquisitionMonitor.Check | core/health_monitor.c:11-39 | A block of another size leaves no trace; otherwise state and status follow the observation function and its gap condition, whose meaning over runs is stated above. |
| HealthMonitor.Extremes | core/health_monitor.c:64-70 | The loop returns members of the preview that bound all its samples. |
| HealthMonitor.CheckChannel | core/health_monitor.c:49-76 | One channel adds exactly the bits it gives cause for; frozen means that no two samples are 32 apart. |
| HealthMonitor.SpectrumHealthCheck | core/health_monitor.c:41-79 | Each bit is set if and only if some channel gives cause for it, the signal is valid if and only if none does, and only quality bits come out. |
| DcRemoval.AdcUnpacks | app/tasks.c:99-100 | Two packed 12-bit readings come out again, whatever the other bits are. |
| DcRemoval.ClippedCounts | app/tasks.c:103-104 | A clip counter is the number of readings that are at most 4 or at least 4091. |
| DcRemoval.ShiftExact | app/tasks.c:119-120 | The cast stores 16 (adc - mean) if and only if the difference is within -2048..2047, and is off by a multiple of 2^16 otherwise. |
| DcRemoval.SamplesExact | app/tasks.c:110-121 | A whole block is stored exactly if and only if all its differences are in that range. |
| DcRemoval.OffsetRemoved | app/tasks.c:106-109 | The rounded mean leaves differences that add up to at most 512 in magnitude over the block. |
| DcRemoval.MeanIsNearest | app/tasks.c:106-109 | No other whole offset leaves a smaller sum. |
| DcRemoval.SpikeWraps | app/tasks.c:119-120 | A concrete block in which the cast wraps. |
| DcRemoval.Unpacker.Survey | app/tasks.c:91-105 | The first pass computes both sums and both clip counts without wrapping. |
| DcRemoval.Unpacker.Unpack | app/tasks.c:90-122 | Each buffer gets the 16-bit form of 16 times its channel's difference from the mean; the clip counters count readings <= 4 or >= 4091. |
| PeakPicking.FindPeak | core/spectrum.c:97-110 | The amplitudes are the magnitudes times 4/1024, for the constant component 2/1024; the loop finds the first of the largest other than the constant one, or bin 1 without signal. |
| PeakPicking.WhenClampActs | core/spectrum.c:117-121 | For the bin found, the clamp to half a bin changes the offset if and only if that is bin 1 and the amplitudes fall from the constant component through it to bin 2. |
| PeakPicking.ClampCanAct | core/spectrum.c:112-121 | A spectrum with amplitudes 3, 1, 0, 0, ... has its peak in bin 1, offset 1.5, and is clamped to bin 1.5. |
| PeakPicking.OffsetIsVertex | core/spectrum.c:117-119 | The offset is where the parabola through the three amplitudes, at -1, 0 and 1, is highest. |
| PeakPicking.InterpolatedIsVertex | core/spectrum.c:112-124 | The interpolated bin, case by case: the bin itself for bin 511 and for a curvature within 1e-12 of zero; half a bin off where the amplitudes fall through bin 1; otherwise the bin plus the vertex of the parabola. |
| PeakPicking.InterpolatedBounds | core/spectrum.c:112-124 | The interpolated bin stays within half a bin of the peak and between 0.5 and 511. |
| PeakPicking.HighestWithinLimit | core/health_monitor.c:50-51 | The frequency of bin 511 is within the unwrapped Nyquist limit if and only if the rate is even or at least 512 Hz. |
| PeakPicking.NyquistTestNeverFires | core/health_monitor.c:50-54 | For such rates, if the limit fits 32 bits, no peak is above Nyquist to the health monitor. |
| PeakPicking.NyquistTestExact | core/health_monitor.c:50-54 | Over all rates and spectra: the test can never fire if and only if its limit fits 32 bits and the rate is even or at least 512 Hz. |
| PeakPicking.DominantMillihz | core/spectrum.c:97-127 | The reported frequency comes from the first of the loudest bins, is within half a millihertz of the interpolated bin's, and passes the Nyquist test for such rates. |

## Left out

- Floating point: the transform, the peak search and the interpolation are over exact reals; no claim is made about the rounding of the float code. hypotf, sqrtf, cosf and sinf appear as given non-negative magnitudes and as abstract roots of unity.
- RMS, peak level and the clamping of magnitudes to Q15: single expressions without interplay.
- core/spectrum.c's Hann window and the window and twiddle tables of the fixed-point model: parameters with bounds, not cosines.
- platform/stm32f446/spectrum_cmsis.c, board start-up, DAC, clock and watchdog registers, HAL and FreeRTOS calls: only the interrupt, notification, queue and DMA steps are kept. HAL_ADC_ErrorCallback's own increment of the overrun counter is not a step, so overruns here are those of late notifications.
- Task priorities and milliseconds: every interleaving is allowed and watchdog windows are counted in samples. The eight-chunk writes, queue operations and critical sections are atomic actions.
- Fault-injection builds, except that an injected UART failure is a failed write of no bytes.
- NULL-pointer guards and the plain initialisers.
- Python's scaling of raw integers to floats, plotting, CSV, serial and argument handling; tools/serial_smoke.py, the endurance and evidence scripts.
- Pipeline.State: values, not objects. The tasks' static variables become fields of one state, because every step must be atomic for all of them at once; what a result contains is the words it was computed from, not the spectrum computed.
- Pipeline.OnTelemetry: abstracts a chunk write to success or failure; what leaves the UART in either case is Transmission's subject.
- Assembler.SpectrumAssembler.PushChunk: requires a chunk index below four, which the decoders guarantee for every chunk they yield; a hand-made chunk with another index is outside the model.
- Transmission.TelemetryTask.UartWrite: does not model a completion notification left pending by a write that timed out, after which the next write would return at once while its DMA still reads the frame buffer; a successful write is assumed to have put its whole frame on the wire.
- PeakPicking.Millihz: a whole number without bound; the code's conversion through lroundf and uint32_t has a smaller range, which rates above about 4 MHz would leave.
- Delivery.SpectraDelivered: needs distinct timestamps, since the host tells results apart by nothing else.
