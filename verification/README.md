# ASAPCollector, modelled in Dafny

ASAPCollector turns metric streams into compact cold storage and mergeable
summaries. This project models the parts where its correctness is decided and
proves what they promise. Code that updates state in place is a class or a
method with loops, specified by a function of the old state; pure code is
functions; what holds of every run is an invariant that every method keeps,
read off by lemmas that require nothing but that invariant.

- **Integer chunk codec** (`Bits`, `Wire`, `BitPack`, `IntChunk`,
  `IntChunkCodec`, `BestOf`, `ChunkSizes`): decimal scaling, delta and delta-of-delta
  residuals in wrapping int64, fixed-width packing through a 64-bit accumulator
  or zigzag varints, the cut on residual overflow, and the choice of the
  smallest encoding.
- **GORILLA1 blocks** (`GorillaBits`, `GorillaTimestamps`, `GorillaValues`,
  `GorillaCodec`, `GorillaBlock`, `GorillaBuilder`): the bit streams of section
  4.1 of the Gorilla paper (Pelkonen et al., VLDB 2015), their framing, the
  builder and the iterator.
- **Cold parts** (`Order`, `ColdPartFormat`, `ColdPart`, `ColdPartWriter`,
  `ColdPartReader`, `ColdPartLimits`): the ASAPCC1 container from series to bytes
  and back to query results.
- **Watermark reorder engine** (`MinHeap`, `ReorderSeries`, `ReorderState`,
  `FragmentEncoder`, `FragmentFinalizer`): per-series heaps under an advisory
  queue, drops, chunk cuts, idle eviction, and de-overlapping of finished blocks.
- **Summary-frame protocol** (`FrameWire`, `FrameSequencer`, `FrameReceiver`,
  `FrameProtocol`): lineages of numbered frames over a network that loses,
  repeats, reorders and damages.
- **Window runtime** (`RankHeap`, `SeriesCap`, `WindowBounds`, `SumDelta`,
  `WindowHistory`, `WindowRuntime`, `SlidingWindow`): tumbling windows with
  staged configs, delta emission against cached bases, the series cap and its
  intrusive heap, and sliding panes.
- **Plan generations** (`PlanChannel`, `PlanLifecycle`): the durable channel
  across restarts, and the staged, active, draining and retired lifecycle.

`dafny verify dfyconfig.toml` checks everything.

## Where the code falls short of a property

Each comes with an input or a run that shows it, and with the exact condition under
which the property holds. Only what is claimed of a whole run of windows is one way:
that no end wrapped is enough.

- The GORILLA1 value stream stores leading zeros clamped to 31 but remembers the
  unclamped count (asap-gorilla-rust/src/encoder.rs:165-178), so it is lossless
  exactly when every difference that leaves the running window has a bit among its
  first 32: `GorillaValues.UnsafeExample`, `GorillaValues.ValuesRoundTripIff`.
- The scale guard compares with float equality, so the INT codecs lose the sign
  of zero and nothing else (asap-gorilla-go/intchunk/scale.go:60), although the
  comments there promise the bit pattern: `ChunkSizes.NegZeroExample`,
  `BestOf.IntBitExactIff`.
- The bit packer takes any width byte, but its 64-bit accumulator loses bits: what
  it packs comes back at widths up to 58, at 60 and at multiples of 8 from 64 on,
  and at no other: `BitPack.UnreadableIs`, `BitPack.RoundTripIff`. The chunk encoder
  asks for at most 56.
- A cold part stores each run length in 32 bits without checking it
  (asap-gorilla-go/coldpart/coldpart.go:161), so it opens again exactly when
  every run is shorter: `ColdPart.OpenWritten`. In terms of the input, no part
  with a series of 2^32 samples opens (`ColdPartLimits.LongSeriesRefused`,
  `ColdPartLimits.LongPartExample`), and one with INT series of up to 2^26
  samples always does (`ColdPartLimits.IntSeriesOpen`).
- A cold part rebuilds labels through a builder that drops empty values, so
  labels come back exactly when none is empty: `ColdPart.SelectedBuilt`,
  `ColdPartFormat.BuildDrops`.
- Opening a cold part adds offsets and chunk lengths in wrapping 64-bit sums
  (asap-gorilla-go/coldpart/coldpart.go:391, 401), so a part may open with runs
  that are not in it: `ColdPartReader.WrappedOffsetExample`,
  `ColdPartReader.WrappedLengthsExample`; it has them all exactly when no sum
  wraps: `ColdPartReader.OpenLocatedIff`. The bound check of a symbol (line 587)
  wraps too: `Wire.TakePassesIff`.
- A rotation after a change of step can overlap the range before it:
  `WindowBounds.StepChangeOverlaps`, `WindowBounds.AdvanceForwardIff`.
- A window's end is a wrapping 64-bit sum (asap-precompute-go/window.go:243, 877), so
  a sample near 2^64 ms is future data even after the rotation made for it, the next
  ordinary one with it, and the window goes back to the start of the epoch:
  `WindowBounds.WrapExample`, `WindowRuntime.WrappedRunExample`. An unsized window
  never accepts a scalar sample either. From ordered bounds the retry is in time
  exactly when the window is sized and the sum fits (`WindowBounds.RetryAccepted`,
  which also says when from wrapped ones); for all samples up to a last time, exactly
  when the step is positive and a step from that time fits:
  `WindowBounds.RetryNeverFutureIff`. The next range is aligned exactly then too
  (`WindowBounds.AdvanceAligned`), and without a wrap ranges never overlap
  (`WindowRuntime.Precompute.RangesNeverOverlap`).
- A close without deltas leaves full totals cached, and a delta config installed
  on the then empty window subtracts them: `WindowRuntime.StaleBaseExample`,
  `WindowRuntime.Precompute.FoldIsTotalIff`.
- After an idle jump a sliding emission claims a range longer than its panes:
  `SlidingWindow.IdleGapExample`. It is as long as they are exactly when each pane
  but the last was closed less than a slide after its end:
  `SlidingWindow.Window.Rotate`, from `WindowBounds.AdvanceMeetsIff`. Both need pane
  ends that did not wrap: `SlidingWindow.WrappedSpanExample`.
- The block finalizer discards every chunk that starts at the least int64
  (`FragmentFinalizer.LeastTimeDiscarded`), and its sample and chunk counts go on
  counting discarded chunks: `FragmentFinalizer.CountExample`; the chunk count is
  what is written exactly when no two chunks of a series overlap and none starts
  there: `FragmentFinalizer.CountExactIff`.
- A sub-window emit under the range from 0 to 0 updates the bases and throws its
  envelopes away: `WindowRuntime.DiscardExample`. Under any other range it throws
  none away, and under that one all (`WindowRuntime.Precompute.EmitSubWindow`);
  without an unsized config there is no such range
  (`WindowRuntime.Precompute.HandedOnce`).
- A plan channel without a state file forgets across restarts:
  `PlanChannel.ForgetfulExample`. So applied versions increase over all runs if and
  only if there is one; between restarts they always do:
  `PlanChannel.Channel.GenerationsMoveForward`.

## Model

| member | source | states |
|---|---|---|
| Wire.AddUndoesSub | asap-gorilla-go/intchunk/intchunk.go:93-165 | two's complement differences are undone by sums, also where either wraps |
| Wire.UvarintRoundTrip | asap-gorilla-go/intchunk/codec.go:132-136 | every 64-bit value is read back from its unsigned varint, leaving exactly the bytes behind it |
| Wire.VarintRoundTrip | asap-gorilla-go/intchunk/codec.go:118-138 | the same for every int64 through zigzag |
| Wire.ZigzagIs | asap-gorilla-go/intchunk/codec.go:118-126 | zigzag keeps small magnitudes small and puts the sign in the lowest bit |
| Wire.Reader.ReadByte | asap-gorilla-go/intchunk/codec.go:145-152 | the cursor moves past one byte; it fails, without moving, exactly at the end |
| Wire.Reader.ReadUvarint | asap-gorilla-go/intchunk/codec.go:154-161 | the cursor moves exactly past the varint; truncated and over-long ones fail |
| Wire.Reader.ReadVarint | asap-gorilla-go/intchunk/codec.go:163-169 | the same for signed varints |
| Wire.Reader.ReadTake | asap-gorilla-go/coldpart/coldpart.go:586-593 | takes exactly n bytes, or fails when fewer are left |
| Wire.TakePassesIff | asap-gorilla-go/coldpart/coldpart.go:586-589 | the wrapping bound check passes if and only if the bytes are there or the length is below 2^63 and the sum is not |
| Wire.Reader.ReadLittleEndian | asap-gorilla-go/coldpart/coldpart.go:603-617 | reads n little-endian bytes, or fails when fewer are left |
| Wire.Reader.ReadU64 | asap-gorilla-go/coldpart/coldpart.go:611-617 | reads a 64-bit word, or fails when fewer than eight bytes are left |
| Wire.Reader.ReadInt64 | asap-gorilla-go/coldpart/coldpart.go:619-622 | reinterprets a 64-bit word as signed |
| Wire.GetLittleEndianRoundTrip | asap-gorilla-go/coldpart/coldpart.go:561-571 | an n-byte field gives its value back and leaves the bytes behind it |
| Wire.Int64RoundTrip | asap-gorilla-go/coldpart/coldpart.go:573-573 | a signed word survives its unsigned little-endian form |
| Wire.LittleEndianAt | asap-gorilla-go/coldpart/coldpart.go:561-571 | byte i of a word holds its bits from 8i on |
| Wire.BigEndianInjective | asap-precompute-go/frame_receiver.go:36-48 | two lengths with the same big-endian prefix are equal |
| Wire.BigEndianAt | asap-precompute-go/frame_receiver.go:36-48 | the same, highest byte first |
| BitPack.UnpackRoundTrip | asap-gorilla-go/intchunk/codec.go:178-239 | for every width and every run of fitting values, with any bytes behind it, unpacking inverts packing, and packing yields exactly ceil(n*width/8) bytes |
| BitPack.AccumulatorExactIff | asap-gorilla-go/intchunk/codec.go:98-103 | a 64-bit accumulator holding n live bits takes in every w-bit field without loss if and only if n + w <= 64 |
| BitPack.AccumulatorLosesTopBit | asap-gorilla-go/intchunk/codec.go:98-103 | past 64 bits some content loses its top bit |
| BitPack.EmitBytes | asap-gorilla-go/intchunk/codec.go:202-205 | whole bytes leave the accumulator, most significant first, until fewer than eight bits are live |
| BitPack.PackFields | asap-gorilla-go/intchunk/codec.go:193-211 | the accumulator loop, at every width byte; at every exact width it appends exactly the concatenated fields, cut into bytes |
| BitPack.Refill | asap-gorilla-go/intchunk/codec.go:227-234 | bytes are shifted in until a field is live, failing exactly when the source runs out first |
| BitPack.UnpackFields | asap-gorilla-go/intchunk/codec.go:214-239 | the accumulator loop, at every width byte; at every exact width it reads the fields off the bit string of the source, failing exactly when it is too short |
| BitPack.PackedExact | asap-gorilla-go/intchunk/codec.go:193-211 | at widths up to 58, at 60 and at 64 the wrapping accumulator writes exactly the fields: the live bits between fields are multiples of gcd(width, 8) |
| BitPack.UnpackedExact | asap-gorilla-go/intchunk/codec.go:214-239 | at those widths it reads exactly the fields, on every byte string |
| BitPack.UnreadableIs | asap-gorilla-go/intchunk/codec.go:214-239 | at 59, 61, 62, 63 and every width past 64 that is no whole number of bytes, there are fields that no byte string unpacks to |
| BitPack.WideRoundTrip | asap-gorilla-go/intchunk/codec.go:193-239 | whole-byte widths from a word on come back although the accumulator has dropped the bits past it |
| BitPack.RoundTripIff | asap-gorilla-go/intchunk/codec.go:193-239 | at every width the code's own unpack inverts its own pack, for all fitting runs, if and only if the width is at most 58, 60, or a multiple of 8 from 64 on |
| IntChunk.RebuildInverts | asap-gorilla-go/intchunk/intchunk.go:93-165 | delta and delta-of-delta residuals of any int64 run, wrapping included, are inverted by running sums |
| IntChunk.Len64IsWidth | asap-gorilla-go/intchunk/codec.go:175-189 | the bit length of a value is the least width it fits |
| IntChunk.FitsIff | asap-gorilla-go/intchunk/intchunk.go:168-171 | a residual is accepted if and only if it lies in the signed 56-bit range |
| IntChunk.MaxLenFits | asap-gorilla-go/intchunk/codec.go:175-189 | every residual fits the chosen common width |
| IntChunk.MaxLenLeast | asap-gorilla-go/intchunk/codec.go:175-189 | no smaller common width would do |
| IntChunk.ColumnRoundTrip | asap-gorilla-go/intchunk/intchunk.go:27-75 | for every int64 run the timestamp column parses back, whatever bytes follow |
| IntChunk.BodyRoundTrip | asap-gorilla-go/intchunk/intchunk.go:209-326 | both residual bodies, fixed width and varint, parse back and leave exactly what follows |
| IntChunk.ReconstructInverts | asap-gorilla-go/intchunk/intchunk.go:141-165 | rebuilding from base, first residual and the rest returns the integers |
| IntChunk.ChunkRoundTrip | asap-gorilla-go/intchunk/intchunk.go:209-326 | for all four codecs decoding consumes exactly the chunk's own bytes even with trailing data |
| IntChunk.OneSampleBytes | asap-gorilla-go/intchunk/intchunk.go:209-249 | the chunk of one sample under each of the four codecs, byte for byte |
| IntChunk.DecodeIntRoundTrip | asap-gorilla-go/intchunk/intchunk.go:209-326 | the same through the tag byte |
| IntChunk.CutIsForced | asap-gorilla-go/intchunk/intchunk.go:373-403 | the piece that is cut encodes, and one more sample would not: its residual is wider than 56 bits |
| IntChunk.CutCovers | asap-gorilla-go/intchunk/intchunk.go:352-403 | the pieces concatenate to the whole input, so cutting terminates and drops nothing |
| IntChunk.CutEncodes | asap-gorilla-go/intchunk/intchunk.go:352-403 | every piece encodes, so the cutter and the residual check agree |
| IntChunkCodec.EncodeTimestamps | asap-gorilla-go/intchunk/intchunk.go:27-43 | the loop appends the delta-of-delta varint column |
| IntChunkCodec.DecodeTimestamps | asap-gorilla-go/intchunk/intchunk.go:45-75 | the loop reads n timestamps as the column parser does, with its failures |
| IntChunkCodec.IntResiduals | asap-gorilla-go/intchunk/intchunk.go:93-136 | base, first residual and the rest, or refusal exactly when some residual is wider than 56 bits or there is no value |
| IntChunkCodec.ReconstructInts | asap-gorilla-go/intchunk/intchunk.go:141-165 | the loop rebuilds the run |
| IntChunkCodec.BitPackWidth | asap-gorilla-go/intchunk/codec.go:178-189 | the loop finds the greatest bit length |
| IntChunkCodec.EncodeBody | asap-gorilla-go/intchunk/intchunk.go:209-249 | writes a width byte and packed fields, or varints |
| IntChunkCodec.EncodeIntChunk | asap-gorilla-go/intchunk/intchunk.go:209-249 | succeeds exactly on encodable blocks and then yields the chunk's bytes |
| IntChunkCodec.DecodeBody | asap-gorilla-go/intchunk/intchunk.go:253-326 | reads a body as its parser does, at every width byte |
| IntChunkCodec.DecodeIntChunk | asap-gorilla-go/intchunk/intchunk.go:253-326 | reads a chunk as its parser does and leaves the cursor behind it |
| IntChunkCodec.FindCutEnd | asap-gorilla-go/intchunk/intchunk.go:373-403 | the loop finds the cut: 0 for no values, else the longest encodable prefix |
| IntChunkCodec.EncodeIntChunks | asap-gorilla-go/intchunk/intchunk.go:352-368 | only an empty block is refused; otherwise the chunks of the cut |
| IntChunkCodec.DecodeCut | asap-gorilla-go/intchunk/intchunk.go:352-403 | decoding chunk by chunk returns the pieces of the cut |
| IntChunkCodec.IntCodecRoundTrip | asap-gorilla-go/intchunk/intchunk.go:352-403 | for every int64 timestamp and value run and every codec: cut, encode, decode and join gives the input |
| BestOf.TryScale | asap-gorilla-go/intchunk/scale.go:39-71 | the smallest exponent up to 15 at which every value survives scaling and unscaling, or none when no exponent does or a value is not finite |
| BestOf.TryExponent | asap-gorilla-go/intchunk/scale.go:46-69 | succeeds exactly when every value is exact at this exponent |
| BestOf.ReadChunk | asap-gorilla-go/intchunk/bestofn.go:93-108 | dispatches on the tag byte; an empty chunk and an unknown tag fail |
| BestOf.TagRefused | asap-gorilla-go/intchunk/bestofn.go:93-108 | nothing is read without a tag or under one past 4 |
| BestOf.ReadChunks | asap-gorilla-go/intchunk/bestofn.go:113-123 | the loop concatenates the decoded chunks, failing at the first bad one |
| BestOf.DecodeIntChunks | asap-gorilla-go/intchunk/bestofn.go:113-123 | the chunks of one cut decode to the samples of the whole block |
| BestOf.GorillaRoundTrip | asap-gorilla-go/intchunk/gorilla.go:28-69 | the XOR candidate returns the samples exactly |
| BestOf.GorillaOffered | asap-gorilla-go/intchunk/gorilla.go:28-46 | the XOR codec is a candidate exactly for 1 to 65535 samples it takes |
| BestOf.IntFaithful | asap-gorilla-go/intchunk/bestofn.go:39-63 | once the guard passes, each INT candidate decodes to samples that compare equal |
| BestOf.IntBitExactIff | asap-gorilla-go/intchunk/scale.go:52-64 | the INT codecs are bit-exact if and only if no value is negative zero |
| ChunkSizes.NegZeroDecodes | asap-gorilla-go/intchunk/scale.go:52-64 | with any arithmetic that rounds negative zero to 0 and scales 0 back to positive zero, every INT candidate of a lone negative zero decodes to positive zero |
| ChunkSizes.NegZeroExample | asap-gorilla-go/intchunk/bestofn.go:27-82 | the encoder picks such a candidate for it, whatever XOR codec spends at least eight bytes, so the sign is lost end to end |
| BestOf.CandidateFaithful | asap-gorilla-go/intchunk/bestofn.go:24-82 | every candidate is lossless, so any winner is |
| BestOf.IntCandidates | asap-gorilla-go/intchunk/bestofn.go:39-63 | exactly the four INT encodings at the smallest exponent, in the order of their tags |
| BestOf.XorLast | asap-gorilla-go/intchunk/bestofn.go:39-73 | the INT codecs take their turns by tag and the XOR codec comes last |
| BestOf.Smallest | asap-gorilla-go/intchunk/bestofn.go:75-80 | no candidate is smaller, and among equals the first wins |
| BestOf.Encode | asap-gorilla-go/intchunk/bestofn.go:27-82 | refuses exactly when there is no sample or no candidate; otherwise the smallest, earliest candidate, which decodes to the samples |
| ChunkSizes.IntCandidateSize | asap-gorilla-go/intchunk/intchunk.go:209-249 | an INT candidate takes between one and 54 bytes for each sample, cuts included |
| ChunkSizes.LongCandidateSize | asap-gorilla-go/intchunk/gorilla.go:28-36 | so does every candidate from 65536 samples on, where the XOR codec declines |
| GorillaBits.BitWriter.WriteBit | asap-gorilla-rust/src/encoder.rs:22-32 | one bit is appended to those written |
| GorillaBits.BitWriter.WriteBits | asap-gorilla-rust/src/encoder.rs:34-43 | the low n bits are appended, most significant first |
| GorillaBits.BitWriter.Finish | asap-gorilla-rust/src/encoder.rs:55-63 | the written bits, zero-padded to whole bytes |
| GorillaBits.GetBitsRoundTrip | asap-gorilla-rust/src/decoder.rs:405-415 | a field reads back and leaves the bits behind it |
| GorillaBits.BitReader.ReadBit | asap-gorilla-rust/src/decoder.rs:394-403 | the next bit up to the bit length, which may end inside a byte |
| GorillaBits.BitReader.ReadBits | asap-gorilla-rust/src/decoder.rs:405-415 | the next n bits as a number, or none when fewer are left |
| GorillaTimestamps.SignExtendValue | asap-gorilla-rust/src/decoder.rs:371-377 | shifting up and back sign-extends an n-bit field |
| GorillaTimestamps.SignedRoundTrip | asap-gorilla-rust/src/decoder.rs:371-377 | a value that fits n signed bits survives truncation and sign extension |
| GorillaTimestamps.DodRoundTrip | asap-gorilla-rust/src/encoder.rs:88-114 | every prefix-coded delta-of-delta, the 64-bit escape included, parses back |
| GorillaTimestamps.DodBuckets | asap-gorilla-rust/src/encoder.rs:95-113 | 1, 9, 12, 16 or 68 bits with their prefixes, exactly in the ranges 0, -64..63, -256..255, -2048..2047 and beyond |
| GorillaTimestamps.TimestampsRoundTrip | asap-gorilla-rust/src/encoder.rs:76-114 | for every i64 run, wrapping deltas included, the stream decodes back whatever padding follows |
| GorillaTimestamps.TsEncoder.Push | asap-gorilla-rust/src/encoder.rs:88-114 | the first timestamp is only remembered; later ones append their coded delta-of-delta |
| GorillaTimestamps.WriteDod | asap-gorilla-rust/src/encoder.rs:97-111 | chooses the prefix class by the signed width |
| GorillaTimestamps.TsState.Next | asap-gorilla-rust/src/decoder.rs:287-318 | the decoder moves by the parsed delta-of-delta with wrapping sums |
| GorillaTimestamps.ReadDod | asap-gorilla-rust/src/decoder.rs:287-312 | reads prefix and field as the parser does |
| GorillaValues.WindowRestores | asap-gorilla-rust/src/decoder.rs:329-368 | the significant bits put back at their place give the XOR back |
| GorillaValues.WritesExactly | asap-gorilla-rust/src/encoder.rs:147-181 | bit by bit, what is written for a value and the window kept: one bit for a repeat; the bits inside the window when no bit outside it differs; otherwise the least window around the differing bits, its leading zeros cut to 31 |
| GorillaValues.StepInSync | asap-gorilla-rust/src/encoder.rs:137-180 | a step that reuses a window, or opens one of at most 31 leading zeros, leaves decoder and encoder with the same value, window and position |
| GorillaValues.StepOutOfSync | asap-gorilla-rust/src/encoder.rs:165-178 | a step that opens a window of more leading zeros, whose stored count is clamped, never decodes to its value |
| GorillaValues.ValuesRoundTripIff | asap-gorilla-rust/src/encoder.rs:137-180 | for every stream: it decodes to its input if and only if every difference that does not fit the running window has a bit among its first 32 |
| GorillaValues.UnsafeExample | asap-gorilla-rust/src/encoder.rs:165-178 | the bit pattern 1 after 0 does not come back |
| GorillaCodec.ValEncoder.Push | asap-gorilla-rust/src/encoder.rs:137-180 | appends the bits of the value and carries the unclamped window, as the step function says |
| GorillaCodec.ValState.Next | asap-gorilla-rust/src/decoder.rs:329-368 | reads one value as the decoding step function says |
| GorillaCodec.StableSortSorts | asap-gorilla-rust/src/encoder.rs:195-196 | sorted by time, a permutation, and equal timestamps keep their order |
| GorillaCodec.EncodeTimes | asap-gorilla-rust/src/encoder.rs:201-207 | the pushed timestamps make the padded stream |
| GorillaCodec.EncodeValues | asap-gorilla-rust/src/encoder.rs:201-208 | the pushed values make the padded stream |
| GorillaCodec.EncodeSeries | asap-gorilla-rust/src/encoder.rs:191-217 | both streams of the stably sorted samples |
| GorillaCodec.SeriesTimesRoundTrip | asap-gorilla-rust/src/encoder.rs:191-217 | timestamps come back through byte padding for every series |
| GorillaCodec.SeriesValuesRoundTripIff | asap-gorilla-rust/src/encoder.rs:191-217 | values come back through byte padding if and only if every opened window is safe |
| GorillaBlock.ChunkRoundTrip | asap-gorilla-rust/src/decoder.rs:146-202 | a framed series parses back to itself and leaves exactly the bytes behind it |
| GorillaBlock.HeaderRoundTrip | asap-gorilla-rust/src/decoder.rs:69-98 | magic, version and series count parse back |
| GorillaBlock.HeaderBytes | asap-gorilla-rust/src/encoder.rs:355-359 | the header byte for byte |
| GorillaBlock.BlockRoundTrip | asap-gorilla-rust/src/encoder.rs:355-377 | every block of fewer than 2^32 series with bit lengths below 2^32 parses back |
| GorillaBlock.BlockChecks | asap-gorilla-rust/src/decoder.rs:69-85 | whatever reads as a block has that header and as many chunks as it says |
| GorillaBlock.WriteBlock | asap-gorilla-rust/src/encoder.rs:355-377 | refuses exactly when some metadata needs more than 16 bits of length; otherwise header and framed chunks |
| GorillaBlock.BlockReader.NextSeries | asap-gorilla-rust/src/decoder.rs:131-145 | moves to the next chunk, reports the end, or fails without a current chunk being read |
| GorillaBlock.ReadBlock | asap-gorilla-rust/src/decoder.rs:119-127 | walking a block returns every chunk or the first failure |
| GorillaBlock.LoadedReadable | asap-gorilla-rust/src/decoder.rs:167-179 | the bytes loaded for a stream hold the number of bits it announces |
| GorillaBlock.SeriesRoundTrip | asap-gorilla-rust/src/decoder.rs:146-202 | from samples to block and back: metadata, stably sorted timestamps, and values exactly when every window is safe |
| GorillaBlock.SampleIter.constructor | asap-gorilla-rust/src/decoder.rs:232-243 | both readers stand at the start of their streams, cut to the announced bit lengths |
| GorillaBlock.SampleIter.Next | asap-gorilla-rust/src/decoder.rs:249-272 | the first sample comes from the header, later ones off both streams in step; ends after the announced count |
| GorillaBlock.Collect | asap-gorilla-rust/src/decoder.rs:246-272 | iterating yields the decoded timestamps paired with the decoded values, and fails exactly when either stream does |
| GorillaBuilder.Builder.FlushPending | asap-gorilla-rust/src/encoder.rs:279-333 | an empty series is skipped, an oversized one refused, any other becomes a chunk of its stably sorted samples |
| GorillaBuilder.Builder.WithSeries | asap-gorilla-rust/src/encoder.rs:271-277 | closes the series in progress and starts another; one that does not fit is dropped and reported, and none is started |
| GorillaBuilder.Builder.Finalize | asap-gorilla-rust/src/encoder.rs:336-341 | the block parses back to one chunk for every series given samples, in closing order |
| GorillaBuilder.BuiltDecodes | asap-gorilla-rust/src/encoder.rs:228-341 | each of them decodes to its timestamps in stable order, and to its values exactly when every window is safe |
| GorillaBuilder.SortedBounds | asap-gorilla-rust/src/encoder.rs:300-303 | start and end in the metadata are the least and greatest timestamps |
| ColdPartFormat.BuildCanonical | asap-gorilla-go/coldpart/coldpart.go:356-370 | rebuilding a canonical label set pair by pair returns it |
| ColdPartFormat.BuildIsCanonical | asap-gorilla-go/coldpart/coldpart.go:356-370 | whatever pairs are set, the rebuilt labels are sorted, distinct and without empty values |
| ColdPartFormat.BuildSameIff | asap-gorilla-go/coldpart/coldpart.go:356-370 | a label list is rebuilt as it was if and only if it is canonical |
| ColdPartFormat.BuildDrops | asap-gorilla-go/coldpart/coldpart.go:356-370 | of sorted, distinct labels exactly those with an empty value are dropped |
| ColdPartFormat.GetBuilt | asap-gorilla-go/coldpart/coldpart.go:356-370 | and looking a name up gives the same value before and after |
| ColdPartFormat.SymbolTable.Intern | asap-gorilla-go/coldpart/coldpart.go:540-547 | a string gets the next reference once; earlier references do not move |
| ColdPartFormat.SymbolsRoundTrip | asap-gorilla-go/coldpart/coldpart.go:329-346 | the symbol table parses back |
| ColdPartFormat.EntryRoundTrip | asap-gorilla-go/coldpart/coldpart.go:187-201 | an index entry parses back with its run length cut to 32 bits |
| ColdPartFormat.IndexRoundTrip | asap-gorilla-go/coldpart/coldpart.go:185-201 | the whole index parses back, each entry so cut |
| ColdPartFormat.HeaderRoundTrip | asap-gorilla-go/coldpart/coldpart.go:277-297 | block bounds and series count parse back |
| ColdPartFormat.FooterRoundTrip | asap-gorilla-go/coldpart/coldpart.go:308-313 | the section offsets parse back |
| ColdPart.ResolvesNames | asap-gorilla-go/coldpart/coldpart.go:356-370 | references resolve to the interned labels |
| ColdPart.ResolvesEntry | asap-gorilla-go/coldpart/coldpart.go:351-415 | an entry resolves to its labels, run and bounds if its run is shorter than 2^32 bytes, and is refused otherwise |
| ColdPart.SizesFit | asap-gorilla-go/coldpart/coldpart.go:99-223 | every count and offset of a part shorter than 2^63 bytes fits its field |
| ColdPart.OpensToIndex | asap-gorilla-go/coldpart/coldpart.go:263-425 | checksum, footer, header, symbol table and index of an assembled part are found where they were put |
| ColdPart.EmptyPartBytes | asap-gorilla-go/coldpart/coldpart.go:168-217 | the part without series, byte for byte |
| ColdPart.OpenWritten | asap-gorilla-go/coldpart/coldpart.go:263-425 | an assembled part, whatever its labels, opens if and only if every chunk run is shorter than 2^32 bytes, and then to what was stored with rebuilt labels |
| ColdPart.OpenedChecks | asap-gorilla-go/coldpart/coldpart.go:263-330 | whatever opens has the magic, version and checksum, a footer that puts the symbol table right behind the index and both before itself, and the bounds and count of its header |
| ColdPart.OpensIff | asap-gorilla-go/coldpart/coldpart.go:263-330 | a file with magic, version and checksum opens if and only if the footer places the index and the symbol table so and both can be read: empty regions and the shortest length are accepted |
| ColdPart.SplitConcat | asap-gorilla-go/coldpart/coldpart.go:500-508 | splitting a run by its chunk lengths returns the chunks |
| ColdPart.RunSlice | asap-gorilla-go/coldpart/coldpart.go:481-496 | each entry's slice of the part is its own chunk run |
| ColdPart.DecodesStored | asap-gorilla-go/coldpart/coldpart.go:481-496 | a stored run decodes to the samples it was made from |
| ColdPart.QuerySelects | asap-gorilla-go/coldpart/coldpart.go:454-472 | a query returns exactly the selected series in index order, with their samples |
| ColdPart.QueryExact | asap-gorilla-go/coldpart/coldpart.go:454-472 | of any part: a query that succeeds returns exactly the entries with first timestamp at most the upper bound, last at least the lower, and labels every matcher accepts; each once, in order, decoded |
| ColdPart.QueryFailsIff | asap-gorilla-go/coldpart/coldpart.go:454-472 | it fails exactly when the run of such an entry does not decode |
| ColdPart.PartRoundTrip | asap-gorilla-go/coldpart/coldpart.go:99-223 | write, open and query: for every matcher list and range exactly the written series, labels rebuilt, whose first and last timestamps overlap the range and whose labels match, each once, in the written order, with their samples |
| ColdPart.SelectedBuilt | asap-gorilla-go/coldpart/coldpart.go:356-370 | rebuilding changes no selection, and the labels come back as written if and only if no value is empty |
| ColdPart.NothingPruned | asap-gorilla-go/coldpart/coldpart.go:454-472 | with time-sorted samples no series with a sample in range is pruned |
| ColdPartLimits.LongSeriesRefused | asap-gorilla-go/coldpart/coldpart.go:144-201 | a part holding any series of 2^32 samples or more, by any encoding the encoder may pick, does not open |
| ColdPartLimits.IntSeriesOpen | asap-gorilla-go/coldpart/coldpart.go:144-201 | a part whose series are INT encoded and at most 2^26 samples long always opens |
| ColdPartLimits.LongPartExample | asap-gorilla-go/coldpart/coldpart.go:144-201 | such an unopenable part exists: one series of 2^32 zeros |
| ColdPartWriter.LabelsLessTransitive | asap-gorilla-go/coldpart/coldpart.go:107-109 | the label order is transitive |
| Order.LessIff | asap-gorilla-go/coldpart/coldpart.go:104-109 | the string order is lexicographic by bytes |
| ColdPartWriter.SortSeries | asap-gorilla-go/coldpart/coldpart.go:104-109 | ordered by labels and a permutation |
| ColdPartWriter.BuildSymbols | asap-gorilla-go/coldpart/coldpart.go:111-122 | refuses a series without samples; otherwise every label is interned |
| ColdPartWriter.BuildRefs | asap-gorilla-go/coldpart/coldpart.go:153-156 | references name the labels pairwise |
| ColdPartWriter.AppendRun | asap-gorilla-go/coldpart/coldpart.go:144-151 | chunks are appended with their lengths and total |
| ColdPartWriter.EncodeSeries | asap-gorilla-go/coldpart/coldpart.go:138-166 | fails exactly when the block codec has no candidate; otherwise offset, lengths and bounds describe the appended run |
| ColdPartWriter.EncodeAll | asap-gorilla-go/coldpart/coldpart.go:136-166 | the same for all series, with runs side by side |
| ColdPartWriter.WriteEntry | asap-gorilla-go/coldpart/coldpart.go:187-201 | writes one index entry |
| ColdPartWriter.WriteIndex | asap-gorilla-go/coldpart/coldpart.go:185-202 | writes the index with offsets moved behind the header |
| ColdPartWriter.WriteSymbols | asap-gorilla-go/coldpart/coldpart.go:204-210 | writes length-prefixed strings |
| ColdPartWriter.Emit | asap-gorilla-go/coldpart/coldpart.go:168-217 | lays the sections out and seals them with the checksum |
| ColdPartWriter.EncodedHolds | asap-gorilla-go/coldpart/coldpart.go:136-217 | what was encoded is what the laid-out part holds |
| ColdPartWriter.WritePart | asap-gorilla-go/coldpart/coldpart.go:99-223 | refuses exactly on a reversed range, an empty series or one no codec takes; otherwise the part holds all series in label order, each by its smallest encoding |
| ColdPartReader.ReadSymbols | asap-gorilla-go/coldpart/coldpart.go:329-346 | reads the symbol table as its parser does |
| ColdPartReader.ReadEntry | asap-gorilla-go/coldpart/coldpart.go:351-400 | reads one index entry, failing on truncation |
| ColdPartReader.ReadIndex | asap-gorilla-go/coldpart/coldpart.go:348-415 | reads every entry or fails at the first bad one |
| ColdPartReader.BuildLabels | asap-gorilla-go/coldpart/coldpart.go:356-370 | resolves references, failing on one out of range |
| ColdPartReader.ResolveAll | asap-gorilla-go/coldpart/coldpart.go:401-414 | resolves every entry, with the source's wrapping 64-bit sums, failing on a run that seems out of bounds or lengths that do not seem to add up |
| ColdPartReader.OpenPart | asap-gorilla-go/coldpart/coldpart.go:263-425 | opens a byte string as the format says, for every input |
| ColdPartReader.OpenLocatedIff | asap-gorilla-go/coldpart/coldpart.go:389-414 | of any byte string that opens, every run lies inside it and splits into its chunks if and only if no offset plus length and no sum of chunk lengths reaches 2^64 |
| ColdPartReader.WrappedOffsetExample | asap-gorilla-go/coldpart/coldpart.go:401-404 | a part that opens with a run at offset 2^64 - 1 |
| ColdPartReader.WrappedLengthsExample | asap-gorilla-go/coldpart/coldpart.go:389-397 | a part that opens with an empty run of two chunks of 2^63 bytes |
| ColdPartReader.Split | asap-gorilla-go/coldpart/coldpart.go:500-508 | the loop splits a run by lengths |
| ColdPartReader.DecodeOne | asap-gorilla-go/coldpart/coldpart.go:481-496 | decodes a run as one chunk or as its listed chunks |
| ColdPartReader.SeriesIn | asap-gorilla-go/coldpart/coldpart.go:454-472 | the loop answers a query, failing where a selected run does not decode; entries it does not select are not looked at |
| MinHeap.PushHeap | asap-gorilla-go/fragment.go:256-277 | pushing keeps the heap order |
| MinHeap.PopHeap | asap-gorilla-go/fragment.go:256-277 | popping keeps the heap order |
| MinHeap.RootLeastAll | asap-gorilla-go/tsdb.go:106-123 | the root is no later than any entry |
| MinHeap.Push | asap-gorilla-go/tsdb.go:116-116 | a push adds exactly one entry |
| MinHeap.Pop | asap-gorilla-go/tsdb.go:117-123 | a pop removes exactly the root |
| MinHeap.ReadyPop | asap-gorilla-go/fragment.go:386-399 | popping a due root leaves one due entry fewer, which is why the drain loop ends |
| MinHeap.ReadyPush | asap-gorilla-go/fragment.go:386-399 | re-pushing at a later time adds no due entry |
| ReorderSeries.AppendSound | asap-gorilla-go/fragment.go:416-438 | an in-order append keeps conservation, order and losslessness |
| ReorderSeries.LateSound | asap-gorilla-go/fragment.go:402-408 | only a series that broke bounded disorder loses a point |
| ReorderSeries.FillSound | asap-gorilla-go/fragment.go:429-438 | appending the point that fills a chunk ships it whole |
| ReorderSeries.FlushSound | asap-gorilla-go/fragment.go:440-486 | shipping an open chunk keeps every claim |
| ReorderSeries.ArriveSound | asap-gorilla-go/fragment.go:176-191 | an arrival keeps every claim |
| ReorderSeries.TimelyShipsSorted | asap-gorilla-go/fragment.go:170-208 | under bounded disorder with distinct timestamps nothing is lost and the shipped chunks are the sorted input |
| ReorderState.CoveredNoneReady | asap-gorilla-go/tsdb.go:426-449 | when the queue root is past the watermark no series holds a due point |
| ReorderState.HeadingDone | asap-gorilla-go/fragment.go:386-413 | a heap-driven drain in any order has the effect of a scan over all series |
| ReorderState.StaleRequeue | asap-gorilla-go/fragment.go:335-338 | re-enqueueing at the real activity lowers the number of stale entries, which is why the sweep ends |
| FragmentEncoder.Encoder.constructor | asap-gorilla-go/fragment.go:147-168 | an empty encoder |
| FragmentEncoder.Encoder.LosePoint | asap-gorilla-go/fragment.go:402-408 | a point not after the last appended one is dropped and counted |
| FragmentEncoder.Encoder.AppendPoint | asap-gorilla-go/fragment.go:416-438 | the point joins the open chunk |
| FragmentEncoder.Encoder.FillChunk | asap-gorilla-go/fragment.go:429-438 | the point that fills the chunk ships it, with exactly as many points as a chunk may have |
| FragmentEncoder.Encoder.Ship | asap-gorilla-go/fragment.go:440-486 | one fragment with the drops not yet reported, and a candidate for eviction |
| FragmentEncoder.Encoder.MakeCandidate | asap-gorilla-go/fragment.go:476-484 | a flushed series enters the eviction queue exactly when eviction is on, and at most once |
| FragmentEncoder.Encoder.DrainSeries | asap-gorilla-go/fragment.go:401-414 | the loop drains one series to the watermark, in order, dropping late points |
| FragmentEncoder.Encoder.DrainEntry | asap-gorilla-go/tsdb.go:426-449 | one turn of the queue loop drains its series and re-queues it later, if at all |
| FragmentEncoder.Encoder.DrainReady | asap-gorilla-go/fragment.go:386-399 | the queue loop terminates, equals a scan over all series, and leaves no due point anywhere |
| FragmentEncoder.Encoder.GetSeries | asap-gorilla-go/fragment.go:230-248 | the live series of a key, created on first sight or after eviction |
| FragmentEncoder.Encoder.Buffer | asap-gorilla-go/tsdb.go:216-227 | a point is buffered and the queue gets an entry when it is the new earliest |
| FragmentEncoder.Encoder.AddSample | asap-gorilla-go/fragment.go:170-193 | the sample is buffered, the watermark follows the newest sample less the grace, everything due is drained, and every point still buffered is newer than the watermark |
| FragmentEncoder.Encoder.FlushOpen | asap-gorilla-go/fragment.go:440-486 | an open chunk is shipped, an empty one is not |
| FragmentEncoder.Encoder.ForceSeries | asap-gorilla-go/fragment.go:360-367 | everything pending is drained and the open chunk shipped |
| FragmentEncoder.Encoder.ForceAll | asap-gorilla-go/fragment.go:357-368 | all series at rest, whatever order they are visited in, and the queue emptied |
| FragmentEncoder.Encoder.AttributeResidual | asap-gorilla-go/fragment.go:369-381 | drops not yet reported go to the last queued fragment |
| FragmentEncoder.Encoder.SweepOne | asap-gorilla-go/fragment.go:324-353 | one entry is re-queued at its real activity, dropped, or its series evicted |
| FragmentEncoder.Encoder.Evict | asap-gorilla-go/fragment.go:339-352 | only a live, idle series with nothing pending and no open chunk goes |
| FragmentEncoder.Encoder.Sweep | asap-gorilla-go/fragment.go:319-354 | the sweep terminates and removes exactly the queued series that have nothing buffered or open and are idle for longer than the threshold; every entry left is newer than the cutoff |
| FragmentEncoder.Encoder.DrainForced | asap-gorilla-go/fragment.go:356-385 | a forced drain ships everything and reports every drop once a fragment is queued |
| FragmentEncoder.Encoder.Drain | asap-gorilla-go/fragment.go:195-208 | hands out exactly the fragments made since the last call; forced, it ships every series and bounded disorder lost nothing |
| FragmentEncoder.Encoder.HandOut | asap-gorilla-go/fragment.go:195-208 | each fragment is handed out once |
| FragmentEncoder.Encoder.SampleConservation | asap-gorilla-go/fragment.go:170-208 | in every reachable state accepted = pending + open + shipped + dropped, and each incarnation's appended timestamps strictly increase |
| FragmentEncoder.Encoder.DropConservation | asap-gorilla-go/fragment.go:369-381 | in every reachable state the drops over all fragments made equal those last reported and never exceed the dropped count |
| FragmentEncoder.Encoder.EvictQueueExact | asap-gorilla-go/fragment.go:319-354 | the queue flag is set exactly when one entry exists, and its key is no newer than the real activity |
| FragmentFinalizer.DeOverlapDisjoint | asap-gorilla-go/fragment.go:564-582 | the kept chunks are sorted and disjoint |
| FragmentFinalizer.DeOverlapAllIff | asap-gorilla-go/fragment.go:564-582 | nothing is discarded if and only if the chunks were disjoint and after the least time |
| FragmentFinalizer.DeOverlapSubset | asap-gorilla-go/fragment.go:564-582 | only given chunks are kept, none twice |
| FragmentFinalizer.LeastTimeDiscarded | asap-gorilla-go/fragment.go:572-577 | no chunk that starts at the least int64 is kept, from any list |
| FragmentFinalizer.KeptAllIff | asap-gorilla-go/fragment.go:564-582 | a series keeps all its chunks if and only if no two of them overlap and none starts at the least int64, whatever order they came in |
| FragmentFinalizer.MetasBounds | asap-gorilla-go/fragment.go:416-486 | the chunks one incarnation ships have disjoint, increasing spans |
| FragmentFinalizer.OwnFragmentsKept | asap-gorilla-go/fragment.go:564-582 | so the finalizer discards none of them |
| FragmentFinalizer.SortMetas | asap-gorilla-go/fragment.go:570-570 | sorted by start and a permutation |
| FragmentFinalizer.Filter | asap-gorilla-go/fragment.go:571-581 | the in-place filter keeps what the specification keeps and counts the rest |
| FragmentFinalizer.Finalizer.AddFragment | asap-gorilla-go/fragment.go:531-562 | an empty fragment is ignored; any other is filed under its series with its counts |
| FragmentFinalizer.Finalizer.Finalize | asap-gorilla-go/fragment.go:564-582 | writes exactly when it was given samples; its bounds are the least start and the greatest end given; drops are those reported plus the discarded chunks, while sample and chunk counts still include discarded ones |
| FragmentFinalizer.Finalizer.DeOverlapOne | asap-gorilla-go/fragment.go:569-582 | one series sorted and filtered, its discards counted |
| FragmentFinalizer.TotalAdded | asap-gorilla-go/fragment.go:531-562 | the filed chunks are exactly the fragments given |
| FragmentFinalizer.FinalizedDisjoint | asap-gorilla-go/fragment.go:564-582 | every series of the finished block is sorted and disjoint |
| FragmentFinalizer.CountExactIff | asap-gorilla-go/fragment.go:564-582 | the chunks written are as many as the fragments counted if and only if that holds of every series; otherwise they are fewer |
| FragmentFinalizer.CountExample | asap-gorilla-go/fragment.go:531-582 | two overlapping fragments are given: two chunks are counted, fewer are written |
| FrameWire.DecimalRoundTrip | asap-precompute-go/frame_receiver.go:90-97 | every 64-bit number survives its decimal attribute |
| FrameWire.ParseUintIff | asap-precompute-go/frame_receiver.go:90-97 | exactly the digit strings of 64-bit numbers parse |
| FrameWire.ListingUnique | asap-precompute-go/frame_receiver.go:28-34 | a key set has one sorted listing, so the checksum is well defined |
| FrameWire.PreimageInjective | asap-precompute-go/frame_receiver.go:27-53 | the length-prefixed preimage determines payload and attributes, checksum aside |
| FrameWire.SortKeys | asap-precompute-go/frame_receiver.go:28-34 | all keys but the checksum, sorted |
| FrameWire.BuildHeader | asap-precompute-go/frame_receiver.go:35-45 | the loop writes the length-prefixed entries |
| FrameWire.FrameChecksum | asap-precompute-go/frame_receiver.go:27-53 | the digest of the preimage |
| FrameWire.Seal | asap-precompute-go/frame_receiver.go:56-63 | only the checksum attribute is added or replaced |
| FrameWire.SealCovers | asap-precompute-go/frame_receiver.go:56-63 | sealing does not change what is signed |
| FrameSequencer.Sequencer.NextForEmission | asap-precompute-go/frame_identity.go:95-154 | issues the next frame of the lineage or refuses and changes nothing |
| FrameSequencer.Sequencer.NextBatchForEmission | asap-precompute-go/frame_identity.go:63-85 | all frames of a batch are issued, or none and the lineages stay as they were |
| FrameSequencer.BatchFails | asap-precompute-go/frame_identity.go:63-85 | the first failing emission decides the batch |
| FrameSequencer.NextContinues | asap-precompute-go/frame_identity.go:99-154 | an issued frame has the next sequence number, and is full with a new checkpoint or a delta on the latest one |
| FrameSequencer.FullOwed | asap-precompute-go/frame_identity.go:123-153 | a full frame is owed at the start of a lineage, under a full rule, and once the interval since the last checkpoint has passed; a delta is then refused, and where the choice is open a full frame is issued exactly then |
| FrameSequencer.RefusedIff | asap-precompute-go/frame_identity.go:99-112 | the other refusals, exactly |
| FrameSequencer.ChainAt | asap-precompute-go/frame_identity.go:99-154 | so does every frame of an issued chain |
| FrameReceiver.Receiver.PrepareEnvelope | asap-precompute-go/frame_receiver.go:99-167 | the verdict on an envelope; only the clock and the use stamp of a duplicate change |
| FrameReceiver.Receiver.Commit | asap-precompute-go/frame_receiver.go:169-189 | records the accepted frame, first forgetting a least recently used lineage when the table is full |
| FrameReceiver.Receiver.FindOldest | asap-precompute-go/frame_receiver.go:178-186 | a lineage no other was used before |
| FrameReceiver.CommitBounded | asap-precompute-go/frame_receiver.go:169-189 | the table never grows past the limit |
| FrameReceiver.GenuineHead | asap-precompute-go/frame_receiver.go:104-123 | the attributes of an issued frame parse back to its identity exactly when the lineage is acceptable |
| FrameReceiver.LowerAlphabet | asap-precompute-go/frame_receiver.go:124-127 | the 26 letters are lowered and nothing else |
| FrameReceiver.SealedCarries | asap-precompute-go/frame_receiver.go:56-63 | a sealed frame carries what was issued |
| FrameReceiver.GenuineVerifies | asap-precompute-go/frame_receiver.go:124-127 | any envelope that carries an issued frame, its checksum in upper or lower case, verifies with the fingerprint of that frame |
| FrameReceiver.VerdictIs | asap-precompute-go/frame_receiver.go:99-167 | the verdict on any envelope whose checksum matches, issued or not, over any table: accepted exactly when it is the next frame and is full with a checkpoint or a delta on the held one; the latest again is a duplicate or, with another fingerprint, a conflict; the rest are gap, base and kind errors; only a duplicate touches the table |
| FrameReceiver.OthersRefused | asap-precompute-go/frame_receiver.go:104-127 | anything else that carries attributes is refused and changes nothing |
| FrameProtocol.EmitKeeps | asap-precompute-go/frame_identity.go:99-154 | issuing keeps the protocol invariant |
| FrameProtocol.GenuineVerdict | asap-precompute-go/frame_receiver.go:99-167 | an issued frame is accepted if next in order, a duplicate if it was last, and a gap otherwise |
| FrameProtocol.NextInOrderAccepted | asap-precompute-go/frame_receiver.go:99-167 | the next frame in order is never refused for a gap or a base; only unacceptable attributes refuse it |
| FrameProtocol.CommitKeeps | asap-precompute-go/frame_receiver.go:169-189 | recording the delivered envelope that continues its lineage keeps the invariant, whichever lineage is forgotten |
| FrameProtocol.DeliverKeeps | asap-precompute-go/precompute.go:465-484 | delivering any envelope the network can produce, whatever the receiver answers, keeps the invariant |
| FrameProtocol.StepKeeps | asap-precompute-go/precompute.go:465-484 | every step of sender, network and receiver keeps the invariant |
| FrameProtocol.RunInv | asap-precompute-go/precompute.go:465-484 | so it holds after every run over a network that loses, repeats and reorders |
| FrameProtocol.LatestSame | asap-precompute-go/frame_receiver.go:139-160 | the latest checkpoint named by the delivered envelopes is that of the frames they carry |
| FrameProtocol.RunSafe | asap-precompute-go/precompute.go:465-484 | in every run the envelopes committed for a retained lineage carry, one by one, the frames issued first for it, each once and in order, and every delta among them names the latest full one before it |
| FrameProtocol.ReceiverOrders | asap-precompute-go/frame_receiver.go:99-189 | by the receiver alone, whatever is delivered, forged frames included: what is committed for a retained lineage verifies, is numbered from 1 without a gap, and every delta names the latest full frame before it |
| FrameProtocol.RunProgress | asap-precompute-go/frame_receiver.go:99-167 | in every run the next frame in order of an acceptable lineage is accepted |
| FrameProtocol.DamageIsCollision | asap-precompute-go/frame_receiver.go:27-53 | an envelope that carries no issued frame but verifies under its checksum exhibits a digest collision |
| SeriesCap.EvictionHeap.SwapSlots | asap-precompute-go/window.go:81-84 | two entries change places and each keeps its own index |
| SeriesCap.EvictionHeap.SiftUp | asap-precompute-go/window.go:72-99 | restores the order upwards, indexes kept |
| SeriesCap.EvictionHeap.SiftDown | asap-precompute-go/window.go:72-99 | restores the order downwards within the first n slots, indexes kept |
| SeriesCap.EvictionHeap.Push | asap-precompute-go/window.go:86-89 | adds exactly one entry; order and back-pointers hold |
| SeriesCap.EvictionHeap.Pop | asap-precompute-go/window.go:91-99 | removes the root, whose index becomes -1 |
| SeriesCap.EvictionHeap.Fix | asap-precompute-go/window.go:492-502 | restores order after one entry's time moved |
| SeriesCap.SeriesTable.EvictOldest | asap-precompute-go/window.go:469-488 | removes the one entry seen longest ago, the first by key among equals |
| SeriesCap.SeriesTable.RootBeforeOthers | asap-precompute-go/window.go:72-80 | the root is strictly before every other live entry |
| SeriesCap.SeriesTable.Admit | asap-precompute-go/window.go:396-467 | refuses exactly when full without eviction; otherwise the table gains the series, losing the least entry if it was full, and never exceeds the cap |
| SeriesCap.SeriesTable.Record | asap-precompute-go/window.go:492-506 | last seen is the greater time and the heap stays ordered |
| SeriesCap.SeriesTable.Rotate | asap-precompute-go/window.go:753-764 | the closed entries are handed over untouched, and the next window starts with an empty table and heap |
| SeriesCap.SeriesTable.SlotOf | asap-precompute-go/window.go:81-99 | in every reachable state a live entry's index is its own slot |
| WindowBounds.InitAligned | asap-precompute-go/window.go:227-245 | a sized window opens aligned around its first reference time if and only if its end fits 64 bits |
| WindowBounds.AdvanceAligned | asap-precompute-go/window.go:856-879 | with one step the next window starts on a boundary no earlier than the closed one ended, and is aligned if and only if its end fits 64 bits |
| WindowBounds.AdvanceMeetsIff | asap-precompute-go/window.go:856-879 | an aligned range is followed without a gap if and only if the rotation comes less than a step after its end |
| WindowBounds.AdvanceForwardIff | asap-precompute-go/window.go:856-879 | from any bounds, under any step: the next range starts before the old one did only if that ended before it started, and clears it if and only if the bucket does not fall inside it |
| WindowBounds.StepChangeOverlaps | asap-precompute-go/window.go:856-879 | a range that overlaps after a step change |
| WindowBounds.RetryAccepted | asap-precompute-go/window.go:379-390 | from any bounds, after a rotation for its own time a sample is in time exactly when the window is sized, the next end does not wrap, and no wrapped bounds are in the way; otherwise it is future data again |
| WindowBounds.RetryNeverFutureIff | asap-precompute-go/precompute.go:361-375 | the retry never ends in future data, for all ordered bounds and all times up to a last one, if and only if the step is positive and a step from the last time fits 64 bits |
| WindowBounds.WrapExample | asap-precompute-go/window.go:227-245 | a minute window told of the time 2^64 - 1: that sample and the next ordinary one are future data, and the window falls back to 8384..68384 |
| WindowBounds.NoWrapBefore | asap-precompute-go/window.go:856-879 | no window opened or due at a time more than a step before 2^64 has an end that wraps |
| WindowBounds.Validate | asap-precompute-go/window.go:379-390 | future from the end on; late when more than the lateness before the start; in time otherwise |
| SumDelta.FedFaithful | asap-precompute-go/window.go:492-506 | an entry stays what its inputs make it |
| SumDelta.HoldsSum | asap-precompute-go/window.go:586-662 | an entry holds the sum of its inputs since the last delta for another upstream window; scalars, full summaries and deltas of one window add up |
| SumDelta.AllAdd | asap-precompute-go/window.go:586-662 | without such a delta it is the sum of all of them |
| SumDelta.ScalarTotal | asap-precompute-go/sketches/sum.go:96-101 | scalar inputs give their sum and their number |
| SumDelta.EmptyTotal | asap-precompute-go/sketches/sum.go:187-200 | a total without samples is the zero total |
| SumDelta.DeltaReaches | asap-precompute-go/sketches/sum.go:215-259 | base plus what an emit ships is the current total |
| SumDelta.SilentIff | asap-precompute-go/sketches/sum.go:203-243 | nothing is shipped exactly when the total has not moved from its base, or without one when there are no samples |
| WindowHistory.BoundaryRetires | asap-precompute-go/precompute.go:859-905 | closing an entry ships exactly what its payloads so far lack |
| WindowHistory.TelescopedShip | asap-precompute-go/snapshot_cache.go:306-341 | a sub-window emit keeps payloads plus offset equal to the base |
| WindowHistory.AdvancingRotate | asap-precompute-go/window.go:743-765 | a rotation whose next end does not wrap keeps all ranges aligned, disjoint and increasing |
| WindowRuntime.Precompute.UpdateConfig | asap-precompute-go/precompute.go:1033-1070 | staged while the window holds data, else installed at once; the cache is untouched |
| WindowRuntime.Precompute.ActivatePending | asap-precompute-go/precompute.go:1099-1108 | the staged config takes effect with an empty cache |
| WindowRuntime.Precompute.ResetDeltaBase | asap-precompute-go/precompute.go:269-273 | bases are forgotten, and the offsets of live series say what that costs |
| WindowRuntime.Precompute.Serialize | asap-precompute-go/precompute.go:909-968 | ships the entry against its base, marked full exactly without deltas or a base, and leaves the zero base, or the full total when deltas are off |
| WindowRuntime.Precompute.FinishRotate | asap-precompute-go/precompute.go:859-905 | every entry closed once with the same range and config, and with deltas on only their zero bases stay cached |
| WindowRuntime.Precompute.Prune | asap-precompute-go/snapshot_cache.go:92-113 | only bases of the closed series stay |
| WindowRuntime.Precompute.CloseWindow | asap-precompute-go/window.go:743-765 | an empty window only advances; any other is closed whole under its old range |
| WindowRuntime.Precompute.RotateDue | asap-precompute-go/window.go:686-701 | rotates exactly when due; a staged config takes effect at that close |
| WindowRuntime.Precompute.HandOut | asap-precompute-go/precompute.go:550-561 | waiting envelopes first, then the new ones, and nothing waits |
| WindowRuntime.Precompute.Tick | asap-precompute-go/precompute.go:496-509 | nothing without a config; otherwise a due rotation, and everything waiting is handed out |
| WindowRuntime.Precompute.Drain | asap-precompute-go/precompute.go:517-528 | closes whatever is live as if due at its end, installs a staged config with an empty cache, and hands everything out |
| WindowRuntime.Precompute.RotateForFuture | asap-precompute-go/precompute.go:530-548 | rotates for a future sample; its envelopes wait for the next tick |
| WindowRuntime.Precompute.InitWindow | asap-precompute-go/window.go:227-245 | bounds are set once, around the first reference time, by the wrapping sum; whether it wrapped is recorded |
| WindowRuntime.Precompute.Feed | asap-precompute-go/window.go:492-506 | the input joins its live series |
| WindowRuntime.Precompute.EvictOne | asap-precompute-go/window.go:469-488 | the series before all others in (last seen, key) order leaves the table, with its cached base |
| WindowRuntime.Precompute.Admit | asap-precompute-go/window.go:396-467 | refuses exactly when the cap is reached and must not evict; otherwise a new incarnation whose base is the cached one, zero if the cache is clean |
| WindowRuntime.Precompute.ObserveOnce | asap-precompute-go/window.go:335-390 | the exact outcome of one attempt under the key of the active config, in inequalities between its time, the bounds and the lateness, and the table it leaves; a refusal changes only the first bounds |
| WindowRuntime.Precompute.Observe | asap-precompute-go/precompute.go:341-376 | a sample beyond the window rotates it and is judged once more, under the key and lateness of the config then active; it ends in future data exactly when the rotation makes no room and that config wants it, and a sample is logged exactly when recorded |
| WindowRuntime.Precompute.ObserveEnvelope | asap-precompute-go/window.go:530-662 | summaries are merged whatever their time, refused only without a config, for another aggregation or family, or without room; a payload that does not parse is reported, but its series stays admitted, or emptied if the delta was for another upstream window |
| WindowRuntime.Precompute.EmitSubWindow | asap-precompute-go/precompute.go:566-613 | one envelope for each diverged live series that gained anything, none without deltas; under the range from 0 to 0 they are thrown away |
| WindowRuntime.Precompute.ShipOne | asap-precompute-go/precompute.go:620-658 | ships the difference to the base and makes the total the new base |
| WindowRuntime.Precompute.ExactlyOnce | asap-precompute-go/window.go:335-390 | in every reachable state each admitted input is in exactly one window, in order, before its end and no more than the lateness before its start |
| WindowRuntime.Precompute.EntriesHoldSums | asap-precompute-go/window.go:492-506 | in every reachable state every entry, live or closed, holds the sum of its inputs since the last delta for another upstream window, counts the samples reported, and was last seen at the latest of them |
| WindowRuntime.Precompute.GenerationsNeverMix | asap-precompute-go/precompute.go:412-435 | in every reachable state live entries belong to the active config and closed ones were serialized under the config that admitted them |
| WindowRuntime.Precompute.FoldFromOffset | asap-precompute-go/snapshot_cache.go:162-230 | in every reachable state the payloads of a closed entry, with its starting offset, fold to its window total |
| WindowRuntime.Precompute.FoldIsTotalIff | asap-precompute-go/snapshot_cache.go:162-230 | they fold to the total alone if and only if deltas were off or the incarnation started from an empty base |
| WindowRuntime.Precompute.DeltasTelescope | asap-precompute-go/snapshot_cache.go:162-341 | with delta configs only and no reset under a live series they always fold to the total, for every interleaving of inputs, emits, evictions and rotations |
| WindowRuntime.Precompute.HandedOnce | asap-precompute-go/precompute.go:550-561 | every envelope made is handed out exactly once or still waits, unless an unsized config was given |
| WindowRuntime.Precompute.RangesNeverOverlap | asap-precompute-go/window.go:856-879 | with one step, and as long as no window end wrapped, the emitted ranges are aligned, advance and never overlap |
| WindowRuntime.WrappedRunExample | asap-precompute-go/window.go:227-245 | a run of a minute window: a sample at 2^64 - 1 and the next ordinary one end in future data, and a later rotation then closes an earlier range |
| WindowRuntime.LeaveStaleBase | asap-precompute-go/precompute.go:949-967 | a close without deltas leaves its total cached |
| WindowRuntime.StaleBaseExample | asap-precompute-go/precompute.go:1056-1064 | a delta config installed on the then empty window ships 3 - 5 for a window total of 3 |
| WindowRuntime.DiscardExample | asap-precompute-go/precompute.go:602-604 | an unsized window opened at time 0 makes an envelope and throws it away |
| SlidingWindow.AmountCounts | asap-precompute-go/window.go:820-827 | a merged amount counts its observations |
| SlidingWindow.PanesCover | asap-precompute-go/window.go:271-285 | the pane count is the least that covers the window size |
| SlidingWindow.PaneInRotationIff | asap-precompute-go/window.go:778-846 | a pane is in a rotation if and only if it is one of the last N closed, so it contributes to exactly N consecutive rotations once N follow |
| SlidingWindow.MergeSeries | asap-precompute-go/window.go:800-832 | merging the panes of a key into a fresh sketch gives the amount of the raw observations and the latest time it was seen |
| SlidingWindow.MergePanes | asap-precompute-go/window.go:800-841 | exactly the keys seen in some pane, each with its raw amount and count |
| SlidingWindow.Window.constructor | asap-precompute-go/window.go:227-245 | an empty ring with its first pane, aligned unless its end wraps |
| SlidingWindow.Window.Observe | asap-precompute-go/window.go:335-390 | a sample from the pane's end on is future, one more than the lateness before its start is late; any other joins the raw log of its key |
| SlidingWindow.Window.Rotate | asap-precompute-go/window.go:778-846 | every emission equals the raw log of the last min(N, closed) panes, per key; the retained panes still hold their own logs; and as long as no pane end wrapped, the emitted range is as long as its panes if and only if each but the last was closed less than a slide after its end |
| SlidingWindow.Window.ClosePane | asap-precompute-go/window.go:782-798 | the current pane enters the ring, which keeps the last N |
| SlidingWindow.RotateInOrder | asap-precompute-go/window.go:778-846 | retained pane ranges stay in order, and the next pane is aligned if and only if its end fits 64 bits |
| SlidingWindow.SpanIff | asap-precompute-go/window.go:842-845 | ranges in order span the sum of their lengths if and only if they are contiguous |
| SlidingWindow.EmittedSpan | asap-precompute-go/window.go:842-845 | panes in order span at least their number of slides, and exactly that if and only if every rotation between them was in time |
| SlidingWindow.IdleGapExample | asap-precompute-go/window.go:778-879 | a window of two 10 ms panes, rotated at 105 and 110, emits the range from 0 to 110 |
| SlidingWindow.WrappedSpanExample | asap-precompute-go/window.go:842-879 | a window of two 10 ms panes opened 16 ms before 2^64 emits a range that ends before it starts |
| PlanChannel.Channel.constructor | asap-precompute-go/controlchannel/opamp.go:89-110 | a channel with nothing applied |
| PlanChannel.Channel.Restart | asap-precompute-go/controlchannel/opamp.go:99-110 | only the recorded generation survives, as the highest known version |
| PlanChannel.Channel.Receive | asap-precompute-go/controlchannel/opamp.go:177-214 | staged exactly when unexpired, open, newer than all known and nothing else is in flight; other plans change nothing |
| PlanChannel.Channel.Poll | asap-precompute-go/controlchannel/opamp.go:240-268 | delivered once, not before activation nor after expiry; an expired plan is dropped |
| PlanChannel.Channel.DeliveredInTime | asap-precompute-go/controlchannel/opamp.go:239-268 | over all runs and restarts no plan was delivered before its activation or once expired, and nothing was applied that was not delivered |
| PlanChannel.Channel.Ack | asap-precompute-go/controlchannel/opamp.go:271-291 | applied exactly when it is the delivered version and its record was written; a failed write may still have landed |
| PlanChannel.Channel.Reject | asap-precompute-go/controlchannel/opamp.go:295-309 | only the delivered version is dropped |
| PlanChannel.Channel.Close | asap-precompute-go/controlchannel/opamp.go:313-318 | closed for good |
| PlanChannel.Channel.GenerationsMoveForward | asap-precompute-go/controlchannel/opamp.go:177-291 | over every run, restarts included, at most one plan is pending or delivered; applied versions strictly increase since the last restart, and with a state file over all of them |
| PlanChannel.ForgetfulExample | asap-precompute-go/controlchannel/opamp.go:99-110 | without a state file a restart forgets, and version 1 is applied after 2 |
| PlanLifecycle.Lifecycle.NewestKnown | asap-precompute-rs/src/collector_plan.rs:318-328 | the greatest version ever staged or active |
| PlanLifecycle.Lifecycle.Stage | asap-precompute-rs/src/collector_plan.rs:294-345 | staged exactly when valid, unexpired and newer than every known version; each refusal has its own cause |
| PlanLifecycle.Lifecycle.Activate | asap-precompute-rs/src/collector_plan.rs:348-393 | a due, unexpired, newer staged plan becomes the only active one and its predecessor drains; an expired one is retired |
| PlanLifecycle.Lifecycle.ActivatedInTime | asap-precompute-rs/src/collector_plan.rs:348-393 | over all runs no generation became active before its activation time or once expired |
| PlanLifecycle.Lifecycle.RetireDrained | asap-precompute-rs/src/collector_plan.rs:406-412 | exactly the draining generations retire |
| PlanLifecycle.Lifecycle.ActiveIsUnique | asap-precompute-rs/src/collector_plan.rs:348-412 | in every reachable state at most one status is active, it is the active plan's, and active versions strictly increase |
| PlanLifecycle.ActivateKeeps | asap-precompute-rs/src/collector_plan.rs:385-391 | promoting one plan and draining the old keeps one active status |

## Left out

- Sketch families other than Sum, the sketch library behind them, and the
  insert-time (GOS) mode: thin layers over code that is not here; a window entry
  is a Sum, over reals and unbounded counts, so float rounding of sums is not
  captured.
- The XOR chunk of the metrics library: any codec that decodes what it encodes;
  in the reorder engine a chunk is its list of points.
- Digests, checksums and fingerprints: uninterpreted functions; float scaling and
  rounding: parameters of the guard.
- JSON and plan field validation, label matchers and regular expressions: a
  parameter, a flag or a predicate.
- Locks, atomics and goroutines: each locked call is one step.
- The TSDB block builder (asap-gorilla-go/tsdb.go) shares the drain queue with the
  fragment encoder; the encoder is the one modelled, and index, meta and chunk
  files are not written.
- The fragment text codec, postings and label index files, HTTP, OpenTelemetry
  adapters, benchmarks and the monitor engine: framing or I/O.
- Whole-stream aggregation, keyed observation, segment mode, statistics counters
  and envelope labels: flat branches around the modelled window.
- BestOf.Encode: inputs of 2^64 samples or more are not considered.
- GorillaBlock.BlockRoundTrip: longer bit lengths and series counts are cut to 32
  bits by the writer; only blocks within them are claimed to parse back.
- GorillaBuilder.Builder.WithSeries: a series that does not fit is a panic in the
  source and the result `false` here.
- GorillaCodec.ValState.Next: a forged window whose leading zeros and length exceed
  64 bits, which no encoder writes, reads as an error here.
- Wire.Reader.ReadTake: a length that passes the wrapped check without the bytes
  being there, where the source panics on the slice, is refused here.
- ColdPartReader.ReadSymbols: such lengths, and counts too large to allocate, where
  the source panics, are refused here because the bytes run out.
- ColdPartReader.OpenPart: refuses in those two cases; every other forged input
  opens or is refused as in the source.
- ColdPart.OpenWritten: parts of 2^63 bytes or more are not considered, so offset
  sums do not wrap.
- FragmentEncoder.Encoder.AddSample: timestamps are milliseconds of a time value,
  so none is the greatest int64; errors of the chunk library are not modelled.
- FragmentEncoder.Encoder.Sweep: a series idle for exactly the threshold is taken off
  the queue and stays until it ships again; nothing is claimed about when.
- FrameProtocol.RunInv: lineages shorter than 2^64 frames; the network delivers no
  envelope that verifies without carrying an issued frame, which under the
  checksum of one takes a digest collision (`FrameProtocol.DamageIsCollision`).
- FrameProtocol.RunSafe: claims are per retained lineage; one forgotten by the
  table starts over.
- WindowRuntime.Precompute.RangesNeverOverlap: one way; nothing is claimed of the
  ranges after a window end has wrapped, which `WindowRuntime.WrappedRunExample`
  shows may go back.
- SlidingWindow.Window.Rotate: the length of the emitted range is claimed only as
  long as no pane end has wrapped.
- WindowRuntime.Precompute.EmitSubWindow: which series diverged enough is an
  argument.
- WindowRuntime.Precompute.ObserveEnvelope: the inbound snapshots, which nothing
  reads back, are not modelled; whether an envelope fits the config is an argument,
  and its frame is judged in `FrameReceiver`.
- WindowRuntime.Precompute.DeltasTelescope: summaries merged into a window are
  taken to be well formed, with a count and a zero sum when empty.
- SlidingWindow.Window.Observe: no series cap; that is `SeriesCap`.
- PlanChannel.Channel.Receive: the plan body is taken as decoded and validated.
- PlanLifecycle.Lifecycle.Stage: whether the plan validates is a flag.
- PlanChannel.Channel.Ack: what a failed durable write leaves behind is an
  argument.
