# OmniDesk24: a Dafny model of its codec, queues and wire text

This project models the parts of OmniDesk24 that carry data from one machine to another, and proves
what they promise.

**The codec.** A screen frame is cut into tiles. A tile is skipped, copied from the reference with a
motion vector, or coded: lossless, near-lossless or lossy. A coded tile passes through the YCoCg-R
colour transform, intra prediction, quantisation where the mode has it, and a four-way interleaved
rANS coder whose frequency table travels with the tile. `Bitstream`, `FrequencyTable`, `Rans`,
`Residuals`, `Predict`, `NearLossless`, `Color`, `Dct`, `Frames`, `Tiles`, `FrameHeader` and
`OmniFormat` say what the bytes mean; `RansCodec`, `Predictors`, `DctLoops`, `Blocks`, `TileEncoding`,
`TileDecoding`, `OmniEncoding` and `OmniDecoding` hold the loops and classes of the source, each proved
equal to that meaning. `Orthogonal`, `DctLoss` and `CosineTables` say what the block transform is for and
what it loses; `WireBytes`, `Decisions`, `KeyFrames` and `DecodedTiles` state the layout, the choices of the
encoder and the picture of the decoder once more in literal terms, without the functions that define them.
`OmniRoundTrip` and `OmniFrames` prove that a decoder understands one packet; `OmniRuns` follows
encoder and decoder over whole runs with a channel that may lose packets.

The results at the top are about runs of any length:

* `OmniRuns.RunKeepsLink`: over a lossy channel every tile whose last change carried pixels and arrived
  is *one* reconstruction of the encoder's tile, however long ago that was.
* `OmniRuns.NoTemporalDrift`: from a keyframe that arrives, whatever was lost before it, until the next
  lost packet or COPY tile, that is every tile.
* `OmniRuns.RunPixelError` and `OmniRuns.NoPixelDrift`: what this means for B, G and R of every pixel,
  by the mode the tile was last sent in.
* `OmniRuns.RunStaysNear` and `OmniRuns.LosslessRunIsExact`: from such a keyframe on, with scrolling, fully
  matched COPY tiles add no error, and with LOSSLESS content the decoder holds the opaque source.
* `OmniRuns.KeyframeResync`: a keyframe restores the source exactly from any decoder state with room for
  the tiles.
* `OmniRuns.FirstFrameIsKey`: the first frame of a new encoder is such a keyframe.
* `KeyFrames.KeyExactly` and `KeyFrames.RepeatedFrameIsEmpty`: a frame is a keyframe exactly when it is the
  first one taken or one was requested since the last, and a frame shown again costs no payload.
* `DecodedTiles.RepeatedPixels`: what every pixel of a SKIP or COPY tile shows, from any bytes.

**Around the codec.** `ScrollDetection` (row-hash search behind COPY tiles), `RectMerging` (dirty
rectangles: one least closed cover, whatever the order; `RectCells` counts their pixels),
`RingBuffers` and `SpscQueue` (the lock-free queue, for one thread and as interleaved atomic steps with stale
loads), `TcpFraming` (length-prefixed messages out of arbitrary chunks) and `Signaling` (the flat JSON text and
the way of an SDP text over two hops).

## How to read the model

* A pixel of four bytes is one `Pixel`; rows of a frame are `width` pixels apart (stride = width * 4).
* Fixed-width integers are ranges of `int`; every narrowing conversion, wrap-around and clamp is written
  out (`ToU8`, `ToI16`, `Clamp16`, ...). C++ division is `TruncDiv`; right shifts are floor division.
* `Outcome` has three cases: `Done`, `Rejected` (the source returns false) and `Unspecified` (the source
  would read or write outside a buffer, or use scratch memory left by an earlier call).
* Tile and row hashes are arbitrary functions of the pixels. That equal hashes mean equal pixels is a
  hypothesis (`CollisionFree`, `NoRowCollision`) about the frames of one run, stated where it is used.
* Content types are arbitrary inputs, one per tile: nothing proved depends on the classifier.
* Where an error bound is claimed the decoder's picture is compared with the encoder's reference, which
  is the last accepted source frame. Pixels of the decoder are opaque; the source may have any alpha.
* The 4x4 table of the block transform is written out. The codec is modelled for arbitrary 8x8 and 16x16
  tables, the same on both sides; `CosineTables` has the entries of the real ones.

## Where the code and its own words differ

* "Bounding the per-component error" by `maxError` (src/codec/omni/tile_encoder.h:30-31) holds for every
  plane, and for every tile, exactly when `maxError` is at most 1 (`NearLossless.PromiseExactlyUpToOne`,
  `Tiles.TilesKeepPromiseUpToOne`); the default, 2, breaks it on a row of four grey pixels.
  What does hold is a bound that grows along the tile in LEFT_PIXEL mode (`NearLossless.NearLosslessDrift`).
* "Higher bitrate = lower QP" (src/codec/omni/omni_encoder.cpp:380) fails for exactly one rate:
  500000 bit/s gets 41 where every lower rate gets 40 (`OmniRuns.BitrateOrder`).
* The header packs both tile counts into 16 bits, so it survives exactly when both are below 256
  (`FrameHeader.HeaderRoundTrip`), although src/codec/omni/omni_types.h allows 256.
* `size()` of the queue, read by a third thread, can report Capacity - 1 items when there is none
  (`SpscQueue.BystanderIsMisled` is the run that gets there); `SpscQueue.SizeSeenIs` says exactly when it is right.
* `TcpChannel::recv` asks the socket before its own buffer, so messages that are already whole are not
  returned once the peer has closed (`TcpFraming.CloseHidesMessages` says when,
  `TcpFraming.CloseLosesMessage` is such a session).
* "Clamp to [0, 255] for Y" (src/codec/omni/tile_decoder.cpp:353) is only a comment. At no parameter the
  encoder sends, 15 to 41, does the Y plane of every tile keep that range (`Overshoot.NoParameterKeepsRange`): one
  white pixel in the corner of a black 4x4 tile makes another sample come back negative
  (`Overshoot.CornerComesBackNegative`). The colour transform behind it clamps B, G and R.
* An SDP text arrives unchanged over two hops if and only if it has no double quote; otherwise it is cut
  there (`Signaling.TwoHops`), although each quote is escaped on the way out.

## Model

| member | source | states |
|---|---|---|
| `Bitstream.BitstreamRoundTrip` | src/codec/omni/bitstream.cpp:18-61 | For every sequence mixing bit fields of 1 to 8 bits, bytes, words and byte strings, then a flush, the matching reads return the same values with no error; padding and alignment agree at each switch |
| `Bitstream.BitGroupRead` | src/codec/omni/bitstream.cpp:107-123 | A flushed group of bit fields found anywhere on a byte boundary reads back field by field, and aligning afterwards lands exactly behind it |
| `Bitstream.BitstreamWriter.WriteBits` | src/codec/omni/bitstream.cpp:42-52 | The bit loop appends the low bits of the value, most significant first, to the abstract writer |
| `Bitstream.BitstreamWriter.FlushBits` | src/codec/omni/bitstream.cpp:54-61 | Pads the pending bits with zeros to one byte, and does nothing when none are pending |
| `Bitstream.BitstreamWriter.WriteU32` | src/codec/omni/bitstream.cpp:29-35 | Flushes, then appends four big-endian bytes |
| `Bitstream.BitstreamReader.ReadBits` | src/codec/omni/bitstream.cpp:107-119 | Returns the next bits as a number and the reader behind them, or 0 and the error flag when the data ends first |
| `Bitstream.BitstreamReader.ReadBytes` | src/codec/omni/bitstream.cpp:100-105 | Aligns, then returns the bytes, or leaves the destination alone and sets the error flag |
| `Bitstream.BitsRunOut` | src/codec/omni/bitstream.cpp:107-119 | Reading up to eight bits fails, with the value 0, if and only if fewer are left |
| `Bitstream.BytesRunOut` | src/codec/omni/bitstream.cpp:100-105 | Bytes come from the next byte boundary; reading them fails, and leaves the reader there, if and only if fewer are left |
| `WireBytes.BigEndian` | src/core/types.h:19-39 | Two and four bytes, most significant first, spell the number |
| `WireBytes.TwoCodes` | src/codec/omni/bitstream.cpp:42-61 | Two three-bit codes share a byte: the first one on top, two zeros at the end |
| `WireBytes.HeaderOnTheWire` | src/codec/omni/omni_types.h:51-93 | The sixteen bytes of the header of a 640 by 480 keyframe, one by one |
| `WireBytes.FlagsMean` | src/codec/omni/omni_types.h:64-68 | Bit 3 of the flags announces a frequency table for the whole packet |
| `WireBytes.CodesAre` | src/codec/omni/omni_types.h:14-30 | The numbers of the five tile modes and the five prediction modes |
| `WireBytes.TileOrder` | src/codec/omni/omni_encoder.cpp:161-176 | Tiles are numbered row by row, and those at the right and lower edge are cut off there: the boxes of a 130 by 100 frame |
| `WireBytes.CopyOnTheWire` | src/codec/omni/omni_encoder.cpp:239-346 | The bytes of a packet of one COPY tile: code, vector in one and two bytes, no payload |
| `WireBytes.PayloadsOnTheWire` | src/codec/omni/omni_encoder.cpp:239-346 | The bytes of a packet of two payloads: codes, their number in two bytes, their sizes in four, then they themselves in order |
| `FrequencyTable.FrequenciesNormalised` | src/codec/omni/rans_codec.cpp:39-74 | For every non-empty histogram of at most 256 symbols the frequencies sum to exactly 4096 and are positive exactly for the symbols that occur |
| `FrequencyTable.FrequenciesFollow` | src/codec/omni/rans_codec.cpp:39-74 | For every non-empty histogram there is one share for each symbol, the integer nearest to 4096 * count / total and at least 1 where it occurs; either the first of the largest shares absorbs the whole difference and all others stay, or all shares go down alike and none rises |
| `FrequencyTable.OthersAreNearest` | src/codec/omni/rans_codec.cpp:52-68 | So every frequency but one is the nearest share of its count, or else no frequency is above it |
| `FrequencyTable.NearestIsUnique` | src/codec/omni/rans_codec.cpp:52-53 | There is only one nearest share |
| `FrequencyTable.AbsorberCount` | src/codec/omni/rans_codec.cpp:55-62 | The absorbing entry has the largest count if and only if it has the largest among the entries with the same share |
| `FrequencyTable.FirstTakesTheRest` | src/codec/omni/rans_codec.cpp:55-62 | It need not: of 1000000, 1000001 and 1000000 the first gets 1366 and the others 1365 |
| `FrequencyTable.ShaveIsLevel` | src/codec/omni/rans_codec.cpp:64-68 | The decrement fallback takes the same from all, one more from the first few, and leaves 1 where that would take too much |
| `FrequencyTable.UniformNormalised` | src/codec/omni/rans_codec.cpp:20-37 | The empty histogram gets positive frequencies that sum to 4096 and differ by at most 1 |
| `FrequencyTable.ShaveExact` | src/codec/omni/rans_codec.cpp:64-68 | The decrement fallback ends with the sum at exactly 4096 and no positive frequency lost |
| `FrequencyTable.BuildFreqTableCore` | src/codec/omni/rans_codec.cpp:12-92 | The loops compute the table: normalised frequencies, prefix sums and clamped reciprocals |
| `FrequencyTable.ShaveInPlace` | src/codec/omni/rans_codec.cpp:64-68 | The nested decrement loop terminates at the sum 4096, so the increment loop behind it has nothing to do |
| `Rans.FixUpExact` | src/codec/omni/rans_codec.cpp:134-153 | Multiplying by the floor reciprocal and one fix-up gives quotient and remainder exactly, for every frequency 1 to 4096, the clamped reciprocal of 1 included |
| `Rans.StepInRange` | src/codec/omni/rans_codec.cpp:134-153 | A step keeps the state in [2^23, 2^31) and pushes at most two bytes |
| `Rans.EncodeInRange` | src/codec/omni/rans_codec.cpp:194-213 | Over a whole buffer all lane states stay in range and at most two bytes per symbol are pushed, so the stack cannot overflow |
| `Rans.RansRoundTrip` | src/codec/omni/rans_codec.cpp:189-225 | Decoding what was encoded returns the symbols, for any number of lanes; every byte is consumed, all states end at 0x80_0000, and the output is at most 4 bytes per lane plus 2 per symbol |
| `Rans.DecodeUndoesEncode` | src/codec/omni/rans_codec.cpp:274-317 | From every symbol on, the decoder standing where the encoder stood recovers the remaining symbols |
| `WireBytes.StatesOnTheWire` | src/codec/omni/rans_codec.cpp:214-225 | The states stand in front, the first one first, each most significant byte first |
| `RansCodec.BuildDecodeTable` | src/codec/omni/rans_codec.cpp:105-120 | The loops fill all 4096 slots with the entry of the symbol owning the slot |
| `RansCodec.RansEncoder.PutSymbolFast` | src/codec/omni/rans_codec.cpp:134-153 | Pushes the renormalisation bytes and reaches the textbook rANS state |
| `RansCodec.RansEncoder.EncodeInterleaved` | src/codec/omni/rans_codec.cpp:189-225 | The backward pass over four states and the final reversal produce exactly the specified bytes |
| `RansCodec.RansEncoder.Encode` | src/codec/omni/rans_codec.cpp:155-187 | The same for one state |
| `RansCodec.RansDecoder.DecodeInterleaved` | src/codec/omni/rans_codec.cpp:274-317 | The loop batched by four, with its tail, decodes what the one-symbol-at-a-time decoder decodes, or fails as it fails |
| `RansCodec.LanesAreSteps` | src/codec/omni/rans_codec.cpp:289-307 | Four lanes advanced together refine four single steps |
| `Residuals.ResidualRoundTrip` | src/codec/omni/tile_decoder.cpp:60-118 | For every symbol buffer, reading the section written for it returns the buffer and stops exactly behind it, in the uniform and the table form |
| `Residuals.SharedRoundTrip` | src/codec/omni/tile_decoder.cpp:120-142 | A section written against a shared table reads back whenever that table has every symbol of the buffer |
| `Residuals.TableHasEntries` | src/codec/omni/tile_encoder.cpp:162-168 | A table that sums to 4096 has at least one entry, so its length is never taken for the uniform marker 0 |
| `Residuals.EverySlotDecodes` | src/codec/omni/rans_codec.cpp:105-120 | The table rebuilt from the non-zero entries maps every slot to the one symbol whose interval holds it |
| `Residuals.SumHistogram` | src/codec/omni/tile_encoder.cpp:136-139 | The 256 counts add up to the number of symbols |
| `WireBytes.AllAlikeOnTheWire` | src/codec/omni/tile_encoder.cpp:141-160 | Symbols that are all alike take seven bytes: no table, the symbol, and how many there are |
| `WireBytes.TableOnTheWire` | src/codec/omni/tile_encoder.cpp:162-186 | The bytes of a section with a table of two entries: their number, symbol and frequency of each, size of the payload, number of symbols, payload |
| `Residuals.WrongCountRefused` | src/codec/omni/tile_decoder.cpp:60-104 | A section written for one number of symbols is refused wherever another is expected |
| `Predict.PredictionRoundTrip` | src/codec/omni/tile_decoder.cpp:25-58 | Whatever mode and whatever neighbours both sides share, prediction is undone exactly, including 16-bit wrap-around |
| `Predict.SelectModeIsBest` | src/codec/omni/tile_encoder.cpp:25-90 | The chosen mode is available, no available mode has a smaller sum of absolute differences, and of equal ones it has the smallest code |
| `Predict.SelectModeAlone` | src/codec/omni/tile_encoder.cpp:30-49 | Without neighbours only DC, which predicts zero, or LEFT_PIXEL is chosen |
| `Predict.LeftResidualAt` | src/core/simd_predict.cpp:203-218 | LEFT_PIXEL sends at (x, y) the sample less its left one, at (0, y) less the one above, at (0, 0) as it is |
| `Predict.LeftRestoredAt` | src/core/simd_predict.cpp:220-235 | The inverse adds the restored left sample, in the first column the restored upper one, at (0, 0) nothing |
| `Predict.FlatResidual` | src/core/simd_predict.cpp:203-218 | A constant plane leaves its value followed by zeros only |
| `Predict.FlatPlaneMode` | src/codec/omni/tile_encoder.cpp:30-49 | A constant plane other than zero, of more than one sample, goes out as LEFT_PIXEL, any other constant plane as DC |
| `Predict.BorderResiduals` | src/core/simd_predict.cpp:40-55 | HORIZONTAL sends each sample less the neighbour left of its row, VERTICAL less the one above its column |
| `Predict.DcIsMean` | src/core/simd_predict.cpp:15-38 | The DC value is the mean of all neighbours, truncated toward zero |
| `Predict.PlanarOfFlat` | src/core/simd_predict.cpp:185-201 | Over a flat border PLANAR predicts its value, and one more when that is negative |
| `Predict.PlanarCorner` | src/core/simd_predict.cpp:185-201 | In the far corner PLANAR is the corner sample alone |
| `Predictors.PredictDC` | src/core/simd_predict.cpp:15-38 | Fills the plane with the truncated average of the neighbours present |
| `Predictors.PredictH` | src/core/simd_predict.cpp:40-47 | Fills each row with its left neighbour |
| `Predictors.PredictV` | src/core/simd_predict.cpp:49-55 | Fills each column with its top neighbour |
| `Predictors.PredictPlanar` | src/core/simd_predict.cpp:185-201 | Fills the plane with the weighted blend of the borders |
| `Predictors.PredictLeftPixel` | src/core/simd_predict.cpp:203-218 | Writes each sample less its left, else upper, neighbour |
| `Predictors.InversePredictLeftPixel` | src/core/simd_predict.cpp:220-235 | The loop that reads its own output computes the recursive inverse |
| `Predictors.ComputeSAD` | src/core/simd_predict.cpp:237-247 | Sums the absolute differences |
| `TileEncoding.SelectPredMode` | src/codec/omni/tile_encoder.cpp:25-90 | The search with its fast path finds the specified mode; no sum reaches the starting value UINT64_MAX |
| `TileEncoding.CostBounded` | src/codec/omni/tile_encoder.cpp:49 | Every sum of absolute differences stays below the 64-bit starting value |
| `TileEncoding.ApplyPrediction` | src/codec/omni/tile_encoder.cpp:92-125 | The residual buffer holds samples less predictions in 16 bits |
| `TileDecoding.InversePrediction` | src/codec/omni/tile_decoder.cpp:25-58 | The plane is rebuilt from residuals and predictions |
| `NearLossless.NearLosslessDrift` | src/codec/omni/tile_encoder.cpp:294-306 | In LEFT_PIXEL mode the sample at (x, y) comes back within (x + y + 1) * floor(q/2), without 16-bit overflow, for tiles to 64x64 and q to 255 |
| `NearLossless.NearLosslessFlat` | src/codec/omni/tile_decoder.cpp:262-273 | In the other modes every sample comes back within floor(q/2) |
| `NearLossless.PromiseExactlyUpToOne` | src/codec/omni/tile_encoder.h:30-31 | The bound maxError on every component holds for every plane if and only if maxError is at most 1 |
| `NearLossless.QuantiseNearest` | src/codec/omni/tile_encoder.cpp:294-306 | The quotient sent is the nearest one, and that of a negative residual is the negative of it |
| `Color.ColorRoundTrip` | src/core/simd_ycocg.cpp:117-142 | The inverse transform returns B, G, R exactly with alpha 255, and components keep to nine bits |
| `Color.ColorError` | src/core/simd_ycocg.cpp:117-142 | Component errors of e move B, G and R by at most 2e + 1, the clamp included |
| `Color.ComponentsMean` | src/core/simd_ycocg.cpp:13-36 | Y is (R + 2G + B) / 4 rounded down, Co is R - B, and Cg is G less the mean of R and B up to a half |
| `Color.BgraToYCoCgR` | src/core/simd_ycocg.cpp:13-36 | The loops fill the three planes with the components of the box, and nothing beyond |
| `Color.YCoCgRToBgra` | src/core/simd_ycocg.cpp:117-142 | The loops paint the box and leave every other pixel of the frame as it was |
| `Tiles.SymbolRoundTrip` | src/codec/omni/tile_encoder.cpp:222-255 | One-byte or two-byte symbols turn back into the same 16-bit values |
| `WireBytes.NarrowValues` | src/codec/omni/tile_encoder.cpp:222-255 | Values that all fit a signed byte are one symbol each |
| `WireBytes.WideValues` | src/codec/omni/tile_encoder.cpp:222-255 | As soon as one does not, each value is two symbols, low byte first |
| `WireBytes.BlockSizeMeans` | src/codec/omni/tile_encoder.cpp:360-365 | A lossy tile is cut into the largest of the blocks 16, 8 and 4 whose side divides both of its sides, else into 4x4 |
| `Tiles.LosslessRoundTrip` | src/codec/omni/tile_decoder.cpp:143-204 | For every tile, any neighbours shared by both sides and any three prediction modes, whichever were chosen, the decoded tile is the source with alpha 255 |
| `WireBytes.OnePixel` | src/codec/omni/tile_encoder.cpp:188-221 | The residuals of a tile are those of Y, Co and Cg in this order |
| `WireBytes.LosslessOnTheWire` | src/codec/omni/tile_encoder.cpp:208-259 | The bytes of a black pixel sent LOSSLESS with the modes 4, 0 and 0 |
| `WireBytes.NearLosslessOnTheWire` | src/codec/omni/tile_encoder.cpp:281-348 | The same pixel sent NEAR_LOSSLESS with step 2: modes, step, width flag, section |
| `WireBytes.LossyStart` | src/codec/omni/tile_encoder.cpp:360-370 | A LOSSY tile starts with a byte for its block size, 0, 0x40 or 0x80, then its parameter |
| `Tiles.StepZeroRefused` | src/codec/omni/tile_decoder.cpp:206-225 | A near-lossless tile with step zero is refused, whatever follows |
| `Tiles.NearLosslessRead` | src/codec/omni/tile_decoder.cpp:206-280 | A near-lossless tile in any modes decodes to its reconstruction with the entropy coder taken out |
| `Tiles.LossyRead` | src/codec/omni/tile_decoder.cpp:282-369 | A lossy tile decodes to what the two block loops, forward with quantisation and back, leave of its planes: the entropy coder loses nothing |
| `Tiles.NearTileError` | src/codec/omni/tile_encoder.cpp:261-306 | In any modes, B, G and R of the pixel at (x, y) of a near-lossless tile are off by at most 2 * (x + y + 1) * floor(q/2) + 1 |
| `Tiles.LossyTileError` | src/codec/omni/tile_encoder.cpp:350-414 | B, G and R of every pixel of a lossy tile are off by at most 2 * loss + 1, loss being what one block of its size loses (Blocks.FourLose, Blocks.OthersLose, CosineTables.CosinesLose) |
| `Tiles.TilesKeepPromiseUpToOne` | src/codec/omni/tile_encoder.h:30-31 | On whole tiles the promised bound holds for every tile if and only if maxError is at most 1 |
| `TileEncoding.TileEncoder.EncodeResiduals` | src/codec/omni/tile_encoder.cpp:127-186 | Histogram, uniform test, table and rANS payload append exactly the specified section to any writer |
| `TileEncoding.TileEncoder.EncodeLossless` | src/codec/omni/tile_encoder.cpp:188-259 | Appends modes, width flag and section of the tile cut from the frame |
| `TileEncoding.TileEncoder.EncodeNearLossless` | src/codec/omni/tile_encoder.cpp:261-348 | Appends modes, step, width flag and the section of the rounded residuals |
| `TileEncoding.TileEncoder.EncodeLossy` | src/codec/omni/tile_encoder.cpp:350-453 | Appends block size, parameter, width flag and the section of the coefficients that transform and quantisation of every block give |
| `TileEncoding.FindUnique` | src/codec/omni/tile_encoder.cpp:141-151 | The scan with its early stop finds at most one symbol exactly when all symbols are alike |
| `TileDecoding.DecodeResiduals` | src/codec/omni/tile_decoder.cpp:60-142 | Returns what the bytes mean, with a table of their own or the packet's, rejects what they reject, and leaves the reader behind them |
| `TileDecoding.DecodeLossless` | src/codec/omni/tile_decoder.cpp:143-204 | Paints the decoded tile, or leaves the frame untouched when the payload is rejected |
| `TileDecoding.DecodeNearLossless` | src/codec/omni/tile_decoder.cpp:206-280 | The same for near-lossless tiles, a step of zero rejected |
| `TileDecoding.DecodeLossy` | src/codec/omni/tile_decoder.cpp:282-369 | The same for lossy tiles, dequantisation and inverse transform of every block included |
| `Frames.TilesDetermineFrame` | src/codec/omni/omni_encoder.cpp:161-176 | Two frames that agree on every tile of the grid are equal: the tiles cover the frame |
| `Frames.TilesDisjoint` | src/codec/omni/omni_encoder.cpp:161-176 | Different tiles share no pixel |
| `Frames.TilePainted` | src/codec/omni/omni_decoder.cpp:107-163 | After every tile is painted, each shows what was painted there |
| `Frames.PaintedFromScratch` | src/codec/omni/omni_decoder.cpp:84-86 | What the output buffer held before does not show in the decoded frame |
| `FrameHeader.HeaderRoundTrip` | src/codec/omni/omni_types.h:70-92 | The header comes back if and only if both tile counts are below 256; otherwise only their low bytes do |
| `OmniRoundTrip.CodesRead` | src/codec/omni/omni_decoder.cpp:88-94 | The 3-bit mode map reads back and aligning lands behind it |
| `OmniRoundTrip.MotionRead` | src/codec/omni/omni_decoder.cpp:134-137 | The vectors of the COPY tiles read back in tile order, signs included |
| `OmniRoundTrip.SizesRead` | src/codec/omni/omni_decoder.cpp:203-207 | The size table reads back |
| `OmniRoundTrip.PayloadIs` | src/codec/omni/omni_decoder.cpp:209-220 | The slice computed for job j is the j-th payload |
| `OmniRoundTrip.TileBytesSmall` | src/codec/omni/omni_encoder.cpp:335-338 | Every payload is short enough for its 32-bit size |
| `OmniFrames.PacketParses` | src/codec/omni/omni_decoder.cpp:45-220 | Header, mode map, vectors, size table and payload offsets of a packet parse to what was sent |
| `OmniFrames.PayloadDecodes` | src/codec/omni/omni_decoder.cpp:253-277 | Each payload decodes to the reconstruction of its mode |
| `OmniFrames.PacketDecodes` | src/codec/omni/omni_decoder.cpp:45-307 | Every decoder whose buffers hold the tiles accepts the packet, shows tile by tile what each mode promises, and keeps that picture as its reference |
| `OmniFrames.DecodesExactlyWithRoom` | src/codec/omni/omni_decoder.cpp:45-307 | A packet of the encoder decodes to the promised picture if and only if the scratch buffers have room for its tiles; without room its outcome is unspecified |
| `OmniFrames.RoomIsKept` | src/codec/omni/omni_decoder.cpp:69-82 | The scratch buffers are sized by the packet that last changed the frame size and stay so: a grid of the same frame size fits afterwards if and only if its tiles fit those buffers |
| `OmniDecoding.FirstPass` | src/codec/omni/omni_decoder.cpp:96-163 | The sequential pass reads the vectors, paints SKIP and COPY tiles and lists the coded ones in order |
| `OmniDecoding.SecondPass` | src/codec/omni/omni_decoder.cpp:222-286 | The pass over the jobs paints every tile that decodes and reports the worst outcome of all tiles |
| `OmniDecoding.ReadSharedTable` | src/codec/omni/omni_decoder.cpp:165-191 | Reads the packet's frequency table, if the header announces one, and builds its decode table |
| `OmniDecoding.TilesMakeFrame` | src/codec/omni/omni_decoder.cpp:96-286 | The two passes together leave the frame that painting all tiles in order would leave |
| `OmniDecoding.VerdictOfResults` | src/codec/omni/omni_decoder.cpp:231-296 | The outcome over the jobs is the outcome over all tiles |
| `OmniDecoding.OmniDecoder.Decode` | src/codec/omni/omni_decoder.cpp:45-307 | Result and new state are exactly those of the packet's meaning, for any bytes, with or without a shared frequency table |
| `OmniDecoding.OmniDecoder.Reshape` | src/codec/omni/omni_decoder.cpp:69-82 | Other dimensions drop the reference and resize it, keeping what fits |
| `DecodedTiles.RepeatedPixels` | src/codec/omni/omni_decoder.cpp:110-163 | In any frame that any bytes decode to, a pixel of a SKIP tile is that of the frame shown before; of a COPY tile that of the place the vector points to, and four zero bytes when the row lies outside the frame or the tile would leave it sideways; and four zero bytes when no frame of this size was shown before |
| `DecodedTiles.KnownModesOnly` | src/codec/omni/omni_decoder.cpp:253-277 | No frame is shown with a mode code above 4 |
| `DecodedTiles.ShownIsParsed` | src/codec/omni/omni_decoder.cpp:45-307 | Every frame shown comes from a header with the magic number and a body that parses, so the two laws above speak of all frames |
| `DecodedTiles.ShownIsKept` | src/codec/omni/omni_decoder.cpp:298-307 | A frame shown is remembered with its size; when none is shown the decoder stays as it was, or has no reference if the packet was of another size |
| `DecodedTiles.ForeignIsRefused` | src/codec/omni/omni_decoder.cpp:45-60 | Less than sixteen bytes, or another magic number, is rejected and leaves the decoder as it was |
| `OmniEncoding.OmniEncoder.Encode` | src/codec/omni/omni_encoder.cpp:111-371 | Refuses a frame of other size or format without a trace; otherwise emits exactly the specified packet, counts it, and takes over frame and hashes |
| `OmniEncoding.DecideTile` | src/codec/omni/omni_encoder.cpp:213-237 | SKIP on an equal hash, COPY with the detected vector, else the mode of the content type |
| `OmniEncoding.EncodeJobs` | src/codec/omni/omni_encoder.cpp:269-331 | The streams are the payloads of the coded tiles in tile order |
| `OmniEncoding.WriteBody` | src/codec/omni/omni_encoder.cpp:239-346 | Mode map, vectors, count, sizes and payloads are laid out as specified |
| `Decisions.SkipMeans` | src/codec/omni/omni_encoder.cpp:213-217 | On a frame that is no keyframe a tile is SKIP if and only if it hashes like the same tile of the reference |
| `Decisions.ModeMeans` | src/codec/omni/omni_encoder.cpp:76-95 | Otherwise it is COPY if and only if scroll detection is on and the reference repeats it; a coded tile is LOSSY only with MOTION content, NEAR_LOSSLESS only with STATIC or, up to 2 Mbit/s, unknown content, LOSSLESS only with TEXT or, above that, unknown content |
| `Decisions.KeyMeans` | src/codec/omni/omni_encoder.cpp:155-177 | On a keyframe every tile is LOSSLESS |
| `Decisions.VectorMeans` | src/codec/omni/omni_encoder.cpp:226-231 | The vector of a COPY tile is vertical, the first of the offsets at which the reference repeats most of its rows; other tiles have none |
| `Decisions.StepMeans` | src/codec/omni/tile_encoder.cpp:295-310 | The quantisation step is the configured maximum error, and at least 1 |
| `Decisions.BaseParameter` | src/codec/omni/omni_encoder.cpp:377-391 | The base parameter for every rate: 40 below 500 kbit/s; then 26 and one more for every full 100 kbit/s short of 2 Mbit/s; then 15 and one more for every full 550 kbit/s short of 8 Mbit/s; then 15 |
| `KeyFrames.KeyExactly` | src/codec/omni/omni_encoder.cpp:126-127 | In every run of a new encoder the frame at event i is a keyframe if and only if no frame was taken before it or a keyframe was requested since the last one that was |
| `KeyFrames.KeyOnTheWire` | src/codec/omni/omni_encoder.cpp:131-149 | Byte 12 of the packet is 1 on a keyframe and else 0, and bytes 4 to 7 are the number of the frame |
| `KeyFrames.NumberInForce` | src/codec/omni/omni_encoder.cpp:131-138 | In every run of a new encoder the frames taken are numbered from 1, modulo 2^32 |
| `KeyFrames.RateInForce` | src/codec/omni/omni_encoder.cpp:377-391 | In every run the rate set last, and its parameter, are in force; before any is set, the first rate and 26 |
| `KeyFrames.TakenIsKnown` | src/codec/omni/omni_encoder.cpp:347-354 | After a frame is taken the encoder has it as reference with its hashes, and no keyframe is due, until the next frame or request |
| `KeyFrames.SameTileIsSkipped` | src/codec/omni/omni_encoder.cpp:213-217 | A tile that is as it was in that frame is sent as SKIP |
| `KeyFrames.SameFrameIsEmpty` | src/codec/omni/omni_encoder.cpp:213-346 | That frame again is a packet of its header and zeros only, of the length of an empty body |
| `KeyFrames.RepeatedFrameIsEmpty` | src/codec/omni/omni_encoder.cpp:111-371 | So in every run a frame shown twice, with no request in between, sends no payload the second time and is no keyframe |
| `OmniRuns.BitrateOrder` | src/codec/omni/omni_encoder.cpp:380-390 | A higher rate never gets a higher parameter, except 500000 against any lower rate: both directions |
| `OmniRuns.StepKeepsLink` | src/codec/omni/omni_encoder.cpp:347-354 | A frame shown (delivered or lost), a keyframe request or a new bitrate keeps the relation between encoder and decoder |
| `OmniRuns.RunKeepsLink` | src/codec/omni/omni_decoder.cpp:298-304 | At every point of a run over a lossy channel, each tile whose last change carried pixels and arrived is one reconstruction of the encoder's reference tile; from any point where this holds it goes on holding |
| `OmniRuns.NewEncoderStaysLinked` | src/codec/omni/omni_decoder.cpp:298-304 | So it holds at every point of a run of a new encoder with any decoder that has room for the tiles |
| `OmniRuns.NoTemporalDrift` | src/codec/omni/omni_encoder.cpp:213-237 | From a keyframe that arrives, after any losses, as long as every packet is delivered, no tile is sent as COPY and no hash collides, every tile of the decoder is one reconstruction of the encoder's tile in the mode it was last sent in |
| `OmniRuns.FirstFrameIsKey` | src/codec/omni/omni_encoder.cpp:155-177 | The first frame an encoder without reference accepts is a keyframe |
| `OmniRuns.NewEncoderNeverDrifts` | src/codec/omni/omni_encoder.cpp:155-177 | For a new encoder the same holds from its first accepted frame on, as long as nothing is lost or copied |
| `OmniRuns.RunPixelError` | src/codec/omni/omni_encoder.cpp:347-354 | At every point of a run over any channel, the pixels of every intact tile are within the bound of the mode it was last sent in: exact for LOSSLESS, 2 * (x + y + 1) * floor(step/2) + 1 for NEAR_LOSSLESS, 2 * loss + 1 for LOSSY, loss being what a block of the tile loses |
| `OmniRuns.FourBounded` | src/codec/omni/tile_encoder.cpp:350-414 | For tiles cut into 4x4 blocks that loss is 16 * max(1, qp/4) - 1, with any tables |
| `OmniRuns.NoPixelDrift` | src/codec/omni/omni_encoder.cpp:348-353 | So, without MOTION content since that keyframe, every pixel at (x, y) of every tile is off by at most 2 * (x + y + 1) * floor(step/2) + 1 in B, G and R |
| `OmniRuns.RunStaysNear` | src/codec/omni/omni_encoder.cpp:213-237 | From a keyframe that arrives, after any losses, with SKIP, coded and fully matched COPY tiles in any order, every packet delivered and no tile or row collision, every pixel of the decoder stays within a bound that each single coded tile meets: skipping and copying add nothing |
| `OmniRuns.FourAffordable` | src/codec/omni/omni_encoder.cpp:213-237 | A LOSSY tile cut into 4x4 blocks meets every bound of at least 32 * max(1, qp/4) - 1 |
| `OmniRuns.LosslessRunIsExact` | src/codec/omni/omni_decoder.cpp:134-156 | If moreover every coded tile is LOSSLESS, the decoder's reference is the opaque form of the encoder's at every point from that keyframe on |
| `OmniRuns.SkippedTileStands` | src/codec/omni/omni_encoder.cpp:213-217 | While a tile is skipped neither the decoder's tile nor the source changes, over any channel: what is wrong stays wrong, what is right stays right |
| `OmniRuns.KeyframeResync` | src/codec/omni/omni_encoder.cpp:155-177 | From any decoder state whose buffers have room for the tiles, a keyframe shows exactly the source B, G, R with alpha 255, and both references agree |
| `OmniRuns.InitialDecoderHolds` | src/codec/omni/omni_decoder.cpp:16-38 | A decoder initialised with any dimensions has room for the tiles of every grid |
| `ScrollDetection.ScrollIsBest` | src/codec/omni/scroll_detector.cpp:55-85 | A scroll is reported if and only if some non-zero offset in -512..512 matches three quarters of the rows and four rows; the one reported is the first that matches most |
| `ScrollDetection.ScrollExactly` | src/codec/omni/scroll_detector.cpp:55-85 | In plain terms: a scroll is reported if and only if at some non-zero offset within 512 rows at least four rows and three quarters of the rows of the tile have the hash of a row of the reference, and then the first offset with most such rows |
| `ScrollDetection.ConfidenceMeans` | src/codec/omni/scroll_detector.cpp:78-85 | The confidence reported is the share of the rows of the tile that agree |
| `ScrollDetection.MatchedRow` | src/codec/omni/omni_decoder.cpp:139-150 | Whatever the decoder's reference holds, a matched row is copied from inside it, never zero-filled, and from where the encoder's reference holds the row of the current frame |
| `ScrollDetection.CopyShowsThreeQuarters` | src/codec/omni/scroll_detector.cpp:78-85 | If the decoder's picture is within e of the encoder's reference, at least three quarters of the rows of a reported tile are shown within e of the current frame |
| `ScrollDetection.FullMatchAddsNothing` | src/codec/omni/omni_decoder.cpp:134-156 | When all rows match, a decoder within e of the encoder's reference shows the COPY tile within e of the current frame |
| `ScrollDetection.FullMatchIsExact` | src/codec/omni/omni_decoder.cpp:134-156 | When all rows match and the decoder holds the opaque form of the encoder's reference, as a keyframe leaves it, the COPY tile is the opaque form of the current tile |
| `ScrollDetection.ScrollDetector.UpdateReference` | src/codec/omni/scroll_detector.cpp:32-36 | Stores the hash of every reference row |
| `ScrollDetection.ScrollDetector.DetectTileScroll` | src/codec/omni/scroll_detector.cpp:38-90 | The search loops compute the specified result, rows below the frame included |
| `DctLoss.LineRoundTrip` | src/core/simd_dct.cpp:47-70 | A 4-sample line within `bound` whose coefficients are off by at most e comes back within 1 + 2e, for every e >= 0 that keeps 2 * bound + e out of reach of the 16-bit clamp (at most 0x3FFF) |
| `DctLoss.ColumnPasses` | src/core/simd_dct.cpp:98-126 | Columns within 511 whose coefficients are off by at most e come back within 1 + 2e |
| `DctLoss.BlockRoundTrip` | src/core/simd_dct.cpp:73-132 | Every 4x4 block of samples within 255, sent with coefficients off by at most e, comes back with every sample within 3 + 4e |
| `DctLoss.ExactBlockRoundTrip` | tests/unit/test_dct.cpp:50 | With the coefficients untouched every sample is within 3 |
| `DctLoss.LossyBlock` | src/core/simd_dct.cpp:73-167 | Transformed, quantised with qp, dequantised and transformed back, every sample of a 4x4 block is off by at most 16 * max(1, qp/4) - 1 |
| `DctLoss.NoClampFires` | src/core/simd_dct.cpp:47-70 | On such a block none of the 64 sums of the four passes is cut by the 16-bit clamp |
| `DctLoss.FourIsNearlyOrthogonal` | src/core/simd_dct.cpp:26-43 | The 4x4 table is orthogonal up to rounding: the products of a column with all columns are off by at most 128 of 2^24 in total |
| `Orthogonal.LineComesBack` | src/core/simd_dct.cpp:47-70 | For every size and every table that is orthogonal up to d, a line whose coefficients are off by at most e comes back within l + c e, away from the clamp, l being fixed by d, the sample bound and the sums of magnitudes of the table |
| `Orthogonal.EntryByEntry` | src/core/simd_dct.cpp:26-43 | A table whose columns have products off by at most d each is orthogonal up to n d |
| `Orthogonal.BlockComesBack` | src/core/simd_dct.cpp:73-132 | The same for square blocks through all four passes: l + c (m + c e) |
| `Orthogonal.LineResponse` | src/core/simd_dct.cpp:47-70 | For every size and table, a line with the single sample 4096 at i has entry (k, i) of the table as coefficient k, and back, the single coefficient 4096 at k has entry (k, i) as sample i |
| `Orthogonal.ForwardResponse` | src/core/simd_dct.cpp:73-102 | A block with the single sample 4096 at row r, column c has the product of the entries (l, c) and (k, r), scaled and rounded, as its coefficient at row k, column l |
| `Orthogonal.InverseResponse` | src/core/simd_dct.cpp:104-132 | A single coefficient of 4096 brings back that product the other way |
| `CosineTables.AreNearlyOrthogonal` | src/core/simd_dct.cpp:26-43 | The 8x8 and 16x16 tables, entry by entry, are orthogonal up to 12536 and 20882 of 2^24 |
| `CosineTables.ExactEight` | tests/unit/test_dct.cpp:54-65 | With the coefficients untouched, every sample of every 8x8 block within 255 comes back within 8 |
| `CosineTables.ExactSixteen` | tests/unit/test_dct.cpp:67-77 | And of every 16x16 block within 14 |
| `CosineTables.PeakSignalToNoise` | tests/unit/test_dct.cpp:54-77 | So the signal-to-noise ratios asked of one random block, above 30 dB and above 25 dB, hold for every block |
| `CosineTables.CosinesLose` | src/core/simd_dct.cpp:73-167 | What quantisation adds: every sample of a lossy 8x8 block is within 8 + 9 * (8 * max(1, qp/4) - 1), of a 16x16 block within 14 + 16 * (16 * max(1, qp/4) - 1) |
| `DctLoops.DctForward` | src/core/simd_dct.cpp:73-102 | For any table, size and strides the loops write row pass, then column pass, of the source block into the destination block, and nothing else |
| `DctLoops.DctInverse` | src/core/simd_dct.cpp:104-132 | For any table, size and strides the loops write column pass, then row pass back, and nothing else |
| `Dct.QuantisationLoss` | src/core/simd_dct.cpp:136-167 | Every coefficient comes back as the multiple of max(1, qp/4) * (1 + (x + y) / 2) next to it on the side of zero; nothing overflows |
| `DctLoops.Quantize` | src/core/simd_dct.cpp:136-155 | For any stride, replaces every coefficient of the block in place by its truncated quotient and leaves the rest of the buffer |
| `DctLoops.Dequantize` | src/core/simd_dct.cpp:157-167 | For any stride, multiplies every coefficient of the block in place by its step and leaves the rest |
| `Blocks.TransformPlane` | src/codec/omni/tile_decoder.cpp:328-361 | The loops over the blocks of a channel transform every whole block in place, either way, and leave the right and lower rest as it was |
| `Blocks.LossyPlaneNear` | src/codec/omni/tile_encoder.cpp:376-414 | A plane within 255, cut into blocks of any size, comes back, through encoder and decoder loops, with every sample within what one block of that size loses |
| `Blocks.FourLose` | src/core/simd_dct.cpp:73-167 | A 4x4 block loses at most 16 * max(1, qp/4) - 1 |
| `Blocks.OthersLose` | src/core/simd_dct.cpp:73-167 | A block of any size whose table is orthogonal up to d loses at most l + c (m + c e), e being the size times max(1, qp/4), less 1 |
| `Overshoot.CornerComesBackNegative` | src/core/simd_dct.cpp:73-167 | At each of them one white sample in the corner of a black 4x4 block makes its neighbour but one negative |
| `Overshoot.NoParameterKeepsRange` | src/codec/omni/tile_decoder.cpp:353-359 | At every parameter the encoder sends there is a tile whose Y plane comes back outside [0, 255] |
| `RectMerging.UnitedIsLeast` | src/core/types.h:66-72 | united is the least rectangle containing both |
| `RectMerging.MergeOverlapping` | src/diff/rect_merger.cpp:61-97 | The restart loop terminates with the least family of non-touching rectangles that contains every non-empty input |
| `RectMerging.MergedIsUnique` | src/diff/rect_merger.cpp:61-97 | Any two such results for inputs with the same non-empty rectangles are the same rectangles: order, repetition and choice of pairs do not matter |
| `RectMerging.MergedInside` | src/diff/rect_merger.cpp:61-97 | The result lies in every rectangle that contains the input, so in its bounding box |
| `RectMerging.FindBestMergePair` | src/diff/rect_merger.cpp:37-59 | Finds the first pair whose union wastes least area |
| `RectCells.WasteIsCells` | src/diff/rect_merger.cpp:37-59 | For rectangles that keep apart the waste of a pair is the number of cells of their union that lie in neither |
| `RectCells.AreaIsCells` | src/core/types.h:56-58 | The area of a rectangle is the number of its cells |
| `RectCells.ContainsIsSubset` | src/core/types.h:66-72 | One rectangle contains another if and only if it has all its cells |
| `RectCells.TouchesIsAdjoining` | src/diff/rect_merger.cpp:78-84 | Two rectangles touch if and only if some cell of one is a cell of the other or adjoins one, corners included |
| `RectMerging.Merge` | src/diff/rect_merger.cpp:7-27 | At most max(1, maxRects) rectangles that cover every non-empty input inside its frame, reached from the least closed cover by merging best pairs, and no more merges than needed |
| `RectMerging.GreedyIsUnique` | src/diff/rect_merger.cpp:20-24 | The reduction is determined by its start and the number of rectangles left |
| `RectMerging.FitsInside` | src/core/types.h:56-58 | Inside a frame whose own numbers fit, no 32-bit computation on a rectangle overflows |
| `RingBuffers.RingBuffer.Push` | src/core/ring_buffer.h:20-29 | Appends exactly when fewer than Capacity - 1 items are held |
| `RingBuffers.RingBuffer.Pop` | src/core/ring_buffer.h:43-51 | Removes the first item, or reports an empty queue and changes nothing |
| `RingBuffers.RingBuffer.Size` | src/core/ring_buffer.h:58-62 | Seen by one thread, the number of items held |
| `RingBuffers.RingBuffer.IsEmpty` | src/core/ring_buffer.h:53-56 | True exactly when no item is held |
| `RingBuffers.DistanceIs` | src/core/ring_buffer.h:58-62 | Masking the wrapped size_t difference gives the distance around the ring |
| `RingBuffers.MaskIsMod` | src/core/ring_buffer.h:67 | Masking with Capacity - 1 is reduction modulo Capacity, for every power of two |
| `RingBuffers.PowerDivides` | src/core/ring_buffer.h:14-15 | Every power of two up to 2^k divides 2^k, so the wrap-around of size_t does not disturb the ring |
| `SpscQueue.StepKeepsInv` | src/core/ring_buffer.h:20-51 | Every atomic step of either thread, with any stale load, keeps the invariant |
| `SpscQueue.FirstInFirstOut` | src/core/ring_buffer.h:20-51 | Under every interleaving the popped items are a prefix of the pushed ones and at most Capacity - 1 are held |
| `SpscQueue.StaysInBounds` | src/core/ring_buffer.h:26-49 | No step touches a slot outside the storage |
| `SpscQueue.NoRace` | src/core/ring_buffer.h:26-49 | Producer and consumer never touch one slot at the same time |
| `SpscQueue.NoOverwrite` | src/core/ring_buffer.h:26 | The slot about to be written holds no unread item |
| `SpscQueue.LoadTailStep` | src/core/ring_buffer.h:22-25 | push refuses exactly when, by the tail it saw, Capacity - 1 items are held |
| `SpscQueue.LoadHeadStep` | src/core/ring_buffer.h:44-47 | pop refuses exactly when, by the head it saw, nothing is left |
| `SpscQueue.SizeSeenIs` | src/core/ring_buffer.h:58-62 | size() equals the difference of the counts read if and only if that is a possible size |
| `SpscQueue.SizeBySide` | src/core/ring_buffer.h:58-62 | Seen by the producer it is at least, seen by the consumer at most, the true size |
| `SpscQueue.BystanderIsWrong` | src/core/ring_buffer.h:58-62 | In every reachable state after one push and one pop, a third thread that read head before and tail after sees Capacity - 1 |
| `SpscQueue.BystanderIsMisled` | src/core/ring_buffer.h:20-62 | With room for an item that happens: a run of atomic steps from the empty queue ends where size() with an old head and a new tail is Capacity - 1 |
| `TcpFraming.HeaderRoundTrip` | src/signaling/wire_format.h:50-64 | The 12-byte header reads back from in front of any payload |
| `TcpFraming.HeaderOnTheWire` | src/signaling/wire_format.h:50-64 | The twelve bytes of a header, one by one |
| `TcpFraming.MessageOnTheWire` | src/signaling/tcp_channel.cpp:295-316 | Every sendable message starts with the letters OMND and version 1, and holds its kind, its length and its payload |
| `TcpFraming.ForeignHeader` | src/signaling/tcp_channel.cpp:340-343 | Twelve buffered bytes are an error, with nothing taken out, if and only if they start with anything else |
| `TcpFraming.SocketTroubles` | src/signaling/tcp_channel.cpp:325-333 | With room to read, a failing socket is reported as an error and a closed one as closed |
| `TcpFraming.CallInStep` | src/signaling/tcp_channel.cpp:322-369 | One recv, whatever the socket does, keeps returned + buffered + unread equal to the stream, can only return the next message, and fails only if the socket does |
| `TcpFraming.RunInStep` | src/signaling/tcp_channel.cpp:322-369 | However the stream is cut into reads, the returned messages are a prefix of those sent |
| `TcpFraming.ChunkingDoesNotMatter` | src/signaling/tcp_channel.cpp:322-369 | Two ways of cutting return the same messages in the same order |
| `TcpFraming.AllDelivered` | src/signaling/tcp_channel.cpp:356-368 | Once everything is read, further calls return every remaining message |
| `TcpFraming.EverythingArrives` | src/signaling/tcp_channel.cpp:322-369 | If every call gets at least one byte while any are left, then after as many calls as there are bytes and messages everything sent has been returned, in order, messages larger than the buffer included |
| `TcpFraming.CloseHidesMessages` | src/signaling/tcp_channel.cpp:325-333 | A whole buffered message is withheld after the peer closed, if and only if the buffer is not full |
| `TcpFraming.CloseLosesMessage` | src/signaling/tcp_channel.cpp:322-369 | For any two messages that arrive in one read there is such a session: the first is returned, and once the peer has closed the second never is |
| `TcpFraming.TcpChannel.Recv` | src/signaling/tcp_channel.cpp:322-369 | The buffer code with growth and shifting returns and keeps exactly what the specification says |
| `TcpFraming.FramedStart` | src/signaling/tcp_channel.cpp:295-316 | What send writes for a sendable message reads back, in front of any further bytes, as a header with its type and length, then its payload, then those bytes |
| `Signaling.EscapeRoundTrip` | src/signaling/signaling_client.cpp:450-484 | jsonUnescape undoes jsonEscape for every text |
| `Signaling.EscapedIsPlain` | src/signaling/signaling_client.cpp:450-464 | An escaped text has no carriage return, line feed or tab |
| `Signaling.QuotesAreEscaped` | src/signaling/signaling_client.cpp:450-464 | In an escaped text every double quote stands behind a backslash |
| `Signaling.EscapeLetters` | src/signaling/signaling_client.cpp:450-464 | The five escapes, letter by letter |
| `Signaling.UnescapeOthers` | src/signaling/signaling_client.cpp:466-484 | There are no others: a backslash in front of another character, or at the end, stands for itself |
| `Signaling.JsonEscape` | src/signaling/signaling_client.cpp:450-464 | The loop computes the escaped text |
| `Signaling.JsonUnescape` | src/signaling/signaling_client.cpp:466-484 | The loop computes the unescaped text, a lone backslash kept |
| `Signaling.JsonMakeObject` | src/signaling/signaling_client.cpp:438-448 | The loop prints the fields |
| `Signaling.GetPrinted` | src/signaling/signaling_server.cpp:474-494 | Looking up a key among printed fields returns its value up to the first quote, when no earlier key or value has a quote or equals the key |
| `Signaling.PrintedText` | src/signaling/signaling_client.cpp:438-448 | What is printed for no field, for one, and for one in front of others, letter by letter |
| `Signaling.GetSpaced` | src/signaling/signaling_server.cpp:474-494 | The lookup allows a gap before the colon and white space behind it |
| `Signaling.GetMissing` | src/signaling/signaling_server.cpp:474-494 | A key whose quoted form is nowhere in the text has the empty value |
| `Signaling.TwoHops` | src/signaling/signaling_server.cpp:332-361 | Over caller, server and callee an SDP text arrives unchanged if and only if it has no double quote; otherwise cut there, with a backslash |

## Left out

- OmniRuns.RunKeepsLink: assumes the hash separates the tiles of each frame from those of the frame before; the hash functions themselves are arbitrary functions here.
- OmniRuns.KeyframeResync: assumes frames with at most 255 tiles a side, tiles of at most 64 pixels a side, `maxError` at most 255, a decoder that was initialised (not only `reset`, which empties the reference without resizing it) and room for the tiles, which a decoder that took a packet of the same frame size with smaller tiles may lack (OmniFrames.RoomIsKept).
- Tiles.LossyTileError: the bound for 8x8 and 16x16 blocks adds up what all coefficients of a block can lose (CosineTables.CosinesLose), so at the parameters the encoder sends it says little about a single pixel.
- OmniRuns.RunPixelError: the same for LOSSY tiles cut into 8x8 or 16x16 blocks.
- OmniRuns.RunStaysNear: requires COPY tiles to be matched in every row. Up to a quarter of the rows of one COPY tile may be wrong; SKIP then keeps them for any number of frames (OmniRuns.SkippedTileStands), and later COPY tiles can carry them on, so over a run there is no such bound until the tile is coded again.
- DctLoss.BlockRoundTrip: the table entries are taken as constants here and in CosineTables; the source computes them in floating point.
- OmniDecoding.OmniDecoder.Decode: packets whose tile grid does not fit their dimensions or the scratch buffers count as unspecified; so do frequency tables that sum past 4096 and prediction mode codes 5 to 7.
- OmniDecoding.SecondPass: one loop over the jobs in order; the thread pool, and the early exit of other workers after a failure, are not modelled.
- OmniDecoding.FirstPass: one loop over tile indices instead of nested loops over rows and columns of tiles; the same in the encoder.
- TileEncoding.TileEncoder.EncodeLossless: plane, residual and symbol buffers are local instead of reused between calls, and the three residual planes are joined after they are computed.
- FrequencyTable.ShaveInPlace: the increment loop of src/codec/omni/rans_codec.cpp:69-73 is not written out, because the sum never falls below 4096 in that branch.
- ScrollDetection.ScrollIsBest: the confidence is a real number instead of a float.
- SpscQueue.FirstInFirstOut: release and acquire appear as histories of stores with monotone views; plain storage is safe by NoRace, and other reorderings are not modelled.
- RectMerging.Merge: requires a frame around the input whose width, height, corners and area fit 32 bits, since the source overflows otherwise.
- The SIMD variants and their run-time selection, the encoder's statistics pass for shared frequency tables, which it never uses, golden-frame bookkeeping, the content classifier, adaptive quality, bitrate control, dirty-block detection.
- Allocation failures, logging, timeouts, sockets, reconnection, the user registry of the signalling server, and general JSON.
- Screen capture, rendering, input, WebRTC and the hardware codecs.
