# Models of the cedrus video engine drivers

A Dafny 4.11 model of the parts of this repository that compute, allocate or keep a protocol: the VP9 probability
machine with its Python companion tool, the VP9 segmentation map, tiles and 10-bit reconstruction, the H.264 encoder's
bit writer and GOP state machine, slot and tile tables of the H.264 and HEVC decoders, JPEG header insertion, the
legacy driver's engine references and coherent buffers with the userspace adapter above them, and the protocol by
which jobs complete. `dafny verify dfyconfig.toml` checks everything.

Code that works in place is modelled in place: arrays with a cursor, classes with the driver's fields, loops with the
driver's order. Each such method is proved equal to a specification function, and the results are proved about those
functions, for all inputs or all runs.

| file | contents |
|---|---|
| `words.dfy`, `memory.dfy` | machine words, shared arithmetic, memmove |
| `vp9_merge_prob.dfy`, `vp9_merge_trees.dfy` | merging one probability, and a tree of them |
| `vp9_layout.dfy`, `vp9_forward_update.dfy` | the frame context, and the deltas of a compressed header |
| `vp9_adapt.dfy`, `vp9_adapt_once.dfy`, `vp9_adapt_counts.dfy` | backward adaptation, what it does to each single probability, and which counters decide it |
| `vp9_contexts.dfy` | the four saved contexts over runs of frames |
| `vp9_pack.dfy`, `vp9_probs_tool.dfy` | the hardware image, and the Python tool that reads it back |
| `vp9_segment_map.dfy`, `vp9_tiles.dfy`, `vp9_recon.dfy` | segmentation maps, tile records, 10-bit relayout |
| `h264_bits.dfy`, `h264_writer.dfy` | Exp-Golomb codes and the put-bits helpers |
| `h264_sps.dfy`, `h264_headers.dfy` | parameter sets and slice headers, written and read |
| `h264_encoder.dfy`, `h264_gop.dfy`, `h264_stream.dfy` | the encoder's runs, its groups of pictures, and the stream as a decoder sees it |
| `h264_dpb.dfy`, `hevc_tiles.dfy` | decoder slot positions and tile records |
| `jpeg_header.dfy` | the JPEG header around the entropy-coded data |
| `legacy_engine.dfy`, `memadapter_bridge.dfy` | kernel and userspace sides of coherent buffers |
| `job_protocol.dfy` | device_run, watchdog and interrupt, interleaved |

Some properties that one might expect do not hold of the code. For each there is an exact condition over all inputs or
runs, and an input at which it fails:

- merge_prob leaves the VP9 process when its dividend no longer fits 32 bits, for totals that do: `Vp9MergeProb.MergeProbExactIff`; the
  least total at which that can happen is 16744512, `Vp9MergeProb.MergeProbBoundIsTight`.
- The tool rejects captured images in which segmentation left a probability: `Vp9Pack.DriverPaddingIff`,
  `Vp9ProbsTool.SegmentedImageIsRefused`.
- An error-resilient inter frame is predicted from a segmentation map that VP9 has already cleared:
  `Vp9SegmentMap.WindowIsSpecIff`, `Vp9SegmentMap.StaleWindow`.
- Tile records describe empty tiles when a frame has fewer superblocks than tiles in a direction:
  `Vp9Tiles.NoEmptyTileIff`, `Vp9Tiles.EmptyFirstTile`.
- A selection of odd width or height is not what the cropping rectangle shows: `H264Sps.ShownIsSelectionIff`,
  `H264Sps.OddWidthIsWidened`. Its corner cannot be odd, because `cedrus-v4l2/cedrus_proc.c:546-547` rounds it.
- time_scale is twice the denominator only below 2^31: `H264Sps.TimeScaleIff`, `H264Sps.LargeDenominatorIsLost`.
- A closed GOP that was shortened can go without an IDR picture for its whole length: `H264Gop.WindowHasIdrIff`,
  `H264Gop.ShrunkGroup`.
- Closing a file that holds a buffer or a lock but no engine reference leaves the engine of other clients in reset:
  `LegacyEngine.ReleaseLeavesResetIff`, `LegacyEngine.BystanderLeavesReset`.
- A job can be finished twice, by an interrupt that read the current context before another job began:
  `JobProtocol.RunOnceIff`, `JobProtocol.StaleInterruptFinishesTwice`.

fastdiv is a division exactly under the condition of `Vp9MergeProb.FastDivExactIff`. That condition fails first at the
dividend 16909559 with the divisor 255; merge_prob, the only caller, stays at 128 * 24 and below.

## Model

| member | source | states |
|---|---|---|
| Vp9MergeProb.FastDivExactIff | cedrus-v4l2/cedrus_vp9_helper.c:1106-1154 | for every dividend and divisor of the table, exactly when multiplying by the rounded-up reciprocal and shifting is division |
| Vp9MergeProb.FastDivIsDivision | cedrus-v4l2/cedrus_vp9_helper.c:1106-1154 | it is for every divisor from 1 to 256 and every dividend below 16909559 |
| Vp9MergeProb.FastDivFailsBeyond | cedrus-v4l2/cedrus_vp9_helper.c:1106-1154 | that bound is tight: at 16909559 the divisor 255 fails |
| Vp9MergeProb.EstimateExactIff | cedrus-v4l2/cedrus_vp9_helper.c:1494 | exactly when the estimate survives the 32-bit dividend, for all counts |
| Vp9MergeProb.MergeProbIsSpec | cedrus-v4l2/cedrus_vp9_helper.c:1480-1504 | while dividend and total fit their words, or the estimate is 1 anyway, merge_prob with all its wrapping is Round2 of the weighted mean of section 8.4.1 of the VP9 Bitstream & Decoding Process Specification |
| Vp9MergeProb.MergeProbExactIff | cedrus-v4l2/cedrus_vp9_helper.c:1480-1504 | at the driver's update factors it is that for every usable old probability iff those words fit |
| Vp9MergeProb.SmallIsExact | cedrus-v4l2/cedrus_vp9_helper.c:1480-1504 | totals up to 16744511 always fit |
| Vp9MergeProb.MergeProbBoundIsTight | cedrus-v4l2/cedrus_vp9_helper.c:1480-1504 | with a total of one more the result can differ: 65 instead of 192 |
| Vp9MergeProb.MergeProbBetween | cedrus-v4l2/cedrus_vp9_helper.c:1480-1504 | for arbitrary 32-bit counts the result lies between the old probability and the estimate, and is never 0 |
| Vp9MergeProb.MergeProbZero | cedrus-v4l2/cedrus_vp9_helper.c:1484-1492 | no counts, no change |
| Vp9MergeTrees.TreesAreTheArrays | cedrus-v4l2/cedrus_vp9_helper.c:1511-1580 | the trees are the arrays that the comments print |
| Vp9MergeTrees.IntraModeTreeIsTheArray | cedrus-v4l2/cedrus_vp9_helper.c:1511-1580 | so is the intra mode tree |
| Vp9MergeTrees.MvClassTreeIsTheArray | cedrus-v4l2/cedrus_vp9_helper.c:1511-1580 | so is the motion vector class tree |
| Vp9MergeTrees.MergeProbsIsSpec | cedrus-v4l2/cedrus_vp9_helper.c:1511-1580 | the recursion with 32-bit sums is the recursion of section 8.4.2 of the VP9 Bitstream & Decoding Process Specification while the words fit at every node |
| Vp9MergeTrees.SmallTreeIsExact | cedrus-v4l2/cedrus_vp9_helper.c:1511-1580 | they do when the counters of the tree add up to at most 16744511 |
| Vp9MergeTrees.MergeProbsStayUsable | cedrus-v4l2/cedrus_vp9_helper.c:1511-1656 | usable probabilities stay usable under any counters |
| Vp9MergeTrees.MergeProbsOfZeros | cedrus-v4l2/cedrus_vp9_helper.c:1484-1492 | a tree without counts is left alone |
| Vp9MergeTrees.MergeProbsVariantA | cedrus-v4l2/cedrus_vp9_helper.c:1582-1586 | leaves in the array what the recursion on the small token tree leaves, for every counter vector |
| Vp9MergeTrees.MergeProbsVariantB | cedrus-v4l2/cedrus_vp9_helper.c:1588-1591 | the same for a binary tree |
| Vp9MergeTrees.MergeProbsVariantC | cedrus-v4l2/cedrus_vp9_helper.c:1593-1598 | the same for the inter mode tree |
| Vp9MergeTrees.MergeProbsVariantD | cedrus-v4l2/cedrus_vp9_helper.c:1600-1622 | the same for the intra mode tree, with its running sums |
| Vp9MergeTrees.MergeProbsVariantE | cedrus-v4l2/cedrus_vp9_helper.c:1624-1629 | the same for the partition tree |
| Vp9MergeTrees.MergeProbsVariantF | cedrus-v4l2/cedrus_vp9_helper.c:1631-1635 | the same for the interpolation filter tree |
| Vp9MergeTrees.MergeProbsVariantG | cedrus-v4l2/cedrus_vp9_helper.c:1637-1656 | the same for the motion vector class tree, with its running sum |
| Vp9ForwardUpdate.RecenterPermutes | cedrus-v4l2/cedrus_vp9_helper.c:1157-1166 | recentring permutes 0..n for every centre in the lower half, and what its inverse is |
| Vp9ForwardUpdate.UpdateProbUsable | cedrus-v4l2/cedrus_vp9_helper.c:1172-1180 | a delta keeps a usable probability usable iff it is not 255 |
| Vp9ForwardUpdate.RecenterDistance | cedrus-v4l2/cedrus_vp9_helper.c:1157-1166 | values up to twice the centre alternate around it, half of (v+1) away and below it exactly when odd; larger ones stand for themselves |
| Vp9ForwardUpdate.UpdateProbMoves | cedrus-v4l2/cedrus_vp9_helper.c:1172-1180 | so a delta moves a usable probability in turn towards its nearer end and away from it; 255 makes it 0 |
| Vp9ForwardUpdate.FwUpdatedTransforms | cedrus-v4l2/cedrus_vp9_helper.c:1183-1204 | which transform and skip bytes move, in every frame, and that an intra frame moves nothing behind them |
| Vp9ForwardUpdate.FwUpdatedCoefs | cedrus-v4l2/cedrus_vp9_helper.c:1207-1247 | coefficient b moves unless it is padding or of a size above the transform mode |
| Vp9ForwardUpdate.FwUpdatedInter | cedrus-v4l2/cedrus_vp9_helper.c:1250-1443 | every byte of the tables of inter frames: which move, and that motion vector bytes become their non-zero deltas, the high-precision ones only when allowed |
| Vp9ForwardUpdate.UpdateCoefProbs | cedrus-v4l2/cedrus_vp9_helper.c:1207-1236 | exactly the coded coefficients of the sizes up to the transform mode are updated |
| Vp9ForwardUpdate.UpdateFrameReferenceModeProbs | cedrus-v4l2/cedrus_vp9_helper.c:1292-1316 | which reference tables each mode updates |
| Vp9ForwardUpdate.UpdateMvProbs | cedrus-v4l2/cedrus_vp9_helper.c:1356-1411 | both components' tables, with the high-precision ones only when allowed |
| Vp9ForwardUpdate.FwUpdateProbs | cedrus-v4l2/cedrus_vp9_helper.c:1414-1443 | the in-place update gives every one of the 2039 bytes the value its rule prescribes |
| Vp9ForwardUpdate.FwUpdatedUsable | cedrus-v4l2/cedrus_vp9_helper.c:1414-1443 | deltas of at most 254 keep a context usable |
| Vp9Adapt.AdaptCoefProbs | cedrus-v4l2/cedrus_vp9_helper.c:1669-1715 | the loops merge the planned coefficient trees with the planned update factor |
| Vp9Adapt.AdaptNonCoefProbs | cedrus-v4l2/cedrus_vp9_helper.c:1755-1830 | the loops merge the plan that the frame header selects |
| Vp9Adapt.AdaptIsSpec | cedrus-v4l2/cedrus_vp9_helper.c:1669-1830 | a whole plan equals the plan run with the recursion of the standard, while the words fit |
| Vp9Adapt.AdaptUsable | cedrus-v4l2/cedrus_vp9_helper.c:1669-1830 | adaptation keeps every context usable, whatever was counted |
| Vp9Adapt.AdaptNothing | cedrus-v4l2/cedrus_vp9_helper.c:1669-1830 | a plan without counts is the identity |
| Vp9AdaptOnce.MergeProbsAt | cedrus-v4l2/cedrus_vp9_helper.c:1511-1580 | seen from one probability, the recursion merges it once, from its old value and its own node's counts |
| Vp9AdaptOnce.FrameAdaptsOnce | cedrus-v4l2/cedrus_vp9_helper.c:1669-1830 | every probability that a frame adapts is merged exactly once; exactly the others are untouched |
| Vp9AdaptCounts.FrameAdaptsFromCounts | cedrus-v4l2/cedrus_vp9_helper.c:1669-1830 | every saved probability is merged from the loaded one for the counters of its own place: which counters, in which order, with which saturation and factor, for coefficients and for every table of an inter frame |
| Vp9AdaptCounts.EobCountersOrdered | cedrus-v4l2/cedrus_vp9_helper.c:1679-1685 | the two end-of-block counts are not interchangeable: 128 becomes 174, exchanged 82 |
| Vp9Contexts.Decoder.ResetFrameCtx | cedrus-v4l2/cedrus_vp9_helper.c:1445-1477 | which contexts are reset, and which is selected |
| Vp9Contexts.ConfiguredContexts | cedrus-v4l2/cedrus_vp9_helper.c:1445-1477 | key and error-resilient frames reset all contexts, intra-only ones all, the coded one or none, and these read context 0; other frames reset none and read the coded one |
| Vp9Contexts.LoadedBytes | cedrus-v4l2/cedrus_dec_vp9.c:1152-1181 | adaptation starts from the saved context; on intra frames bytes 0..11 and 1740..1742 are those of the frame |
| Vp9Contexts.Decoder.Configure | cedrus-v4l2/cedrus_dec_vp9.c:784-792 | the new saved contexts and tables, and the image that the hardware reads |
| Vp9Contexts.Decoder.Finish | cedrus-v4l2/cedrus_dec_vp9.c:1055-1191 | the whole new probability state, on every path |
| Vp9Contexts.RunUsable | cedrus-v4l2/cedrus_dec_vp9.c:784-1191 | over every run of frames with deltas up to 254 all four contexts and the working tables are usable and their padding stays 0 |
| Vp9Contexts.RunFactor | cedrus-v4l2/cedrus_dec_vp9.c:1087-1247 | in every run the coefficients of a frame are adapted with 128 exactly when it is an inter frame behind a key frame, or behind no successful frame |
| Vp9Contexts.RunIsSpec | cedrus-v4l2/cedrus_dec_vp9.c:784-1191 | every run whose counters fit the words is the run with the adaptation that VP9 defines |
| Vp9Contexts.RunKeeps | cedrus-v4l2/cedrus_dec_vp9.c:784-1191 | a context survives every run that neither resets nor refreshes it |
| Vp9Contexts.StepKeeps | cedrus-v4l2/cedrus_dec_vp9.c:784-1191 | a frame changes a context only by reset or by refresh of that very one |
| Vp9Contexts.NothingSaved | cedrus-v4l2/cedrus_dec_vp9.c:1055-1096 | a failed frame, or one without the refresh flag, saves nothing |
| Vp9Contexts.ParallelSaves | cedrus-v4l2/cedrus_dec_vp9.c:1091-1094 | parallel mode saves the forward-updated tables |
| Vp9Contexts.NothingCountedSaves | cedrus-v4l2/cedrus_dec_vp9.c:1148-1189 | without counts the context from before the frame is saved, with only the transform and skip updates on intra frames |
| Vp9Pack.SrcOfHw | cedrus-v4l2/cedrus_dec_vp9.c:57-133 | no two context bytes share an image byte, and none reaches the segmentation bytes |
| Vp9Pack.TransformPlaces | cedrus-v4l2/cedrus_dec_vp9.c:67-73 | transform probabilities: image bytes 0, 1 and from 4 and 12 on |
| Vp9Pack.CoefPlaces | cedrus-v4l2/cedrus_dec_vp9.c:75-81 | coefficient b stands at 20 + 4b |
| Vp9Pack.FramePlaces | cedrus-v4l2/cedrus_dec_vp9.c:83-96 | skip at 2324, inter modes at 2328, filters at 2356, intra flags at 2372, comp_mode at 2376, comp_ref at 2384, single_ref at 2392 |
| Vp9Pack.ModePlaces | cedrus-v4l2/cedrus_dec_vp9.c:98-105 | y_mode at 2416 and uv_mode at 2480, 16 bytes a row |
| Vp9Pack.PartitionPlaces | cedrus-v4l2/cedrus_dec_vp9.c:106-109 | partitions at 2640, joints at 2704 |
| Vp9Pack.MvFlagPlaces | cedrus-v4l2/cedrus_dec_vp9.c:110-116 | component i stands at 0xa94 + (1-i)*0x30: sign, class0_bit, class0_hp, hp |
| Vp9Pack.MvFractionPlaces | cedrus-v4l2/cedrus_dec_vp9.c:117-121 | its fractions at 0x04, 0x08 and 0x28 |
| Vp9Pack.MvClassPlaces | cedrus-v4l2/cedrus_dec_vp9.c:119-120 | its classes at 0x0c and bits at 0x1c |
| Vp9Pack.HwOfSrc | cedrus-v4l2/cedrus_dec_vp9.c:57-133 | every image byte is padding or holds one context byte |
| Vp9Pack.PackProbs | cedrus-v4l2/cedrus_dec_vp9.c:57-133 | the cursor ends at 0xa94 and the buffer is the image of the context under the segmentation bytes |
| Vp9Pack.UnpackInvertsPack | tools/h618-vp9-probs.py:100-162 | unpacking the driver's image gives the whole context back, for every segmentation state |
| Vp9Pack.SegmentationRecovered | cedrus-v4l2/cedrus_dec_vp9.c:124-130 | when segmentation is on, tree and prediction probabilities stand at 0xaf0..0xaf6 and 0xaf8..0xafa |
| Vp9Pack.RepackIff | tools/h618-vp9-probs.py:46-162 | packing what was unpacked gives the image back iff its padding is zero |
| Vp9Pack.DriverPaddingIff | cedrus-v4l2/cedrus_dec_vp9.c:124-130 | when the padding of a driver's image is zero |
| Vp9ProbsTool.Unpack | tools/h618-vp9-probs.py:100-162 | every context byte comes from its place, and the cursor ends at 0xa90 |
| Vp9ProbsTool.Pack | tools/h618-vp9-probs.py:46-97 | the tool's packer builds the context part of the driver's image |
| Vp9ProbsTool.InverseDelta | tools/h618-vp9-probs.py:181-187 | the least delta, and none only when no delta exists |
| Vp9ProbsTool.ReachableIff | tools/h618-vp9-probs.py:173-187 | exactly which pairs of bytes an update connects |
| Vp9ProbsTool.DeltaForIsOnly | tools/h618-vp9-probs.py:173-187 | the delta is unique |
| Vp9ProbsTool.ProcessedIsRecentered | tools/h618-vp9-probs.py:190-205 | tool and driver agree on what a key frame updates |
| Vp9ProbsTool.MakeKeyframeControl | tools/h618-vp9-probs.py:190-219 | it answers exactly for the attainable targets, and any intra frame carrying the answer takes the default context to the target |
| Vp9ProbsTool.UsableIsAttainable | tools/h618-vp9-probs.py:190-219 | every usable target that differs only where the tool works is attainable |
| Vp9ProbsTool.ControlFromCapture | tools/h618-vp9-probs.py:222-245 | the tool from capture to control: when it answers, and that the answer is right |
| Vp9ProbsTool.CaptureOfDriverImage | tools/h618-vp9-probs.py:222-245 | for an image of the driver it answers iff segmentation left no probability in the padding |
| Vp9ProbsTool.SegmentedImageIsRefused | tools/h618-vp9-probs.py:238-242 | one tree probability has the image of any context refused |
| Vp9SegmentMap.ActiveIsLatest | cedrus-v4l2/cedrus_dec_vp9.c:1058-1086 | in every run the active map is that of the latest successful update since the last reset, else zero |
| Vp9SegmentMap.ActiveAfter | cedrus-v4l2/cedrus_dec_vp9.c:771-1086 | one frame: a successful update with segmentation leaves its output; otherwise an intra or error-resilient frame leaves zero and any other leaves the active map |
| Vp9SegmentMap.MapSurvives | cedrus-v4l2/cedrus_dec_vp9.c:771-1086 | the active map survives every run of inter frames that neither reset nor update it |
| Vp9SegmentMap.WindowIsLatest | cedrus-v4l2/cedrus_dec_vp9.c:771-783 | so is the window given to an inter frame with segmentation |
| Vp9SegmentMap.WindowIsSpecIff | cedrus-v4l2/cedrus_dec_vp9.c:771-826 | the window is what VP9 predicts from unless an error-resilient inter frame meets a non-zero map |
| Vp9SegmentMap.StaleWindow | cedrus-v4l2/cedrus_dec_vp9.c:771-826 | a run in which it is not |
| Vp9SegmentMap.SegmentMaps.Configure | cedrus-v4l2/cedrus_dec_vp9.c:771-826 | the window is copied before the maps are cleared |
| Vp9SegmentMap.SegmentMaps.Finish | cedrus-v4l2/cedrus_dec_vp9.c:1058-1086 | the window goes to the other buffer, which becomes active |
| Vp9Tiles.WriteRecords | cedrus-v4l2/cedrus_dec_vp9.c:804-820 | one record for every tile after the first, row by row, and nothing else |
| Vp9Tiles.RectIs | cedrus-v4l2/cedrus_dec_vp9.c:804-900 | registers and records hold the bounds of their tile, which is not empty |
| Vp9Tiles.RecordNumbers | cedrus-v4l2/cedrus_dec_vp9.c:804-900 | the same in numbers: with 2^log2 columns and rows, every start and end word is 65536 times the floor of its share of rows plus that of columns |
| Vp9Tiles.CountsArePowers | cedrus-v4l2/cedrus_dec_vp9.c:680-684 | columns and rows are the powers of two of their logarithms |
| Vp9Tiles.Bounds | cedrus-v4l2/cedrus_dec_vp9.c:798-820 | boundaries are floors, 0 at the first tile and the whole width at the end |
| Vp9Tiles.TilesPartition | cedrus-v4l2/cedrus_dec_vp9.c:804-900 | every superblock lies in exactly one tile |
| Vp9Tiles.TilesEven | cedrus-v4l2/cedrus_dec_vp9.c:804-900 | widths and heights differ by at most one |
| Vp9Tiles.NoEmptyTileIff | cedrus-v4l2/cedrus_dec_vp9.c:804-820 | no tile is empty iff there is a superblock for each |
| Vp9Tiles.EmptyFirstTile | cedrus-v4l2/cedrus_dec_vp9.c:804-900 | with one superblock row and two tile rows the first tile ends at row -1 and the second has its place |
| Vp9Recon.Layout | cedrus-v4l2/cedrus_dec_vp9.c:508-526 | the four planes follow each other and end within the buffer's size |
| Vp9Recon.Geometry | cedrus-v4l2/cedrus_dec_vp9.c:508-526 | strides, rows, plane offsets, move length and buffer size in numbers: least multiples of 16, 32, 8 and 4096 |
| Vp9Recon.HighLumaBytes | cedrus-v4l2/cedrus_dec_vp9.c:1193-1239 | the high luma byte of row r is that of row min(r, height-1), at plain offsets |
| Vp9Recon.LowLumaBytes | cedrus-v4l2/cedrus_dec_vp9.c:1193-1239 | the same for low luma |
| Vp9Recon.HighChromaBytes | cedrus-v4l2/cedrus_dec_vp9.c:1193-1239 | the same for high chroma |
| Vp9Recon.LowChromaBytes | cedrus-v4l2/cedrus_dec_vp9.c:1193-1239 | low chroma comes from behind the packed rows and goes behind the aligned ones |
| Vp9Recon.SmallestMove | cedrus-v4l2/cedrus_dec_vp9.c:1193-1239 | of a 16x8 frame 128 bytes move from 640 to 896 |
| Vp9Recon.LumaRows | cedrus-v4l2/cedrus_dec_vp9.c:1193-1239 | both luma planes keep their visible rows and repeat the last one below |
| Vp9Recon.ChromaPlaneRows | cedrus-v4l2/cedrus_dec_vp9.c:1193-1239 | the low chroma plane holds the packed rows although their old place was overwritten; both chroma planes are padded |
| Vp9Recon.TailUntouched | cedrus-v4l2/cedrus_dec_vp9.c:1193-1239 | nothing behind the planes changes |
| Vp9Recon.RelayoutInPlace | cedrus-v4l2/cedrus_dec_vp9.c:1193-1239 | the overlapping move and the padding loops compute that relayout in bounds |
| H264Bits.ReadListOfEncode | cedrus-v4l2/cedrus_enc_h264.c:208-252 | every list of u(n), ue(v) and se(v) elements is read back, whatever follows |
| H264Bits.ReadUeOfCode | cedrus-v4l2/cedrus_enc_h264.c:221-234 | Exp-Golomb codes are read back by section 9.1 of ITU-T H.264 |
| H264Bits.LowBit | cedrus-v4l2/cedrus_enc_h264.c:208-219 | the i-th of n bits has weight 2^(n-1-i) |
| H264Bits.FirstCodes | cedrus-v4l2/cedrus_enc_h264.c:221-252 | the first codes and mappings are those of Tables 9-2 and 9-3 of ITU-T H.264 |
| H264Writer.CodeFitsRegister | cedrus-v4l2/cedrus_enc_h264.c:221-234 | values below 65535 need at most 31 bits |
| H264Writer.BitWriter.AppendUe | cedrus-v4l2/cedrus_enc_h264.c:221-234 | appends the code number |
| H264Writer.BitWriter.PutSe | cedrus-v4l2/cedrus_enc_h264.c:236-252 | appends the signed code |
| H264Writer.BitWriter.AppendBytes | cedrus-v4l2/cedrus_enc_h264.c:254-265 | byte by byte is the same as all bits at once |
| H264Writer.BitWriter.Align | cedrus-v4l2/cedrus_enc_h264.c:289-301 | fills up the byte with zeros, and only if it has begun |
| H264Writer.BitWriter.NaluStart | cedrus-v4l2/cedrus_enc_h264.c:317-327 | start code and header |
| H264Sps.PutSps | cedrus-v4l2/cedrus_enc_h264.c:751-902 | writes the syntax elements of the parameter set |
| H264Sps.SpsRoundTrip | cedrus-v4l2/cedrus_enc_h264.c:734-906 | section 7.3.2.1.1 and Annex E of ITU-T H.264 read every field back |
| H264Sps.ShownIsSelectionIff | cedrus-v4l2/cedrus_enc_h264.c:809-841 | the cropping rectangle shows the selection iff its corner and its size are even |
| H264Sps.OddWidthIsWidened | cedrus-v4l2/cedrus_proc.c:546-554 | a selection of 15 of 16 columns, which the driver accepts, is shown with 16 |
| H264Sps.TimeScaleIff | cedrus-v4l2/cedrus_enc_h264.c:882-884 | two ticks a frame iff twice the denominator fits |
| H264Sps.LargeDenominatorIsLost | cedrus-v4l2/cedrus_enc_h264.c:882-884 | at 2^31 the time scale is 0 |
| H264Headers.ConfigureSps | cedrus-v4l2/cedrus_enc_h264.c:734-906 | one byte-aligned unit with the parameter set |
| H264Headers.ConfigurePps | cedrus-v4l2/cedrus_enc_h264.c:908-968 | the same for the picture parameter set |
| H264Headers.ConfigureSliceHeader | cedrus-v4l2/cedrus_enc_h264.c:970-1059 | prefix and slice header elements |
| H264Headers.NalAligned | cedrus-v4l2/cedrus_enc_h264.c:902-905 | every parameter set unit ends on a byte |
| H264Headers.PpsRoundTrip | cedrus-v4l2/cedrus_enc_h264.c:908-968 | section 7.3.2.2 of ITU-T H.264 reads every field back |
| H264Headers.SliceRoundTrip | cedrus-v4l2/cedrus_enc_h264.c:970-1059 | section 7.3.3 of ITU-T H.264 reads every field back, given parameter sets that agree |
| H264Encoder.EncodeHeaders | cedrus-v4l2/cedrus_enc_h264.c:611-1092 | after a job the latest sequence parameter set has the job's profile, constraint flags and level and the streamed picture; the latest picture parameter set and the slice give the job's QP, entropy mode and chroma offset; the job does what the controls ask for; the first job is IDR with both sets |
| H264Encoder.EncodeNumbers | cedrus-v4l2/cedrus_enc_h264.c:653-676 | frame number and picture order count are those of the k-th picture since the last IDR; P pictures refer to their predecessor |
| H264Encoder.WriteKeeps | cedrus-v4l2/cedrus_enc_h264.c:364-460 | control writes between jobs keep it so that the latest parameter sets speak for the controls unless new ones are due |
| H264Encoder.PreparedMeans | cedrus-v4l2/cedrus_enc_h264.c:611-732 | profile, level, entropy mode, deblocking and clamped QP of a job in terms of the controls |
| H264Encoder.WrittenFields | cedrus-v4l2/cedrus_enc_h264.c:364-460 | each stream control holds what was last written to it |
| H264Encoder.WrittenJobFields | cedrus-v4l2/cedrus_enc_h264.c:364-460 | the same for the controls of a job |
| H264Encoder.WrittenEntropy | cedrus-v4l2/cedrus_enc_h264.c:331-460 | CABAC is in force only for profiles that have it; when a write of it takes effect |
| H264Encoder.RunSound | cedrus-v4l2/cedrus_enc_h264.c:364-1168 | all of this after every job of every run of control writes and jobs |
| H264Gop.ClosedPictures | cedrus-v4l2/cedrus_enc_h264.c:627-652 | which pictures of a closed GOP are IDR pictures |
| H264Gop.WindowHasIdr | cedrus-v4l2/cedrus_enc_h264.c:627-652 | gop_size consecutive jobs contain an IDR picture |
| H264Gop.WindowHasIdrIff | cedrus-v4l2/cedrus_enc_h264.c:627-652 | exactly from which group index they do |
| H264Gop.StreamReaches | cedrus-v4l2/cedrus_enc_h264.c:627-652 | a stream with a constant closed GOP always starts its windows there |
| H264Gop.StreamHasIdr | cedrus-v4l2/cedrus_enc_h264.c:627-652 | in such a stream every gop_size consecutive jobs contain an IDR picture |
| H264Gop.OpenPictures | cedrus-v4l2/cedrus_enc_h264.c:627-652 | a stream with an open GOP has one IDR picture, the first, I pictures at every i_period-th and P pictures else, until the 32-bit index wraps |
| H264Gop.ShrunkGroup | cedrus-v4l2/cedrus_enc_h264.c:364-460 | shortening the GOP leads to where it fails |
| H264Stream.RunRead | cedrus-v4l2/cedrus_enc_h264.c:364-1092 | in every run a decoder that has read the earlier jobs reads the next one exactly as meant, with SliceQP equal to the job's QP, and then holds a parameter set with the job's profile, constraint flags and level |
| H264Stream.UnitsRead | cedrus-v4l2/cedrus_enc_h264.c:1061-1092 | the units of one job are told apart and read |
| H264Stream.RunReadFromStart | cedrus-v4l2/cedrus_enc_h264.c:364-1092 | in every run a decoder that starts from nothing reads all coded buffers: every slice header as meant, and all slice data |
| H264Stream.Encoder.CtrlPrepare | cedrus-v4l2/cedrus_enc_h264.c:331-460 | the new state after every control |
| H264Stream.Encoder.JobPrepare | cedrus-v4l2/cedrus_enc_h264.c:611-732 | the job and the new state |
| H264Stream.Encoder.ConfigureHeaders | cedrus-v4l2/cedrus_enc_h264.c:1061-1092 | the loop over the steps emits exactly the units that are due |
| H264Stream.Encoder.JobConfigure | cedrus-v4l2/cedrus_enc_h264.c:1094-1168 | the bits of the job and its reference |
| H264Dpb.RunDistinct | cedrus-v4l2/cedrus_dec_h264.c:290-329 | in every legal run the slots of the DPB and the current picture are distinct and within the first seventeen |
| H264Dpb.NewPictureDistinct | cedrus-v4l2/cedrus_dec_h264.c:290-329 | a new picture gets a slot that no DPB entry holds |
| H264Dpb.PositionIs | cedrus-v4l2/cedrus_dec_h264.c:290-329 | a picture that the DPB names stays where it is; any other gets the lowest slot, below 17, that no valid entry holds |
| H264Dpb.ActiveRefsAre | cedrus-v4l2/cedrus_dec_h264.c:290-325 | what is listed: the found pictures of valid, active entries other than the current one |
| H264Dpb.SamePictureSameSlot | cedrus-v4l2/cedrus_dec_h264.c:307-327 | all slices and both fields get the same slot |
| H264Dpb.FreeSlot | cedrus-v4l2/cedrus_dec_h264.c:326-327 | one of the first seventeen slots is always free |
| H264Dpb.Decoder.WriteFrameList | cedrus-v4l2/cedrus_dec_h264.c:290-370 | the loop over the entries chooses that slot and lists every active reference at its own |
| HevcTiles.TilesWrite | cedrus-v4l2/cedrus_dec_h265.c:452-507 | the registers describe the tile that holds the first block; the records follow it, or with wavefronts, tiles or not, the entry points are copied |
| HevcTiles.WriteRecords | cedrus-v4l2/cedrus_dec_h265.c:489-506 | the i-th record is the (i+1)-th following tile in raster order, its corners the sums of widths and heights |
| HevcTiles.RecordRead | cedrus-v4l2/cedrus_dec_h265.c:489-506 | the i-th record read back: x in the lower and y in the upper half of each corner, the sums of the sizes before the tile and up to its last block |
| HevcTiles.TileRead | cedrus-v4l2/cedrus_dec_h265.c:467-487 | the registers read back in the same way |
| HevcTiles.FindBand | cedrus-v4l2/cedrus_dec_h265.c:467-479 | the band that holds a block, or the place behind all bands, and where it begins |
| HevcTiles.InOne | cedrus-v4l2/cedrus_dec_h265.c:467-479 | that band is the only one |
| JpegHeader.ZigzagIsRanked | cedrus-v4l2/cedrus_enc_jpeg_tables.h:28-37 | the table is the zig-zag order of Figure A.6 of ITU-T T.81 |
| JpegHeader.ZigzagOfRank | cedrus-v4l2/cedrus_enc_jpeg_tables.h:28-37 | and so a permutation |
| JpegHeader.ScanRoundTrip | cedrus-v4l2/cedrus_enc_jpeg.c:143-150 | a decoder gets the quantisation table back |
| JpegHeader.HeaderRoundTrip | cedrus-v4l2/cedrus_enc_jpeg.c:116-183 | Annex B of ITU-T T.81 reads size, tables and their assignment back, and leaves what follows |
| JpegHeader.HeaderPlaces | cedrus-v4l2/cedrus_enc_jpeg.c:116-183 | where markers and size stand, in numbers |
| JpegHeader.HuffmanPlaces | cedrus-v4l2/cedrus_enc_jpeg.c:177-180 | where the Huffman tables stand in their segments |
| JpegHeader.TablePlaces | cedrus-v4l2/cedrus_enc_jpeg.c:139-159 | a coefficient of zig-zag rank k stands at 25 + k for luma and 94 + k for chroma |
| JpegHeader.HeaderWriter.PutByte | cedrus-v4l2/cedrus_enc_jpeg.c:78-87 | appends, or reports that there is no space |
| JpegHeader.HeaderWriter.PutArray | cedrus-v4l2/cedrus_enc_jpeg.c:89-102 | succeeds iff it fits, and appends |
| JpegHeader.HeaderWriter.PutHeader | cedrus-v4l2/cedrus_enc_jpeg.c:116-183 | succeeds iff 623 bytes fit, and writes the header |
| JpegHeader.BufferFinish | cedrus-v4l2/cedrus_enc_jpeg.c:301-349 | the plane becomes header, payload, end marker for every payload that fits, and is untouched otherwise |
| JpegHeader.FinishedIsJpeg | cedrus-v4l2/cedrus_enc_jpeg.c:301-349 | what is published parses, down to the original payload |
| LegacyEngine.RunInv | legacy-driver/cedar_ve.c:1412-2290 | over every sequence of steps: the count is the sum of the files' references, the clocks run exactly while it is positive, the global list is the disjoint union of the files' lists, memory of closing or engaged files is freed in reset |
| LegacyEngine.CountedKept | legacy-driver/cedar_ve.c:1412-1464 | every step keeps the counts, failed ones included |
| LegacyEngine.ListedKept | legacy-driver/cedar_ve.c:2097-2174 | every step keeps the lists |
| LegacyEngine.SafelyKept | legacy-driver/cedar_ve.c:2150-2262 | every step frees safely |
| LegacyEngine.LastClose | legacy-driver/cedar_ve.c:2219-2290 | the last close leaves nothing behind |
| LegacyEngine.EngineReqFailsIff | legacy-driver/cedar_ve.c:1412-1435 | when a request fails, and that it then counts nothing |
| LegacyEngine.EngineReqCounts | legacy-driver/cedar_ve.c:1412-1434 | a request that succeeds counts one reference, and the first runs the clocks out of reset |
| LegacyEngine.EngineRelIff | legacy-driver/cedar_ve.c:1436-1464 | a release succeeds iff its file holds a reference; the last one resets and stops the clocks |
| LegacyEngine.ReqThenRel | legacy-driver/cedar_ve.c:1412-1464 | a request and its release change nothing, but the last one leaves the engine in reset |
| LegacyEngine.AllocIff | legacy-driver/cedar_ve.c:2097-2148 | exactly when an allocation succeeds, its handle, address and whole pages; no failure enters a list |
| LegacyEngine.FreeIff | legacy-driver/cedar_ve.c:2150-2174 | a free succeeds iff the file has the handle; one buffer leaves both lists and is given back once |
| LegacyEngine.FreeRestoresReset | legacy-driver/cedar_ve.c:2150-2174 | which frees leave the engine in reset |
| LegacyEngine.ReleaseLeavesResetIff | legacy-driver/cedar_ve.c:2219-2274 | exactly when a close leaves the engine of others in reset |
| LegacyEngine.BystanderLeavesReset | legacy-driver/cedar_ve.c:2219-2274 | a run in which one does |
| LegacyEngine.Driver.EnableClocks | legacy-driver/cedar_ve.c:679-736 | all clocks or none |
| LegacyEngine.Driver.DisableClocks | legacy-driver/cedar_ve.c:738-767 | reset first, then the clocks |
| LegacyEngine.Driver.EngineReq | legacy-driver/cedar_ve.c:1412-1434 | the new state, on success and failure |
| LegacyEngine.Driver.EngineRel | legacy-driver/cedar_ve.c:1436-1468 | the new state, on success and failure |
| LegacyEngine.Driver.AllocCoherent | legacy-driver/cedar_ve.c:2097-2148 | every error path undoes what it did |
| LegacyEngine.Driver.FreeCoherent | legacy-driver/cedar_ve.c:2150-2174 | resets around the free of an engaged file |
| LegacyEngine.Driver.FreeCoherentBuffers | legacy-driver/cedar_ve.c:365-378 | frees every buffer of the file from both lists |
| LegacyEngine.Driver.Open | legacy-driver/cedar_ve.c:2184-2217 | a file without references or buffers |
| LegacyEngine.Driver.Release | legacy-driver/cedar_ve.c:2219-2290 | the whole new state after a close |
| MemAdapterBridge.RunAgrees | native-bridge/native_memadapter_bridge.c:111-246 | after every operation, failed ones included, bridge and kernel list the same handles, sizes and addresses, and no mappings overlap |
| MemAdapterBridge.PallocKeeps | native-bridge/native_memadapter_bridge.c:172-228 | a success enters both lists, every failure leaves both as they were |
| MemAdapterBridge.PfreeKeeps | native-bridge/native_memadapter_bridge.c:230-246 | a free leaves both |
| MemAdapterBridge.CloseKeeps | native-bridge/native_memadapter_bridge.c:152-170 | the last close empties both lists, the kernel's already before the file is released |
| MemAdapterBridge.PallocIff | native-bridge/native_memadapter_bridge.c:172-228 | exactly when an allocation succeeds, and that it returns mmap's address for whole pages |
| MemAdapterBridge.PfreeTakes | native-bridge/native_memadapter_bridge.c:230-246 | a free takes out the first mapping at its address and nothing else |
| MemAdapterBridge.CloseUndoesOpen | native-bridge/native_memadapter_bridge.c:111-170 | a close undoes a further open |
| MemAdapterBridge.AddressesRoundTrip | native-bridge/native_memadapter_bridge.c:256-285 | virtual and DMA addresses inside live buffers map to each other |
| MemAdapterBridge.Bridge.Open | native-bridge/native_memadapter_bridge.c:111-128 | the new state, also when the device cannot be opened |
| MemAdapterBridge.Bridge.Close | native-bridge/native_memadapter_bridge.c:152-170 | the loop frees the whole list |
| MemAdapterBridge.Bridge.Palloc | native-bridge/native_memadapter_bridge.c:172-228 | the new state on each of its six paths |
| MemAdapterBridge.Bridge.Pfree | native-bridge/native_memadapter_bridge.c:230-246 | the cursor takes out the first buffer at the address |
| JobProtocol.RunWatchdog | cedrus-v4l2/cedrus.c:152-168 | in every interleaving at most one party may finish a job, and the watchdog finishes the job that armed it |
| JobProtocol.RunOnceIff | cedrus-v4l2/cedrus.c:202-242 | over all schedules: each job is finished at most once iff every interrupt that finishes had read the context that is still current |
| JobProtocol.CalmRunOnce | cedrus-v4l2/cedrus.c:202-242 | so it is when no job begins between an interrupt's read and its cancel |
| JobProtocol.IrqFinishesOnceIff | cedrus-v4l2/cedrus.c:206-239 | the step of that result: when an interrupt that has cancelled the watchdog finishes a job again |
| JobProtocol.StaleInterruptFinishesTwice | cedrus-v4l2/cedrus.c:206-239 | a schedule in which one does |
| JobProtocol.StepToken | cedrus-v4l2/cedrus_context.c:216-336 | every step of job_run, watchdog and interrupt keeps the one token |
| JobProtocol.BeginStarts | cedrus-v4l2/cedrus_context.c:216-336 | a job that begins is finished at once if it fails to start, else it has a pending timer of its own |
| JobProtocol.IrqCompletes | cedrus-v4l2/cedrus.c:202-242 | an undisturbed interrupt with the work pending finishes the current job and nothing else |
| JobProtocol.IrqFinishesNothing | cedrus-v4l2/cedrus.c:202-242 | one behind the watchdog, or without a status, finishes nothing |
| JobProtocol.WatchdogCompletes | cedrus-v4l2/cedrus.c:152-168 | an undisturbed watchdog finishes the current job and nothing else |

## Left out

- Vp9MergeProb.MergeProbExactIff: totals of 2^32 and more, which wrap before anything is divided; for them only Vp9MergeProb.MergeProbBetween holds. Update factors other than the driver's 112 and 128.
- Vp9Contexts.RunUsable: the content of the default probability table is a parameter that is required to be usable.
- Vp9Contexts.Decoder.Finish: reads the counters as tables; how they lie in the hardware's count image is not modelled.
- Vp9Recon.RelayoutInPlace: heights of 9 to 15 modulo 16, for which the driver pads nothing, are covered only as "nothing changes"; sizes are not wrapped to 32 bits.
- Vp9SegmentMap.SegmentMaps.Finish: what the hardware writes into the window is an arbitrary map.
- H264Sps.SpsRoundTrip: values of ue(v) from 65535 up do not fit the register; emulation prevention is inserted by the hardware and not modelled.
- H264Headers.SliceRoundTrip: the readers reject syntax that the encoder never writes, such as scaling matrices, slice groups or reordering.
- H264Encoder.RunSound: failed jobs, control writes between job_prepare and job_configure, and changes of chroma_qp_index_offset are not part of the runs; a control write assigns the value handed to the driver; idr_pic_id is always 0.
- H264Dpb.RunDistinct: buffers that are not found, and motion vector buffers.
- HevcTiles.TilesWrite: grids with fewer remaining tiles than entry points, and blocks outside a grid without wavefronts or with all 20 columns or 22 rows in use, for which the code reads past its arrays.
- JpegHeader.HeaderRoundTrip: what the Huffman tables hold, and how quality scales the quantisation tables.
- LegacyEngine.RunInv: IOCTL_SET_REFCOUNT, ENABLE, DISABLE and RESET of the VE, suspend and resume, DMA-BUF mapping; each ioctl is one step.
- MemAdapterBridge.RunAgrees: handles do not wrap; a handle equal to the register page, which mmap treats specially; the bridge's file is the only open one.
- JobProtocol.RunWatchdog: liveness; the interrupt cancels the watchdog before it reads the status. The handlers are modelled as steps over shared state, not as methods.
- VP9 dequantisation indices, motion vector and scaling registers, and every other plain register fill.
- MPEG-2 and VP8 decoding, V4L2 formats and queues, power management, clocks and DMA beyond the contracts used above.
- The Android variant of the memory adapter, which is the same algorithm with 32-bit addresses.
- Smoke tests, probes, shims, scripts and debug output.
