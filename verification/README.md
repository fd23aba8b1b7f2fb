# glowie scope: CPU-side geometry pipeline

This project models what `Scope` in `src/scope.rs` computes on the CPU for
each frame of the glowie oscilloscope renderer, and proves properties of it.

The backlog of audio samples (points in [-1, 1]²) is turned into line
segments, one for each adjacent pair. Each segment becomes a `Line` record
with:

- a start point and a direction, each packed as two snorm16 halves;
- a time stamp, its index in the batch.

The screen is divided into a 16 × 16 grid of tiles. A segment goes into the
bucket of every tile whose centre lies within 1/8 of it. The pass stops once
the number of (segment, tile) assignments exceeds `MAX_LINES - 256`.

A 256-slot directory then packs each tile's (offset, size) into the uniform
`Config`. The buckets are flattened into the line buffer, and the backlog is
trimmed so that the next frame continues from the last sample processed (the
trim the code writes differs, see below). `draw` renders with the `front` texture
bind group and then swaps `front` and `back`, so each frame reads the
persistence texture the previous frame wrote. `window_resized` rebuilds both
textures and records the new window size.

Modules, one per file:

- `Packing` (`packing.dfy`): `pack16snorm`, `pack2x16snorm`, `pack2xu16`.
  - Bitwise `|`, `<<`, `>>` and `&` are written out over integers.
- `Geometry` (`geometry.dfy`): tile centres and the displacement test.
  - Includes the proof that the test means "the segment passes within 1/8 of
    the centre".
  - Includes the proof that no segment reaches the three corner tiles 0, 15
    and 240 at once.
- `Seqs` (`seqs.dfy`): concatenating and measuring a sequence of buckets.
- `Binning` (`binning.dfy`): the segment loop and the tile loop of
  `generate_chunks`.
  - The tile test is a parameter, so the budget and ordering facts hold for
    any test.
  - How a segment becomes a line is also a parameter; the program's maker is
    `MakeLine`.
- `Directory` (`directory.dfy`): the `chunks[i >> 2].offset_size[i & 3]`
  directory and the flatten-and-drain step.
- `PingPong` (`pingpong.dfy`): the two textures and the two bind groups over
  them.
- `Frame` (`frame.dfy`): the `Scope` state, `Scope::new`, `generate_chunks`,
  `draw` and `window_resized`.

Modelling choices:

- `f32` values are modelled as mathematical reals, and the line time as a
  natural number.
- The window's inner size is a parameter.
- GPU objects are reduced to what the CPU decides:
  - the config contents;
  - the line buffer contents;
  - which texture each bind group reads and which it writes.
- The tile test `8.0 * disp.length() < 1.0` is stated without the square
  root as `64 |disp|² < 1`. For reals the two are the same test.

The trim at `src/scope.rs:396-397` does not do what its own comment at line
395 ("remove processed samples from buffer") says. The model therefore uses a
corrected trim, `samples[batch..]`, and keeps the code as written beside it.
Both discrepancies are logged under Findings:

- **Empty batch.** With fewer than two samples, `batch_size - 1` underflows
  and the frame panics. This happens on the first draw after `Scope::new`.
- **Non-empty batch.** The code keeps `samples[batch - 1..]`. That leaves the
  start sample of the batch's last segment in the backlog, so the next frame
  draws that segment a second time.

Segments left unprocessed because the budget ran out are not dropped. They
stay in the backlog and become the next frame's first segments
(`Frame.TrimBacklogResumes`).

## Model

| member | source | states |
|---|---|---|
| Packing.Clamp | src/scope.rs:67 | `f32::clamp(e, lo, hi)`: the result lies in [lo, hi]. It is e itself when e is in range, and otherwise the bound e passed. |
| Packing.Pack16Snorm | src/scope.rs:66-68 | The bit pattern 0x8000 (-32768) is never produced, so encoded values stay in the symmetric snorm range. |
| Packing.Pack16SnormRounds | src/scope.rs:66-68 | Read as a signed 16-bit value, the result lies in [-32767, 32767] and within half a step of 32767·clamp(e, -1, 1), rounding half-up. Inputs ≥ 1 give 0x7FFF and inputs ≤ -1 give 0x8001. |
| Packing.SnormRoundTrip | src/scope.rs:66-68 | Decoding the packed value (signed / 32767) gives back the clamped input within 1/65534. |
| Packing.PackSeesClampOnly | src/scope.rs:67 | Packing depends only on the clamped input: out-of-range values pack like the nearest end of [-1, 1]. |
| Packing.PackMonotone | src/scope.rs:67 | Packing preserves order on the signed values. |
| Packing.BitOrDisjoint | src/scope.rs:71 | OR-ing a value below 2^k with a multiple of 2^k is plain addition. |
| Packing.Pack2xU16 | src/scope.rs:74-76 | The first component is the low 16 bits (`& 0xFFFF`) and the second is the high 16 bits (`>> 16`); both read back unchanged. |
| Packing.Pack2xU16AsWritten | src/scope.rs:75 | `e0 \| (e1 << 16)` on u32 equals `Pack2xU16(e0, e1)`, which equals e0 + 65536·e1. |
| Packing.PackOfHalves | src/scope.rs:74-76 | Every 32-bit word is the packing of its own two halves, so the packing is onto. |
| Packing.PackInjective | src/scope.rs:74-76 | Two different pairs never pack to the same word. |
| Packing.Pack2x16Snorm | src/scope.rs:70-72 | The low half is `pack16snorm(e[0])` and the high half is `pack16snorm(e[1])`. |
| Geometry.TileCenter | src/scope.rs:354-355 | Every tile centre lies strictly inside (-1, 1)². |
| Geometry.TileIndexRowMajor | src/scope.rs:350-355 | For column x and row y, `16 * y + x` is a tile index below 256 that decodes back to (x, y), and its centre is ((x - 7.5)/8, (y - 7.5)/8). |
| Geometry.ClosestParam | src/scope.rs:360-364 | The projection parameter always lies in [0, 1], so it names a point of the segment. |
| Geometry.Displacement | src/scope.rs:357-365 | `disp` is the tile centre minus the point of the segment at `ClosestParam`. |
| Geometry.Accepts | src/scope.rs:368 | The tile test `8 · disp.length() < 1`, stated as `64 · |disp|² < 1`, which is the same test over reals. An accepted segment passes within 1/8 of the centre at its closest point. |
| Geometry.ClosestPointIsMinimal | src/scope.rs:357-365 | No point of the segment is nearer to the centre than the one `disp` points from. |
| Geometry.AcceptsIffNearSegment | src/scope.rs:357-368 | A tile accepts a segment exactly when some point of the segment lies within 1/8 of its centre, in both directions. |
| Geometry.CornersNotAllAccept | src/scope.rs:350-368 | No segment is accepted by tiles 0, 15 and 240 together. |
| Binning.Windows | src/scope.rs:338 | `samples.windows(2)`: one segment per adjacent pair, in order; none when there are fewer than two samples. |
| Binning.MakeLine | src/scope.rs:344-348 | Every line carries its segment's index in the batch (`batch_size as f32`) as its time. `Binning.MakeLineLayout` states the packed fields. |
| Binning.MakeLineLayout | src/scope.rs:344-348 | The halves of `start` are the packed start coordinates, the halves of `v` are the packed `end - start`, and `time` is the segment's index in the batch. |
| Binning.AcceptCount | src/scope.rs:350-371 | The number of accepting tiles among the first n tiles is at most n. |
| Binning.AcceptCountMissing | src/scope.rs:350-371 | A tile that refuses the segment keeps the number of accepting tiles below the number of tiles examined. |
| Binning.AddToTiles | src/scope.rs:350-373 | The tile loop appends the line to exactly the buckets of accepting tiles; other buckets are unchanged. The counter rises by the number of accepting tiles, and so does the total bucket length. |
| Binning.BinFrom | src/scope.rs:338-380 | The batch contains every segment unless it stopped early, and it stops early only once the counter exceeds `MAX_LINES - 256`. A loop entered under the limit ends with at most `MAX_LINES` assignments, and the bucket lengths grow by exactly the counter's increase. |
| Binning.BinFromBuckets | src/scope.rs:338-380 | Each bucket gains exactly the lines of the processed segments its tile accepts, in segment order. |
| Binning.BinFromLoad | src/scope.rs:338-380 | The counter equals the assignments of the processed segments, and the counter stayed within the limit after every segment before the last. |
| Binning.BinIsPerTile | src/scope.rs:338-380 | Binning from empty buckets leaves exactly the reference per-tile lists: for each tile, the lines of the batch segments it accepts, in segment order. |
| Binning.BinFromEmpty | src/scope.rs:336-380 | Starting from empty buckets and a zero counter: with two or more samples at least one segment is processed. The counter equals both the assignments made and the bucket lengths in total. The batch is cut short only past the limit. |
| Binning.TileLinesWithinLoad | src/scope.rs:369-370 | A tile's bucket never holds more lines than there were assignments. |
| Binning.TileLinesSound | src/scope.rs:344-371 | Every line in a tile's bucket is the line of a segment in the range that the tile accepts. It carries that segment's index as its time. |
| Binning.TileLinesSorted | src/scope.rs:344-374 | Line times strictly increase along every bucket. |
| Binning.TileLinesComplete | src/scope.rs:368-371 | Every segment in the range that a tile accepts has its line in that tile's bucket. |
| Binning.BinBudget | src/scope.rs:376-385 | After binning from empty buckets there are at most 65536 assignments. No bucket holds more than 65281 lines, so the `u16` conversion of each bucket length succeeds. |
| Directory.SlotAddressing | src/scope.rs:386 | Slot `(i >> 2, i & 3)` lies within the 64 × 4 array, `i` equals `4 * (i >> 2) + (i & 3)`, and different tiles get different slots. |
| Directory.DefaultChunks | src/scope.rs:48-54 | The default directory has 64 chunks of four zero slots. |
| Directory.SetSlot | src/scope.rs:386 | Writing tile `i`'s slot sets that word and leaves every other tile's slot unchanged. |
| Directory.WriteDirectory | src/scope.rs:383-388 | Provided the `u16` running offset does not overflow, afterwards every tile's slot holds, in its low half, the number of lines in the buckets before it, and in its high half its own bucket's length. |
| Directory.Flatten | src/scope.rs:391-393 | The line buffer is the buckets laid end to end in tile order, and every bucket is left empty. |
| Directory.SlotAddressesBucket | src/scope.rs:383-393 | The range a tile's slot names in the flattened buffer holds exactly that tile's bucket. |
| PingPong.NewSizeDependent | src/scope.rs:98-162 | Both textures get the given size. `front` reads A and writes B, and `back` reads B and writes A. |
| PingPong.Swap | src/scope.rs:430-433 | `std::mem::swap(&mut front, &mut back)`: the texture size is kept and the two bind groups change places. |
| PingPong.SwapHandsOver | src/scope.rs:426-433 | After the swap, `front` reads the texture the previous `front` wrote and writes the one it read; the pairing is kept. |
| PingPong.SwapTwice | src/scope.rs:430-433 | Two swaps restore the original bind groups. |
| PingPong.SwapNFromNew | src/scope.rs:122-152 | After n draws from freshly created textures, the next draw reads A and writes B exactly when n is even. |
| Frame.DefaultConfig | src/scope.rs:26-39 | `Config::default()`: every directory slot is zero, the window size is 360 × 360, and `total_time` is 0. |
| Frame.NewScope | src/scope.rs:180-191 | A new scope satisfies the between-frames invariant. It holds one sample at the origin and no lines. The config's window size is 360 × 360 whatever the window is. The textures have the window's size, and `front` reads A. |
| Frame.CopyWithin | src/scope.rs:396 | `copy_within(src.., dest)` moves the tail from `src` to `dest` and leaves the other elements as they were. |
| Frame.Truncate | src/scope.rs:397 | `truncate(n)` keeps the first `n` elements, or everything when there are fewer. |
| Frame.TrimKeepsTail | src/scope.rs:396-397 | `copy_within(start.., 0)` followed by truncating to the moved length leaves exactly `samples[start..]`. |
| Frame.UsizeSub | src/scope.rs:396 | `a - b` on `usize` succeeds exactly when b ≤ a, and then gives the difference. Otherwise it is the underflow panic. |
| Frame.TrimAsWritten | src/scope.rs:396-397 | The trim as written fails (usize underflow) exactly when the batch is empty. Otherwise it keeps `samples[batch - 1..]`. |
| Frame.FirstDrawPanics | src/scope.rs:396 | The state `Scope::new` creates gives an empty batch, on which the trim as written fails and the corrected trim keeps the backlog. |
| Frame.TrimBacklog | src/scope.rs:395-397 | The corrected trim `copy_within(batch.., 0)`, `truncate(len - batch)` removes exactly the processed samples, leaving `samples[batch..]`. An empty batch needs no special case. |
| Frame.TrimBacklogResumes | src/scope.rs:395-397 | After the corrected trim, the next frame's segments are exactly the segments this frame did not process. After a full batch only the newest sample remains. |
| Frame.AsWrittenKeepsOneMore | src/scope.rs:396-397 | On a non-empty batch the trim as written keeps exactly one sample more than the corrected trim: the start of the batch's last segment. |
| Frame.AsWrittenRepeatsSegment | src/scope.rs:396-397 | As written, the next frame's segments begin with the batch's last segment again. After a full batch two samples remain instead of one. |
| Frame.TrimmedByTrimBacklog | src/scope.rs:395-397 | The corrected trim's result has exactly the unprocessed segments. The trim as written would have panicked on an empty batch, and otherwise would have kept one extra sample in front of it. |
| Frame.TileRange | src/scope.rs:383-393 | After the directory is written and the buckets flattened, each tile's slot names the buffer range holding exactly its lines from the batch. |
| Frame.RangeContents | src/scope.rs:344-393 | When every slot names its tile's lines, a tile's range holds only lines of batch segments the tile accepts, stamped with their indices and in increasing time, and contains the line of every such segment. |
| Frame.TileRangeContents | src/scope.rs:344-393 | Each uploaded tile range holds only that tile's lines from the batch, with increasing times, and every batch segment the tile accepts appears in it. |
| Frame.GeneratedOffsets | src/scope.rs:383-388 | After `generate_chunks`, each tile's slot holds as offset the number of batch lines of all earlier tiles and as size the number of its own. Each tile's range ends exactly where the next tile's begins. |
| Frame.GenerateChunks | src/scope.rs:334-401 | Provided the batch makes fewer than 65536 assignments, the following hold afterwards. The batch is empty only when there are no segments, and it is cut short only past the limit. `total_time` is the batch size. The buffer holds one line per assignment. The buffer is the reference per-tile lists concatenated in tile order. Each slot holds its tile's prefix-sum offset and its length, so it names exactly that tile's lines. The backlog keeps exactly the unprocessed segments, and the contract also records what the trim as written would have done: panic on an empty batch, otherwise keep one extra sample. The buckets are empty again. The window size and the bind groups are unchanged. |
| Frame.GeometricIsNearTile | src/scope.rs:350-368 | The program's per-tile test, the constant `Frame.Geometric`, takes tile i exactly when i is below 256 and some point of the segment lies within 1/8 of the tile centre. It holds in both directions. |
| Frame.GeometricNeverFull | src/scope.rs:350-371 | With the program's test, no segment is accepted by all 256 tiles. |
| Frame.GeometricFits | src/scope.rs:376-388 | With the program's test a batch makes at most 65535 assignments, so the `u16` running offset never overflows. |
| Frame.Draw | src/scope.rs:403-434 | The uploaded config and lines are those `generate_chunks` produced under the geometric test. The pass uses `front`, and `front` and `back` are then swapped, so the next draw reads the texture this draw wrote. |
| Frame.WindowResized | src/scope.rs:436-441 | Fresh textures of the new size, so the next draw reads A and writes B. The config's window size becomes the new size. Samples, lines, buckets, directory and time are unchanged. |

## Left out

- Packing.Pack16Snorm: computes on reals, not `f32`. The rounding of `0.5 + 32767 * e` in single precision, NaN inputs and the saturating float-to-int cast of NaN are not modelled.
- Geometry.Accepts: the dot products, the division and `length()` are exact real arithmetic rather than `f32`, so segments within rounding error of the 1/8 boundary may be classified differently from the program.
- Binning.MakeLine: the line time is a natural number. The source converts `batch_size` to `f32`, which is exact only below 2^24 segments per batch.
- Frame.WindowResized: the window size is converted to reals exactly; the source's `u32 as f32` rounds above 2^24.
- `Scope::extend` is not modelled: it only appends to the backlog, and the program never calls it.
- GPU resource creation is reduced to the bind groups' read/write textures and the uploaded contents, because the device, buffers, layouts, pipeline and shader module lie outside the CPU logic. The `queue.write_buffer` calls become the `RenderPass` record.
- The shader `scope.wgsl` is not part of this model.
- The `Config` fields `line_radius`, `decay`, `sigma` and `intensity` are not modelled: the CPU never changes them. The `bytemuck` byte layout and `_pad` are not modelled either.
- `src/main.rs` is not modelled: it only creates the scope and calls `draw` and `window_resized`. Its window and event handling are not part of this model.
- Frame.GenerateChunks: the returned backlog is the corrected trim's `samples[batch..]`. On an empty batch the source panics at line 396, and otherwise it keeps `samples[batch - 1..]`. The contract states both outcomes through `Trimmed`, but the state it returns follows the correction.
- Frame.Draw: it inherits the corrected trim, so on the first draw after `Scope::new` it returns a render pass with an empty line buffer where the program panics.
- Frame.GenerateChunks: requires the batch's assignments to stay below 65536, because the `u16` running offset at line 387 overflows otherwise. `Frame.GeometricFits` discharges this requirement for the program's own test.

## Findings

| source | as written | input that shows it | evidently intended | confidence | as-written member | corrected member |
|---|---|---|---|---|---|---|
| src/scope.rs:396 | `copy_within(batch_size - 1.., 0)`: with `batch_size` 0 this is `0usize - 1`. It panics in a debug build, and in a release build wraps to a start index `copy_within` rejects. | The state `Scope::new` creates: one sample `[0, 0]`. Nothing appends samples before the first `draw`, so `windows(2)` is empty and `batch_size` is 0. | With no segment processed, leave the backlog as it is. | high; not executed | Frame.TrimAsWritten, Frame.FirstDrawPanics | Frame.TrimBacklog |
| src/scope.rs:396-397 | `copy_within(batch_size - 1.., 0)` and `truncate(len - batch_size + 1)` keep `samples[batch_size - 1..]`, the start sample of the last processed segment included. | Samples (0,0), (1,0), (1,1): both segments are processed, and the backlog left is [(1,0), (1,1)]. The next frame draws the segment (1,0)–(1,1) again. | Remove exactly the processed samples, as the comment at line 395 says: keep `samples[batch_size..]`, whose first sample is the end of the last processed segment. | medium; not executed | Frame.TrimAsWritten, Frame.AsWrittenRepeatsSegment | Frame.TrimBacklog, Frame.TrimBacklogResumes |
