/**
  The `Scope` state and its per-frame operations: `generate_chunks`, `draw`
  and `window_resized`, plus the construction in `Scope::new`.

  GPU objects are reduced to what the CPU decides about them: the uniform
  `Config` (directory, window size, total time), the line buffer contents,
  and which texture each bind group reads and writes. The window's inner size
  is a parameter.
 */
module Frame {
  import opened Packing
  import opened Geometry
  import opened Seqs
  import opened Binning
  import opened Directory
  import opened PingPong

  /** The uniform block fields the CPU computes. */
  datatype Config = Config(chunks: seq<Chunk4>, windowSize: Vec2, totalTime: nat)

  /** `Config::default()`: an all-zero directory, a 360 x 360 window and time zero. */
  function DefaultConfig(): (c: Config)
    ensures WellFormed(c.chunks)
    ensures forall i :: 0 <= i < TileCount ==> Slot(c.chunks, i) == 0
    ensures c.windowSize == Vec2(360.0, 360.0) && c.totalTime == 0
  {
    var c := Config(DefaultChunks(), Vec2(360.0, 360.0), 0);
    assert forall i :: 0 <= i < TileCount ==> c.chunks[ChunkOf(i)] in c.chunks;
    c
  }

  /** The CPU-side state of a `Scope`. */
  datatype Scope = Scope(
    config: Config,
    buckets: seq<seq<Line>>,
    lines: seq<Line>,
    samples: seq<Vec2>,
    sizeDependent: SizeDependent)

  /**
    What holds between frames: one empty bucket per tile, a 64 x 4 directory,
    at least the last sample kept, and the two bind groups over opposite
    textures.
   */
  predicate Valid(s: Scope)
  {
    && |s.buckets| == TileCount && AllEmpty(s.buckets)
    && WellFormed(s.config.chunks)
    && |s.samples| >= 1
    && Paired(s.sizeDependent)
  }

  /**
    `Scope::new` for a window of the given size: one sample at the origin, no
    lines, empty buckets, default config, textures of the window's size with
    `front` reading A. The config's window size stays at the default
    360 x 360 whatever the window is, until the first resize.
   */
  function NewScope(size: Extent): (s: Scope)
    ensures Valid(s)
    ensures s.samples == [Vec2(0.0, 0.0)] && s.lines == []
    ensures s.config.windowSize == Vec2(360.0, 360.0) && s.config.totalTime == 0
    ensures s.sizeDependent.size == size && s.sizeDependent.front == BindGroup(A, B)
  {
    Scope(DefaultConfig(), seq(TileCount, _ => []), [], [Vec2(0.0, 0.0)], NewSizeDependent(size))
  }

  /**
    `slice::copy_within(src.., dest)`: the tail from `src` is moved to start at
    `dest`, the rest is left as it was. The tail must fit: `dest <= src`.
   */
  function CopyWithin<T>(s: seq<T>, src: nat, dest: nat): (r: seq<T>)
    requires src <= |s| && dest <= src
    ensures |r| == |s|
    ensures r[dest .. dest + (|s| - src)] == s[src..]
    ensures r[..dest] == s[..dest] && r[dest + (|s| - src)..] == s[dest + (|s| - src)..]
  {
    seq(|s|, k requires 0 <= k < |s| => if dest <= k < dest + (|s| - src) then s[k - dest + src] else s[k])
  }

  /** `Vec::truncate(n)`: keep the first `n` elements; no effect when there are fewer. */
  function Truncate<T>(s: seq<T>, n: nat): (r: seq<T>)
    ensures |r| == if n < |s| then n else |s|
    ensures r == s[..|r|]
  {
    if n < |s| then s[..n] else s
  }

  /**
    Trimming the backlog from `start`: moving `samples[start..]` to the front
    and truncating to the moved length keeps exactly that suffix.
   */
  lemma TrimKeepsTail<T>(s: seq<T>, start: nat)
    requires start <= |s|
    ensures Truncate(CopyWithin(s, start, 0), |s| - start) == s[start..]
  {
    var c := CopyWithin(s, start, 0);
    assert c[0 .. |s| - start] == s[start..];
  }

  /** A value, or the panic that replaced it. */
  datatype Option<T> = None | Some(value: T)

  /**
    `a - b` on `usize`: `None` when it underflows, which panics in a debug
    build and in a release build wraps to an index `copy_within` rejects.
   */
  function UsizeSub(a: nat, b: nat): (r: Option<nat>)
    ensures r.Some? <==> b <= a
    ensures r.Some? ==> r.value + b == a
  {
    if b <= a then Some(a - b) else None
  }

  /**
    The backlog trim as the source writes it: `copy_within(batch - 1.., 0)`
    then `truncate(len - batch + 1)`. With no segment processed the start
    index underflows and the frame panics; otherwise the backlog becomes the
    suffix from the batch's last segment's START sample on.
   */
  function TrimAsWritten(samples: seq<Vec2>, batch: nat): (r: Option<seq<Vec2>>)
    requires batch <= |samples|
    ensures r.None? <==> batch == 0
    ensures r.Some? ==> r.value == samples[batch - 1..]
  {
    match UsizeSub(batch, 1)
    case None => None
    case Some(start) =>
      TrimKeepsTail(samples, start);
      Some(Truncate(CopyWithin(samples, start, 0), |samples| - batch + 1))
  }

  /**
    The backlog trim that removes exactly the processed samples:
    `copy_within(batch.., 0)` then `truncate(len - batch)`. The end sample of
    the batch's last segment becomes the first sample of the backlog, so the
    next frame continues where this one stopped; an empty batch leaves the
    backlog as it is.
   */
  function TrimBacklog(samples: seq<Vec2>, batch: nat): (r: seq<Vec2>)
    requires batch <= |samples|
    ensures r == samples[batch..]
  {
    TrimKeepsTail(samples, batch);
    Truncate(CopyWithin(samples, batch, 0), |samples| - batch)
  }

  /**
    After the corrected trim the next frame's segments are exactly the ones
    this frame did not process; after a full batch only the newest sample
    is left.
   */
  lemma TrimBacklogResumes(samples: seq<Vec2>, batch: nat)
    requires batch <= |Windows(samples)|
    ensures Windows(TrimBacklog(samples, batch)) == Windows(samples)[batch..]
    ensures |samples| > 0 && batch == |Windows(samples)| ==> TrimBacklog(samples, batch) == [samples[|samples| - 1]]
  {
    var r := TrimBacklog(samples, batch);
    var w := Windows(samples);
    if |samples| >= 2 {
      assert |Windows(r)| == |w[batch..]|;
      forall k | 0 <= k < |Windows(r)|
        ensures Windows(r)[k] == w[batch..][k]
      {
        assert Windows(r)[k] == Segment(r[k], r[k + 1]);
        assert w[batch + k] == Segment(samples[batch + k], samples[batch + k + 1]);
      }
    }
  }

  /**
    The trim as written keeps one sample more than the corrected trim: the
    start of the batch's last segment.
   */
  lemma AsWrittenKeepsOneMore(samples: seq<Vec2>, batch: nat)
    requires 1 <= batch <= |samples|
    ensures TrimAsWritten(samples, batch) == Some([samples[batch - 1]] + TrimBacklog(samples, batch))
  {
    assert samples[batch - 1..] == [samples[batch - 1]] + samples[batch..];
  }

  /**
    As written, the next frame draws the batch's last segment again: its
    segments start with segment `batch - 1`. After a full batch two samples
    stay behind instead of one.
   */
  lemma AsWrittenRepeatsSegment(samples: seq<Vec2>, batch: nat)
    requires 1 <= batch <= |Windows(samples)|
    ensures TrimAsWritten(samples, batch).Some?
    ensures Windows(TrimAsWritten(samples, batch).value) == Windows(samples)[batch - 1..]
    ensures Windows(TrimAsWritten(samples, batch).value)[0] == Windows(samples)[batch - 1]
    ensures batch == |Windows(samples)| ==> |TrimAsWritten(samples, batch).value| == 2
  {
    TrimBacklogResumes(samples, batch - 1);
  }

  /**
    The first frame of the program: `Scope::new` leaves one sample, nothing
    appends more before the first `draw`, so the batch is empty and the trim
    as written panics, while the corrected trim keeps the single sample.
   */
  lemma FirstDrawPanics(size: Extent)
    ensures var s := NewScope(size);
      var b := Bin(Geometric, MakeLine, s.samples, s.buckets);
      && b.batch == 0
      && TrimAsWritten(s.samples, b.batch).None?
      && TrimBacklog(s.samples, b.batch) == s.samples
  {
    var s := NewScope(size);
    assert Windows(s.samples) == [];
  }

  /**
    What `generate_chunks` leaves behind, given the state `s` before it, the
    acceptance test and the state `t` after it. With `b` the binning result:
    no segment was processed exactly when there is none; every prefix of the
    batch but the whole stayed within the limit and the batch is cut short
    only past it; `total_time` is the batch size; the line buffer holds one
    line per (segment, tile) assignment; the directory and the buffer are laid
    out tile by tile from the reference per-tile lists, so each tile's slot
    names the range that holds exactly that tile's lines, oldest first; the
    backlog is trimmed; the buckets are empty again; the window size and the
    bind groups are untouched.
   */
  predicate Generated(s: Scope, accepts: Acceptor, t: Scope)
    requires Valid(s)
  {
    var segs := Windows(s.samples);
    var b := Bin(accepts, MakeLine, s.samples, s.buckets);
    && b.batch <= |segs| && (b.batch == 0 <==> |segs| == 0)
    && (forall n :: 0 < n < b.batch ==> Load(accepts, segs, 0, n) <= BudgetLimit)
    && (b.batch < |segs| ==> Load(accepts, segs, 0, b.batch) > BudgetLimit)
    && t.config.totalTime == b.batch
    && |t.lines| == Load(accepts, segs, 0, b.batch)
    && WellFormed(t.config.chunks)
    && LaidOut(t.config.chunks, t.lines, PerTile(accepts, MakeLine, segs, b.batch))
    && RangesHold(t.config.chunks, t.lines, accepts, segs, b.batch)
    && Trimmed(s.samples, b.batch, t.samples)
    && |t.buckets| == TileCount && AllEmpty(t.buckets)
    && t.config.windowSize == s.config.windowSize
    && t.sizeDependent == s.sizeDependent
  }

  /**
    The directory and buffer built from per-tile lists `tiles`: every slot
    holds its tile's running offset and length, and the buffer is the lists
    laid end to end in tile order.
   */
  predicate LaidOut(chunks: seq<Chunk4>, lines: seq<Line>, tiles: seq<seq<Line>>)
    requires WellFormed(chunks) && |tiles| == TileCount
  {
    && (forall i :: 0 <= i < TileCount ==> Describes(chunks, tiles, i))
    && lines == Concat(tiles)
  }

  /**
    The backlog `kept` left after a batch of `batch` segments: the processed
    samples are gone, so its segments are the unprocessed ones. The trim as
    written would have panicked on an empty batch and otherwise kept the
    start sample of the batch's last segment in front of `kept`.
   */
  predicate Trimmed(samples: seq<Vec2>, batch: nat, kept: seq<Vec2>)
    requires batch <= |Windows(samples)|
  {
    && kept == TrimBacklog(samples, batch)
    && Windows(kept) == Windows(samples)[batch..]
    && TrimAsWritten(samples, batch) == (if batch == 0 then None else Some([samples[batch - 1]] + kept))
  }

  /** The corrected trim leaves a backlog that is `Trimmed`. */
  lemma TrimmedByTrimBacklog(samples: seq<Vec2>, batch: nat)
    requires batch <= |Windows(samples)|
    ensures Trimmed(samples, batch, TrimBacklog(samples, batch))
  {
    TrimBacklogResumes(samples, batch);
    if batch > 0 {
      AsWrittenKeepsOneMore(samples, batch);
    }
  }

  /**
    After `generate_chunks` tile `i`'s slot holds, as offset, the number of
    batch lines of the tiles before it and, as size, the number of its own;
    the ranges follow each other without gaps: each tile's range ends where
    the next tile's begins.
   */
  lemma GeneratedOffsets(s: Scope, accepts: Acceptor, t: Scope, i: nat)
    requires Valid(s) && Generated(s, accepts, t) && i < TileCount
    ensures var segs := Windows(s.samples);
      var tiles := PerTile(accepts, MakeLine, segs, t.config.totalTime);
      && Low16(Slot(t.config.chunks, i)) == TotalLen(tiles[..i])
      && High16(Slot(t.config.chunks, i)) == |TileLines(accepts, MakeLine, segs, i, 0, t.config.totalTime)|
      && (i + 1 < TileCount ==>
            Low16(Slot(t.config.chunks, i)) + High16(Slot(t.config.chunks, i)) == Low16(Slot(t.config.chunks, i + 1)))
  {
    var segs := Windows(s.samples);
    var tiles := PerTile(accepts, MakeLine, segs, t.config.totalTime);
    assert LaidOut(t.config.chunks, t.lines, tiles);
    assert Describes(t.config.chunks, tiles, i);
    if i + 1 < TileCount {
      assert Describes(t.config.chunks, tiles, i + 1);
      PrefixStep(tiles, i);
    }
  }

  /** Every tile's slot names the range of `lines` holding exactly that tile's lines of segments `[0, batch)`. */
  predicate RangesHold(chunks: seq<Chunk4>, lines: seq<Line>, accepts: Acceptor, segs: seq<Segment>, batch: nat)
    requires WellFormed(chunks) && batch <= |segs|
  {
    forall i :: 0 <= i < TileCount ==>
      && Low16(Slot(chunks, i)) + High16(Slot(chunks, i)) <= |lines|
      && lines[Low16(Slot(chunks, i)) .. Low16(Slot(chunks, i)) + High16(Slot(chunks, i))]
         == TileLines(accepts, MakeLine, segs, i, 0, batch)
  }

  /** Tile `i` of the freshly written directory addresses tile `i`'s lines in the flattened buffer. */
  lemma TileRange(accepts: Acceptor, samples: seq<Vec2>, buckets: seq<seq<Line>>, chunks: seq<Chunk4>, lines: seq<Line>, i: nat)
    requires |buckets| == TileCount && AllEmpty(buckets) && i < TileCount
    requires var b := Bin(accepts, MakeLine, samples, buckets);
      && WellFormed(chunks) && Describes(chunks, b.buckets, i) && lines == Concat(b.buckets)
    ensures Low16(Slot(chunks, i)) + High16(Slot(chunks, i)) <= |lines|
    ensures lines[Low16(Slot(chunks, i)) .. Low16(Slot(chunks, i)) + High16(Slot(chunks, i))]
      == TileLines(accepts, MakeLine, Windows(samples), i, 0, Bin(accepts, MakeLine, samples, buckets).batch)
  {
    var b := Bin(accepts, MakeLine, samples, buckets);
    SlotAddressesBucket(chunks, b.buckets, lines, i);
    BinFromEmptyBuckets(accepts, MakeLine, samples, buckets, i);
  }

  /**
    When every slot names its tile's lines, the range of tile `i` holds only
    lines of batch segments the tile accepts, stamped with their indices, in
    increasing time, and every such segment's line is among them.
   */
  lemma RangeContents(chunks: seq<Chunk4>, lines: seq<Line>, accepts: Acceptor, segs: seq<Segment>, batch: nat, i: nat)
    requires WellFormed(chunks) && batch <= |segs| && i < TileCount
    requires RangesHold(chunks, lines, accepts, segs, batch)
    ensures var lo := Low16(Slot(chunks, i));
      var ls := lines[lo .. lo + High16(Slot(chunks, i))];
      && TimesIncrease(ls)
      && (forall l :: l in ls ==> TileLineOf(accepts, MakeLine, segs, i, 0, batch, l))
      && (forall k :: 0 <= k < batch && accepts(i, segs[k].start, segs[k].end) ==> MakeLine(segs[k], k) in ls)
  {
    MakeLineStamps();
    TileLinesSound(accepts, MakeLine, segs, i, 0, batch);
    TileLinesSorted(accepts, MakeLine, segs, i, 0, batch);
    forall k | 0 <= k < batch && accepts(i, segs[k].start, segs[k].end)
      ensures MakeLine(segs[k], k) in TileLines(accepts, MakeLine, segs, i, 0, batch)
    {
      TileLinesComplete(accepts, MakeLine, segs, i, 0, batch, k);
    }
  }

  /**
    The lines a tile's slot names after `generate_chunks`: each is the line
    of a batch segment the tile accepts, stamped with that segment's index;
    their times strictly increase; and every batch segment the tile accepts
    is among them.
   */
  lemma TileRangeContents(s: Scope, accepts: Acceptor, t: Scope, i: nat)
    requires Valid(s) && Generated(s, accepts, t) && i < TileCount
    ensures var segs := Windows(s.samples);
      var lo := Low16(Slot(t.config.chunks, i));
      var ls := t.lines[lo .. lo + High16(Slot(t.config.chunks, i))];
      && TimesIncrease(ls)
      && (forall l :: l in ls ==> TileLineOf(accepts, MakeLine, segs, i, 0, t.config.totalTime, l))
      && (forall k :: 0 <= k < t.config.totalTime && accepts(i, segs[k].start, segs[k].end) ==> MakeLine(segs[k], k) in ls)
  {
    RangeContents(t.config.chunks, t.lines, accepts, Windows(s.samples), t.config.totalTime, i);
  }

  /**
    `Scope::generate_chunks` with a given acceptance test, trimming the
    backlog with the corrected `TrimBacklog`; `Generated` also records what
    the trim as written would have done. The batch must make fewer than 65536
    assignments: the `u16` running offset overflows otherwise.
   */
  method GenerateChunks(s: Scope, accepts: Acceptor) returns (t: Scope)
    requires Valid(s)
    requires Bin(accepts, MakeLine, s.samples, s.buckets).count < MaxLines
    ensures Valid(t)
    ensures Generated(s, accepts, t)
  {
    var b := Bin(accepts, MakeLine, s.samples, s.buckets);
    BinFromEmpty(accepts, MakeLine, s.samples, s.buckets);
    var chunks := WriteDirectory(b.buckets, s.config.chunks);
    var lines, drained := Flatten(b.buckets);
    forall i | 0 <= i < TileCount
      ensures Low16(Slot(chunks, i)) + High16(Slot(chunks, i)) <= |lines|
      ensures lines[Low16(Slot(chunks, i)) .. Low16(Slot(chunks, i)) + High16(Slot(chunks, i))]
        == TileLines(accepts, MakeLine, Windows(s.samples), i, 0, b.batch)
    {
      TileRange(accepts, s.samples, s.buckets, chunks, lines, i);
    }
    assert RangesHold(chunks, lines, accepts, Windows(s.samples), b.batch);
    BinIsPerTile(accepts, MakeLine, s.samples, s.buckets);
    assert LaidOut(chunks, lines, PerTile(accepts, MakeLine, Windows(s.samples), b.batch));
    var samples := TrimBacklog(s.samples, b.batch);
    TrimmedByTrimBacklog(s.samples, b.batch);
    t := Scope(s.config.(chunks := chunks, totalTime := b.batch), drained, lines, samples, s.sizeDependent);
  }

  /**
    The program's acceptance test: tile `i` takes the segment when its centre
    lies within 1/8 of it.
   */
  const Geometric: Acceptor := (i: nat, a: Vec2, b: Vec2) => i < TileCount && Accepts(TileCenter(i), a, b)

  /**
    The program's test takes tile `i` exactly when `i` is one of the 256
    tiles and some point of the segment lies within 1/8 of the tile's
    centre; the closest point is then such a point.
   */
  lemma GeometricIsNearTile(i: nat, a: Vec2, b: Vec2, t: real)
    ensures Geometric(i, a, b) ==> i < TileCount && NearAt(TileCenter(i), a, b, ClosestParam(TileCenter(i), a, b))
    ensures i < TileCount && NearAt(TileCenter(i), a, b, t) ==> Geometric(i, a, b)
  {
    if i < TileCount {
      AcceptsIffNearSegment(TileCenter(i), a, b, t);
    }
  }

  /** No segment is accepted by all 256 tiles: the corner tiles 0, 15 and 240 are never all near one segment. */
  lemma GeometricNeverFull(seg: Segment)
    ensures AcceptCount(Geometric, seg, TileCount) < TileCount
  {
    CornersNotAllAccept(seg.start, seg.end);
    if !Geometric(0, seg.start, seg.end) {
      AcceptCountMissing(Geometric, seg, TileCount, 0);
    } else if !Geometric(15, seg.start, seg.end) {
      AcceptCountMissing(Geometric, seg, TileCount, 15);
    } else {
      AcceptCountMissing(Geometric, seg, TileCount, 240);
    }
  }

  /**
    With the geometric test a batch never reaches 65536 assignments: before
    its last segment it is within `MaxLines - 256`, and one segment adds at
    most 255. So the `u16` offset cannot overflow in the running program.
   */
  lemma GeometricFits(samples: seq<Vec2>, buckets: seq<seq<Line>>)
    requires |buckets| == TileCount && AllEmpty(buckets)
    ensures Bin(Geometric, MakeLine, samples, buckets).count < MaxLines
  {
    var segs := Windows(samples);
    var b := Bin(Geometric, MakeLine, samples, buckets);
    BinFromEmpty(Geometric, MakeLine, samples, buckets);
    if b.batch > 0 {
      var n := b.batch - 1;
      LoadSnoc(Geometric, segs, 0, n);
      GeometricNeverFull(segs[n]);
      assert Load(Geometric, segs, 0, n) <= BudgetLimit;
    }
  }

  /** What one draw hands to the GPU: the uploaded config and lines, and the texture bind group used. */
  datatype RenderPass = RenderPass(config: Config, lines: seq<Line>, textures: BindGroup)

  /**
    `Scope::draw`: generate the chunks with the geometric test, upload config
    and lines, render with `front`, then swap `front` and `back`. The next
    draw reads the texture this one wrote.
   */
  method Draw(s: Scope) returns (t: Scope, pass: RenderPass)
    requires Valid(s)
    ensures Valid(t)
    ensures Generated(s, Geometric, t.(sizeDependent := s.sizeDependent))
    ensures pass == RenderPass(t.config, t.lines, s.sizeDependent.front)
    ensures t.sizeDependent == Swap(s.sizeDependent)
    ensures t.sizeDependent.front.read == pass.textures.write
    ensures t.sizeDependent.front.write == pass.textures.read
  {
    GeometricFits(s.samples, s.buckets);
    var g := GenerateChunks(s, Geometric);
    pass := RenderPass(g.config, g.lines, g.sizeDependent.front);
    SwapHandsOver(g.sizeDependent);
    t := g.(sizeDependent := Swap(g.sizeDependent));
  }

  /**
    `Scope::window_resized`: new textures of the new size with fresh bind
    groups, so the next draw reads A and writes B whatever the parity of
    earlier draws; the config's window size becomes the new size; nothing
    else changes.
   */
  function WindowResized(s: Scope, size: Extent): (t: Scope)
    ensures Valid(s) ==> Valid(t)
    ensures t.sizeDependent.size == size && t.sizeDependent.front == BindGroup(A, B) && Paired(t.sizeDependent)
    ensures t.config.windowSize == Vec2(size.width as real, size.height as real)
    ensures t.config.chunks == s.config.chunks && t.config.totalTime == s.config.totalTime
    ensures t.samples == s.samples && t.lines == s.lines && t.buckets == s.buckets
  {
    Scope(
      s.config.(windowSize := Vec2(size.width as real, size.height as real)),
      s.buckets, s.lines, s.samples, NewSizeDependent(size))
  }
}
