/**
  The tile directory and the flattened line buffer of `Scope::generate_chunks`.

  The 256 tile slots live four to a `Chunk4`, slot `i` at
  `chunks[i >> 2].offset_size[i & 3]`. Each slot packs the tile's offset into
  the line buffer (low half) and its line count (high half). The running
  offset is a `u16`, so the total line count must stay below 65536. The line
  buffer is the buckets laid end to end, and each bucket is drained as it is
  copied.
 */
module Directory {
  import opened Packing
  import opened Seqs
  import opened Geometry
  import opened Binning

  /** Number of `Chunk4` records in the uniform block. */
  const ChunkCount: nat := 64
  /** Slots per `Chunk4`. */
  const SlotsPerChunk: nat := 4

  /** Four packed (offset, size) pairs. */
  datatype Chunk4 = Chunk4(offsetSize: seq<u32>)

  /** The `[Chunk4; 64]` array: 64 chunks of four slots each. */
  predicate WellFormed(chunks: seq<Chunk4>)
  {
    |chunks| == ChunkCount && forall c :: c in chunks ==> |c.offsetSize| == SlotsPerChunk
  }

  /** `Config::default()`'s directory: every slot zero. */
  function DefaultChunks(): (r: seq<Chunk4>)
    ensures WellFormed(r)
    ensures forall c :: c in r ==> c.offsetSize == [0, 0, 0, 0]
  {
    seq(ChunkCount, _ => Chunk4([0, 0, 0, 0]))
  }

  /** `i >> 2`: the chunk holding slot `i`. */
  function ChunkOf(i: nat): nat
  {
    i / 4
  }

  /** `i & 3`: the position of slot `i` inside its chunk. */
  function LaneOf(i: nat): nat
  {
    i % 4
  }

  /**
    Every tile has its own slot: tile `i` is the `LaneOf(i)`-th entry of chunk
    `ChunkOf(i)`, both in range, and no two tiles share a slot.
   */
  lemma SlotAddressing(i: nat, j: nat)
    requires i < TileCount && j < TileCount
    ensures ChunkOf(i) < ChunkCount && LaneOf(i) < SlotsPerChunk
    ensures i == SlotsPerChunk * ChunkOf(i) + LaneOf(i)
    ensures (ChunkOf(i), LaneOf(i)) == (ChunkOf(j), LaneOf(j)) <==> i == j
  {
  }

  /** The word stored for tile `i`. */
  function Slot(chunks: seq<Chunk4>, i: nat): u32
    requires WellFormed(chunks) && i < TileCount
  {
    assert chunks[ChunkOf(i)] in chunks;
    chunks[ChunkOf(i)].offsetSize[LaneOf(i)]
  }

  /** `chunks[i >> 2].offset_size[i & 3] = w`: tile `i`'s slot becomes `w` and no other slot changes. */
  function SetSlot(chunks: seq<Chunk4>, i: nat, w: u32): (r: seq<Chunk4>)
    requires WellFormed(chunks) && i < TileCount
    ensures WellFormed(r)
    ensures Slot(r, i) == w
    ensures forall j :: 0 <= j < TileCount && j != i ==> Slot(r, j) == Slot(chunks, j)
  {
    var c := chunks[ChunkOf(i)];
    assert c in chunks;
    var r := chunks[ChunkOf(i) := Chunk4(c.offsetSize[LaneOf(i) := w])];
    assert forall d :: d in r ==> d in chunks || d == r[ChunkOf(i)];
    r
  }

  /** The directory entry a reader expects for tile `i`: (offset, size) of bucket `i`. */
  predicate Describes(chunks: seq<Chunk4>, buckets: seq<seq<Line>>, i: nat)
    requires WellFormed(chunks) && i < TileCount && i < |buckets|
  {
    Low16(Slot(chunks, i)) == TotalLen(buckets[..i]) && High16(Slot(chunks, i)) == |buckets[i]|
  }

  /** Extending a prefix of buckets by one more bucket. */
  lemma PrefixStep(buckets: seq<seq<Line>>, i: nat)
    requires i < |buckets|
    ensures TotalLen(buckets[..i + 1]) == TotalLen(buckets[..i]) + |buckets[i]|
  {
    assert buckets[..i + 1] == buckets[..i] + [buckets[i]];
  }

  /**
    The directory loop: for each tile in order, pack the running offset with
    the bucket's length into the tile's slot, then advance the offset. The
    `u16` offset must not overflow, so the buckets hold fewer than 65536 lines
    in all. Afterwards every slot describes its bucket: the offset is the
    number of lines in the buckets before it.
   */
  method WriteDirectory(buckets: seq<seq<Line>>, chunks: seq<Chunk4>) returns (r: seq<Chunk4>)
    requires |buckets| == TileCount && WellFormed(chunks)
    requires TotalLen(buckets) < 0x1_0000
    ensures WellFormed(r)
    ensures forall i :: 0 <= i < TileCount ==> Describes(r, buckets, i)
  {
    r := chunks;
    var offset: u16 := 0;
    for i := 0 to TileCount
      invariant WellFormed(r)
      invariant offset == TotalLen(buckets[..i])
      invariant forall j :: 0 <= j < i ==> Describes(r, buckets, j)
    {
      PrefixFits(buckets, i);
      PrefixStep(buckets, i);
      var size: u16 := |buckets[i]|;
      var next := SetSlot(r, i, Pack2xU16(offset, size));
      forall j | 0 <= j < i
        ensures Describes(next, buckets, j)
      {
        assert Describes(r, buckets, j);
        assert Slot(next, j) == Slot(r, j);
      }
      r, offset := next, offset + size;
    }
  }

  /**
    `lines.clear()` followed by draining every bucket in tile order onto the
    end of `lines`: the buffer is the buckets laid end to end and every
    bucket is left empty.
   */
  method Flatten(buckets: seq<seq<Line>>) returns (lines: seq<Line>, drained: seq<seq<Line>>)
    ensures lines == Concat(buckets)
    ensures |drained| == |buckets| && AllEmpty(drained)
  {
    lines := [];
    drained := buckets;
    for i := 0 to |buckets|
      invariant lines == Concat(buckets[..i])
      invariant |drained| == |buckets|
      invariant forall j :: 0 <= j < |buckets| ==> drained[j] == if j < i then [] else buckets[j]
    {
      assert buckets[..i + 1] == buckets[..i] + [buckets[i]];
      lines := lines + drained[i];
      drained := drained[i := []];
    }
    assert buckets[..|buckets|] == buckets;
  }

  /**
    The directory and the flattened buffer agree: the range that tile `i`'s
    slot names in the buffer holds exactly bucket `i`.
   */
  lemma {:induction false} SlotAddressesBucket(chunks: seq<Chunk4>, buckets: seq<seq<Line>>, lines: seq<Line>, i: nat)
    requires WellFormed(chunks) && |buckets| == TileCount && i < TileCount
    requires Describes(chunks, buckets, i) && lines == Concat(buckets)
    ensures Low16(Slot(chunks, i)) + High16(Slot(chunks, i)) <= |lines|
    ensures lines[Low16(Slot(chunks, i)) .. Low16(Slot(chunks, i)) + High16(Slot(chunks, i))] == buckets[i]
  {
    ConcatSlice(buckets, i);
  }
}
