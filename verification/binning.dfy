/**
  The binning half of `Scope::generate_chunks`: every adjacent pair of
  samples becomes a `Line`, the line is appended to the bucket of every tile
  that accepts it, and the pass stops after the segment that pushes the
  number of (segment, tile) assignments past `MAX_LINES - 256`.

  The acceptance test is a parameter, so the budget and ordering facts here
  hold for any test; `Frame` plugs in the geometric one.
 */
module Binning {
  import opened Packing
  import opened Geometry
  import opened Seqs

  /** Capacity of the GPU line buffer, in lines. */
  const MaxLines: nat := 65536
  /** Room kept free so that one more segment (at most 256 tiles) always fits. */
  const BudgetMargin: nat := 256
  /** Past this many assignments the pass stops. */
  const BudgetLimit: nat := MaxLines - BudgetMargin

  /** A line as uploaded: packed start, packed direction, index in the batch. */
  datatype Line = Line(start: u32, v: u32, time: nat)

  /** One element of `samples.windows(2)`. */
  datatype Segment = Segment(start: Vec2, end: Vec2)

  /** Whether tile `i` takes the segment from the first to the second point. */
  type Acceptor = (nat, Vec2, Vec2) -> bool

  /** How segment `k` of the batch becomes a line; the program uses `MakeLine`. */
  type LineMaker = (Segment, nat) -> Line

  /** The maker stamps each line with its segment's index in the batch. */
  ghost predicate Stamps(mk: LineMaker)
  {
    forall seg, k :: mk(seg, k).time == k
  }

  /** `samples.windows(2)`: each adjacent pair, in order. */
  function Windows(samples: seq<Vec2>): (w: seq<Segment>)
    ensures |w| == if |samples| == 0 then 0 else |samples| - 1
    ensures forall k :: 0 <= k < |w| ==> w[k] == Segment(samples[k], samples[k + 1])
  {
    if |samples| < 2 then [] else seq(|samples| - 1, k requires 0 <= k < |samples| - 1 => Segment(samples[k], samples[k + 1]))
  }

  /**
    The line for segment `k`: its start and its direction `end - start`, each
    packed as two snorm16 halves (x low, y high), and time `k`.
   */
  function MakeLine(seg: Segment, k: nat): (l: Line)
    ensures l.time == k
  {
    var d := Sub(seg.end, seg.start);
    Line(Pack2x16Snorm(seg.start.x, seg.start.y), Pack2x16Snorm(d.x, d.y), k)
  }

  /** `MakeLine` stamps each line with its segment index. */
  lemma MakeLineStamps()
    ensures Stamps(MakeLine)
  {
  }

  /**
    Reading a line back: the low and high halves of `start` are the packed
    coordinates of the segment start, those of `v` the packed direction
    `end - start`, and `time` is the segment index.
   */
  lemma MakeLineLayout(seg: Segment, k: nat)
    ensures var l := MakeLine(seg, k);
      && l.time == k
      && Low16(l.start) == Pack16Snorm(seg.start.x) && High16(l.start) == Pack16Snorm(seg.start.y)
      && Low16(l.v) == Pack16Snorm(seg.end.x - seg.start.x)
      && High16(l.v) == Pack16Snorm(seg.end.y - seg.start.y)
  {
  }

  /** Number of tiles in `[0, n)` that accept the segment. */
  function AcceptCount(accepts: Acceptor, seg: Segment, n: nat): (c: nat)
    ensures c <= n
  {
    if n == 0 then 0
    else AcceptCount(accepts, seg, n - 1) + (if accepts(n - 1, seg.start, seg.end) then 1 else 0)
  }

  /** A tile in `[0, n)` that refuses the segment keeps the count below `n`. */
  lemma {:induction false} AcceptCountMissing(accepts: Acceptor, seg: Segment, n: nat, j: nat)
    requires j < n && !accepts(j, seg.start, seg.end)
    ensures AcceptCount(accepts, seg, n) < n
  {
    if j < n - 1 {
      AcceptCountMissing(accepts, seg, n - 1, j);
    }
  }

  /** A tile in `[0, n)` that accepts the segment is one of the counted ones. */
  lemma {:induction false} AcceptCountIncludes(accepts: Acceptor, seg: Segment, n: nat, i: nat)
    requires i < n && accepts(i, seg.start, seg.end)
    ensures AcceptCount(accepts, seg, n) >= 1
  {
    if i < n - 1 {
      AcceptCountIncludes(accepts, seg, n - 1, i);
    }
  }

  /**
    The tile loop for one segment over tiles `[0, n)`, in increasing order:
    every accepting tile's bucket gets `line` appended and the assignment
    counter goes up by one. The program runs it with `n = 256`.
   */
  function AddToTiles(accepts: Acceptor, buckets: seq<seq<Line>>, seg: Segment, line: Line, n: nat, count: nat)
    : (r: (seq<seq<Line>>, nat))
    requires |buckets| == TileCount && n <= TileCount
    ensures |r.0| == TileCount
    ensures forall j :: 0 <= j < TileCount ==>
      r.0[j] == if j < n && accepts(j, seg.start, seg.end) then buckets[j] + [line] else buckets[j]
    ensures r.1 == count + AcceptCount(accepts, seg, n)
    ensures TotalLen(r.0) + count == TotalLen(buckets) + r.1
  {
    if n == 0 then (buckets, count)
    else
      var prev := AddToTiles(accepts, buckets, seg, line, n - 1, count);
      var i := n - 1;
      if accepts(i, seg.start, seg.end) then
        TotalLenUpdate(prev.0, i, prev.0[i] + [line]);
        (prev.0[i := prev.0[i] + [line]], prev.1 + 1)
      else
        prev
  }

  /** Tile `i`'s share of segment `lo`: its line if the tile accepts it, else nothing. */
  function TileShare(accepts: Acceptor, mk: LineMaker, segs: seq<Segment>, i: nat, lo: nat): seq<Line>
    requires lo < |segs|
  {
    if accepts(i, segs[lo].start, segs[lo].end) then [mk(segs[lo], lo)] else []
  }

  /** Lines of segments `[lo, hi)` that tile `i` accepts, in segment order. */
  function TileLines(accepts: Acceptor, mk: LineMaker, segs: seq<Segment>, i: nat, lo: nat, hi: nat): seq<Line>
    requires lo <= hi <= |segs|
    decreases hi - lo
  {
    if lo == hi then [] else TileShare(accepts, mk, segs, i, lo) + TileLines(accepts, mk, segs, i, lo + 1, hi)
  }

  /** Total (segment, tile) assignments made by segments `[lo, hi)`. */
  function Load(accepts: Acceptor, segs: seq<Segment>, lo: nat, hi: nat): nat
    requires lo <= hi <= |segs|
    decreases hi - lo
  {
    if lo == hi then 0 else AcceptCount(accepts, segs[lo], TileCount) + Load(accepts, segs, lo + 1, hi)
  }

  /** Result of the binning pass. */
  datatype Binned = Binned(buckets: seq<seq<Line>>, count: nat, batch: nat)

  /**
    The segment loop from segment `k` on, with `count` assignments made so
    far. After each segment the counter is checked and the loop breaks once
    it exceeds `BudgetLimit`; `batch` is the number of segments processed.
    Entered under the limit, the pass ends within `MaxLines`.
   */
  function BinFrom(accepts: Acceptor, mk: LineMaker, segs: seq<Segment>, k: nat, buckets: seq<seq<Line>>, count: nat): (r: Binned)
    requires k <= |segs| && |buckets| == TileCount && count <= BudgetLimit
    ensures |r.buckets| == TileCount
    ensures k <= r.batch <= |segs| && (k < |segs| ==> k < r.batch)
    ensures r.batch < |segs| ==> r.count > BudgetLimit
    ensures r.count <= MaxLines
    ensures TotalLen(r.buckets) + count == TotalLen(buckets) + r.count
    decreases |segs| - k
  {
    if k == |segs| then Binned(buckets, count, k)
    else
      var step := AddToTiles(accepts, buckets, segs[k], mk(segs[k], k), TileCount, count);
      if step.1 > BudgetLimit then Binned(step.0, step.1, k + 1)
      else BinFrom(accepts, mk, segs, k + 1, step.0, step.1)
  }

  lemma TileLinesCons(accepts: Acceptor, mk: LineMaker, segs: seq<Segment>, i: nat, lo: nat, hi: nat)
    requires lo < hi <= |segs|
    ensures TileLines(accepts, mk, segs, i, lo, hi) == TileShare(accepts, mk, segs, i, lo) + TileLines(accepts, mk, segs, i, lo + 1, hi)
  {
  }

  /** Each bucket gains exactly the lines of the processed segments its tile accepts, in order. */
  lemma {:induction false} BinFromBuckets(accepts: Acceptor, mk: LineMaker, segs: seq<Segment>, k: nat, buckets: seq<seq<Line>>, count: nat, i: nat)
    requires k <= |segs| && |buckets| == TileCount && count <= BudgetLimit && i < TileCount
    ensures var r := BinFrom(accepts, mk, segs, k, buckets, count);
      r.buckets[i] == buckets[i] + TileLines(accepts, mk, segs, i, k, r.batch)
    decreases |segs| - k
  {
    var r := BinFrom(accepts, mk, segs, k, buckets, count);
    if k == |segs| {
      assert r.buckets == buckets && r.batch == k;
    } else {
      var step := AddToTiles(accepts, buckets, segs[k], mk(segs[k], k), TileCount, count);
      var share := TileShare(accepts, mk, segs, i, k);
      assert step.0[i] == buckets[i] + share;
      TileLinesCons(accepts, mk, segs, i, k, r.batch);
      var rest := TileLines(accepts, mk, segs, i, k + 1, r.batch);
      AppendAssoc(buckets[i], share, rest);
      if step.1 <= BudgetLimit {
        BinFromBuckets(accepts, mk, segs, k + 1, step.0, step.1, i);
      } else {
        assert rest == [];
      }
    }
  }

  /**
    The counter equals the assignments of the processed segments; it stayed
    within the limit after every segment but the last, and it is over the
    limit whenever segments are left unprocessed.
   */
  lemma {:induction false} BinFromLoad(accepts: Acceptor, mk: LineMaker, segs: seq<Segment>, k: nat, buckets: seq<seq<Line>>, count: nat)
    requires k <= |segs| && |buckets| == TileCount && count <= BudgetLimit
    ensures var r := BinFrom(accepts, mk, segs, k, buckets, count);
      && r.count == count + Load(accepts, segs, k, r.batch)
      && forall n :: k < n < r.batch ==> count + Load(accepts, segs, k, n) <= BudgetLimit
    decreases |segs| - k
  {
    var r := BinFrom(accepts, mk, segs, k, buckets, count);
    if k == |segs| {
      assert r.count == count && r.batch == k;
    } else {
      var step := AddToTiles(accepts, buckets, segs[k], mk(segs[k], k), TileCount, count);
      assert step.1 == count + AcceptCount(accepts, segs[k], TileCount);
      if step.1 <= BudgetLimit {
        assert r == BinFrom(accepts, mk, segs, k + 1, step.0, step.1);
        BinFromLoad(accepts, mk, segs, k + 1, step.0, step.1);
        forall n | k < n < r.batch
          ensures count + Load(accepts, segs, k, n) <= BudgetLimit
        {
          assert Load(accepts, segs, k, n) == AcceptCount(accepts, segs[k], TileCount) + Load(accepts, segs, k + 1, n);
        }
        assert Load(accepts, segs, k, r.batch) == AcceptCount(accepts, segs[k], TileCount) + Load(accepts, segs, k + 1, r.batch);
      } else {
        assert r == Binned(step.0, step.1, k + 1);
        assert Load(accepts, segs, k, k + 1) == AcceptCount(accepts, segs[k], TileCount);
      }
    }
  }

  /** The whole binning pass over a backlog, starting from the given buckets. */
  function Bin(accepts: Acceptor, mk: LineMaker, samples: seq<Vec2>, buckets: seq<seq<Line>>): Binned
    requires |buckets| == TileCount
  {
    BinFrom(accepts, mk, Windows(samples), 0, buckets, 0)
  }

  /** Appending one more segment to a range of segments. */
  lemma {:induction false} LoadSnoc(accepts: Acceptor, segs: seq<Segment>, lo: nat, hi: nat)
    requires lo <= hi < |segs|
    ensures Load(accepts, segs, lo, hi + 1) == Load(accepts, segs, lo, hi) + AcceptCount(accepts, segs[hi], TileCount)
    decreases hi - lo
  {
    var last := AcceptCount(accepts, segs[hi], TileCount);
    if lo < hi {
      var first := AcceptCount(accepts, segs[lo], TileCount);
      LoadSnoc(accepts, segs, lo + 1, hi);
      assert Load(accepts, segs, lo, hi + 1) == first + Load(accepts, segs, lo + 1, hi + 1);
      assert Load(accepts, segs, lo, hi) == first + Load(accepts, segs, lo + 1, hi);
    } else {
      assert Load(accepts, segs, lo, hi + 1) == last + Load(accepts, segs, hi + 1, hi + 1);
    }
  }

  lemma {:induction false} TileLinesSnoc(accepts: Acceptor, mk: LineMaker, segs: seq<Segment>, i: nat, lo: nat, hi: nat)
    requires lo <= hi < |segs|
    ensures TileLines(accepts, mk, segs, i, lo, hi + 1) == TileLines(accepts, mk, segs, i, lo, hi) + TileShare(accepts, mk, segs, i, hi)
    decreases hi - lo
  {
    if lo < hi {
      TileLinesSnoc(accepts, mk, segs, i, lo + 1, hi);
      AppendAssoc(TileShare(accepts, mk, segs, i, lo), TileLines(accepts, mk, segs, i, lo + 1, hi), TileShare(accepts, mk, segs, i, hi));
    }
  }

  /** A tile's share of a segment is at most the segment's assignment count. */
  lemma ShareWithinCount(accepts: Acceptor, mk: LineMaker, segs: seq<Segment>, i: nat, lo: nat)
    requires lo < |segs| && i < TileCount
    ensures |TileShare(accepts, mk, segs, i, lo)| <= AcceptCount(accepts, segs[lo], TileCount)
  {
    if accepts(i, segs[lo].start, segs[lo].end) {
      AcceptCountIncludes(accepts, segs[lo], TileCount, i);
    }
  }

  /** One tile's bucket never holds more lines than there are assignments. */
  lemma {:induction false} TileLinesWithinLoad(accepts: Acceptor, mk: LineMaker, segs: seq<Segment>, i: nat, lo: nat, hi: nat)
    requires lo <= hi <= |segs| && i < TileCount
    ensures |TileLines(accepts, mk, segs, i, lo, hi)| <= Load(accepts, segs, lo, hi)
    decreases hi - lo
  {
    if lo < hi {
      TileLinesWithinLoad(accepts, mk, segs, i, lo + 1, hi);
      ShareWithinCount(accepts, mk, segs, i, lo);
    }
  }

  /** Line `l` is the line of a segment in `[lo, hi)` that tile `i` accepts. */
  predicate TileLineOf(accepts: Acceptor, mk: LineMaker, segs: seq<Segment>, i: nat, lo: nat, hi: nat, l: Line)
    requires hi <= |segs|
  {
    && lo <= l.time < hi
    && l == mk(segs[l.time], l.time)
    && accepts(i, segs[l.time].start, segs[l.time].end)
  }

  /** Each of a tile's lines is the line of a segment in the range that the tile accepts. */
  lemma {:induction false} TileLinesSound(accepts: Acceptor, mk: LineMaker, segs: seq<Segment>, i: nat, lo: nat, hi: nat)
    requires lo <= hi <= |segs| && Stamps(mk)
    ensures forall l :: l in TileLines(accepts, mk, segs, i, lo, hi) ==> TileLineOf(accepts, mk, segs, i, lo, hi, l)
    decreases hi - lo
  {
    if lo < hi {
      TileLinesSound(accepts, mk, segs, i, lo + 1, hi);
      var share := TileShare(accepts, mk, segs, i, lo);
      var rest := TileLines(accepts, mk, segs, i, lo + 1, hi);
      forall l | l in share + rest
        ensures TileLineOf(accepts, mk, segs, i, lo, hi, l)
      {
        if l in share {
          assert share == [mk(segs[lo], lo)];
        } else {
          assert TileLineOf(accepts, mk, segs, i, lo + 1, hi, l);
        }
      }
    }
  }

  /** Line times strictly increase along `ls`. */
  predicate TimesIncrease(ls: seq<Line>)
  {
    forall j, j' :: 0 <= j < j' < |ls| ==> ls[j].time < ls[j'].time
  }

  /** Along a tile's bucket the line times strictly increase. */
  lemma {:induction false} TileLinesSorted(accepts: Acceptor, mk: LineMaker, segs: seq<Segment>, i: nat, lo: nat, hi: nat)
    requires lo <= hi <= |segs| && Stamps(mk)
    ensures TimesIncrease(TileLines(accepts, mk, segs, i, lo, hi))
    decreases hi - lo
  {
    if lo < hi {
      TileLinesSorted(accepts, mk, segs, i, lo + 1, hi);
      TileLinesSound(accepts, mk, segs, i, lo + 1, hi);
      var share := TileShare(accepts, mk, segs, i, lo);
      var rest := TileLines(accepts, mk, segs, i, lo + 1, hi);
      var ls := share + rest;
      assert TimesIncrease(rest);
      forall j, j' | 0 <= j < j' < |ls|
        ensures ls[j].time < ls[j'].time
      {
        var j1 := j' - |share|;
        assert 0 <= j1 < |rest| && ls[j'] == rest[j1];
        assert rest[j1] in rest;
        assert TileLineOf(accepts, mk, segs, i, lo + 1, hi, rest[j1]);
        if j < |share| {
          assert share == [mk(segs[lo], lo)];
          assert ls[j].time == lo;
        } else {
          var j0 := j - |share|;
          assert 0 <= j0 < j1 && ls[j] == rest[j0];
          assert rest[j0].time < rest[j1].time;
        }
      }
    }
  }

  /** Every segment in the range that the tile accepts contributes its line. */
  lemma {:induction false} TileLinesComplete(accepts: Acceptor, mk: LineMaker, segs: seq<Segment>, i: nat, lo: nat, hi: nat, k: nat)
    requires lo <= k < hi <= |segs| && accepts(i, segs[k].start, segs[k].end)
    ensures mk(segs[k], k) in TileLines(accepts, mk, segs, i, lo, hi)
    decreases hi - lo
  {
    var share := TileShare(accepts, mk, segs, i, lo);
    var rest := TileLines(accepts, mk, segs, i, lo + 1, hi);
    var ls := TileLines(accepts, mk, segs, i, lo, hi);
    assert ls == share + rest;
    if k == lo {
      assert share == [mk(segs[k], k)];
      assert ls[0] == mk(segs[k], k);
    } else {
      TileLinesComplete(accepts, mk, segs, i, lo + 1, hi, k);
      var j :| 0 <= j < |rest| && rest[j] == mk(segs[k], k);
      assert ls[|share| + j] == rest[j];
    }
  }

  /** Every bucket of a fresh set is empty. */
  predicate AllEmpty(buckets: seq<seq<Line>>)
  {
    forall i :: 0 <= i < |buckets| ==> buckets[i] == []
  }

  /** Binning from empty buckets fills bucket `i` with exactly tile `i`'s lines of the processed segments. */
  lemma BinFromEmptyBuckets(accepts: Acceptor, mk: LineMaker, samples: seq<Vec2>, buckets: seq<seq<Line>>, i: nat)
    requires |buckets| == TileCount && AllEmpty(buckets) && i < TileCount
    ensures var r := Bin(accepts, mk, samples, buckets);
      r.buckets[i] == TileLines(accepts, mk, Windows(samples), i, 0, r.batch)
  {
    BinFromBuckets(accepts, mk, Windows(samples), 0, buckets, 0, i);
    assert buckets[i] == [];
  }

  /** The reference directory contents: tile by tile, the lines of segments `[0, batch)` the tile accepts. */
  function PerTile(accepts: Acceptor, mk: LineMaker, segs: seq<Segment>, batch: nat): (r: seq<seq<Line>>)
    requires batch <= |segs|
    ensures |r| == TileCount
  {
    seq(TileCount, i requires 0 <= i < TileCount => TileLines(accepts, mk, segs, i, 0, batch))
  }

  /** Binning from empty buckets leaves exactly the reference per-tile lists in the buckets. */
  lemma BinIsPerTile(accepts: Acceptor, mk: LineMaker, samples: seq<Vec2>, buckets: seq<seq<Line>>)
    requires |buckets| == TileCount && AllEmpty(buckets)
    ensures var r := Bin(accepts, mk, samples, buckets);
      r.buckets == PerTile(accepts, mk, Windows(samples), r.batch)
  {
    var r := Bin(accepts, mk, samples, buckets);
    var p := PerTile(accepts, mk, Windows(samples), r.batch);
    forall i | 0 <= i < TileCount
      ensures r.buckets[i] == p[i]
    {
      BinFromEmptyBuckets(accepts, mk, samples, buckets, i);
    }
  }

  /**
    Binning from empty buckets: the counter is the total of the processed
    segments' assignments and of the bucket lengths, at least one segment is
    processed when there is one, and the pass stops early only once the
    counter is past the limit.
   */
  lemma BinFromEmpty(accepts: Acceptor, mk: LineMaker, samples: seq<Vec2>, buckets: seq<seq<Line>>)
    requires |buckets| == TileCount && AllEmpty(buckets)
    ensures var r := Bin(accepts, mk, samples, buckets);
      var segs := Windows(samples);
      && (|samples| >= 2 ==> 1 <= r.batch <= |samples| - 1)
      && r.count == Load(accepts, segs, 0, r.batch) == TotalLen(r.buckets)
      && (forall n :: 0 < n < r.batch ==> Load(accepts, segs, 0, n) <= BudgetLimit)
      && (r.batch < |segs| ==> r.count > BudgetLimit)
  {
    TotalLenAllEmpty(buckets);
    BinFromLoad(accepts, mk, Windows(samples), 0, buckets, 0);
  }

  /**
    If the segments before the last of `[0, batch)` stayed within the limit,
    a tile holds at most `MaxLines - 255` of the batch's lines.
   */
  lemma {:induction false} TileLinesBudget(accepts: Acceptor, mk: LineMaker, segs: seq<Segment>, i: nat, batch: nat)
    requires 1 <= batch <= |segs| && i < TileCount
    requires Load(accepts, segs, 0, batch - 1) <= BudgetLimit
    ensures |TileLines(accepts, mk, segs, i, 0, batch)| <= BudgetLimit + 1
  {
    TileLinesSnoc(accepts, mk, segs, i, 0, batch - 1);
    TileLinesWithinLoad(accepts, mk, segs, i, 0, batch - 1);
  }

  /**
    A single bucket after binning from empty buckets holds at most
    `MaxLines - 255` lines: all but the last segment stayed within
    `MaxLines - 256` assignments, and the last adds at most one line per tile.
   */
  lemma BucketWithinBudget(accepts: Acceptor, mk: LineMaker, samples: seq<Vec2>, buckets: seq<seq<Line>>, i: nat)
    requires |buckets| == TileCount && AllEmpty(buckets) && i < TileCount
    ensures |Bin(accepts, mk, samples, buckets).buckets[i]| <= BudgetLimit + 1
  {
    var segs := Windows(samples);
    var r := Bin(accepts, mk, samples, buckets);
    BinFromEmpty(accepts, mk, samples, buckets);
    BinFromEmptyBuckets(accepts, mk, samples, buckets, i);
    if r.batch > 0 {
      var n := r.batch - 1;
      assert Load(accepts, segs, 0, n) <= BudgetLimit;
      TileLinesBudget(accepts, mk, segs, i, r.batch);
    }
  }

  /**
    The budget: after binning from empty buckets at most `MaxLines`
    assignments exist, and no bucket holds more than `MaxLines - 255` lines,
    so every bucket length fits in a `u16`.
   */
  lemma BinBudget(accepts: Acceptor, mk: LineMaker, samples: seq<Vec2>, buckets: seq<seq<Line>>)
    requires |buckets| == TileCount && AllEmpty(buckets)
    ensures var r := Bin(accepts, mk, samples, buckets);
      && TotalLen(r.buckets) <= MaxLines
      && forall i :: 0 <= i < TileCount ==> |r.buckets[i]| <= BudgetLimit + 1
  {
    BinFromEmpty(accepts, mk, samples, buckets);
    forall i | 0 <= i < TileCount
      ensures |Bin(accepts, mk, samples, buckets).buckets[i]| <= BudgetLimit + 1
    {
      BucketWithinBudget(accepts, mk, samples, buckets, i);
    }
  }
}
