/**
  Sequences of sequences: total length, concatenation in order, and where
  each part lands inside the concatenation. Used for the per-tile buckets,
  their prefix-sum directory and the flattened line buffer.
 */
module Seqs {

  lemma AppendAssoc<T>(a: seq<T>, b: seq<T>, c: seq<T>)
    ensures a + b + c == a + (b + c)
  {
  }

  /** Sum of the lengths of the parts. */
  function TotalLen<T>(bs: seq<seq<T>>): nat
  {
    if |bs| == 0 then 0 else TotalLen(bs[..|bs| - 1]) + |bs[|bs| - 1]|
  }

  /** The parts joined end to end, in order. */
  function Concat<T>(bs: seq<seq<T>>): (r: seq<T>)
    ensures |r| == TotalLen(bs)
  {
    if |bs| == 0 then [] else Concat(bs[..|bs| - 1]) + bs[|bs| - 1]
  }

  lemma {:induction false} TotalLenAppend<T>(a: seq<seq<T>>, b: seq<seq<T>>)
    ensures TotalLen(a + b) == TotalLen(a) + TotalLen(b)
    decreases |b|
  {
    if |b| == 0 {
      assert a + b == a;
    } else {
      var b' := b[..|b| - 1];
      assert (a + b)[..|a + b| - 1] == a + b';
      TotalLenAppend(a, b');
    }
  }

  lemma {:induction false} ConcatAppend<T>(a: seq<seq<T>>, b: seq<seq<T>>)
    ensures Concat(a + b) == Concat(a) + Concat(b)
    decreases |b|
  {
    if |b| == 0 {
      assert a + b == a;
    } else {
      var b' := b[..|b| - 1];
      assert (a + b)[..|a + b| - 1] == a + b';
      ConcatAppend(a, b');
    }
  }

  /** A prefix plus the next part never exceeds the total. */
  lemma PrefixFits<T>(bs: seq<seq<T>>, i: nat)
    requires i < |bs|
    ensures TotalLen(bs[..i]) + |bs[i]| <= TotalLen(bs)
  {
    assert bs == bs[..i + 1] + bs[i + 1..];
    TotalLenAppend(bs[..i + 1], bs[i + 1..]);
    assert bs[..i + 1][..i] == bs[..i];
  }

  /**
    Part `i` sits in the concatenation exactly at the range that starts at
    the total length of the parts before it.
   */
  lemma ConcatSlice<T>(bs: seq<seq<T>>, i: nat)
    requires i < |bs|
    ensures TotalLen(bs[..i]) + |bs[i]| <= |Concat(bs)|
    ensures Concat(bs)[TotalLen(bs[..i]) .. TotalLen(bs[..i]) + |bs[i]|] == bs[i]
  {
    PrefixFits(bs, i);
    assert bs == bs[..i + 1] + bs[i + 1..];
    ConcatAppend(bs[..i + 1], bs[i + 1..]);
    assert bs[..i + 1][..i] == bs[..i];
    assert Concat(bs[..i + 1]) == Concat(bs[..i]) + bs[i];
  }

  /** Replacing one part changes the total by the difference in length. */
  lemma TotalLenUpdate<T>(bs: seq<seq<T>>, i: nat, x: seq<T>)
    requires i < |bs|
    ensures TotalLen(bs[i := x]) + |bs[i]| == TotalLen(bs) + |x|
  {
    assert bs == bs[..i] + [bs[i]] + bs[i + 1..];
    assert bs[i := x] == bs[..i] + [x] + bs[i + 1..];
    TotalLenAppend(bs[..i] + [bs[i]], bs[i + 1..]);
    TotalLenAppend(bs[..i] + [x], bs[i + 1..]);
    TotalLenAppend(bs[..i], [bs[i]]);
    TotalLenAppend(bs[..i], [x]);
    assert [bs[i]][..0] == [] && [x][..0] == [];
  }

  /** A sequence of empty parts has total length zero. */
  lemma {:induction false} TotalLenAllEmpty<T>(bs: seq<seq<T>>)
    requires forall j :: 0 <= j < |bs| ==> bs[j] == []
    ensures TotalLen(bs) == 0
    decreases |bs|
  {
    if |bs| > 0 {
      TotalLenAllEmpty(bs[..|bs| - 1]);
    }
  }
}
