/** Batching for inference and the train/validation split of the data module:
    the list comprehension that cuts a dataset into consecutive chunks of
    batch_size entries, and random_split with the 95/5 sizes. */
module Inference {
  import opened Wrappers
  import opened SeqUtil

  function Min(a: nat, b: nat): nat
  {
    if a <= b then a else b
  }

  // Chunking: [b[i : min(i + bs, len(b))] for i in range(0, len(b), bs)].

  /** range with a step of zero raises ValueError. */
  datatype ChunkError = ZeroStep

  /** Number of values range(0, n, step) yields for a positive step. */
  function RangeLength(n: nat, step: nat): nat
    requires step >= 1
  {
    (n + step - 1) / step
  }

  /** RangeLength is the ceiling of n / step: the starts i * step of the
      range lie below n, and one more step would reach n. */
  lemma RangeLengthBounds(n: nat, step: nat)
    requires step >= 1
    ensures RangeLength(n, step) * step >= n
    ensures RangeLength(n, step) >= 1 ==> (RangeLength(n, step) - 1) * step < n
  {
    var c, r := (n + step - 1) / step, (n + step - 1) % step;
    assert n + step - 1 == c * step + r;
    if c >= 1 {
      assert (c - 1) * step == c * step - step;
    }
  }

  lemma StartBelow(n: nat, step: nat, i: nat)
    requires step >= 1 && i < RangeLength(n, step)
    ensures i * step < n
  {
    RangeLengthBounds(n, step);
    MulMono(i, RangeLength(n, step) - 1, step);
  }

  /** The chunk the comprehension builds for the i-th start of the range. */
  function ChunkAt<T>(b: seq<T>, bs: nat, i: nat): seq<T>
    requires bs >= 1 && i < RangeLength(|b|, bs)
  {
    StartBelow(|b|, bs, i);
    b[i * bs .. Min(i * bs + bs, |b|)]
  }

  function ChunksOf<T>(b: seq<T>, bs: nat): seq<seq<T>>
    requires bs >= 1
  {
    seq(RangeLength(|b|, bs), i requires 0 <= i < RangeLength(|b|, bs) => ChunkAt(b, bs, i))
  }

  /** The batches of the inference forward passes; a negative batch size
      gives an empty range and so no batches. */
  function Chunks<T>(b: seq<T>, bs: int): (r: Result<seq<seq<T>>, ChunkError>)
    ensures r.Err? <==> bs == 0
    ensures bs < 0 ==> r == Ok([])
  {
    if bs == 0 then Err(ZeroStep)
    else if bs < 0 then Ok([])
    else Ok(ChunksOf(b, bs))
  }

  /** Every chunk holds between 1 and bs entries, all but the last exactly
      bs, and there are ceil(|b| / bs) of them; in particular no inference
      batch is empty. */
  lemma ChunkSizes<T>(b: seq<T>, bs: nat)
    requires bs >= 1
    ensures var cs := ChunksOf(b, bs);
      |cs| * bs >= |b| && (|cs| >= 1 ==> (|cs| - 1) * bs < |b|)
    ensures var cs := ChunksOf(b, bs);
      forall i :: 0 <= i < |cs| ==> 1 <= |cs[i]| <= bs && (i < |cs| - 1 ==> |cs[i]| == bs)
  {
    var cs := ChunksOf(b, bs);
    RangeLengthBounds(|b|, bs);
    forall i | 0 <= i < |cs|
      ensures 1 <= |cs[i]| <= bs && (i < |cs| - 1 ==> |cs[i]| == bs)
    {
      StartBelow(|b|, bs, i);
      if i < |cs| - 1 {
        StartBelow(|b|, bs, i + 1);
        assert (i + 1) * bs == i * bs + bs;
      }
    }
  }

  /** The first m chunks, joined, are the first min(m * bs, |b|) entries. */
  lemma {:induction false} ChunksPrefix<T>(b: seq<T>, bs: nat, m: nat)
    requires bs >= 1 && m <= RangeLength(|b|, bs)
    ensures Flatten(ChunksOf(b, bs)[..m]) == b[..Min(m * bs, |b|)]
  {
    var cs := ChunksOf(b, bs);
    if m == 0 {
      assert cs[..0] == [];
    } else {
      ChunksPrefix(b, bs, m - 1);
      assert cs[..m] == cs[..m - 1] + [cs[m - 1]];
      FlattenSnoc(cs[..m - 1], cs[m - 1]);
      ChunkExtends(b, bs, m - 1);
    }
  }

  /** Chunk i continues the prefix the chunks before it cover. */
  lemma ChunkExtends<T>(b: seq<T>, bs: nat, i: nat)
    requires bs >= 1 && i < RangeLength(|b|, bs)
    ensures b[..Min(i * bs, |b|)] + ChunkAt(b, bs, i) == b[..Min((i + 1) * bs, |b|)]
  {
    StartBelow(|b|, bs, i);
    assert i * bs + bs == (i + 1) * bs;
    assert Min(i * bs, |b|) == i * bs;
  }

  /** Joining the inference batches gives back the dataset, in order: every
      entry is seen exactly once. */
  lemma ChunksCover<T>(b: seq<T>, bs: nat)
    requires bs >= 1
    ensures Flatten(ChunksOf(b, bs)) == b
  {
    var cs := ChunksOf(b, bs);
    ChunksPrefix(b, bs, |cs|);
    RangeLengthBounds(|b|, bs);
    assert cs[..|cs|] == cs;
  }

  /** An empty dataset gives no batches; a dataset with fewer entries than the
      batch size gives a single batch holding all of it. */
  lemma ChunksSmall<T>(b: seq<T>, bs: nat)
    requires bs >= 1 && |b| <= bs
    ensures b == [] ==> ChunksOf(b, bs) == []
    ensures b != [] ==> ChunksOf(b, bs) == [b]
  {
    var cs := ChunksOf(b, bs);
    if b == [] {
      assert RangeLength(0, bs) == 0 by {
        DivUnique(bs - 1, bs, 0, bs - 1);
      }
    } else {
      assert RangeLength(|b|, bs) == 1 by {
        DivUnique(|b| + bs - 1, bs, 1, |b| - 1);
      }
      assert 0 * bs == 0 && Min(0 * bs + bs, |b|) == |b|;
      assert cs[0] == ChunkAt(b, bs, 0) == b[0 .. |b|] == b;
      assert cs == [b];
    }
  }

  // The train/validation split of the data module.

  /** Sizes handed to random_split: the validation part is len // 20. */
  function SplitSizes(n: nat): (sizes: seq<nat>)
    ensures |sizes| == 2 && sizes[0] + sizes[1] == n
    ensures sizes[1] * 20 <= n < (sizes[1] + 1) * 20
  {
    DivUnique(n, 20, n / 20, n % 20);
    [n - n / 20, n / 20]
  }

  /** A dataset of fewer than 20 entries gets an empty validation set; from
      20 onwards the training part is at least 19 times the validation part. */
  lemma SplitProportion(n: nat)
    ensures n < 20 ==> SplitSizes(n)[1] == 0
    ensures n >= 20 ==> SplitSizes(n)[1] >= 1 && SplitSizes(n)[0] >= 19 * SplitSizes(n)[1]
  {
    var sizes := SplitSizes(n);
    if n >= 20 {
      assert sizes[1] >= 1;
    }
  }

  /** random_split raises ValueError when the lengths do not add up to the
      dataset's size. */
  datatype SplitError = LengthsMismatch(total: nat, size: nat)

  /** random_split given the shuffled index order perm (randperm(len)): part k
      is the slice of perm between the running sums of the lengths. */
  function RandomSplit(perm: seq<nat>, lengths: seq<nat>): (r: Result<seq<seq<nat>>, SplitError>)
    ensures r.Err? <==> Sum(lengths) != |perm|
    ensures r.Ok? ==> |r.value| == |lengths| && forall k :: 0 <= k < |lengths| ==> |r.value[k]| == lengths[k]
  {
    if Sum(lengths) != |perm| then Err(LengthsMismatch(Sum(lengths), |perm|))
    else Ok(SplitParts(perm, lengths))
  }

  function SplitParts(perm: seq<nat>, lengths: seq<nat>): (parts: seq<seq<nat>>)
    requires Sum(lengths) == |perm|
    ensures |parts| == |lengths|
  {
    seq(|lengths|, k requires 0 <= k < |lengths| => SplitPiece(perm, lengths, k))
  }

  function SplitPiece(perm: seq<nat>, lengths: seq<nat>, k: nat): (piece: seq<nat>)
    requires Sum(lengths) == |perm| && k < |lengths|
    ensures |piece| == lengths[k]
  {
    PrefixSumStep(lengths, k);
    PrefixSumMonotone(lengths, k + 1, |lengths|);
    assert lengths[..|lengths|] == lengths;
    perm[Sum(lengths[..k]) .. Sum(lengths[..k + 1])]
  }

  /** The first m parts, joined, are the first Sum(lengths[..m]) indices. */
  lemma {:induction false} SplitPrefix(perm: seq<nat>, lengths: seq<nat>, m: nat)
    requires Sum(lengths) == |perm| && m <= |lengths|
    ensures Sum(lengths[..m]) <= |perm|
    ensures Flatten(SplitParts(perm, lengths)[..m]) == perm[..Sum(lengths[..m])]
  {
    var parts := SplitParts(perm, lengths);
    PrefixSumMonotone(lengths, m, |lengths|);
    assert lengths[..|lengths|] == lengths;
    if m == 0 {
      assert parts[..0] == [];
    } else {
      var lo, hi := Sum(lengths[..m - 1]), Sum(lengths[..m]);
      SplitPrefix(perm, lengths, m - 1);
      assert parts[..m] == parts[..m - 1] + [parts[m - 1]];
      FlattenSnoc(parts[..m - 1], parts[m - 1]);
      PrefixSumStep(lengths, m - 1);
      assert parts[m - 1] == SplitPiece(perm, lengths, m - 1) == perm[lo .. hi];
      assert perm[..lo] + perm[lo .. hi] == perm[..hi];
    }
  }

  /** The parts of a split, joined in order, are the shuffled order itself. */
  lemma SplitCovers(perm: seq<nat>, lengths: seq<nat>)
    requires Sum(lengths) == |perm|
    ensures RandomSplit(perm, lengths).Ok?
    ensures Flatten(RandomSplit(perm, lengths).value) == perm
  {
    var parts := SplitParts(perm, lengths);
    SplitPrefix(perm, lengths, |lengths|);
    assert parts[..|parts|] == parts;
    assert lengths[..|lengths|] == lengths;
  }

  /** The 95/5 split of a dataset of n entries: with perm a permutation of the
      indices, each index lands in exactly one of the training and validation
      sets, and the sets have n - n // 20 and n // 20 entries. */
  lemma TrainValPartition(perm: seq<nat>, n: nat)
    requires IsPermutation(perm, n)
    ensures RandomSplit(perm, SplitSizes(n)).Ok?
    ensures var parts := RandomSplit(perm, SplitSizes(n)).value;
      |parts| == 2 && |parts[0]| == n - n / 20 && |parts[1]| == n / 20 &&
      forall j :: 0 <= j < n ==> (j in parts[0] <==> j !in parts[1])
  {
    var sizes := SplitSizes(n);
    assert Sum(sizes) == n by {
      assert sizes[..1] == [sizes[0]];
      assert sizes[..1][..0] == [];
      assert sizes[..2] == sizes;
    }
    var parts := RandomSplit(perm, sizes).value;
    var cut := n - n / 20;
    assert sizes[..1][..0] == [] && sizes[..1] == [sizes[0]];
    assert parts[0] == perm[..cut];
    assert parts[1] == perm[cut..] by {
      assert sizes[..2] == sizes;
    }
    Covers(perm, n);
    forall j | 0 <= j < n
      ensures j in parts[0] <==> j !in parts[1]
    {
      assert j in perm;
      var t :| 0 <= t < n && perm[t] == j;
      assert j in parts[0] || j in parts[1] by {
        if t < cut {
          assert parts[0][t] == j;
        } else {
          assert parts[1][t - cut] == j;
        }
      }
      assert !(j in parts[0] && j in parts[1]) by {
        forall a, u | 0 <= a < |parts[0]| && 0 <= u < |parts[1]|
          ensures parts[0][a] != parts[1][u]
        {
          assert parts[0][a] == perm[a] && parts[1][u] == perm[cut + u];
        }
      }
    }
  }
}
