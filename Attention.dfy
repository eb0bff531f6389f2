/** The index-level part of an attention block: which attention weights
    are forced to negative infinity before the softmax (padding mask,
    distance cut-off, top-k selection), and how the running site summary
    grows across blocks. The weights themselves are opaque scores. */
module Attention {
  import opened Wrappers
  import SeqUtil

  /** An attention weight before the softmax: a finite score or -infinity. */
  datatype Score = NegInf | Fin(v: real)

  /** The order topk ranks scores by; -infinity is below every finite score. */
  predicate Le(a: Score, b: Score)
  {
    a.NegInf? || (b.Fin? && a.v <= b.v)
  }

  /** The weights of all heads for one bond (site i, neighbour slot j). */
  type Cell = seq<Score>

  function NegInfs(n: nat): (c: Cell)
    ensures |c| == n && forall h :: 0 <= h < n ==> c[h] == NegInf
  {
    seq(n, _ => NegInf)
  }

  /** weights[mask] = -inf on one bond: every head of a masked bond is -infinity. */
  function MaskCell(c: Cell, masked: bool): (r: Cell)
    ensures |r| == |c|
    ensures forall h :: 0 <= h < |c| ==> r[h] == if masked then NegInf else c[h]
  {
    if masked then NegInfs(|c|) else c
  }

  /** Masking in place with a boolean table of the same (sites, slots) shape,
      as the blocks do with the padding mask and with the cut-off mask. */
  method MaskWeights(w: array2<Cell>, mask: array2<bool>)
    requires w.Length0 == mask.Length0 && w.Length1 == mask.Length1
    modifies w
    ensures forall i, j :: 0 <= i < w.Length0 && 0 <= j < w.Length1 ==>
      w[i, j] == MaskCell(old(w[i, j]), mask[i, j])
  {
    var i := 0;
    while i < w.Length0
      invariant 0 <= i <= w.Length0
      invariant forall a, b :: 0 <= a < i && 0 <= b < w.Length1 ==>
        w[a, b] == MaskCell(old(w[a, b]), mask[a, b])
      invariant forall a, b :: i <= a < w.Length0 && 0 <= b < w.Length1 ==> w[a, b] == old(w[a, b])
    {
      var j := 0;
      while j < w.Length1
        invariant 0 <= j <= w.Length1
        invariant forall a, b :: 0 <= a < i && 0 <= b < w.Length1 ==>
          w[a, b] == MaskCell(old(w[a, b]), mask[a, b])
        invariant forall b :: 0 <= b < j ==> w[i, b] == MaskCell(old(w[i, b]), mask[i, b])
        invariant forall b :: j <= b < w.Length1 ==> w[i, b] == old(w[i, b])
        invariant forall a, b :: i < a < w.Length0 && 0 <= b < w.Length1 ==> w[a, b] == old(w[a, b])
      {
        if mask[i, j] {
          w[i, j] := NegInfs(|w[i, j]|);
        }
        j := j + 1;
      }
      i := i + 1;
    }
  }

  /** The padding mask followed by the optional cut-off mask leaves a head
      weight finite exactly when the bond is neither padding nor beyond the
      cut-off and the weight was finite; applying the two masks one after
      the other is masking once with their union. */
  lemma MaskTwice(c: Cell, padding: bool, cutoff: Option<bool>)
    ensures var afterCutoff := if cutoff.Some? then MaskCell(MaskCell(c, padding), cutoff.value)
                               else MaskCell(c, padding);
      afterCutoff == MaskCell(c, padding || (cutoff.Some? && cutoff.value)) &&
      forall h :: 0 <= h < |c| ==>
        (afterCutoff[h].Fin? <==> !padding && !(cutoff.Some? && cutoff.value) && c[h].Fin?)
  {
  }

  /** The distance cut-off mask: it exists exactly when the cut-off is
      non-negative and marks the bonds whose distance exceeds it. */
  function CutoffMask(distances: seq<seq<real>>, cutoff: real): (m: Option<seq<seq<bool>>>)
    ensures m.Some? <==> cutoff >= 0.0
    ensures m.Some? ==> (|m.value| == |distances| &&
      forall i :: 0 <= i < |distances| ==> (|m.value[i]| == |distances[i]| &&
        forall j :: 0 <= j < |distances[i]| ==> (m.value[i][j] <==> distances[i][j] > cutoff)))
  {
    if cutoff >= 0.0 then
      Some(seq(|distances|, i requires 0 <= i < |distances| =>
        seq(|distances[i]|, j requires 0 <= j < |distances[i]| => distances[i][j] > cutoff)))
    else None
  }

  // k_softmax, along the neighbour axis of one (site, head) line.

  datatype TopKError = KOutOfRange(k: int, n: nat)   // topk refuses k < 0 and k > n

  /** top holds k distinct positions of xs whose scores are each at least
      every score left out: what topk(k, sorted=False) returns. */
  predicate IsTopK(xs: seq<Score>, k: nat, top: seq<nat>)
  {
    |top| == k && SeqUtil.Distinct(top) &&
    (forall a :: 0 <= a < k ==> top[a] < |xs|) &&
    (forall a, j :: 0 <= a < k && 0 <= j < |xs| && j !in top ==> Le(xs[j], xs[top[a]]))
  }

  /** The scores with every position outside top set to -infinity. */
  function KeepOnly(xs: seq<Score>, top: seq<nat>): (r: seq<Score>)
    ensures |r| == |xs|
  {
    seq(|xs|, j requires 0 <= j < |xs| => if j in top then xs[j] else NegInf)
  }

  /** k_softmax before its softmax: k == -1 leaves the line alone, a k topk
      refuses raises, and otherwise the mask of top positions is scattered
      and every other position is overwritten with -infinity. */
  method KSoftmaxMask(x: array<Score>, k: int, top: seq<nat>) returns (res: Result<(), TopKError>)
    requires 0 <= k <= x.Length ==> IsTopK(x[..], k, top)
    modifies x
    ensures k == -1 ==> res.Ok? && x[..] == old(x[..])
    ensures k != -1 && !(0 <= k <= x.Length) ==> res == Err(KOutOfRange(k, x.Length)) && x[..] == old(x[..])
    ensures 0 <= k <= x.Length ==> res.Ok? && x[..] == KeepOnly(old(x[..]), top)
  {
    if k == -1 {
      return Ok(());
    }
    if k < 0 || k > x.Length {
      return Err(KOutOfRange(k, x.Length));
    }
    var keep := new bool[x.Length](_ => false);
    var a := 0;
    while a < |top|
      invariant 0 <= a <= |top|
      invariant forall j :: 0 <= j < keep.Length ==> (keep[j] <==> j in top[..a])
      invariant x[..] == old(x[..])
    {
      assert top[..a + 1] == top[..a] + [top[a]];
      keep[top[a]] := true;
      a := a + 1;
    }
    assert top[..a] == top;
    var j := 0;
    while j < x.Length
      invariant 0 <= j <= x.Length
      invariant forall t :: 0 <= t < j ==> x[t] == if t in top then old(x[t]) else NegInf
      invariant forall t :: j <= t < x.Length ==> x[t] == old(x[t])
      invariant keep.Length == x.Length
      invariant forall t :: 0 <= t < keep.Length ==> (keep[t] <==> t in top)
    {
      if !keep[j] {
        x[j] := NegInf;
      }
      j := j + 1;
    }
    return Ok(());
  }

  /** The number of positions the mask keeps. */
  function Kept(n: nat, top: seq<nat>): set<nat>
  {
    set j | 0 <= j < n && j in top
  }

  /** With a valid top-k, the mask keeps exactly k positions, keeps their
      scores, sets the others to -infinity, and every kept score is at least
      every score it replaced. */
  lemma KeepOnlyTopK(xs: seq<Score>, k: nat, top: seq<nat>)
    requires IsTopK(xs, k, top)
    ensures |Kept(|xs|, top)| == k
    ensures forall j :: 0 <= j < |xs| ==>
      KeepOnly(xs, top)[j] == if j in Kept(|xs|, top) then xs[j] else NegInf
    ensures forall j1, j2 :: j1 in Kept(|xs|, top) && 0 <= j2 < |xs| && j2 !in Kept(|xs|, top) ==>
      Le(xs[j2], KeepOnly(xs, top)[j1])
  {
    SeqUtil.DistinctCard(top);
    assert Kept(|xs|, top) == SeqUtil.Elements(top);
    forall j1, j2 | j1 in Kept(|xs|, top) && 0 <= j2 < |xs| && j2 !in Kept(|xs|, top)
      ensures Le(xs[j2], KeepOnly(xs, top)[j1])
    {
      var a :| 0 <= a < |top| && top[a] == j1;
      assert Le(xs[j2], xs[top[a]]);
    }
  }

  /** With k equal to the line length every position is kept: the mask is
      the identity. */
  lemma KeepAllWhenKIsLength(xs: seq<Score>, top: seq<nat>)
    requires IsTopK(xs, |xs|, top)
    ensures KeepOnly(xs, top) == xs
  {
    SeqUtil.Covers(top, |xs|);
  }

  /** k == 0 masks the whole line. */
  lemma KeepNoneWhenKIsZero(xs: seq<Score>, top: seq<nat>)
    requires IsTopK(xs, 0, top)
    ensures KeepOnly(xs, top) == NegInfs(|xs|)
  {
  }

  // The running summary m of the attention blocks.

  datatype SummaryError = RowCountMismatch(have: nat, got: nat)   // torch.cat along dimension 1

  /** m = cat([m, x], dim=1) if m is set, else x. */
  function Append<T>(m: Option<seq<seq<T>>>, x: seq<seq<T>>): (r: Result<seq<seq<T>>, SummaryError>)
    ensures m.None? ==> r == Ok(x)
    ensures m.Some? ==> (r.Ok? <==> |m.value| == |x|)
    ensures m.Some? && r.Ok? ==> (|r.value| == |x| &&
      forall s :: 0 <= s < |x| ==> r.value[s] == m.value[s] + x[s])
  {
    match m
    case None => Ok(x)
    case Some(rows) =>
      if |rows| != |x| then Err(RowCountMismatch(|rows|, |x|))
      else Ok(seq(|x|, s requires 0 <= s < |x| => rows[s] + x[s]))
  }

  /** The summary after a sequence of block outputs: None when there was no block. */
  function Summary<T>(outputs: seq<seq<seq<T>>>): Result<Option<seq<seq<T>>>, SummaryError>
    decreases |outputs|
  {
    if outputs == [] then Ok(None)
    else
      match Summary(outputs[..|outputs| - 1])
      case Err(e) => Err(e)
      case Ok(m) =>
        match Append(m, outputs[|outputs| - 1])
        case Err(e) => Err(e)
        case Ok(next) => Ok(Some(next))
  }

  /** Once a block's output fails to append, later blocks keep that error. */
  lemma {:induction false} SummaryErrorStays<T>(outputs: seq<seq<seq<T>>>, i: nat)
    requires i <= |outputs| && Summary(outputs[..i]).Err?
    ensures Summary(outputs) == Summary(outputs[..i])
    decreases |outputs| - i
  {
    if i < |outputs| {
      assert outputs[..i + 1][..i] == outputs[..i];
      SummaryErrorStays(outputs, i + 1);
    } else {
      assert outputs[..i] == outputs;
    }
  }

  /** The block loop threading m through the blocks. */
  method FoldSummary<T>(outputs: seq<seq<seq<T>>>) returns (res: Result<Option<seq<seq<T>>>, SummaryError>)
    ensures res == Summary(outputs)
  {
    var m: Option<seq<seq<T>>> := None;
    var i := 0;
    while i < |outputs|
      invariant 0 <= i <= |outputs|
      invariant Summary(outputs[..i]) == Ok(m)
    {
      assert outputs[..i + 1][..i] == outputs[..i];
      var step := Append(m, outputs[i]);
      if step.Err? {
        SummaryErrorStays(outputs, i + 1);
        return Err(step.error);
      }
      m := Some(step.value);
      i := i + 1;
    }
    assert outputs[..i] == outputs;
    return Ok(m);
  }

  /** Row s of every block output, in block order. */
  function RowsAt<T>(outputs: seq<seq<seq<T>>>, s: nat): seq<seq<T>>
    requires forall b :: 0 <= b < |outputs| ==> s < |outputs[b]|
  {
    seq(|outputs|, b requires 0 <= b < |outputs| => outputs[b][s])
  }

  /** Every block output has n rows of width w. */
  predicate Uniform<T>(outputs: seq<seq<seq<T>>>, n: nat, w: nat)
  {
    forall b :: 0 <= b < |outputs| ==> (|outputs[b]| == n &&
      forall s :: 0 <= s < n ==> |outputs[b][s]| == w)
  }

  /** m is the summary of the outputs: n rows, row s the blocks' rows s
      concatenated in block order, each of width K * w. */
  ghost predicate SummaryOf<T>(outputs: seq<seq<seq<T>>>, n: nat, w: nat, m: seq<seq<T>>)
    requires Uniform(outputs, n, w)
  {
    |m| == n &&
    forall s :: 0 <= s < n ==> m[s] == SeqUtil.Flatten(RowsAt(outputs, s)) && |m[s]| == |outputs| * w
  }

  lemma RowsAtSnoc<T>(outputs: seq<seq<seq<T>>>, n: nat, w: nat, s: nat)
    requires Uniform(outputs, n, w) && outputs != [] && s < n
    ensures SeqUtil.Flatten(RowsAt(outputs, s)) ==
      SeqUtil.Flatten(RowsAt(outputs[..|outputs| - 1], s)) + outputs[|outputs| - 1][s]
  {
    var K := |outputs|;
    assert RowsAt(outputs, s) == RowsAt(outputs[..K - 1], s) + [outputs[K - 1][s]];
    SeqUtil.FlattenSnoc(RowsAt(outputs[..K - 1], s), outputs[K - 1][s]);
  }

  /** After K >= 1 blocks that each output n rows of width w, the summary
      is defined, has n rows, and row s is the blocks' rows s concatenated
      in block order, of width K * w. With no block it is None. */
  lemma {:induction false} SummaryGrowth<T>(outputs: seq<seq<seq<T>>>, n: nat, w: nat)
    requires Uniform(outputs, n, w)
    ensures outputs == [] ==> Summary(outputs) == Ok(None)
    ensures outputs != [] ==> (Summary(outputs).Ok? && Summary(outputs).value.Some? &&
      SummaryOf(outputs, n, w, Summary(outputs).value.value))
    decreases |outputs|
  {
    if outputs != [] {
      var K := |outputs|;
      var init := outputs[..K - 1];
      var last := outputs[K - 1];
      assert Uniform(init, n, w);
      SummaryGrowth(init, n, w);
      var m := Summary(outputs).value.value;
      if K == 1 {
        assert m == last;
      } else {
        var m0 := Summary(init).value.value;
        assert m == seq(n, s requires 0 <= s < n => m0[s] + last[s]);
      }
      forall s | 0 <= s < n
        ensures m[s] == SeqUtil.Flatten(RowsAt(outputs, s)) && |m[s]| == K * w
      {
        RowsAtSnoc(outputs, n, w, s);
        if K == 1 {
          assert RowsAt(init, s) == [];
        }
      }
    }
  }
}
