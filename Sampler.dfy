/** The two batch samplers: the greedy prim_size packer used for training and
    validation, and the multitask sampler that seeds every batch with one of a
    fixed set of labelled crystals and fills it with unlabelled ones. */
module Sampler {
  import opened Wrappers
  import opened SeqUtil

  datatype SamplerError =
    | EmptySampler    // the underlying sampler yields nothing
    | NoLabels        // the multitask sampler holds no chosen labels
    | NoFillers       // every crystal of the sampler is a chosen label

  /** The total prim_size of a batch of data-set indices. */
  function BatchSize(sizes: seq<nat>, batch: seq<nat>): nat
    requires forall i :: 0 <= i < |batch| ==> batch[i] < |sizes|
  {
    if batch == [] then 0 else BatchSize(sizes, batch[..|batch| - 1]) + sizes[batch[|batch| - 1]]
  }

  lemma BatchSizeSnoc(sizes: seq<nat>, batch: seq<nat>, idx: nat)
    requires forall i :: 0 <= i < |batch| ==> batch[i] < |sizes|
    requires idx < |sizes|
    ensures BatchSize(sizes, batch + [idx]) == BatchSize(sizes, batch) + sizes[idx]
  {
    assert (batch + [idx])[..|batch|] == batch;
  }

  predicate Indices(order: seq<nat>, sizes: seq<nat>)
  {
    forall i :: 0 <= i < |order| ==> order[i] < |sizes|
  }

  /** A batch respects the budget, or holds a single crystal that alone exceeds it. */
  predicate Fits(sizes: seq<nat>, B: nat, batch: seq<nat>)
    requires Indices(batch, sizes)
  {
    |batch| <= 1 || BatchSize(sizes, batch) <= B
  }

  /** Every batch of an epoch fits. */
  predicate AllFit(out: seq<seq<nat>>, sizes: seq<nat>, B: nat)
  {
    forall j :: 0 <= j < |out| ==> Indices(out[j], sizes) && Fits(sizes, B, out[j])
  }

  // ---------------------------------------------------------------------
  // Greedy sampler (lines 1121-1152)

  /** The batches the generator yields once `batch` of total `size` is open
      and `order` is still to come. */
  function Pack(order: seq<nat>, sizes: seq<nat>, B: nat, batch: seq<nat>, size: nat): seq<seq<nat>>
    requires Indices(order, sizes)
    decreases |order|
  {
    if order == [] then (if batch != [] then [batch] else [])
    else
      var idx := order[0];
      if sizes[idx] + size > B then [batch] + Pack(order[1..], sizes, B, [idx], sizes[idx])
      else Pack(order[1..], sizes, B, batch + [idx], size + sizes[idx])
  }

  /** SiteNet_batch_sampler.__iter__ as written: an empty sampler raises at its
      first next() (a StopIteration inside a generator surfaces as an error). */
  function GreedyBatches(order: seq<nat>, sizes: seq<nat>, B: nat): Result<seq<seq<nat>>, SamplerError>
    requires Indices(order, sizes)
  {
    if order == [] then Err(EmptySampler) else Ok(Pack(order, sizes, B, [], 0))
  }

  method SampleBatches(order: seq<nat>, sizes: seq<nat>, B: nat) returns (res: Result<seq<seq<nat>>, SamplerError>)
    requires Indices(order, sizes)
    ensures res == GreedyBatches(order, sizes, B)
  {
    if |order| == 0 {
      return Err(EmptySampler);
    }
    var out: seq<seq<nat>> := [];
    var batch: seq<nat> := [];
    var size: nat := 0;
    var i := 0;
    assert order[0..] == order;
    while i < |order|
      invariant 0 <= i <= |order|
      invariant out + Pack(order[i..], sizes, B, batch, size) == Pack(order, sizes, B, [], 0)
    {
      var idx := order[i];
      assert order[i..][1..] == order[i + 1..];
      if sizes[idx] + size > B {
        out := out + [batch];
        size := sizes[idx];
        batch := [idx];
      } else {
        size := size + sizes[idx];
        batch := batch + [idx];
      }
      i := i + 1;
    }
    assert order[i..] == [];
    assert Pack(order[i..], sizes, B, batch, size) == (if batch != [] then [batch] else []);
    if batch != [] {
      out := out + [batch];
    } else {
      assert out + [] == out;
    }
    return Ok(out);
  }

  lemma FlattenCons<T>(xs: seq<T>, xss: seq<seq<T>>)
    ensures Flatten([xs] + xss) == xs + Flatten(xss)
  {
    FlattenConcat([xs], xss);
    FlattenSnoc([], xs);
  }

  /** Every crystal is handed out exactly once, in sampler order. */
  lemma {:induction false} PackFlatten(order: seq<nat>, sizes: seq<nat>, B: nat, batch: seq<nat>, size: nat)
    requires Indices(order, sizes)
    ensures Flatten(Pack(order, sizes, B, batch, size)) == batch + order
    decreases |order|
  {
    if order == [] {
      if batch != [] {
        FlattenSnoc([], batch);
      }
    } else {
      var idx := order[0];
      assert order == [idx] + order[1..];
      if sizes[idx] + size > B {
        PackFlatten(order[1..], sizes, B, [idx], sizes[idx]);
        FlattenCons(batch, Pack(order[1..], sizes, B, [idx], sizes[idx]));
      } else {
        PackFlatten(order[1..], sizes, B, batch + [idx], size + sizes[idx]);
      }
    }
  }

  /** Every batch fits the budget unless it is a single oversized crystal. */
  lemma {:induction false} PackFits(order: seq<nat>, sizes: seq<nat>, B: nat, batch: seq<nat>, size: nat)
    requires Indices(order, sizes) && Indices(batch, sizes)
    requires size == BatchSize(sizes, batch) && Fits(sizes, B, batch)
    ensures AllFit(Pack(order, sizes, B, batch, size), sizes, B)
    decreases |order|
  {
    if order != [] {
      var idx := order[0];
      if sizes[idx] + size > B {
        assert BatchSize(sizes, [idx]) == sizes[idx] by { assert [idx][..0] == []; }
        PackFits(order[1..], sizes, B, [idx], sizes[idx]);
      } else {
        BatchSizeSnoc(sizes, batch, idx);
        PackFits(order[1..], sizes, B, batch + [idx], size + sizes[idx]);
      }
    }
  }

  /** Once a batch is open, no empty batch is yielded, and the first yielded
      batch starts with the open batch's first crystal. */
  lemma {:induction false} PackNonEmpty(order: seq<nat>, sizes: seq<nat>, B: nat, batch: seq<nat>, size: nat)
    requires Indices(order, sizes)
    requires batch != []
    ensures |Pack(order, sizes, B, batch, size)| >= 1
    ensures Pack(order, sizes, B, batch, size)[0] != [] && Pack(order, sizes, B, batch, size)[0][0] == batch[0]
    ensures forall j :: 0 <= j < |Pack(order, sizes, B, batch, size)| ==> Pack(order, sizes, B, batch, size)[j] != []
    decreases |order|
  {
    if order != [] {
      var idx := order[0];
      if sizes[idx] + size > B {
        PackNonEmpty(order[1..], sizes, B, [idx], sizes[idx]);
      } else {
        PackNonEmpty(order[1..], sizes, B, batch + [idx], size + sizes[idx]);
      }
    }
  }

  /** Greediness: a batch is closed only when the next crystal would overflow it. */
  lemma {:induction false} PackGreedy(order: seq<nat>, sizes: seq<nat>, B: nat, batch: seq<nat>, size: nat, j: nat)
    requires Indices(order, sizes) && Indices(batch, sizes)
    requires size == BatchSize(sizes, batch)
    requires j + 1 < |Pack(order, sizes, B, batch, size)|
    ensures Indices(Pack(order, sizes, B, batch, size)[j], sizes)
    ensures Pack(order, sizes, B, batch, size)[j + 1] != []
    ensures Pack(order, sizes, B, batch, size)[j + 1][0] < |sizes|
    ensures BatchSize(sizes, Pack(order, sizes, B, batch, size)[j]) +
            sizes[Pack(order, sizes, B, batch, size)[j + 1][0]] > B
    decreases |order|
  {
    var idx := order[0];
    var packed := Pack(order, sizes, B, batch, size);
    if sizes[idx] + size > B {
      var rest := Pack(order[1..], sizes, B, [idx], sizes[idx]);
      assert packed == [batch] + rest;
      assert BatchSize(sizes, [idx]) == sizes[idx] by { assert [idx][..0] == []; }
      PackNonEmpty(order[1..], sizes, B, [idx], sizes[idx]);
      if j > 0 {
        PackGreedy(order[1..], sizes, B, [idx], sizes[idx], j - 1);
        assert packed[j] == rest[j - 1] && packed[j + 1] == rest[j];
      } else {
        assert packed[0] == batch && packed[1] == rest[0];
      }
    } else {
      BatchSizeSnoc(sizes, batch, idx);
      assert packed == Pack(order[1..], sizes, B, batch + [idx], size + sizes[idx]);
      PackGreedy(order[1..], sizes, B, batch + [idx], size + sizes[idx], j);
    }
  }

  /** The empty batch the generator starts with is yielded exactly when the
      first crystal alone exceeds the budget; every later batch is non-empty. */
  lemma GreedyFirstBatch(order: seq<nat>, sizes: seq<nat>, B: nat)
    requires Indices(order, sizes) && order != []
    ensures GreedyBatches(order, sizes, B).Ok?
    ensures var out := GreedyBatches(order, sizes, B).value;
      |out| >= 1 && (out[0] == [] <==> sizes[order[0]] > B) &&
      forall j :: 1 <= j < |out| ==> out[j] != []
  {
    var idx := order[0];
    if sizes[idx] > B {
      PackNonEmpty(order[1..], sizes, B, [idx], sizes[idx]);
    } else {
      PackNonEmpty(order[1..], sizes, B, [idx], sizes[idx]);
      assert [] + [idx] == [idx];
    }
  }

  /** The greedy sampler's guarantees over the whole epoch. */
  lemma GreedyBatchesSound(order: seq<nat>, sizes: seq<nat>, B: nat)
    requires Indices(order, sizes) && order != []
    ensures GreedyBatches(order, sizes, B).Ok?
    ensures Flatten(GreedyBatches(order, sizes, B).value) == order
    ensures AllFit(GreedyBatches(order, sizes, B).value, sizes, B)
  {
    PackFlatten(order, sizes, B, [], 0);
    PackFits(order, sizes, B, [], 0);
  }

  /** prim_sizes 2, 3 and 5 under a budget of 6 make two batches. */
  lemma GreedyExample()
    ensures GreedyBatches([0, 1, 2], [2, 3, 5], 6) == Ok([[0, 1], [2]])
  {
    var order: seq<nat>, sizes: seq<nat> := [0, 1, 2], [2, 3, 5];
    var b01: seq<nat>, b2: seq<nat> := [0, 1], [2];
    assert order[1..] == [1, 2] && order[1..][1..] == [2] && order[1..][1..][1..] == [];
    assert [] + [0] == [0] && [0] + [1] == b01;
    assert Pack([], sizes, 6, b2, 5) == [b2];
    assert Pack([2], sizes, 6, b01, 5) == [b01] + [b2];
    assert [b01] + [b2] == [b01, b2];
    assert GreedyBatches(order, sizes, 6) == Ok([b01, b2]);
  }

  // As written, the generator yields its opening empty batch when the first
  // crystal alone exceeds the budget, and collate_fn cannot collate an empty
  // batch. The corrected sampler skips that batch.

  /** The greedy sampler without the leading empty batch. */
  function GreedyBatchesFixed(order: seq<nat>, sizes: seq<nat>, B: nat): Result<seq<seq<nat>>, SamplerError>
    requires Indices(order, sizes)
  {
    if order == [] then Err(EmptySampler)
    else
      GreedyFirstBatch(order, sizes, B);
      var out := Pack(order, sizes, B, [], 0);
      if out[0] == [] then Ok(out[1..]) else Ok(out)
  }

  /** One crystal of prim_size 7 under a budget of 6: as written the sampler
      yields an empty batch first; the corrected sampler does not. */
  lemma GreedyEmptyFirstBatch()
    ensures GreedyBatches([0], [7], 6) == Ok([[], [0]])
    ensures GreedyBatchesFixed([0], [7], 6) == Ok([[0]])
  {
    var order: seq<nat> := [0];
    assert order[1..] == [];
    var sizes: seq<nat> := [7];
    var none: seq<nat> := [];
    var one: seq<nat> := [0];
    assert Pack([], sizes, 6, one, 7) == [one];
    assert Pack(order, sizes, 6, none, 0) == [none] + Pack([], sizes, 6, one, 7);
    assert [none] + [one] == [none, one];
    assert GreedyBatches(order, sizes, 6) == Ok([none, one]);
    assert GreedyBatchesFixed(order, sizes, 6) == Ok([one]);
  }

  /** The corrected sampler never yields an empty batch, hands out every
      crystal once in sampler order, and respects the budget. */
  lemma GreedyBatchesFixedSound(order: seq<nat>, sizes: seq<nat>, B: nat)
    requires Indices(order, sizes) && order != []
    ensures GreedyBatchesFixed(order, sizes, B).Ok?
    ensures var out := GreedyBatchesFixed(order, sizes, B).value;
      Flatten(out) == order &&
      forall j :: 0 <= j < |out| ==> out[j] != [] && Indices(out[j], sizes) && Fits(sizes, B, out[j])
  {
    GreedyFirstBatch(order, sizes, B);
    GreedyBatchesSound(order, sizes, B);
    var out := Pack(order, sizes, B, [], 0);
    if out[0] == [] {
      assert out == [[]] + out[1..];
      FlattenCons([], out[1..]);
    }
  }

  // ---------------------------------------------------------------------
  // Multitask sampler (lines 1154-1188)

  /** filter(lambda x: x not in chosen_labels, ...): the sampler's crystals that are not labels. */
  function Fillers(pass: seq<nat>, labels: seq<nat>): (f: seq<nat>)
    ensures forall i :: 0 <= i < |f| ==> f[i] in pass && f[i] !in labels
    ensures forall x :: x in pass && x !in labels ==> x in f
  {
    if pass == [] then []
    else
      var rest := Fillers(pass[1..], labels);
      if pass[0] in labels then rest else [pass[0]] + rest
  }

  predicate PositiveSizes(f: seq<nat>, sizes: seq<nat>)
    requires Indices(f, sizes)
  {
    forall i :: 0 <= i < |f| ==> sizes[f[i]] >= 1
  }

  /** The batches still to come once label li opened `batch` of total `size`
      and the cycled filler stream stands at position p. When a filler does
      not fit, the batch is yielded and the next label opens a new one with the
      same filler still pending; when the labels run out, the final batch is
      yielded a second time by the StopIteration handler. */
  function MultiPack(labels: seq<nat>, fillers: seq<nat>, sizes: seq<nat>, B: nat,
                     li: nat, p: nat, batch: seq<nat>, size: nat): seq<seq<nat>>
    requires Indices(labels, sizes) && Indices(fillers, sizes) && PositiveSizes(fillers, sizes)
    requires li < |labels| && fillers != []
    decreases |labels| - li, if size <= B then B - size else 0
  {
    var idx := fillers[p % |fillers|];
    if sizes[idx] + size > B then
      if li + 1 == |labels| then [batch, batch]
      else [batch] + MultiPack(labels, fillers, sizes, B, li + 1, p, [labels[li + 1]], sizes[labels[li + 1]])
    else MultiPack(labels, fillers, sizes, B, li, p + 1, batch + [idx], size + sizes[idx])
  }

  /** One epoch of the multitask sampler: the labels are taken first, so
      no labels is reported before no fillers. */
  function MultitaskBatches(labels: seq<nat>, fillers: seq<nat>, sizes: seq<nat>, B: nat): Result<seq<seq<nat>>, SamplerError>
    requires Indices(labels, sizes) && Indices(fillers, sizes) && PositiveSizes(fillers, sizes)
  {
    if labels == [] then Err(NoLabels)
    else if fillers == [] then Err(NoFillers)
    else Ok(MultiPack(labels, fillers, sizes, B, 0, 0, [labels[0]], sizes[labels[0]]))
  }

  /** One yield per label plus the final batch repeated, each batch led by its label. */
  lemma {:induction false} MultiPackShape(labels: seq<nat>, fillers: seq<nat>, sizes: seq<nat>, B: nat,
                                          li: nat, p: nat, batch: seq<nat>, size: nat)
    requires Indices(labels, sizes) && Indices(fillers, sizes) && PositiveSizes(fillers, sizes)
    requires li < |labels| && fillers != []
    requires batch != [] && batch[0] == labels[li]
    ensures var out := MultiPack(labels, fillers, sizes, B, li, p, batch, size);
      |out| == |labels| - li + 1 &&
      out[|out| - 1] == out[|out| - 2] &&
      forall j :: 0 <= j < |out| - 1 ==> out[j] != [] && out[j][0] == labels[li + j]
    decreases |labels| - li, if size <= B then B - size else 0
  {
    var idx := fillers[p % |fillers|];
    var out := MultiPack(labels, fillers, sizes, B, li, p, batch, size);
    if sizes[idx] + size > B {
      if li + 1 < |labels| {
        var rest := MultiPack(labels, fillers, sizes, B, li + 1, p, [labels[li + 1]], sizes[labels[li + 1]]);
        MultiPackShape(labels, fillers, sizes, B, li + 1, p, [labels[li + 1]], sizes[labels[li + 1]]);
        assert out == [batch] + rest;
        ShapeCons(labels, li, batch, rest);
      } else {
        assert out == [batch, batch];
      }
    } else {
      assert out == MultiPack(labels, fillers, sizes, B, li, p + 1, batch + [idx], size + sizes[idx]);
      MultiPackShape(labels, fillers, sizes, B, li, p + 1, batch + [idx], size + sizes[idx]);
    }
  }

  /** Closing the batch of label li in front of the run of label li + 1. */
  lemma ShapeCons(labels: seq<nat>, li: nat, batch: seq<nat>, rest: seq<seq<nat>>)
    requires li + 1 < |labels| && batch != [] && batch[0] == labels[li]
    requires |rest| == |labels| - (li + 1) + 1 && rest[|rest| - 1] == rest[|rest| - 2]
    requires forall j :: 0 <= j < |rest| - 1 ==> rest[j] != [] && rest[j][0] == labels[li + 1 + j]
    ensures var out := [batch] + rest;
      |out| == |labels| - li + 1 &&
      out[|out| - 1] == out[|out| - 2] &&
      forall j :: 0 <= j < |out| - 1 ==> out[j] != [] && out[j][0] == labels[li + j]
  {
    var out := [batch] + rest;
    forall j | 0 <= j < |out| - 1
      ensures out[j] != [] && out[j][0] == labels[li + j]
    {
      if j > 0 {
        assert out[j] == rest[j - 1];
      }
    }
  }

  /** Past its label, every crystal of every batch comes from the filler stream. */
  predicate TailsFrom(out: seq<seq<nat>>, fillers: seq<nat>)
  {
    forall j, r :: 0 <= j < |out| && 1 <= r < |out[j]| ==> out[j][r] in fillers
  }

  lemma {:induction false} MultiPackFillers(labels: seq<nat>, fillers: seq<nat>, sizes: seq<nat>, B: nat,
                                            li: nat, p: nat, batch: seq<nat>, size: nat)
    requires Indices(labels, sizes) && Indices(fillers, sizes) && PositiveSizes(fillers, sizes)
    requires li < |labels| && fillers != []
    requires forall r :: 1 <= r < |batch| ==> batch[r] in fillers
    ensures TailsFrom(MultiPack(labels, fillers, sizes, B, li, p, batch, size), fillers)
    decreases |labels| - li, if size <= B then B - size else 0
  {
    var idx := fillers[p % |fillers|];
    if sizes[idx] + size > B {
      if li + 1 < |labels| {
        var rest := MultiPack(labels, fillers, sizes, B, li + 1, p, [labels[li + 1]], sizes[labels[li + 1]]);
        MultiPackFillers(labels, fillers, sizes, B, li + 1, p, [labels[li + 1]], sizes[labels[li + 1]]);
        var out := [batch] + rest;
        assert out == MultiPack(labels, fillers, sizes, B, li, p, batch, size);
        forall j, r | 0 <= j < |out| && 1 <= r < |out[j]|
          ensures out[j][r] in fillers
        {
          if j > 0 {
            assert out[j] == rest[j - 1];
          }
        }
      }
    } else {
      MultiPackFillers(labels, fillers, sizes, B, li, p + 1, batch + [idx], size + sizes[idx]);
    }
  }

  /** Every batch fits the budget, or is a single label that alone exceeds it. */
  lemma {:induction false} MultiPackFits(labels: seq<nat>, fillers: seq<nat>, sizes: seq<nat>, B: nat,
                                         li: nat, p: nat, batch: seq<nat>, size: nat)
    requires Indices(labels, sizes) && Indices(fillers, sizes) && PositiveSizes(fillers, sizes)
    requires li < |labels| && fillers != []
    requires Indices(batch, sizes) && size == BatchSize(sizes, batch) && Fits(sizes, B, batch)
    ensures AllFit(MultiPack(labels, fillers, sizes, B, li, p, batch, size), sizes, B)
    decreases |labels| - li, if size <= B then B - size else 0
  {
    var idx := fillers[p % |fillers|];
    if sizes[idx] + size > B {
      if li + 1 < |labels| {
        var l := labels[li + 1];
        assert BatchSize(sizes, [l]) == sizes[l] by { assert [l][..0] == []; }
        var rest := MultiPack(labels, fillers, sizes, B, li + 1, p, [l], sizes[l]);
        MultiPackFits(labels, fillers, sizes, B, li + 1, p, [l], sizes[l]);
        var out := [batch] + rest;
        assert out == MultiPack(labels, fillers, sizes, B, li, p, batch, size);
        forall j | 0 <= j < |out|
          ensures Indices(out[j], sizes) && Fits(sizes, B, out[j])
        {
          if j > 0 {
            assert out[j] == rest[j - 1];
          }
        }
      }
    } else {
      BatchSizeSnoc(sizes, batch, idx);
      MultiPackFits(labels, fillers, sizes, B, li, p + 1, batch + [idx], size + sizes[idx]);
    }
  }

  /** An epoch of the multitask sampler, over all inputs. */
  lemma MultitaskBatchesSound(labels: seq<nat>, fillers: seq<nat>, sizes: seq<nat>, B: nat)
    requires Indices(labels, sizes) && Indices(fillers, sizes) && PositiveSizes(fillers, sizes)
    ensures MultitaskBatches(labels, fillers, sizes, B).Err? <==> labels == [] || fillers == []
    ensures MultitaskBatches(labels, fillers, sizes, B).Ok? ==>
      var out := MultitaskBatches(labels, fillers, sizes, B).value;
      |out| == |labels| + 1 &&
      out[|labels|] == out[|labels| - 1] &&
      (forall j :: 0 <= j < |labels| ==> out[j] != [] && out[j][0] == labels[j]) &&
      TailsFrom(out, fillers) &&
      AllFit(out, sizes, B)
  {
    if labels != [] && fillers != [] {
      var l := labels[0];
      assert BatchSize(sizes, [l]) == sizes[l] by { assert [l][..0] == []; }
      MultiPackShape(labels, fillers, sizes, B, 0, 0, [l], sizes[l]);
      MultiPackFillers(labels, fillers, sizes, B, 0, 0, [l], sizes[l]);
      MultiPackFits(labels, fillers, sizes, B, 0, 0, [l], sizes[l]);
    }
  }

  function Min(a: nat, b: nat): nat
  {
    if a <= b then a else b
  }

  /** Multitask_batch_sampler: the chosen labels are kept as a list that every
      epoch shuffles in place. */
  class MultitaskSampler {
    var chosenLabels: seq<nat>
    const sizes: seq<nat>
    const budget: nat

    ghost predicate Valid()
      reads this
    {
      Indices(chosenLabels, sizes)
    }

    /** islice(iter(sampler), N_labels): the first N_labels crystals of one pass. */
    constructor(firstPass: seq<nat>, sizes: seq<nat>, budget: nat, nLabels: nat)
      requires Indices(firstPass, sizes)
      ensures Valid()
      ensures chosenLabels == firstPass[..Min(nLabels, |firstPass|)]
      ensures this.sizes == sizes && this.budget == budget
    {
      chosenLabels := firstPass[..Min(nLabels, |firstPass|)];
      this.sizes := sizes;
      this.budget := budget;
    }

    /** __len__: the number of chosen labels. */
    function Len(): nat
      reads this
    {
      |chosenLabels|
    }

    /** __iter__, given the arrangement the in-place shuffle produces and
        the order of a fresh pass of the underlying sampler. */
    method Iter(shuffled: seq<nat>, pass: seq<nat>) returns (res: Result<seq<seq<nat>>, SamplerError>)
      requires Valid()
      requires multiset(shuffled) == multiset(chosenLabels)
      requires Indices(pass, sizes)
      requires PositiveSizes(Fillers(pass, shuffled), sizes)
      modifies this
      ensures Valid()
      ensures chosenLabels == shuffled
      ensures res == MultitaskBatches(shuffled, Fillers(pass, shuffled), sizes, budget)
    {
      forall i | 0 <= i < |shuffled|
        ensures shuffled[i] < |sizes|
      {
        assert shuffled[i] in multiset(chosenLabels);
      }
      chosenLabels := shuffled;
      var labels := chosenLabels;
      var fillers := Fillers(pass, labels);
      if |labels| == 0 {
        return Err(NoLabels);
      }
      if |fillers| == 0 {
        return Err(NoFillers);
      }
      ghost var total := MultiPack(labels, fillers, sizes, budget, 0, 0, [labels[0]], sizes[labels[0]]);
      var out: seq<seq<nat>> := [];
      var li: nat := 0;
      var p: nat := 0;
      var batch: seq<nat> := [labels[0]];
      var size: nat := sizes[labels[0]];
      while li < |labels|
        invariant 0 <= li <= |labels|
        invariant li < |labels| ==> out + MultiPack(labels, fillers, sizes, budget, li, p, batch, size) == total
        invariant li == |labels| ==> out == total
        decreases |labels| - li, if size <= budget then budget - size else 0
      {
        var idx := fillers[p % |fillers|];
        if sizes[idx] + size > budget {
          out := out + [batch];
          if li + 1 == |labels| {
            out := out + [batch];
            li := li + 1;
          } else {
            li := li + 1;
            size := sizes[labels[li]];
            batch := [labels[li]];
          }
        } else {
          size := size + sizes[idx];
          batch := batch + [idx];
          p := p + 1;
        }
      }
      return Ok(out);
    }
  }

  /** __len__ reports one batch fewer than an epoch yields. */
  lemma LenVersusYields(sampler: MultitaskSampler, pass: seq<nat>)
    requires sampler.Valid()
    requires Indices(pass, sampler.sizes) && PositiveSizes(Fillers(pass, sampler.chosenLabels), sampler.sizes)
    requires sampler.chosenLabels != [] && Fillers(pass, sampler.chosenLabels) != []
    ensures |MultitaskBatches(sampler.chosenLabels, Fillers(pass, sampler.chosenLabels), sampler.sizes, sampler.budget).value|
      == sampler.Len() + 1
  {
    MultitaskBatchesSound(sampler.chosenLabels, Fillers(pass, sampler.chosenLabels), sampler.sizes, sampler.budget);
  }

  /** The cycled filler stream from position p, n items long. */
  function Cycle(fillers: seq<nat>, p: nat, n: nat): (c: seq<nat>)
    requires fillers != []
    ensures |c| == n && forall i :: 0 <= i < n ==> c[i] == fillers[(p + i) % |fillers|]
  {
    seq(n, i requires 0 <= i < n => fillers[(p + i) % |fillers|])
  }

  lemma CycleCons(fillers: seq<nat>, p: nat, n: nat)
    requires fillers != []
    ensures [fillers[p % |fillers|]] + Cycle(fillers, p + 1, n) == Cycle(fillers, p, n + 1)
  {
    var lhs := [fillers[p % |fillers|]] + Cycle(fillers, p + 1, n);
    forall i | 0 <= i < n + 1
      ensures lhs[i] == Cycle(fillers, p, n + 1)[i]
    {
      if i > 0 {
        assert lhs[i] == Cycle(fillers, p + 1, n)[i - 1];
        assert p + 1 + (i - 1) == p + i;
      }
    }
  }

  /** The filler parts of the batches before the repeated final one. */
  function FillerParts(out: seq<seq<nat>>): (f: seq<seq<nat>>)
    requires |out| >= 1 && forall j :: 0 <= j < |out| - 1 ==> out[j] != []
    ensures |f| == |out| - 1
  {
    seq(|out| - 1, j requires 0 <= j < |out| - 1 => out[j][1..])
  }

  /** A run of batches with a non-empty batch before the repeated final
      one, whose filler parts are the fillers of its first batch followed
      by the stream s. */
  ghost predicate StreamOf(out: seq<seq<nat>>, batch: seq<nat>, s: seq<nat>)
    requires batch != []
  {
    (|out| >= 1 && forall j :: 0 <= j < |out| - 1 ==> out[j] != []) &&
    Flatten(FillerParts(out)) == batch[1..] + s
  }

  /** The batches from some state onwards draw the next n items of the cycled stream. */
  ghost predicate StreamFrom(labels: seq<nat>, fillers: seq<nat>, sizes: seq<nat>, B: nat,
                             li: nat, p: nat, batch: seq<nat>, size: nat, n: nat)
    requires Indices(labels, sizes) && Indices(fillers, sizes) && PositiveSizes(fillers, sizes)
    requires li < |labels| && fillers != [] && batch != []
  {
    StreamOf(MultiPack(labels, fillers, sizes, B, li, p, batch, size), batch, Cycle(fillers, p, n))
  }

  /** A batch put in front of a run that starts with a bare label keeps its
      fillers in front of the run's stream. */
  lemma StreamOfCons(batch: seq<nat>, rest: seq<seq<nat>>, l: nat, s: seq<nat>)
    requires batch != [] && StreamOf(rest, [l], s)
    ensures StreamOf([batch] + rest, batch, s)
  {
    var out := [batch] + rest;
    assert forall j :: 1 <= j < |out| ==> out[j] == rest[j - 1];
    var fo, fr := FillerParts(out), FillerParts(rest);
    forall j | 1 <= j < |fo|
      ensures fo[j] == fr[j - 1]
    {
      assert fo[j] == out[j][1..] && out[j] == rest[j - 1];
    }
    assert fo == [batch[1..]] + fr;
    assert [l][1..] == [];
    FlattenCons(batch[1..], fr);
  }

  /** The last label's batch, once full, is yielded twice and nothing is drawn. */
  lemma StreamLastLabel(labels: seq<nat>, fillers: seq<nat>, sizes: seq<nat>, B: nat,
                        li: nat, p: nat, batch: seq<nat>, size: nat)
    requires Indices(labels, sizes) && Indices(fillers, sizes) && PositiveSizes(fillers, sizes)
    requires li + 1 == |labels| && fillers != [] && batch != []
    requires sizes[fillers[p % |fillers|]] + size > B
    ensures StreamFrom(labels, fillers, sizes, B, li, p, batch, size, 0)
  {
    var out := MultiPack(labels, fillers, sizes, B, li, p, batch, size);
    assert out == [batch, batch];
    assert FillerParts(out) == [batch[1..]];
    FlattenSnoc([], batch[1..]);
  }

  /** A full batch with labels left: the next batch starts with the next
      label alone, and the filler stream continues where it stopped. */
  lemma StreamNextLabel(labels: seq<nat>, fillers: seq<nat>, sizes: seq<nat>, B: nat,
                        li: nat, p: nat, batch: seq<nat>, size: nat, n: nat)
    requires Indices(labels, sizes) && Indices(fillers, sizes) && PositiveSizes(fillers, sizes)
    requires li + 1 < |labels| && fillers != [] && batch != []
    requires sizes[fillers[p % |fillers|]] + size > B
    requires StreamFrom(labels, fillers, sizes, B, li + 1, p, [labels[li + 1]], sizes[labels[li + 1]], n)
    ensures StreamFrom(labels, fillers, sizes, B, li, p, batch, size, n)
  {
    var l := labels[li + 1];
    var rest := MultiPack(labels, fillers, sizes, B, li + 1, p, [l], sizes[l]);
    assert MultiPack(labels, fillers, sizes, B, li, p, batch, size) == [batch] + rest;
    StreamOfCons(batch, rest, l, Cycle(fillers, p, n));
  }

  /** A filler that fits joins the batch: it is the next item of the stream. */
  lemma StreamAdd(labels: seq<nat>, fillers: seq<nat>, sizes: seq<nat>, B: nat,
                  li: nat, p: nat, batch: seq<nat>, size: nat, n: nat)
    requires Indices(labels, sizes) && Indices(fillers, sizes) && PositiveSizes(fillers, sizes)
    requires li < |labels| && fillers != [] && batch != []
    requires sizes[fillers[p % |fillers|]] + size <= B
    requires StreamFrom(labels, fillers, sizes, B, li, p + 1, batch + [fillers[p % |fillers|]],
                        size + sizes[fillers[p % |fillers|]], n)
    ensures StreamFrom(labels, fillers, sizes, B, li, p, batch, size, n + 1)
  {
    var idx := fillers[p % |fillers|];
    var out := MultiPack(labels, fillers, sizes, B, li, p, batch, size);
    assert out == MultiPack(labels, fillers, sizes, B, li, p + 1, batch + [idx], size + sizes[idx]);
    assert (batch + [idx])[1..] == batch[1..] + [idx];
    CycleCons(fillers, p, n);
    assert batch[1..] + [idx] + Cycle(fillers, p + 1, n) == batch[1..] + Cycle(fillers, p, n + 1);
  }

  /** Fillers are drawn from the cycled stream strictly in order: one that does
      not fit is carried into the next batch, never skipped or repeated. */
  lemma {:induction false} MultiPackStream(labels: seq<nat>, fillers: seq<nat>, sizes: seq<nat>, B: nat,
                                           li: nat, p: nat, batch: seq<nat>, size: nat) returns (n: nat)
    requires Indices(labels, sizes) && Indices(fillers, sizes) && PositiveSizes(fillers, sizes)
    requires li < |labels| && fillers != [] && batch != []
    ensures StreamFrom(labels, fillers, sizes, B, li, p, batch, size, n)
    decreases |labels| - li, if size <= B then B - size else 0
  {
    var idx := fillers[p % |fillers|];
    if sizes[idx] + size > B {
      if li + 1 == |labels| {
        n := 0;
        StreamLastLabel(labels, fillers, sizes, B, li, p, batch, size);
      } else {
        n := MultiPackStream(labels, fillers, sizes, B, li + 1, p, [labels[li + 1]], sizes[labels[li + 1]]);
        StreamNextLabel(labels, fillers, sizes, B, li, p, batch, size, n);
      }
    } else {
      var n' := MultiPackStream(labels, fillers, sizes, B, li, p + 1, batch + [idx], size + sizes[idx]);
      n := n' + 1;
      StreamAdd(labels, fillers, sizes, B, li, p, batch, size, n');
    }
  }
}
