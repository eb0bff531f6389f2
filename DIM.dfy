/** The Deep InfoMax side of the model at the level of indices and
    configuration branches: the half-batch roll that builds negatives, the
    rolled COO labels of the global negatives, the column permutation of
    attention_j, which negatives are averaged, and the KL switch. */
module DIM {
  import opened Wrappers
  import opened SeqUtil
  import Collate

  /** torch.roll along the first axis: out[(i + shift) mod n] == xs[i]. */
  function Roll<T>(xs: seq<T>, shift: nat): (out: seq<T>)
    ensures |out| == |xs|
  {
    seq(|xs|, j requires 0 <= j < |xs| => xs[(j - shift) % |xs|])
  }

  /** false_sample(x, 0): the roll by half the length. */
  function FalseSample<T>(xs: seq<T>): (out: seq<T>)
    ensures |out| == |xs|
  {
    Roll(xs, |xs| / 2)
  }

  /** The element at i moves to (i + shift) mod n. */
  lemma RollAt<T>(xs: seq<T>, shift: nat, i: nat)
    requires i < |xs|
    ensures Roll(xs, shift)[(i + shift) % |xs|] == xs[i]
  {
    var n := |xs|;
    var j := (i + shift) % n;
    var q := (i + shift) / n;
    assert i + shift == q * n + j;
    assert j - shift == i + (-q) * n;
    DivUnique(j - shift, n, -q, i);
  }

  /** A roll is a rotation: the last shift elements (mod n) come first. */
  lemma RollSplit<T>(xs: seq<T>, shift: nat)
    requires xs != []
    ensures var c := |xs| - shift % |xs|;
      Roll(xs, shift) == xs[c..] + xs[..c]
  {
    var n := |xs|;
    var r := shift % n;
    var c := n - r;
    var rhs := xs[c..] + xs[..c];
    assert shift == (shift / n) * n + r;
    forall j | 0 <= j < n
      ensures Roll(xs, shift)[j] == rhs[j]
    {
      if j < r {
        assert j - shift == (j + c) + (-(shift / n) - 1) * n;
        DivUnique(j - shift, n, -(shift / n) - 1, j + c);
      } else {
        assert j - shift == (j - r) + (-(shift / n)) * n;
        DivUnique(j - shift, n, -(shift / n), j - r);
      }
    }
  }

  /** The roll is a permutation of the rows. */
  lemma RollPermutes<T>(xs: seq<T>, shift: nat)
    ensures multiset(Roll(xs, shift)) == multiset(xs)
  {
    if xs != [] {
      var c := |xs| - shift % |xs|;
      RollSplit(xs, shift);
      assert xs == xs[..c] + xs[c..];
    }
  }

  /** With at most one row there is nothing to roll. */
  lemma FalseSampleTrivial<T>(xs: seq<T>)
    requires |xs| <= 1
    ensures FalseSample(xs) == xs
  {
    if |xs| == 1 {
      assert FalseSample(xs)[0] == xs[(0 - 0) % 1];
    }
  }

  /** On an even number of rows the half-batch roll undoes itself. */
  lemma FalseSampleInvolution<T>(xs: seq<T>)
    requires |xs| % 2 == 0
    ensures FalseSample(FalseSample(xs)) == xs
  {
    var n := |xs|;
    if n > 0 {
      var h := n / 2;
      forall i | 0 <= i < n
        ensures FalseSample(FalseSample(xs))[i] == xs[i]
      {
        var j := (i + h) % n;
        RollAt(xs, h, i);
        RollAt(FalseSample(xs), h, j);
        assert (j + h) % n == i by {
          var q := (i + h) / n;
          assert i + h == q * n + j;
          assert j + h == i + 2 * h - q * n;
          assert 2 * h == n;
          DivUnique(j + h, n, 1 - q, i);
        }
      }
    }
  }

  // The global negatives: rolled COO labels (modules.py, SiteNetDIMGlobal.forward).

  /** False_Batch_Mask_COO: the roll of the COO labels by half the number of sites. */
  function FalseCoo(coo: seq<nat>): (f: seq<nat>)
    ensures |f| == |coo|
  {
    FalseSample(coo)
  }

  lemma RollDistance(n: nat, s: nat)
    requires s < n
    ensures var s' := (s - n / 2) % n;
      s' < n && (if s >= n / 2 then s - s' == n / 2 else s' - s == n - n / 2)
  {
    if s >= n / 2 {
      DivUnique(s - n / 2, n, 0, s - n / 2);
    } else {
      DivUnique(s - n / 2, n, -1, s - n / 2 + n);
    }
  }

  /** When no record holds more than half of the batch's sites, the rolled
      labels pair every site with the summary of another record. */
  lemma NoSelfPairs(counts: seq<nat>, s: nat)
    requires s < Sum(counts)
    requires forall k :: 0 <= k < |counts| ==> 2 * counts[k] <= Sum(counts)
    ensures s < |Collate.Labels(counts)|
    ensures FalseCoo(Collate.Labels(counts))[s] != Collate.Labels(counts)[s]
  {
    var coo, csr := Collate.Labels(counts), Collate.Offsets(counts);
    var n := Sum(counts);
    Collate.LabelsLength(counts);
    // s lies in the interval of its record k, which holds at most half the batch
    SiteInRecord(counts, s);
    var k := coo[s];
    assert 2 * counts[k] <= n;
    // the rolled label at s is the label of a site outside that interval
    forall t | 0 <= t < |coo|
      ensures coo[t] == k <==> csr[k] <= t < csr[k] + counts[k]
    {
      Collate.LabelsExact(counts, t, k);
    }
    RolledLabelDiffers(coo, s, k, csr[k], counts[k]);
  }

  /** If the label k marks exactly one interval of at most half the batch,
      the false sample of a site in that interval carries another label. */
  lemma RolledLabelDiffers(coo: seq<nat>, s: nat, k: nat, lo: nat, c: nat)
    requires lo <= s < lo + c && s < |coo| && 2 * c <= |coo|
    requires forall t :: 0 <= t < |coo| ==> (coo[t] == k <==> lo <= t < lo + c)
    ensures FalseSample(coo)[s] != k
  {
    RolledOutside(|coo|, lo, c, s);
    FalseSampleAt(coo, s);
  }

  /** Flat site s lies in the CSR interval of its record, of that record's site count. */
  lemma SiteInRecord(counts: seq<nat>, s: nat)
    requires s < Sum(counts)
    ensures s < |Collate.Labels(counts)| && Collate.Labels(counts)[s] < |counts|
    ensures Collate.Offsets(counts)[Collate.Labels(counts)[s] + 1] ==
            Collate.Offsets(counts)[Collate.Labels(counts)[s]] + counts[Collate.Labels(counts)[s]]
    ensures Collate.Offsets(counts)[Collate.Labels(counts)[s]] <= s <
            Collate.Offsets(counts)[Collate.Labels(counts)[s]] + counts[Collate.Labels(counts)[s]]
  {
    Collate.LabelOfSite(counts, s);
    Collate.OffsetsProperties(counts);
  }

  /** Rolling by half the batch moves a site out of any interval that holds
      at most half the batch. */
  lemma RolledOutside(n: nat, lo: nat, c: nat, s: nat)
    requires lo <= s < lo + c && s < n && 2 * c <= n
    ensures 0 <= (s - n / 2) % n < n
    ensures (s - n / 2) % n < lo || lo + c <= (s - n / 2) % n
  {
    RollDistance(n, s);
  }

  /** Entry s of the false sample is entry (s - n / 2) mod n of the batch. */
  lemma FalseSampleAt<T>(xs: seq<T>, s: nat)
    requires s < |xs|
    ensures FalseSample(xs)[s] == xs[(s - |xs| / 2) % |xs|]
  {
  }

  /** With a single record every rolled label is still that record: the
      global negatives are then all drawn from the crystal itself. */
  lemma SingleRecordSelfPairs(counts: seq<nat>)
    requires |counts| == 1
    ensures FalseCoo(Collate.Labels(counts)) == Collate.Labels(counts)
  {
    var coo := Collate.Labels(counts);
    Collate.LabelsLength(counts);
    Collate.OffsetsProperties(counts);
    forall s | 0 <= s < |coo| ensures coo[s] == 0 {
      Collate.LabelOfSite(counts, s);
    }
    forall s | 0 <= s < |coo| ensures FalseCoo(coo)[s] == coo[s] {
      var s' := (s - |coo| / 2) % |coo|;
      assert FalseCoo(coo)[s] == coo[s'];
    }
  }

  // The "permuted" negatives: a column permutation of attention_j
  // (lightning_module.py, SiteNet_DIM.training_step).

  /** One row of attention_j[:, perm]: slot t takes the entry of slot perm[t]. */
  function PermuteRow(row: seq<nat>, perm: seq<nat>): (p: seq<nat>)
    requires forall t :: 0 <= t < |perm| ==> perm[t] < |row|
    ensures |p| == |perm| && forall t :: 0 <= t < |perm| ==> p[t] == row[perm[t]]
  {
    seq(|perm|, t requires 0 <= t < |perm| => row[perm[t]])
  }

  /** attention_j[:, perm]: the same column permutation applied to every row. */
  function PermuteColumns(aj: seq<seq<nat>>, perm: seq<nat>): (p: seq<seq<nat>>)
    requires forall s, t :: 0 <= s < |aj| && 0 <= t < |perm| ==> perm[t] < |aj[s]|
    ensures |p| == |aj| && forall s :: 0 <= s < |aj| ==> p[s] == PermuteRow(aj[s], perm)
  {
    seq(|aj|, s requires 0 <= s < |aj| => PermuteRow(aj[s], perm))
  }

  /** The permuted negatives never leave a record: when every entry of a
      row lies in [lo, hi) (attention_j's own-record property), so does
      every entry of the permuted row, and every entry of the original row
      reappears in the permuted one. */
  lemma PermutedRowStaysInRecord(row: seq<nat>, perm: seq<nat>, lo: nat, hi: nat)
    requires IsPermutation(perm, |row|) && Within(row, lo, hi)
    ensures Within(PermuteRow(row, perm), lo, hi)
    ensures forall t0 :: 0 <= t0 < |row| ==> row[t0] in PermuteRow(row, perm)
  {
    var w := |row|;
    Covers(perm, w);
    forall t0 | 0 <= t0 < w
      ensures row[t0] in PermuteRow(row, perm)
    {
      assert t0 in perm;
      var t :| 0 <= t < w && perm[t] == t0;
      assert PermuteRow(row, perm)[t] == row[t0];
    }
  }

  /** On a collated batch the permuted attention_j row of every site still
      points only at sites of the site's own record. */
  lemma PermutedBatchStaysInRecord<S, E>(rs: seq<Collate.Record<S, E>>, perm: seq<nat>, s: nat)
    requires Collate.WellFormed(rs) && IsPermutation(perm, Collate.Width(rs))
    requires s < Sum(Collate.SiteCounts(rs))
    ensures |Collate.Labels(Collate.SiteCounts(rs))| == Sum(Collate.SiteCounts(rs)) &&
            Collate.Labels(Collate.SiteCounts(rs))[s] < |rs|
    ensures |Collate.AttentionJ(Collate.SiteCounts(rs), Collate.Prims(rs), Collate.Images(rs), Collate.Width(rs))| ==
            Sum(Collate.SiteCounts(rs))
    ensures |Collate.AttentionJ(Collate.SiteCounts(rs), Collate.Prims(rs), Collate.Images(rs), Collate.Width(rs))[s]| ==
            Collate.Width(rs)
    ensures Within(PermuteRow(Collate.AttentionJ(Collate.SiteCounts(rs), Collate.Prims(rs), Collate.Images(rs), Collate.Width(rs))[s], perm),
                   Collate.Offsets(Collate.SiteCounts(rs))[Collate.Labels(Collate.SiteCounts(rs))[s]],
                   Collate.Offsets(Collate.SiteCounts(rs))[Collate.Labels(Collate.SiteCounts(rs))[s] + 1])
  {
    Collate.AttentionJInRecord(rs, s);
    PermutedRowStaysInRecord(Collate.AttentionJ(Collate.SiteCounts(rs), Collate.Prims(rs), Collate.Images(rs), Collate.Width(rs))[s],
                             perm,
                             Collate.Offsets(Collate.SiteCounts(rs))[Collate.Labels(Collate.SiteCounts(rs))[s]],
                             Collate.Offsets(Collate.SiteCounts(rs))[Collate.Labels(Collate.SiteCounts(rs))[s] + 1]);
  }

  // Which negatives are averaged, and the KL switch.

  /** Where a piece of a local negative comes from: the site itself, or the
      half-batch roll. */
  datatype Source = Real | Rolled

  /** A local negative of SiteNetDIMAttentionBlock.forward: the source of
      the neighbour features x_j, of the bond features, of the distance
      weights and of the attention mask it is scored with. */
  datatype LocalNegative = LocalNegative(neighbours: Source, bonds: Source, weights: Source, mask: Source)

  /** false_queries_1 .. 3 with the weights and masks the code pairs them with. */
  function LocalNegatives(): seq<LocalNegative>
  {
    [ LocalNegative(Rolled, Rolled, Rolled, Rolled),   // fully fake
      LocalNegative(Real, Rolled, Rolled, Real),       // fake distances only
      LocalNegative(Rolled, Real, Real, Rolled) ]      // fake composition only
  }

  /** The three local negatives are exactly the three ways of mixing real
      and rolled neighbour and bond features other than the true sample;
      each is weighted by the distances of its bonds and masked by the
      padding of its neighbours. */
  lemma LocalNegativesCover(x: Source, b: Source)
    ensures (exists i :: 0 <= i < 3 && LocalNegatives()[i].neighbours == x && LocalNegatives()[i].bonds == b)
            <==> !(x == Real && b == Real)
    ensures forall i :: 0 <= i < 3 ==>
      LocalNegatives()[i].weights == LocalNegatives()[i].bonds &&
      LocalNegatives()[i].mask == LocalNegatives()[i].neighbours
  {
    var ns := LocalNegatives();
    if !(x == Real && b == Real) {
      if x == Rolled && b == Rolled { assert ns[0].neighbours == x && ns[0].bonds == b; }
      else if x == Real { assert ns[1].neighbours == x && ns[1].bonds == b; }
      else { assert ns[2].neighbours == x && ns[2].bonds == b; }
    }
  }

  /** The per-site local loss: the true score plus the mean of the three
      negatives, or plus the fully fake one alone. */
  function LocalLoss(extraFalseSamples: bool, trueScore: real, f1: real, f2: real, f3: real): (l: real)
    ensures extraFalseSamples ==> 3.0 * (l - trueScore) == f1 + f2 + f3
    ensures !extraFalseSamples ==> l - trueScore == f1
  {
    if extraFalseSamples then trueScore + (f1 + f2 + f3) / 3.0 else trueScore + f1
  }

  /** engineered_false_locals_list: composition, structure and permuted
      negatives when extra_false_samples is set, none otherwise. */
  function Engineered<T>(extraFalseSamples: bool, composition: T, structure: T, permuted: T): (e: seq<T>)
    ensures |e| == if extraFalseSamples then 3 else 0
  {
    if extraFalseSamples then [composition, structure, permuted] else []
  }

  function RealSum(xs: seq<real>): real
  {
    if xs == [] then 0.0 else RealSum(xs[..|xs| - 1]) + xs[|xs| - 1]
  }

  /** The per-site global loss: the engineered negatives' scores followed
      by the rolled-COO score, averaged, plus the true score. */
  function GlobalLoss(engineeredScores: seq<real>, rolledScore: real, trueScore: real): real
  {
    var scores := engineeredScores + [rolledScore];
    RealSum(scores) / (|scores| as real) + trueScore
  }

  /** The rolled-COO negative is always there: the global loss averages
      four negatives with extra_false_samples and is the rolled one alone
      without. */
  lemma GlobalLossBranches(extraFalseSamples: bool, comp: real, struct: real, perm: real, rolled: real, t: real)
    ensures var l := GlobalLoss(Engineered(extraFalseSamples, comp, struct, perm), rolled, t);
      (extraFalseSamples ==> 4.0 * (l - t) == comp + struct + perm + rolled) &&
      (!extraFalseSamples ==> l == rolled + t)
  {
    var e := Engineered(extraFalseSamples, comp, struct, perm);
    var scores := e + [rolled];
    if extraFalseSamples {
      var s1, s2, s3 := [comp], [comp, struct], [comp, struct, perm];
      assert s1[..0] == [] && s2[..1] == s1 && s3[..2] == s2 && scores[..3] == s3;
      assert RealSum(s1) == comp;
      assert RealSum(s2) == comp + struct;
      assert RealSum(s3) == comp + struct + perm;
      assert RealSum(scores) == comp + struct + perm + rolled;
    } else {
      assert scores == [rolled];
      assert scores[..0] == [];
      assert RealSum(scores) == rolled;
    }
  }

  /** KL is switched on exactly when its loss weight is positive. */
  function KLEnabled(klWeight: real): bool
  {
    klWeight > 0.0
  }

  /** The KL loss a DIM forward returns: the computed divergence, or the constant 0. */
  function KLLoss(kl: bool, divergence: real): (l: real)
    ensures !kl ==> l == 0.0
  {
    if kl then divergence else 0.0
  }

  /** The weighted objective of one estimator. */
  function WeightedLoss(dimWeight: real, priorWeight: real, klWeight: real, dim: real, prior: real, divergence: real): real
  {
    dimWeight * dim + priorWeight * prior + klWeight * KLLoss(KLEnabled(klWeight), divergence)
  }

  /** With a non-positive KL weight the divergence does not reach the
      objective at all; with a positive weight it enters with that weight. */
  lemma KLSwitch(dimWeight: real, priorWeight: real, klWeight: real, dim: real, prior: real, d1: real, d2: real)
    ensures klWeight <= 0.0 ==>
      WeightedLoss(dimWeight, priorWeight, klWeight, dim, prior, d1) ==
      WeightedLoss(dimWeight, priorWeight, klWeight, dim, prior, d2)
    ensures klWeight > 0.0 ==>
      WeightedLoss(dimWeight, priorWeight, klWeight, dim, prior, d1) -
      WeightedLoss(dimWeight, priorWeight, klWeight, dim, prior, d2) == klWeight * (d1 - d2)
  {
  }
}
