/** The ragged-batch collator: flattens a list of crystal records into one
    site axis and builds the CSR offsets, COO labels, the two attention
    index arrays, the padding mask and the zero-padded bond table. */
module Collate {
  import opened Wrappers
  import opened SeqUtil

  /** One crystal record as the data set hands it over. Site features (S)
      and bond feature vectors (E) are opaque; only the layout matters. */
  datatype Record<S, E> = Record(
    sites: seq<S>,          // rows of the site feature tensor; the site count
    bonds: seq<seq<E>>,     // the interaction feature tensor, rows by neighbour slots
    bondWidth: nat,         // its second dimension
    primSize: nat,          // number of symmetry-irreducible sites
    images: nat,            // number of periodic images considered
    target: real)

  /** A tensor is rectangular: every bond row has the tensor's second dimension. */
  predicate BondsRectangular<S, E>(r: Record<S, E>)
  {
    forall i :: 0 <= i < |r.bonds| ==> |r.bonds[i]| == r.bondWidth
  }

  /** The exceptions the collator can raise. */
  datatype CollateError =
    | EmptyBatch        // numpy refuses to concatenate an empty list of index blocks
    | ZeroDivision      // a record with zero images or zero primitive sites
    | IndexOutOfRange   // a record with more primitive sites than sites

  datatype Batch<S, E> = Batch(
    siteTable: seq<S>,
    bondTable: seq<seq<E>>,
    targets: seq<real>,
    coo: seq<nat>,
    csr: seq<nat>,
    attentionI: seq<seq<nat>>,
    attentionJ: seq<seq<nat>>,
    attentionMask: seq<seq<bool>>)

  function SiteCounts<S, E>(rs: seq<Record<S, E>>): (c: seq<nat>)
    ensures |c| == |rs| && forall k :: 0 <= k < |rs| ==> c[k] == |rs[k].sites|
  {
    seq(|rs|, k requires 0 <= k < |rs| => |rs[k].sites|)
  }

  function Prims<S, E>(rs: seq<Record<S, E>>): (p: seq<nat>)
    ensures |p| == |rs| && forall k :: 0 <= k < |rs| ==> p[k] == rs[k].primSize
  {
    seq(|rs|, k requires 0 <= k < |rs| => rs[k].primSize)
  }

  function Images<S, E>(rs: seq<Record<S, E>>): (m: seq<nat>)
    ensures |m| == |rs| && forall k :: 0 <= k < |rs| ==> m[k] == rs[k].images
  {
    seq(|rs|, k requires 0 <= k < |rs| => rs[k].images)
  }

  /** The number of real neighbour slots of every site of each record. */
  function ActualLengths<S, E>(rs: seq<Record<S, E>>): (a: seq<nat>)
    ensures |a| == |rs| && forall k :: 0 <= k < |rs| ==> a[k] == rs[k].primSize * rs[k].images
  {
    seq(|rs|, k requires 0 <= k < |rs| => rs[k].primSize * rs[k].images)
  }

  /** The neighbour-slot width shared by every row of the index arrays and the mask. */
  function Width<S, E>(rs: seq<Record<S, E>>): nat
  {
    Max(ActualLengths(rs))
  }

  // ---------------------------------------------------------------------
  // CSR offsets and COO labels

  /** CSR: the flat index at which each record's sites start, plus the total. */
  function Offsets(counts: seq<nat>): (csr: seq<nat>)
    ensures |csr| == |counts| + 1
  {
    seq(|counts| + 1, k requires 0 <= k <= |counts| => Sum(counts[..k]))
  }

  function LabelBlocks(counts: seq<nat>): (b: seq<seq<nat>>)
    ensures |b| == |counts| && Lengths(b) == counts
  {
    seq(|counts|, k requires 0 <= k < |counts| => Repeat(k, counts[k]))
  }

  /** COO: the owning record of every flat site. */
  function Labels(counts: seq<nat>): seq<nat>
  {
    Flatten(LabelBlocks(counts))
  }

  lemma OffsetsProperties(counts: seq<nat>)
    ensures Offsets(counts)[0] == 0
    ensures Offsets(counts)[|counts|] == Sum(counts)
    ensures forall k :: 0 <= k < |counts| ==> Offsets(counts)[k + 1] == Offsets(counts)[k] + counts[k]
    ensures forall i, j :: 0 <= i <= j <= |counts| ==> Offsets(counts)[i] <= Offsets(counts)[j]
  {
    assert counts[..|counts|] == counts;
    forall k | 0 <= k < |counts| ensures Offsets(counts)[k + 1] == Offsets(counts)[k] + counts[k] {
      PrefixSumStep(counts, k);
    }
    forall i, j | 0 <= i <= j <= |counts| ensures Offsets(counts)[i] <= Offsets(counts)[j] {
      PrefixSumMonotone(counts, i, j);
    }
  }

  /** Every flat site lies in the interval of exactly one record. */
  lemma {:induction false} Locate(counts: seq<nat>, s: nat) returns (k: nat)
    requires s < Sum(counts)
    ensures k < |counts| && Offsets(counts)[k] <= s < Offsets(counts)[k + 1]
    decreases |counts|
  {
    var n := |counts|;
    var init := counts[..n - 1];
    assert counts == init + [counts[n - 1]];
    SumSnoc(init, counts[n - 1]);
    assert counts[..n] == counts;
    if s < Sum(init) {
      k := Locate(init, s);
      assert counts[..k] == init[..k] && counts[..k + 1] == init[..k + 1];
    } else {
      k := n - 1;
      assert counts[..k] == init;
    }
  }

  lemma LabelsLength(counts: seq<nat>)
    ensures |Labels(counts)| == Sum(counts)
  {
    FlattenLength(LabelBlocks(counts));
  }

  /** A site inside record k's interval is labelled k. */
  lemma LabelInInterval(counts: seq<nat>, k: nat, s: nat)
    requires k < |counts| && Offsets(counts)[k] <= s < Offsets(counts)[k + 1]
    ensures s < |Labels(counts)| && Labels(counts)[s] == k
  {
    FlattenAt(LabelBlocks(counts), k, s);
  }

  lemma LabelOfSite(counts: seq<nat>, s: nat)
    requires s < Sum(counts)
    ensures s < |Labels(counts)|
    ensures Labels(counts)[s] < |counts|
    ensures Offsets(counts)[Labels(counts)[s]] <= s < Offsets(counts)[Labels(counts)[s] + 1]
  {
    var k := Locate(counts, s);
    LabelInInterval(counts, k, s);
  }

  /** COO[s] == k exactly when s lies in record k's CSR interval. */
  lemma LabelsExact(counts: seq<nat>, s: nat, k: nat)
    requires s < |Labels(counts)|
    ensures Labels(counts)[s] == k <==> k < |counts| && Offsets(counts)[k] <= s < Offsets(counts)[k + 1]
  {
    LabelsLength(counts);
    LabelOfSite(counts, s);
    if k < |counts| && Offsets(counts)[k] <= s < Offsets(counts)[k + 1] {
      LabelInInterval(counts, k, s);
    }
  }

  /** COO is non-decreasing. */
  lemma LabelsSorted(counts: seq<nat>, s: nat, t: nat)
    requires s <= t < |Labels(counts)|
    ensures Labels(counts)[s] <= Labels(counts)[t]
  {
    LabelsLength(counts);
    LabelOfSite(counts, s);
    LabelOfSite(counts, t);
    var a, b := Labels(counts)[s], Labels(counts)[t];
    if a > b {
      PrefixSumMonotone(counts, b + 1, a);
    }
  }

  /** One more record extends COO by that record's block of labels. */
  lemma LabelsPrefixStep(counts: seq<nat>, k: nat)
    requires k < |counts|
    ensures Flatten(LabelBlocks(counts)[..k + 1]) == Flatten(LabelBlocks(counts)[..k]) + Repeat(k, counts[k])
  {
    var blocks := LabelBlocks(counts);
    assert blocks[k] == Repeat(k, counts[k]);
    assert blocks[..k + 1] == blocks[..k] + [blocks[k]];
    FlattenSnoc(blocks[..k], blocks[k]);
  }

  /** Lines 104-111: the running-counter loop that builds CSR and COO. */
  method BuildOffsets(counts: seq<nat>) returns (csr: seq<nat>, coo: seq<nat>)
    ensures csr == Offsets(counts)
    ensures coo == Labels(counts)
  {
    csr, coo := [], [];
    var indexCsr: nat := 0;
    var k: nat := 0;
    while k < |counts|
      invariant k <= |counts|
      invariant |csr| == k && forall j :: 0 <= j < k ==> csr[j] == Sum(counts[..j])
      invariant indexCsr == Sum(counts[..k])
      invariant coo == Flatten(LabelBlocks(counts)[..k])
    {
      csr := csr + [indexCsr];
      PrefixSumStep(counts, k);
      indexCsr := indexCsr + counts[k];
      LabelsPrefixStep(counts, k);
      coo := coo + Repeat(k, counts[k]);
      k := k + 1;
    }
    csr := csr + [indexCsr];
    assert counts[..k] == counts;
    assert LabelBlocks(counts)[..k] == LabelBlocks(counts);
  }

  // ---------------------------------------------------------------------
  // Attention index arrays (lines 112-124)

  /** The primitive site that neighbour slot t of a record points at: slot t
      belongs to image t / images, wrapped modulo the primitive count. Records
      with zero images or zero primitive sites make the collator fail before
      this is used; the value 0 there is never observed. */
  function Slot(prim: nat, images: nat, t: nat): nat
  {
    if prim == 0 || images == 0 then 0 else (t / images) % prim
  }

  /** attention_i rows of one record: row r repeats the flat index start + r. */
  function IBlock(start: nat, n: nat, w: nat): (b: seq<seq<nat>>)
    ensures |b| == n
  {
    seq(n, r requires 0 <= r < n => Repeat<nat>(start + r, w))
  }

  /** The attention_j row shared by every site of one record. */
  function JRow(start: nat, prim: nat, images: nat, w: nat): (row: seq<nat>)
    ensures |row| == w
  {
    seq(w, t requires 0 <= t < w => start + Slot(prim, images, t))
  }

  function JBlock(start: nat, n: nat, prim: nat, images: nat, w: nat): (b: seq<seq<nat>>)
    ensures |b| == n
  {
    Repeat(JRow(start, prim, images, w), n)
  }

  /** The exception (if any) raised while building one record's index rows:
      numpy evaluates item_index[(t // images) % prim] for every slot t. */
  function RecordError(n: nat, prim: nat, images: nat, w: nat): Option<CollateError>
  {
    if n == 0 || w == 0 then None
    else if images == 0 || prim == 0 then Some(ZeroDivision)
    else if prim > n then Some(IndexOutOfRange)
    else None
  }

  /** IndexOutOfRange is raised exactly when some slot's lookup falls outside
      the record's own item_index (given the width covers the record's slots). */
  lemma IndexOutOfRangeExact(n: nat, prim: nat, images: nat, w: nat)
    requires n >= 1 && prim >= 1 && images >= 1 && prim * images <= w
    ensures RecordError(n, prim, images, w) == Some(IndexOutOfRange) <==>
      exists t :: 0 <= t < w && Slot(prim, images, t) >= n
  {
    if prim > n {
      LastImageSlot(prim, images);
      var t := (prim - 1) * images;
      assert 0 <= t < w && Slot(prim, images, t) >= n;
    } else {
      forall t | 0 <= t < w
        ensures Slot(prim, images, t) < n
      {
        SlotBelow(prim, images, t);
      }
    }
  }

  /** The first record, in batch order, whose index rows raise. */
  function FirstErrorFrom(counts: seq<nat>, prims: seq<nat>, images: seq<nat>, w: nat, k: nat): Option<CollateError>
    requires |prims| == |counts| && |images| == |counts| && k <= |counts|
    decreases |counts| - k
  {
    if k == |counts| then None
    else
      var e := RecordError(counts[k], prims[k], images[k], w);
      if e.Some? then e else FirstErrorFrom(counts, prims, images, w, k + 1)
  }

  lemma {:induction false} FirstErrorNone(counts: seq<nat>, prims: seq<nat>, images: seq<nat>, w: nat, k: nat)
    requires |prims| == |counts| && |images| == |counts| && k <= |counts|
    ensures FirstErrorFrom(counts, prims, images, w, k) == None <==>
      forall j :: k <= j < |counts| ==> RecordError(counts[j], prims[j], images[j], w) == None
    decreases |counts| - k
  {
    if k < |counts| {
      FirstErrorNone(counts, prims, images, w, k + 1);
    }
  }

  function IBlocks(counts: seq<nat>, w: nat): (b: seq<seq<seq<nat>>>)
    ensures |b| == |counts| && Lengths(b) == counts
  {
    var csr := Offsets(counts);
    seq(|counts|, k requires 0 <= k < |counts| => IBlock(csr[k], counts[k], w))
  }

  function JBlocks(counts: seq<nat>, prims: seq<nat>, images: seq<nat>, w: nat): (b: seq<seq<seq<nat>>>)
    requires |prims| == |counts| && |images| == |counts|
    ensures |b| == |counts| && Lengths(b) == counts
  {
    var csr := Offsets(counts);
    seq(|counts|, k requires 0 <= k < |counts| => JBlock(csr[k], counts[k], prims[k], images[k], w))
  }

  function AttentionI(counts: seq<nat>, w: nat): seq<seq<nat>>
  {
    Flatten(IBlocks(counts, w))
  }

  function AttentionJ(counts: seq<nat>, prims: seq<nat>, images: seq<nat>, w: nat): seq<seq<nat>>
    requires |prims| == |counts| && |images| == |counts|
  {
    Flatten(JBlocks(counts, prims, images, w))
  }

  /** Lines 112-121: one index block per record, appended in record order;
      the first record whose lookups raise aborts the collation. */
  method BuildAttentionIndices(counts: seq<nat>, prims: seq<nat>, images: seq<nat>, csr: seq<nat>, w: nat)
    returns (res: Result<(seq<seq<nat>>, seq<seq<nat>>), CollateError>)
    requires |prims| == |counts| && |images| == |counts|
    requires csr == Offsets(counts)
    ensures FirstErrorFrom(counts, prims, images, w, 0) == None ==>
      res == Ok((AttentionI(counts, w), AttentionJ(counts, prims, images, w)))
    ensures FirstErrorFrom(counts, prims, images, w, 0) != None ==>
      res == Err(FirstErrorFrom(counts, prims, images, w, 0).value)
  {
    var arrayI: seq<seq<nat>> := [];
    var arrayJ: seq<seq<nat>> := [];
    var k := 0;
    while k < |counts|
      invariant 0 <= k <= |counts|
      invariant FirstErrorFrom(counts, prims, images, w, 0) == FirstErrorFrom(counts, prims, images, w, k)
      invariant arrayI == Flatten(IBlocks(counts, w)[..k])
      invariant arrayJ == Flatten(JBlocks(counts, prims, images, w)[..k])
    {
      var e := RecordError(counts[k], prims[k], images[k], w);
      if e.Some? {
        return Err(e.value);
      }
      var iBlock := IBlock(csr[k], counts[k], w);
      var jBlock := JBlock(csr[k], counts[k], prims[k], images[k], w);
      assert IBlocks(counts, w)[..k + 1] == IBlocks(counts, w)[..k] + [iBlock];
      assert JBlocks(counts, prims, images, w)[..k + 1] == JBlocks(counts, prims, images, w)[..k] + [jBlock];
      FlattenSnoc(IBlocks(counts, w)[..k], iBlock);
      FlattenSnoc(JBlocks(counts, prims, images, w)[..k], jBlock);
      arrayI := arrayI + iBlock;
      arrayJ := arrayJ + jBlock;
      k := k + 1;
    }
    assert IBlocks(counts, w)[..k] == IBlocks(counts, w);
    assert JBlocks(counts, prims, images, w)[..k] == JBlocks(counts, prims, images, w);
    res := Ok((arrayI, arrayJ));
  }

  /** attention_i[s] is the constant row s, of the batch width. */
  lemma AttentionIAt(counts: seq<nat>, w: nat, s: nat)
    requires s < Sum(counts)
    ensures |AttentionI(counts, w)| == Sum(counts)
    ensures |AttentionI(counts, w)[s]| == w
    ensures forall t :: 0 <= t < w ==> AttentionI(counts, w)[s][t] == s
  {
    var k := Locate(counts, s);
    var csr := Offsets(counts);
    var blocks := IBlocks(counts, w);
    assert Sum(counts[..k]) == csr[k] && Sum(counts[..k + 1]) == csr[k + 1];
    assert Lengths(blocks)[..k] == counts[..k];
    assert Lengths(blocks)[..k + 1] == counts[..k + 1];
    FlattenAt(blocks, k, s);
    var r := s - csr[k];
    assert AttentionI(counts, w) == Flatten(blocks);
    assert Flatten(blocks)[s] == blocks[k][r];
    assert blocks[k] == IBlock(csr[k], counts[k], w);
    assert blocks[k][r] == Repeat<nat>(csr[k] + r, w);
  }

  /** attention_j[s] is the slot row of the record k that owns s. */
  lemma AttentionJAt(counts: seq<nat>, prims: seq<nat>, images: seq<nat>, w: nat, s: nat, k: nat)
    requires |prims| == |counts| && |images| == |counts|
    requires k < |counts| && Offsets(counts)[k] <= s < Offsets(counts)[k + 1]
    ensures |AttentionJ(counts, prims, images, w)| == Sum(counts)
    ensures s < Sum(counts)
    ensures |AttentionJ(counts, prims, images, w)[s]| == w
    ensures forall t :: 0 <= t < w ==>
      AttentionJ(counts, prims, images, w)[s][t] == Offsets(counts)[k] + Slot(prims[k], images[k], t)
  {
    var csr := Offsets(counts);
    var blocks := JBlocks(counts, prims, images, w);
    assert Sum(counts[..k]) == csr[k] && Sum(counts[..k + 1]) == csr[k + 1];
    FlattenAt(blocks, k, s);
    var r := s - csr[k];
    assert Lengths(blocks)[..k] == counts[..k];
    var row := blocks[k][r];
    assert row == JRow(csr[k], prims[k], images[k], w);
    assert AttentionJ(counts, prims, images, w)[s] == row;
  }

  // ---------------------------------------------------------------------
  // Slot arithmetic: images and wrap-around (lines 59, 121)

  lemma DivRange(t: nat, b: nat, p: nat)
    requires b >= 1
    ensures t / b == p <==> p * b <= t < (p + 1) * b
  {
    var q := t / b;
    assert q * b <= t < (q + 1) * b;
    if q < p {
      MulMono(q + 1, p, b);
    } else if q > p {
      MulMono(p + 1, q, b);
    }
  }

  /** Within the first prim * images slots, primitive site p fills exactly the
      consecutive run of `images` slots starting at p * images. */
  lemma ImageRun(prim: nat, images: nat, p: nat, t: nat)
    requires prim >= 1 && images >= 1 && p < prim && t < prim * images
    ensures Slot(prim, images, t) == p <==> p * images <= t < (p + 1) * images
  {
    var q := t / images;
    assert q < prim by {
      DivRange(t, images, q);
      if q >= prim {
        MulMono(prim, q, images);
      }
    }
    DivUnique(q, prim, 0, q);
    assert Slot(prim, images, t) == q;
    DivRange(t, images, p);
  }

  /** Slots past prim * images repeat the pattern with period prim * images. */
  lemma SlotWraps(prim: nat, images: nat, t: nat)
    requires prim >= 1 && images >= 1
    ensures Slot(prim, images, t + prim * images) == Slot(prim, images, t)
  {
    assert t + prim * images == t + images * prim;
    DivAddMultiple(t, images, prim);
    ModAddMultiple(t / images, prim);
  }

  // ---------------------------------------------------------------------
  // Padding mask (lines 135-144)

  /** One record's mask row: slot t is padding exactly when t >= actual_length. */
  function MaskRow(actualLength: nat, w: nat): (row: seq<bool>)
    ensures |row| == w
  {
    seq(w, t requires 0 <= t < w => t >= actualLength)
  }

  /** base_attention_mask[COO]: every flat site takes its record's row. */
  function AttentionMask(coo: seq<nat>, actualLengths: seq<nat>, w: nat): (m: seq<seq<bool>>)
    requires forall s :: 0 <= s < |coo| ==> coo[s] < |actualLengths|
    ensures |m| == |coo|
  {
    seq(|coo|, s requires 0 <= s < |coo| => MaskRow(actualLengths[coo[s]], w))
  }

  /** A mask row has min(actual_length, w) real (false) slots. */
  lemma {:induction false} MaskRowCount(actualLength: nat, w: nat)
    ensures CountFalse(MaskRow(actualLength, w)) == if actualLength <= w then actualLength else w
    decreases w
  {
    if w > 0 {
      assert MaskRow(actualLength, w)[..w - 1] == MaskRow(actualLength, w - 1);
      MaskRowCount(actualLength, w - 1);
    }
  }

  // ---------------------------------------------------------------------
  // Bond padding (adjacency_stack, lines 75-96)

  /** Zero-pad one bond row along the neighbour axis up to `width`. */
  function PadRow<E>(row: seq<E>, width: nat, zero: E): (r: seq<E>)
    requires |row| <= width
    ensures |r| == width
    ensures forall t :: 0 <= t < |row| ==> r[t] == row[t]
    ensures forall t :: |row| <= t < width ==> r[t] == zero
  {
    row + Repeat(zero, width - |row|)
  }

  function BondWidths<S, E>(rs: seq<Record<S, E>>): (ws: seq<nat>)
    ensures |ws| == |rs| && forall k :: 0 <= k < |rs| ==> ws[k] == rs[k].bondWidth
  {
    seq(|rs|, k requires 0 <= k < |rs| => rs[k].bondWidth)
  }

  function BondRowCounts<S, E>(rs: seq<Record<S, E>>): (c: seq<nat>)
    ensures |c| == |rs| && forall k :: 0 <= k < |rs| ==> c[k] == |rs[k].bonds|
  {
    seq(|rs|, k requires 0 <= k < |rs| => |rs[k].bonds|)
  }

  function MaxBondWidth<S, E>(rs: seq<Record<S, E>>): (m: nat)
    ensures forall k :: 0 <= k < |rs| ==> rs[k].bondWidth <= m
  {
    Max(BondWidths(rs))
  }

  /** The padded width is the bond width of some record of the batch. */
  lemma MaxBondWidthAttained<S, E>(rs: seq<Record<S, E>>)
    requires rs != []
    ensures exists k :: 0 <= k < |rs| && rs[k].bondWidth == MaxBondWidth(rs)
  {
    var ws := BondWidths(rs);
    assert |ws| == |rs| && ws != [];
    var i :| 0 <= i < |ws| && ws[i] == Max(ws);
    assert rs[i].bondWidth == ws[i];
  }

  /** One record's bond tensor, every row padded to `width`. */
  function PadRecord<S, E>(rec: Record<S, E>, width: nat, zero: E): (b: seq<seq<E>>)
    requires BondsRectangular(rec) && rec.bondWidth <= width
    ensures |b| == |rec.bonds|
    ensures forall r :: 0 <= r < |b| ==> b[r] == PadRow(rec.bonds[r], width, zero)
  {
    seq(|rec.bonds|, r requires 0 <= r < |rec.bonds| => PadRow(rec.bonds[r], width, zero))
  }

  function PaddedBlocks<S, E>(rs: seq<Record<S, E>>, zero: E): (b: seq<seq<seq<E>>>)
    requires forall k :: 0 <= k < |rs| ==> BondsRectangular(rs[k])
    ensures |b| == |rs| && Lengths(b) == BondRowCounts(rs)
  {
    seq(|rs|, k requires 0 <= k < |rs| => PadRecord(rs[k], MaxBondWidth(rs), zero))
  }

  /** Every record's bond tensor padded to the widest one, concatenated in record order. */
  function AdjacencyStack<S, E>(rs: seq<Record<S, E>>, zero: E): seq<seq<E>>
    requires forall k :: 0 <= k < |rs| ==> BondsRectangular(rs[k])
  {
    Flatten(PaddedBlocks(rs, zero))
  }

  /** Row r of record k sits at row CSR_bonds[k] + r of the stack, padded to
      the widest record: its bond_width original entries keep their slots and
      the remaining slots hold the zero value. */
  lemma AdjacencyStackAt<S, E>(rs: seq<Record<S, E>>, zero: E, k: nat, r: nat)
    requires forall j :: 0 <= j < |rs| ==> BondsRectangular(rs[j])
    requires k < |rs| && r < |rs[k].bonds|
    ensures Offsets(BondRowCounts(rs))[k] + r < |AdjacencyStack(rs, zero)|
    ensures AdjacencyStack(rs, zero)[Offsets(BondRowCounts(rs))[k] + r]
         == PadRow(rs[k].bonds[r], MaxBondWidth(rs), zero)
  {
    var blocks := PaddedBlocks(rs, zero);
    FlattenIndex(blocks, k, r);
  }

  /** The stack has one row per bond row of the batch, each of the maximum width. */
  lemma AdjacencyStackRows<S, E>(rs: seq<Record<S, E>>, zero: E, i: nat)
    requires forall j :: 0 <= j < |rs| ==> BondsRectangular(rs[j])
    requires i < Sum(BondRowCounts(rs))
    ensures |AdjacencyStack(rs, zero)| == Sum(BondRowCounts(rs))
    ensures |AdjacencyStack(rs, zero)[i]| == MaxBondWidth(rs)
  {
    var counts := BondRowCounts(rs);
    FlattenLength(PaddedBlocks(rs, zero));
    var k := Locate(counts, i);
    PrefixSumStep(counts, k);
    assert counts[k] == |rs[k].bonds|;
    AdjacencyStackAt(rs, zero, k, i - Offsets(counts)[k]);
  }

  /** When every record's bond tensor has exactly its actual_length slots, the
      padded width is the index arrays' width. */
  lemma PaddedWidthIsSlotWidth<S, E>(rs: seq<Record<S, E>>)
    requires forall k :: 0 <= k < |rs| ==> rs[k].bondWidth == rs[k].primSize * rs[k].images
    ensures MaxBondWidth(rs) == Width(rs)
  {
    assert BondWidths(rs) == ActualLengths(rs);
  }

  // ---------------------------------------------------------------------
  // Site table and targets (lines 145, 150)

  function SiteBlocks<S, E>(rs: seq<Record<S, E>>): (b: seq<seq<S>>)
    ensures |b| == |rs| && Lengths(b) == SiteCounts(rs)
  {
    seq(|rs|, k requires 0 <= k < |rs| => rs[k].sites)
  }

  function SiteTable<S, E>(rs: seq<Record<S, E>>): seq<S>
  {
    Flatten(SiteBlocks(rs))
  }

  function Targets<S, E>(rs: seq<Record<S, E>>): (ts: seq<real>)
    ensures |ts| == |rs| && forall k :: 0 <= k < |rs| ==> ts[k] == rs[k].target
  {
    seq(|rs|, k requires 0 <= k < |rs| => rs[k].target)
  }

  /** Flat site s of record k is site s - CSR[k] of that record. */
  lemma SiteTableAt<S, E>(rs: seq<Record<S, E>>, k: nat, s: nat)
    requires k < |rs| && Offsets(SiteCounts(rs))[k] <= s < Offsets(SiteCounts(rs))[k + 1]
    ensures |SiteTable(rs)| == Sum(SiteCounts(rs))
    ensures s < |SiteTable(rs)| && s - Offsets(SiteCounts(rs))[k] < |rs[k].sites|
    ensures SiteTable(rs)[s] == rs[k].sites[s - Offsets(SiteCounts(rs))[k]]
  {
    var counts := SiteCounts(rs);
    assert Sum(counts[..k]) == Offsets(counts)[k] && Sum(counts[..k + 1]) == Offsets(counts)[k + 1];
    FlattenAt(SiteBlocks(rs), k, s);
    assert Lengths(SiteBlocks(rs))[..k] == counts[..k];
  }

  // ---------------------------------------------------------------------
  // The collator (lines 54-153)

  /** The first record whose index rows raise, at the batch width. */
  function FirstError<S, E>(rs: seq<Record<S, E>>): Option<CollateError>
  {
    FirstErrorFrom(SiteCounts(rs), Prims(rs), Images(rs), Width(rs), 0)
  }

  /** A batch collates without an arithmetic or index error: every record that
      owns sites, when the width is positive, has at least one image and between
      one and its site count primitive sites. */
  predicate WellFormed<S, E>(rs: seq<Record<S, E>>)
  {
    forall k :: 0 <= k < |rs| && |rs[k].sites| > 0 && Width(rs) > 0 ==>
      rs[k].images >= 1 && 1 <= rs[k].primSize <= |rs[k].sites|
  }

  lemma WellFormedIff<S, E>(rs: seq<Record<S, E>>)
    ensures WellFormed(rs) <==> FirstError(rs) == None
  {
    FirstErrorNone(SiteCounts(rs), Prims(rs), Images(rs), Width(rs), 0);
  }

  /** CSR: starts at zero, ends at the site total, and steps by each record's site count. */
  ghost predicate CsrLayout(counts: seq<nat>, csr: seq<nat>)
  {
    |csr| == |counts| + 1 && csr[0] == 0 && csr[|counts|] == Sum(counts) &&
    forall k :: 0 <= k < |counts| ==> csr[k + 1] == csr[k] + counts[k]
  }

  /** COO: one label per flat site, naming the record whose CSR interval holds it, non-decreasing. */
  ghost predicate CooLayout(counts: seq<nat>, csr: seq<nat>, coo: seq<nat>)
    requires |csr| == |counts| + 1
  {
    |coo| == csr[|counts|] &&
    (forall s :: 0 <= s < |coo| ==> coo[s] < |counts| && csr[coo[s]] <= s < csr[coo[s] + 1]) &&
    (forall s, t :: 0 <= s <= t < |coo| ==> coo[s] <= coo[t])
  }

  /** attention_i row s is constantly s, of width w. */
  ghost predicate IRowOf(ai: seq<seq<nat>>, s: nat, w: nat)
    requires s < |ai|
  {
    |ai[s]| == w && forall t :: 0 <= t < w ==> ai[s][t] == s
  }

  /** attention_j row s walks the primitive sites of an owner starting at lo,
      image by image, and never leaves the owner's interval [lo, hi). */
  ghost predicate JRowOf(aj: seq<seq<nat>>, s: nat, w: nat, lo: nat, hi: nat, prim: nat, images: nat)
    requires s < |aj|
  {
    |aj[s]| == w &&
    forall t :: 0 <= t < w ==> aj[s][t] == lo + Slot(prim, images, t) && lo <= aj[s][t] < hi
  }

  /** The two index rows of flat site s, for the owner coo[s] of s. */
  ghost predicate IndexRow<S, E>(rs: seq<Record<S, E>>, csr: seq<nat>, coo: seq<nat>,
                                  ai: seq<seq<nat>>, aj: seq<seq<nat>>, s: nat)
    requires |csr| == |rs| + 1 && s < |coo| && coo[s] < |rs|
    requires |ai| == |coo| && |aj| == |coo|
  {
    var k := coo[s];
    IRowOf(ai, s, Width(rs)) &&
    JRowOf(aj, s, Width(rs), csr[k], csr[k + 1], rs[k].primSize, rs[k].images)
  }

  ghost predicate IndexLayout<S, E>(rs: seq<Record<S, E>>, csr: seq<nat>, coo: seq<nat>,
                                     ai: seq<seq<nat>>, aj: seq<seq<nat>>)
    requires |csr| == |rs| + 1
    requires forall s :: 0 <= s < |coo| ==> coo[s] < |rs|
  {
    |ai| == |coo| && |aj| == |coo| &&
    forall s :: 0 <= s < |coo| ==> IndexRow(rs, csr, coo, ai, aj, s)
  }

  /** Mask row s marks exactly the slots past the owner's actual length; the
      owner's actual length many slots stay unmasked. */
  ghost predicate MaskLayout<S, E>(rs: seq<Record<S, E>>, coo: seq<nat>, mask: seq<seq<bool>>)
    requires forall s :: 0 <= s < |coo| ==> coo[s] < |rs|
  {
    |mask| == |coo| &&
    (forall s :: 0 <= s < |mask| ==>
      |mask[s]| == Width(rs) &&
      CountFalse(mask[s]) == rs[coo[s]].primSize * rs[coo[s]].images) &&
    (forall s, t :: 0 <= s < |mask| && 0 <= t < |mask[s]| ==>
      (mask[s][t] <==> t >= rs[coo[s]].primSize * rs[coo[s]].images))
  }

  /** The bond table: every record's rows in order, each padded to the widest record. */
  ghost predicate BondLayout<S, E>(rs: seq<Record<S, E>>, zero: E, table: seq<seq<E>>)
    requires forall k :: 0 <= k < |rs| ==> BondsRectangular(rs[k])
  {
    |table| == Sum(BondRowCounts(rs)) &&
    (forall i :: 0 <= i < |table| ==> |table[i]| == MaxBondWidth(rs)) &&
    (forall k :: 0 <= k < |rs| ==> Offsets(BondRowCounts(rs))[k] + |rs[k].bonds| <= |table|) &&
    (forall k, r :: 0 <= k < |rs| && 0 <= r < |rs[k].bonds| ==>
      table[Offsets(BondRowCounts(rs))[k] + r] == PadRecord(rs[k], MaxBondWidth(rs), zero)[r])
  }

  /** The site table: flat site s is site s - CSR[COO[s]] of record COO[s]. */
  ghost predicate SiteLayout<S, E>(rs: seq<Record<S, E>>, csr: seq<nat>, coo: seq<nat>, table: seq<S>)
    requires |csr| == |rs| + 1
    requires forall s :: 0 <= s < |coo| ==> coo[s] < |rs|
  {
    |table| == |coo| &&
    forall s :: 0 <= s < |table| ==>
      csr[coo[s]] <= s < csr[coo[s]] + |rs[coo[s]].sites| &&
      table[s] == rs[coo[s]].sites[s - csr[coo[s]]]
  }

  ghost predicate BatchLayout<S, E>(rs: seq<Record<S, E>>, zero: E, b: Batch<S, E>)
    requires forall k :: 0 <= k < |rs| ==> BondsRectangular(rs[k])
  {
    CsrLayout(SiteCounts(rs), b.csr) &&
    CooLayout(SiteCounts(rs), b.csr, b.coo) &&
    IndexLayout(rs, b.csr, b.coo, b.attentionI, b.attentionJ) &&
    MaskLayout(rs, b.coo, b.attentionMask) &&
    BondLayout(rs, zero, b.bondTable) &&
    SiteLayout(rs, b.csr, b.coo, b.siteTable) &&
    b.targets == Targets(rs)
  }

  lemma CsrCooHold(counts: seq<nat>)
    ensures CsrLayout(counts, Offsets(counts))
    ensures CooLayout(counts, Offsets(counts), Labels(counts))
  {
    var csr, coo := Offsets(counts), Labels(counts);
    OffsetsProperties(counts);
    LabelsLength(counts);
    forall s | 0 <= s < |coo|
      ensures coo[s] < |counts| && csr[coo[s]] <= s < csr[coo[s] + 1]
    {
      LabelOfSite(counts, s);
    }
    forall s, t | 0 <= s <= t < |coo|
      ensures coo[s] <= coo[t]
    {
      LabelsSorted(counts, s, t);
    }
  }

  /** The two index rows of flat site s, under a well-formed batch. */
  lemma IndexRowHolds<S, E>(rs: seq<Record<S, E>>, s: nat)
    requires WellFormed(rs)
    requires s < Sum(SiteCounts(rs))
    ensures |Labels(SiteCounts(rs))| == Sum(SiteCounts(rs)) && Labels(SiteCounts(rs))[s] < |rs|
    ensures |AttentionI(SiteCounts(rs), Width(rs))| == Sum(SiteCounts(rs))
    ensures |AttentionJ(SiteCounts(rs), Prims(rs), Images(rs), Width(rs))| == Sum(SiteCounts(rs))
    ensures IndexRow(rs, Offsets(SiteCounts(rs)), Labels(SiteCounts(rs)),
                     AttentionI(SiteCounts(rs), Width(rs)),
                     AttentionJ(SiteCounts(rs), Prims(rs), Images(rs), Width(rs)), s)
  {
    LabelsLength(SiteCounts(rs));
    AttentionIAt(SiteCounts(rs), Width(rs), s);
    JRowHolds(rs, s);
  }

  /** attention_j row s of a well-formed batch, for the owner of s. */
  lemma JRowHolds<S, E>(rs: seq<Record<S, E>>, s: nat)
    requires WellFormed(rs)
    requires s < Sum(SiteCounts(rs))
    ensures |Labels(SiteCounts(rs))| == Sum(SiteCounts(rs)) && Labels(SiteCounts(rs))[s] < |rs|
    ensures |AttentionJ(SiteCounts(rs), Prims(rs), Images(rs), Width(rs))| == Sum(SiteCounts(rs))
    ensures JRowOf(AttentionJ(SiteCounts(rs), Prims(rs), Images(rs), Width(rs)), s, Width(rs),
                   Offsets(SiteCounts(rs))[Labels(SiteCounts(rs))[s]],
                   Offsets(SiteCounts(rs))[Labels(SiteCounts(rs))[s] + 1],
                   rs[Labels(SiteCounts(rs))[s]].primSize, rs[Labels(SiteCounts(rs))[s]].images)
  {
    var counts, w := SiteCounts(rs), Width(rs);
    LabelOfSite(counts, s);
    LabelsLength(counts);
    AttentionJInRecord(rs, s);
    AttentionJAt(counts, Prims(rs), Images(rs), w, s, Labels(counts)[s]);
  }

  /** The first slot of the last image points at the last primitive site. */
  lemma LastImageSlot(prim: nat, images: nat)
    requires prim >= 1 && images >= 1
    ensures (prim - 1) * images < prim * images
    ensures Slot(prim, images, (prim - 1) * images) == prim - 1
  {
    assert prim * images == (prim - 1) * images + images;
    DivMulExact(prim - 1, images);
  }

  lemma SlotBelow(prim: nat, images: nat, t: nat)
    requires prim >= 1 && images >= 1
    ensures Slot(prim, images, t) < prim
  {
  }

  /** Every entry of attention_j row s lies in the CSR interval of the record
      owning s: the index rows never point into another crystal. */
  lemma AttentionJInRecord<S, E>(rs: seq<Record<S, E>>, s: nat)
    requires WellFormed(rs)
    requires s < Sum(SiteCounts(rs))
    ensures |Labels(SiteCounts(rs))| == Sum(SiteCounts(rs)) && Labels(SiteCounts(rs))[s] < |rs|
    ensures |AttentionJ(SiteCounts(rs), Prims(rs), Images(rs), Width(rs))| == Sum(SiteCounts(rs))
    ensures |AttentionJ(SiteCounts(rs), Prims(rs), Images(rs), Width(rs))[s]| == Width(rs)
    ensures Within(AttentionJ(SiteCounts(rs), Prims(rs), Images(rs), Width(rs))[s],
                   Offsets(SiteCounts(rs))[Labels(SiteCounts(rs))[s]],
                   Offsets(SiteCounts(rs))[Labels(SiteCounts(rs))[s] + 1])
  {
    var counts, w := SiteCounts(rs), Width(rs);
    var csr := Offsets(counts);
    LabelOfSite(counts, s);
    LabelsLength(counts);
    var k := Labels(counts)[s];
    OffsetsProperties(counts);
    assert csr[k + 1] == csr[k] + counts[k];
    AttentionJAt(counts, Prims(rs), Images(rs), w, s, k);
    var aj := AttentionJ(counts, Prims(rs), Images(rs), w);
    forall t | 0 <= t < w
      ensures csr[k] <= aj[s][t] < csr[k + 1]
    {
      assert counts[k] > 0 && w > 0;
      SlotBelow(rs[k].primSize, rs[k].images, t);
    }
  }

  lemma IndexLayoutHolds<S, E>(rs: seq<Record<S, E>>)
    requires WellFormed(rs)
    ensures forall s :: 0 <= s < |Labels(SiteCounts(rs))| ==> Labels(SiteCounts(rs))[s] < |rs|
    ensures IndexLayout(rs, Offsets(SiteCounts(rs)), Labels(SiteCounts(rs)),
                        AttentionI(SiteCounts(rs), Width(rs)),
                        AttentionJ(SiteCounts(rs), Prims(rs), Images(rs), Width(rs)))
  {
    var counts, w := SiteCounts(rs), Width(rs);
    CsrCooHold(counts);
    LabelsLength(counts);
    var ai, aj := AttentionI(counts, w), AttentionJ(counts, Prims(rs), Images(rs), w);
    if Sum(counts) > 0 {
      IndexRowHolds(rs, 0);
    } else {
      FlattenLength(IBlocks(counts, w));
      FlattenLength(JBlocks(counts, Prims(rs), Images(rs), w));
    }
    forall s | 0 <= s < Sum(counts)
      ensures IndexRow(rs, Offsets(counts), Labels(counts), ai, aj, s)
    {
      IndexRowHolds(rs, s);
    }
  }

  /** Every COO label names a record of the batch. */
  lemma LabelsInRange(counts: seq<nat>)
    ensures forall s :: 0 <= s < |Labels(counts)| ==> Labels(counts)[s] < |counts|
  {
    LabelsLength(counts);
    forall s | 0 <= s < |Labels(counts)|
      ensures Labels(counts)[s] < |counts|
    {
      LabelOfSite(counts, s);
    }
  }

  lemma MaskLayoutHolds<S, E>(rs: seq<Record<S, E>>)
    ensures forall s :: 0 <= s < |Labels(SiteCounts(rs))| ==> Labels(SiteCounts(rs))[s] < |rs|
    ensures MaskLayout(rs, Labels(SiteCounts(rs)), AttentionMask(Labels(SiteCounts(rs)), ActualLengths(rs), Width(rs)))
  {
    var coo := Labels(SiteCounts(rs));
    LabelsInRange(SiteCounts(rs));
    var mask := AttentionMask(coo, ActualLengths(rs), Width(rs));
    forall s | 0 <= s < |mask|
      ensures CountFalse(mask[s]) == rs[coo[s]].primSize * rs[coo[s]].images
    {
      var al := ActualLengths(rs)[coo[s]];
      assert al <= Width(rs);
      MaskRowCount(al, Width(rs));
    }
  }

  lemma AdjacencyStackShape<S, E>(rs: seq<Record<S, E>>, zero: E)
    requires forall k :: 0 <= k < |rs| ==> BondsRectangular(rs[k])
    ensures |AdjacencyStack(rs, zero)| == Sum(BondRowCounts(rs))
    ensures forall i :: 0 <= i < |AdjacencyStack(rs, zero)| ==> |AdjacencyStack(rs, zero)[i]| == MaxBondWidth(rs)
  {
    FlattenLength(PaddedBlocks(rs, zero));
    forall i | 0 <= i < |AdjacencyStack(rs, zero)|
      ensures |AdjacencyStack(rs, zero)[i]| == MaxBondWidth(rs)
    {
      AdjacencyStackRows(rs, zero, i);
    }
  }

  /** Record k's bond rows fit in the stack after its CSR offset. */
  lemma AdjacencyBlockBounds<S, E>(rs: seq<Record<S, E>>, zero: E)
    requires forall k :: 0 <= k < |rs| ==> BondsRectangular(rs[k])
    ensures forall k :: 0 <= k < |rs| ==> Offsets(BondRowCounts(rs))[k] + |rs[k].bonds| <= |AdjacencyStack(rs, zero)|
  {
    var counts := BondRowCounts(rs);
    FlattenLength(PaddedBlocks(rs, zero));
    assert counts[..|rs|] == counts;
    forall k | 0 <= k < |rs|
      ensures Offsets(counts)[k] + |rs[k].bonds| <= |AdjacencyStack(rs, zero)|
    {
      PrefixSumStep(counts, k);
      PrefixSumMonotone(counts, k + 1, |rs|);
    }
  }

  /** Row r of record k sits at its CSR offset plus r, padded to the batch width. */
  lemma AdjacencyBlockRows<S, E>(rs: seq<Record<S, E>>, zero: E)
    requires forall k :: 0 <= k < |rs| ==> BondsRectangular(rs[k])
    requires forall k :: 0 <= k < |rs| ==> Offsets(BondRowCounts(rs))[k] + |rs[k].bonds| <= |AdjacencyStack(rs, zero)|
    ensures forall k, r :: 0 <= k < |rs| && 0 <= r < |rs[k].bonds| ==>
      AdjacencyStack(rs, zero)[Offsets(BondRowCounts(rs))[k] + r] == PadRecord(rs[k], MaxBondWidth(rs), zero)[r]
  {
    forall k, r | 0 <= k < |rs| && 0 <= r < |rs[k].bonds|
      ensures AdjacencyStack(rs, zero)[Offsets(BondRowCounts(rs))[k] + r] == PadRecord(rs[k], MaxBondWidth(rs), zero)[r]
    {
      AdjacencyStackAt(rs, zero, k, r);
    }
  }

  lemma BondLayoutHolds<S, E>(rs: seq<Record<S, E>>, zero: E)
    requires forall k :: 0 <= k < |rs| ==> BondsRectangular(rs[k])
    ensures BondLayout(rs, zero, AdjacencyStack(rs, zero))
  {
    AdjacencyStackShape(rs, zero);
    AdjacencyBlockBounds(rs, zero);
    AdjacencyBlockRows(rs, zero);
  }

  lemma SiteLayoutHolds<S, E>(rs: seq<Record<S, E>>)
    ensures forall s :: 0 <= s < |Labels(SiteCounts(rs))| ==> Labels(SiteCounts(rs))[s] < |rs|
    ensures SiteLayout(rs, Offsets(SiteCounts(rs)), Labels(SiteCounts(rs)), SiteTable(rs))
  {
    var counts := SiteCounts(rs);
    var csr, coo := Offsets(counts), Labels(counts);
    CsrCooHold(counts);
    FlattenLength(SiteBlocks(rs));
    forall s | 0 <= s < |coo|
      ensures csr[coo[s]] <= s < csr[coo[s]] + |rs[coo[s]].sites|
      ensures SiteTable(rs)[s] == rs[coo[s]].sites[s - csr[coo[s]]]
    {
      SiteTableAt(rs, coo[s], s);
    }
  }

  /** collate_fn: a batch without sites cannot be concatenated; otherwise the
      first record whose index rows raise aborts the batch, and a well-formed
      batch yields the layout BatchLayout describes. */
  method CollateBatch<S, E>(rs: seq<Record<S, E>>, zero: E) returns (res: Result<Batch<S, E>, CollateError>)
    requires forall k :: 0 <= k < |rs| ==> BondsRectangular(rs[k])
    ensures Sum(SiteCounts(rs)) == 0 ==> res == Err(EmptyBatch)
    ensures Sum(SiteCounts(rs)) > 0 ==> (res.Ok? <==> WellFormed(rs))
    ensures Sum(SiteCounts(rs)) > 0 && res.Err? ==> FirstError(rs) == Some(res.error)
    ensures res.Ok? ==> BatchLayout(rs, zero, res.value)
  {
    var counts := SiteCounts(rs);
    var csr, coo := BuildOffsets(counts);
    OffsetsProperties(counts);
    if csr[|counts|] == 0 {
      return Err(EmptyBatch);
    }
    var w := Width(rs);
    var indices := BuildAttentionIndices(counts, Prims(rs), Images(rs), csr, w);
    WellFormedIff(rs);
    if indices.Err? {
      return Err(indices.error);
    }
    var (ai, aj) := indices.value;
    IndexLayoutHolds(rs);
    MaskLayoutHolds(rs);
    BondLayoutHolds(rs, zero);
    SiteLayoutHolds(rs);
    CsrCooHold(counts);
    var mask := AttentionMask(coo, ActualLengths(rs), w);
    res := Ok(Batch(SiteTable(rs), AdjacencyStack(rs, zero), Targets(rs), coo, csr, ai, aj, mask));
  }

  // ---------------------------------------------------------------------
  // As written, lines 114-117 pair the idx-th distinct COO label with the
  // idx-th record's primitive count and image count. The two coincide only
  // while every record owns a site; a record without sites shifts the
  // parameters of every later record onto the wrong item_index.

  /** np.unique(COO): the records that own at least one site, ascending. */
  function Present(counts: seq<nat>): (p: seq<nat>)
    ensures |p| <= |counts|
    ensures forall i :: 0 <= i < |p| ==> p[i] < |counts| && counts[p[i]] > 0
  {
    if counts == [] then []
    else
      var init := counts[..|counts| - 1];
      assert forall i :: 0 <= i < |init| ==> init[i] == counts[i];
      Present(init) + (if counts[|counts| - 1] > 0 then [|counts| - 1] else [])
  }

  /** Every record owns a site: np.unique(COO) enumerates all of them. */
  lemma {:induction false} PresentAll(counts: seq<nat>)
    requires forall k :: 0 <= k < |counts| ==> counts[k] > 0
    ensures Present(counts) == seq(|counts|, k => k)
    decreases |counts|
  {
    if counts != [] {
      var init := counts[..|counts| - 1];
      PresentAll(init);
    }
  }

  /** The index blocks as written: block idx covers the sites of record
      Present[idx] with the parameters of record idx. */
  function AsWrittenJBlocks(counts: seq<nat>, prims: seq<nat>, images: seq<nat>, w: nat): (b: seq<seq<seq<nat>>>)
    requires |prims| == |counts| && |images| == |counts|
    ensures |b| == |Present(counts)|
  {
    var present, csr := Present(counts), Offsets(counts);
    seq(|present|, idx requires 0 <= idx < |present| =>
      JBlock(csr[present[idx]], counts[present[idx]], prims[idx], images[idx], w))
  }

  /** attention_j as written; None when one of its lookups raises. */
  function AttentionJAsWritten(counts: seq<nat>, prims: seq<nat>, images: seq<nat>, w: nat): Option<seq<seq<nat>>>
    requires |prims| == |counts| && |images| == |counts|
  {
    var present := Present(counts);
    if exists idx :: 0 <= idx < |present| && RecordError(counts[present[idx]], prims[idx], images[idx], w).Some?
    then None
    else Some(Flatten(AsWrittenJBlocks(counts, prims, images, w)))
  }

  /** A batch whose first record has no sites and whose second has three
      primitive sites and one image: as written, every attention_j row points
      at the first site only; the intended rows visit all three sites. */
  lemma AsWrittenMisaligns()
    ensures FirstErrorFrom([0, 3], [1, 3], [1, 1], 3, 0) == None
    ensures AttentionJAsWritten([0, 3], [1, 3], [1, 1], 3) == Some([[0, 0, 0], [0, 0, 0], [0, 0, 0]])
    ensures AttentionJ([0, 3], [1, 3], [1, 1], 3) == [[0, 1, 2], [0, 1, 2], [0, 1, 2]]
  {
    TwoRecordOffsets();
    AsWrittenRows();
    IntendedRows();
  }

  lemma TwoRecordOffsets()
    ensures Offsets([0, 3]) == [0, 0, 3]
  {
    var counts: seq<nat> := [0, 3];
    assert counts[..0] == [] && counts[..1] == [0] && counts[..1][..0] == [] && counts[..2] == counts;
    assert counts[..2][..1] == [0];
    assert Sum(counts[..1]) == 0;
    assert Sum(counts[..2]) == 3;
  }

  lemma TwoRecordPresent()
    ensures Present([0, 3]) == [1]
  {
    var counts: seq<nat> := [0, 3];
    assert counts[..1] == [0] && counts[..1][..0] == [];
    assert Present(counts[..1]) == [];
  }

  lemma AsWrittenBlocks()
    ensures AsWrittenJBlocks([0, 3], [1, 3], [1, 1], 3) == [Repeat<seq<nat>>([0, 0, 0], 3)]
  {
    TwoRecordPresent();
    TwoRecordOffsets();
    var row := JRow(0, 1, 1, 3);
    assert Slot(1, 1, 0) == 0 && Slot(1, 1, 1) == 0 && Slot(1, 1, 2) == 0;
    assert row == [0, 0, 0];
    var b := AsWrittenJBlocks([0, 3], [1, 3], [1, 1], 3);
    assert |b| == 1;
    assert b[0] == JBlock(0, 3, 1, 1, 3);
    assert JBlock(0, 3, 1, 1, 3) == Repeat(row, 3);
  }

  lemma AsWrittenRows()
    ensures AttentionJAsWritten([0, 3], [1, 3], [1, 1], 3) == Some([[0, 0, 0], [0, 0, 0], [0, 0, 0]])
  {
    var counts: seq<nat>, prims: seq<nat>, images: seq<nat> := [0, 3], [1, 3], [1, 1];
    TwoRecordPresent();
    assert RecordError(3, 1, 1, 3) == None;
    AsWrittenBlocks();
    assert !exists idx :: 0 <= idx < 1 && RecordError(counts[Present(counts)[idx]], prims[idx], images[idx], 3).Some?;
    var row: seq<nat> := [0, 0, 0];
    var blocks: seq<seq<seq<nat>>> := [Repeat(row, 3)];
    var none: seq<seq<seq<nat>>> := [];
    assert blocks[..0] == none;
    assert Flatten(blocks) == Repeat(row, 3);
    assert AttentionJAsWritten(counts, prims, images, 3) == Some(Flatten(blocks));
    var expected: seq<seq<nat>> := [[0, 0, 0], [0, 0, 0], [0, 0, 0]];
    assert Repeat(row, 3) == expected;
  }

  lemma IntendedRows()
    ensures AttentionJ([0, 3], [1, 3], [1, 1], 3) == [[0, 1, 2], [0, 1, 2], [0, 1, 2]]
  {
    var counts: seq<nat>, prims: seq<nat>, images: seq<nat> := [0, 3], [1, 3], [1, 1];
    TwoRecordOffsets();
    var row := JRow(0, 3, 1, 3);
    assert Slot(3, 1, 0) == 0 && Slot(3, 1, 1) == 1 && Slot(3, 1, 2) == 2;
    assert row == [0, 1, 2];
    var blocks := JBlocks(counts, prims, images, 3);
    assert blocks == [[], Repeat(row, 3)];
    var none: seq<seq<seq<nat>>> := [];
    assert blocks[..1] == [[]] && blocks[..1][..0] == none;
    assert Flatten(blocks[..1]) == [];
    assert Flatten(blocks) == Repeat(row, 3);
  }

  /** While every record owns a site, the code as written computes the intended attention_j. */
  lemma AsWrittenAgreesWithoutEmptyRecords(counts: seq<nat>, prims: seq<nat>, images: seq<nat>, w: nat)
    requires |prims| == |counts| && |images| == |counts|
    requires forall k :: 0 <= k < |counts| ==> counts[k] > 0
    ensures AttentionJAsWritten(counts, prims, images, w) ==
      if FirstErrorFrom(counts, prims, images, w, 0) == None then Some(AttentionJ(counts, prims, images, w)) else None
  {
    PresentAll(counts);
    FirstErrorNone(counts, prims, images, w, 0);
    assert AsWrittenJBlocks(counts, prims, images, w) == JBlocks(counts, prims, images, w);
  }
}
