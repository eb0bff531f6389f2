# Site-Net Deep InfoMax: a Dafny model of batching, indexing and shape logic

Site-Net learns representations of crystal structures with attention over each
site's neighbourhood. It trains them with Deep InfoMax (DIM): the model learns
to tell a crystal's real local environments from "false" ones built by rolling
or permuting the batch. This project models the index and shape bookkeeping
behind that and proves properties about it. Neural-network numerics are not
modelled.

- **Collator** (`Collate`): `collate_fn` turns a list of crystal records into
  one ragged batch:
  - one flat axis of sites;
  - the CSR offsets (where each record's sites start) and the COO labels (the
    record that owns each flat site);
  - the `attention_i` / `attention_j` index arrays;
  - the padding mask and the zero-padded bond table.
- **Samplers** (`Sampler`):
  - the greedy sampler packs crystals into batches under a `prim_size` budget;
  - the multitask sampler seeds every batch with one chosen labelled crystal
    and fills it from a cycled stream of unlabelled ones.
- **Layer stacks and reshapes** (`Shapes`): `pairwise`, the layer-width chains
  of `set_seq_af_norm` / `pairwise_seq_af_norm`, and `head_reshape`. Tensors
  are represented by their shapes.
- **Attention block** (`Attention`), per entry of the weight tensor:
  - the padding and cutoff masks written as `-inf` into the weights;
  - the top-k mask of `k_softmax`;
  - the running summary `m` that concatenates each block's output.
- **Encoder** (`Encoder`): `SiteNetEncoder` at the level of feature widths.
  This covers the construction-time layer lists, the fold over attention
  blocks, the pre-pool stack, the `mean`/`max` aggregator dispatch and the
  post-pool stack.
- **Deep InfoMax** (`DIM`):
  - the half-batch roll `false_sample`, and the rolled COO labels of the
    global negatives;
  - the column permutation of `attention_j`;
  - which negatives are averaged, by the `extra_false_samples` switch;
  - the KL switch.
- **Inference and data split** (`Inference`): the chunking of a dataset into
  inference batches, and the 95/5 `random_split`.

Intermediate tensors are represented as follows:
- Weights are `Score` values (a real or `-inf`).
- Features are opaque type parameters.
- Shapes are sequences of `nat`.

Randomness enters as parameters: `torch.randperm`, `shuffle` and topk's
choice of indices are all passed in. Supporting modules:
- `Wrappers` holds `Option` and `Result`.
- `SeqUtil` holds sums, concatenation, distinctness and arithmetic facts.

Two points about failures:
- `collate_fn` never checks a record's bond array against its site count, so
  the model has no such error. Its failures are an empty batch and the numpy
  errors of the index construction.
- An unknown aggregator name is not rejected when the encoder is constructed.
  The encoder raises at the aggregator dispatch in `forward`
  (`Encoder.UnknownPoolingRaises`).

## Model

| member | source | states |
|---|---|---|
| Collate.SiteCounts | lightning_module.py:107-110 | definition: one count per record, equal to the length of that record's site feature tensor |
| Collate.ActualLengths | lightning_module.py:59 | definition: `actual_length[k]` is `prim_size * images` of record k |
| Collate.Width | lightning_module.py:119-121 | definition: the shared slot width `max(actual_length)` of every index and mask row; its meaning is stated by `Collate.AttentionIAt`, `Collate.MaskRowCount` and `Collate.IndexRowHolds` |
| Collate.Prims | lightning_module.py:57 | definition: `primitive_lengths[k]` is the `prim_size` of record k |
| Collate.Images | lightning_module.py:58 | definition: `image_count[k]` is the `images` of record k |
| Collate.Offsets | lightning_module.py:104-111 | CSR has one entry per record plus the final total |
| Collate.OffsetsProperties | lightning_module.py:104-111 | CSR starts at 0 and ends at the total site count; consecutive entries differ by the record's site count; CSR is non-decreasing |
| Collate.BuildOffsets | lightning_module.py:104-111 | the running-counter loop yields exactly the CSR and COO sequences that specify them |
| Collate.LabelBlocks | lightning_module.py:110 | record k contributes a run of `counts[k]` labels |
| Collate.Labels | lightning_module.py:104-110 | definition of COO, the record labels repeated by site count; its meaning is stated by `Collate.LabelsLength`, `Collate.LabelsExact` and `Collate.LabelsSorted` |
| Collate.LabelsPrefixStep | lightning_module.py:107-110 | one loop step extends COO by exactly `[k] * counts[k]` |
| Collate.Locate | lightning_module.py:104-111 | every flat site lies in the CSR interval of some record |
| Collate.LabelsLength | lightning_module.py:110 | COO has one label per flat site |
| Collate.LabelInInterval | lightning_module.py:110 | a flat site in record k's CSR interval is labelled k |
| Collate.LabelOfSite | lightning_module.py:110 | a flat site's label names a record, and the site lies in that record's interval |
| Collate.LabelsInRange | lightning_module.py:110 | every COO label names a record of the batch |
| Collate.LabelsExact | lightning_module.py:104-111 | `COO[s] == k` exactly when s lies between `CSR[k]` and `CSR[k+1]` (both directions) |
| Collate.LabelsSorted | lightning_module.py:110 | COO is non-decreasing |
| Collate.Slot | lightning_module.py:121 | definition of the primitive position `(t // images) % prim_count` slot t looks up; its meaning is stated by `Collate.SlotBelow`, `Collate.ImageRun` and `Collate.SlotWraps` |
| Collate.IBlock | lightning_module.py:119 | one `attention_i` row per site of the record |
| Collate.JRow | lightning_module.py:121 | an `attention_j` row has the batch width `max(actual_length)` |
| Collate.JBlock | lightning_module.py:121 | one `attention_j` row per site of the record |
| Collate.RecordError | lightning_module.py:114-121 | definition of the numpy error a record's lookups raise: division by zero for zero `images` or `prim_count` on a non-empty record, an index error when a slot reaches past its sites; its meaning is stated by `Collate.IndexOutOfRangeExact` |
| Collate.IndexOutOfRangeExact | lightning_module.py:121 | the lookup `item_index[(t // images) % prim_count]` raises exactly when some slot's position reaches past the record's own sites |
| Collate.LastImageSlot | lightning_module.py:121 | the first slot of the last image looks up primitive site `prim_count - 1` |
| Collate.SlotBelow | lightning_module.py:121 | `(t // images) % prim_count` is below `prim_count` |
| Collate.FirstErrorNone | lightning_module.py:114-121 | no error is raised exactly when no record's lookups raise |
| Collate.FirstError | lightning_module.py:114-121 | definition: the error of the first record whose lookups raise, at the batch width; its meaning is stated by `Collate.FirstErrorNone` |
| Collate.WellFormed | lightning_module.py:114-121 | definition of a batch whose index construction raises nothing; its meaning is stated by `Collate.WellFormedIff` |
| Collate.IBlocks | lightning_module.py:112-119 | one `attention_i` block per record, with as many rows as the record has sites |
| Collate.JBlocks | lightning_module.py:112-121 | one `attention_j` block per record, with as many rows as the record has sites |
| Collate.AttentionI | lightning_module.py:112-123 | definition: the `attention_i` blocks concatenated; its meaning is stated by `Collate.AttentionIAt` |
| Collate.AttentionJ | lightning_module.py:112-124 | definition: the `attention_j` blocks concatenated, each record using its own `prim_size` and `images`; its meaning is stated by `Collate.AttentionJAt` and `Collate.AttentionJInRecord` |
| Collate.BuildAttentionIndices | lightning_module.py:112-124 | the per-record loop either yields the concatenated index arrays or raises the error of the first record whose lookups fail |
| Collate.AttentionIAt | lightning_module.py:119 | `attention_i[s]` has the batch width and every entry equal to s |
| Collate.AttentionJAt | lightning_module.py:121 | entry t of `attention_j[s]` is `CSR[k] + (t // images) % prim_count` for the record k owning s |
| Collate.AttentionJInRecord | lightning_module.py:115-121 | in a well-formed batch, every entry of `attention_j[s]` lies in the CSR interval of the record owning s |
| Collate.DivRange | lightning_module.py:121 | `t // images == p` exactly when `p * images <= t < (p + 1) * images` |
| Collate.ImageRun | lightning_module.py:121 | within the first `prim * images` slots, primitive site p fills exactly the run of `images` consecutive slots starting at `p * images` |
| Collate.SlotWraps | lightning_module.py:121 | beyond the record's actual length, the slot pattern repeats with period `prim * images` |
| Collate.MaskRow | lightning_module.py:138 | a mask row has the batch width |
| Collate.AttentionMask | lightning_module.py:144 | the mask has one row per flat site, selected by COO |
| Collate.MaskRowCount | lightning_module.py:135-143 | a mask row has `min(actual_length, width)` unmasked slots |
| Collate.PadRow | lightning_module.py:81-91 | padding keeps the original entries at their slots and puts the zero value in every added slot |
| Collate.BondWidths | lightning_module.py:77 | definition: one bond width per record, the second dimension of its bond tensor |
| Collate.BondRowCounts | lightning_module.py:79-95 | definition: one bond row count per record |
| Collate.MaxBondWidth | lightning_module.py:76-78 | the padded width is at least every record's bond width |
| Collate.MaxBondWidthAttained | lightning_module.py:76-78 | the padded width is the bond width of some record, so it is the largest one |
| Collate.PadRecord | lightning_module.py:81-91 | each row of a record's padded bond tensor is that row padded to the common width |
| Collate.PaddedBlocks | lightning_module.py:79-95 | one padded block per record, row counts preserved |
| Collate.AdjacencyStack | lightning_module.py:75-96 | definition: the padded bond blocks stacked in record order; its meaning is stated by `Collate.AdjacencyStackAt`, `Collate.AdjacencyStackRows` and `Collate.AdjacencyStackShape` |
| Collate.AdjacencyStackAt | lightning_module.py:75-96 | row r of record k sits at row `CSR_bonds[k] + r` of the stack, padded to the widest record |
| Collate.AdjacencyStackRows | lightning_module.py:75-96 | the stack has one row per bond row of the batch, each of maximum width |
| Collate.AdjacencyStackShape | lightning_module.py:75-96 | the stack has one row per bond row of the batch, and every row has the widest record's width |
| Collate.AdjacencyBlockBounds | lightning_module.py:79-95 | each record's rows fit in the stack after its offset |
| Collate.AdjacencyBlockRows | lightning_module.py:79-95 | row r of record k is at offset plus r, padded to the widest record |
| Collate.PaddedWidthIsSlotWidth | lightning_module.py:59 | when every bond tensor has exactly `actual_length` slots, the padded width equals the index arrays' width |
| Collate.SiteBlocks | lightning_module.py:145 | one block of site features per record, of its site count |
| Collate.SiteTable | lightning_module.py:145 | definition: the site blocks concatenated; its meaning is stated by `Collate.SiteTableAt` |
| Collate.Targets | lightning_module.py:150 | definition: one target per record, in record order |
| Collate.SiteTableAt | lightning_module.py:145 | flat site s of record k is site `s - CSR[k]` of that record |
| Collate.WellFormedIff | lightning_module.py:114-121 | the well-formedness condition holds exactly when no record's index construction raises |
| Collate.BondsRectangular | lightning_module.py:76-77 | definition: every bond row of a record has the same width, as a tensor's rows do; a precondition of the bond-table lemmas |
| Collate.CsrLayout | lightning_module.py:104-111 | definition: CSR has one entry per record plus one, starts at 0, ends at the site total and steps by each record's site count |
| Collate.CooLayout | lightning_module.py:104-111 | definition: COO has one label per flat site, each naming the record whose CSR interval holds the site, and is non-decreasing |
| Collate.IRowOf | lightning_module.py:119 | definition: `attention_i` row s has the batch width and every entry s |
| Collate.JRowOf | lightning_module.py:121 | definition: `attention_j` row s has the batch width, entry t is the owner's first site plus `Slot(prim_count, images, t)`, and every entry lies in the owner's CSR interval |
| Collate.IndexRow | lightning_module.py:112-124 | definition: both index rows of flat site s, for the record COO labels s with |
| Collate.IndexLayout | lightning_module.py:112-124 | definition: one `attention_i` and one `attention_j` row per flat site, each with the layout of `Collate.IndexRow` |
| Collate.MaskLayout | lightning_module.py:135-144 | definition: one mask row per flat site, of the batch width, masking exactly the slots at or past the owner's actual length |
| Collate.BondLayout | lightning_module.py:75-96 | definition: one bond-table row per bond row of the batch, all of the widest record's width, with row r of record k at that record's bond offset plus r, padded with zeros |
| Collate.SiteLayout | lightning_module.py:145 | definition: one site-table row per flat site, the site `s - CSR[COO[s]]` of record `COO[s]` |
| Collate.BatchLayout | lightning_module.py:54-155 | definition of the whole batch layout: the CSR, COO, index, mask, bond and site layouts above, and the targets in record order; the success case of `Collate.CollateBatch` |
| Collate.CsrCooHold | lightning_module.py:104-111 | the CSR and COO sequences satisfy their layout predicates |
| Collate.IndexRowHolds | lightning_module.py:112-124 | in a well-formed batch, the two index rows of flat site s have the layout: `attention_i` constant s, `attention_j` inside the owner's interval |
| Collate.JRowHolds | lightning_module.py:115-121 | in a well-formed batch, `attention_j[s]` walks the owner's primitive sites image by image and stays inside the owner's interval |
| Collate.IndexLayoutHolds | lightning_module.py:112-124 | the index layout holds for every flat site of a well-formed batch |
| Collate.MaskLayoutHolds | lightning_module.py:135-144 | mask row s marks exactly the slots past its owner's actual length |
| Collate.BondLayoutHolds | lightning_module.py:75-96 | the bond table holds every record's rows in order, each padded to the widest record |
| Collate.SiteLayoutHolds | lightning_module.py:145 | the site table holds every record's sites in order |
| Collate.CollateBatch | lightning_module.py:54-155 | a batch without sites fails with EmptyBatch; otherwise the call succeeds exactly for well-formed batches, a failure is the first record's error, and a success has the whole batch layout `Collate.BatchLayout` |
| Collate.Present | lightning_module.py:114 | `np.unique(COO)` lists, ascending, records that own at least one site |
| Collate.PresentAll | lightning_module.py:114 | when every record owns a site, `np.unique(COO)` enumerates every record in order |
| Collate.AsWrittenJBlocks | lightning_module.py:114-121 | as written: one block per distinct label, using the parameters of the idx-th record |
| Collate.AttentionJAsWritten | lightning_module.py:114-124 | definition of `attention_j` as written, failing when any lookup raises; its meaning is stated by `Collate.AsWrittenRows`, `Collate.AsWrittenMisaligns` and `Collate.AsWrittenAgreesWithoutEmptyRecords` |
| Collate.TwoRecordOffsets | lightning_module.py:104-111 | site counts [0, 3] give CSR [0, 0, 3] |
| Collate.TwoRecordPresent | lightning_module.py:114 | site counts [0, 3] give `np.unique(COO) == [1]` |
| Collate.AsWrittenBlocks | lightning_module.py:114-121 | as written, the one block of that batch uses record 0's parameters and points every slot at site 0 |
| Collate.AsWrittenRows | lightning_module.py:114-124 | as written, `attention_j` of that batch is three rows `[0, 0, 0]` |
| Collate.IntendedRows | lightning_module.py:114-124 | the intended `attention_j` of that batch is three rows `[0, 1, 2]` |
| Collate.AsWrittenMisaligns | lightning_module.py:114-117 | counterexample: with an empty first record, every `attention_j` row as written points at the first site only, while the intended rows visit all three sites |
| Collate.AsWrittenAgreesWithoutEmptyRecords | lightning_module.py:114-121 | when every record owns a site, the code as written computes the intended `attention_j` |
| Sampler.Pack | lightning_module.py:1135-1152 | definition of the generator loop once a batch is open; its meaning is stated by `Sampler.PackFlatten`, `Sampler.PackFits`, `Sampler.PackNonEmpty` and `Sampler.PackGreedy` |
| Sampler.GreedyBatches | lightning_module.py:1125-1152 | definition of the sampler as written: an empty sampler is an error, otherwise packing starts from an empty open batch; its meaning is stated by `Sampler.GreedyFirstBatch` and `Sampler.GreedyBatchesSound` |
| Sampler.SampleBatches | lightning_module.py:1125-1152 | the generator loop yields exactly the batches of the packing function, and an empty sampler is an error |
| Sampler.PackFlatten | lightning_module.py:1135-1152 | every crystal is handed out exactly once, in sampler order |
| Sampler.PackFits | lightning_module.py:1138-1146 | every batch respects the budget unless it is a single crystal that alone exceeds it |
| Sampler.PackNonEmpty | lightning_module.py:1138-1150 | once a batch is open, every yielded batch is non-empty |
| Sampler.PackGreedy | lightning_module.py:1138-1142 | a batch is closed only when the next crystal would overflow it |
| Sampler.GreedyFirstBatch | lightning_module.py:1132-1139 | the opening empty batch is yielded exactly when the first crystal alone exceeds the budget; every later batch is non-empty |
| Sampler.GreedyBatchesSound | lightning_module.py:1125-1152 | over an epoch, every crystal is handed out once in order and every batch fits |
| Sampler.GreedyExample | lightning_module.py:1125-1152 | prim sizes 2, 3, 5 under budget 6 give the batches [0, 1] and [2] |
| Sampler.GreedyEmptyFirstBatch | lightning_module.py:1132-1139 | counterexample: one crystal of size 7 under budget 6 yields an empty batch first as written, and not in the corrected sampler |
| Sampler.GreedyBatchesFixed | lightning_module.py:1125-1152 | definition of the corrected sampler, which drops the opening empty batch; its meaning is stated by `Sampler.GreedyBatchesFixedSound` |
| Sampler.GreedyBatchesFixedSound | lightning_module.py:1125-1152 | the corrected sampler yields only non-empty batches, hands out every crystal once in order, and respects the budget |
| Sampler.Fillers | lightning_module.py:1163 | the filler stream holds exactly the sampler's crystals that are not chosen labels |
| Sampler.MultiPack | lightning_module.py:1165-1186 | definition of the multitask loop over the labels and the cycled filler stream; its meaning is stated by `Sampler.MultiPackShape`, `Sampler.MultiPackFillers`, `Sampler.MultiPackFits` and `Sampler.MultiPackStream` |
| Sampler.MultitaskBatches | lightning_module.py:1159-1186 | definition of one multitask epoch, failing without labels or fillers; its meaning is stated by `Sampler.MultitaskBatchesSound` |
| Sampler.MultiPackShape | lightning_module.py:1165-1186 | one batch per label plus the final batch repeated, each batch led by its label |
| Sampler.ShapeCons | lightning_module.py:1172-1176 | closing label li's batch in front of the run of label li + 1 keeps every batch led by its own label |
| Sampler.MultiPackFillers | lightning_module.py:1163-1180 | past its label, every crystal of every batch comes from the filler stream |
| Sampler.MultiPackFits | lightning_module.py:1172-1180 | every batch fits the budget, or is a single label that alone exceeds it |
| Sampler.MultitaskBatchesSound | lightning_module.py:1159-1186 | an epoch fails exactly when there are no labels or no fillers; otherwise it has the shape, filler and budget guarantees |
| Sampler.MultitaskSampler.constructor | lightning_module.py:1155-1158 | the chosen labels are the first `N_labels` crystals of one pass |
| Sampler.MultitaskSampler.Iter | lightning_module.py:1159-1186 | the labels list becomes its shuffled arrangement, and the loop yields exactly the specified epoch |
| Sampler.MultitaskSampler.Len | lightning_module.py:1187-1188 | definition: `__len__` is the number of chosen labels; its meaning is stated by `Sampler.LenVersusYields` |
| Sampler.LenVersusYields | lightning_module.py:1187-1188 | `__len__` reports one batch fewer than an epoch yields |
| Sampler.Cycle | lightning_module.py:1163 | `cycle` yields the fillers round-robin from its position |
| Sampler.MultiPackStream | lightning_module.py:1163-1180 | fillers are drawn from the cycled stream strictly in order; a filler that does not fit is carried into the next batch, never skipped or repeated |
| Sampler.FillerParts | lightning_module.py:1165-1180 | the filler part of each batch but the last: the batch without its leading label |
| Sampler.StreamOf | lightning_module.py:1163-1180 | definition: the filler parts, joined, are a prefix of the cycled stream; its meaning is stated by `Sampler.MultiPackStream` |
| Sampler.CycleCons | lightning_module.py:1163 | drawing one filler from the cycle leaves the cycle one position further on |
| Sampler.StreamOfCons | lightning_module.py:1165-1180 | closing a batch prepends it to the run without changing the filler stream taken |
| Sampler.StreamLastLabel | lightning_module.py:1172-1186 | when the last label's batch is closed, no more fillers are drawn |
| Sampler.StreamNextLabel | lightning_module.py:1172-1176 | a filler that does not fit closes the batch and is offered to the next label's batch, not consumed |
| Sampler.StreamAdd | lightning_module.py:1177-1180 | a filler that fits is appended and the cycle moves on by one |
| Shapes.Pairwise | modules.py:70-73 | a sliding window of length 2: one fewer pair than elements, pair i is `(x[i], x[i+1])` |
| Shapes.Stages | modules.py:17-47 | definition: the layers of a width list are its consecutive pairs; its meaning is stated by `Shapes.StagesChained` |
| Shapes.StagesChained | modules.py:20-23 | the linear layers built from consecutive widths chain: each layer's output width is the next layer's input width |
| Shapes.ApplyLinear | modules.py:23 | definition of `nn.Linear(i, j)` on a shape: no feature axis or a width other than i raises, otherwise the last axis becomes j; its meaning is stated by `Shapes.ApplyChained` |
| Shapes.ApplyStages | modules.py:26-31 | definition of the stack's forward, stage after stage; its meaning is stated by `Shapes.ApplyChained` and `Shapes.StackWidthAgrees`, and `Shapes.ChainForward` computes it |
| Shapes.ApplyChained | modules.py:26-31 | a chained stack accepts a tensor exactly when its last dimension is the first layer's input width, and replaces it with the last output width |
| Shapes.ChainForward | modules.py:26-31 | the forward loop applies the layers one by one, with the same result as the stack specification |
| Shapes.LayerChain | modules.py:17-47 | a list of fewer than two widths is the identity; otherwise the stack accepts exactly the inputs whose last dimension is `layers[0]`, and outputs `layers[-1]` |
| Shapes.StackWidth | modules.py:17-47 | definition of a stack's effect on the feature width alone; its meaning is stated by `Shapes.StackWidthAgrees` |
| Shapes.StackWidthAgrees | modules.py:17-47 | tracking only the last dimension of the tensor gives the same result as applying the stack to the full shape |
| Shapes.HeadReshape | modules.py:145-147 | definition of `head_reshape` on shapes; its meaning is stated by `Shapes.HeadReshapeExact` and `Shapes.HeadReshapeEmptyTensor` |
| Shapes.HeadReshapeExact | modules.py:145-147 | for a non-empty tensor, `head_reshape` succeeds exactly when the heads divide the last dimension; it keeps the leading dimensions, splits the last into `(d // heads, heads)` and preserves the element count |
| Shapes.HeadReshapeEmptyTensor | modules.py:145-147 | a tensor whose leading dimensions hold no elements reshapes for every positive head count, whether or not the heads divide its last dimension d, to the leading dimensions followed by `(d // heads, heads)` |
| Attention.NegInfs | modules.py:58 | definition: a cell of n entries, all `-inf` |
| Attention.MaskCell | modules.py:156 | a masked cell becomes all `-inf`; an unmasked one is unchanged |
| Attention.MaskWeights | modules.py:156-158 | masking in place: every cell of the weight tensor becomes the masked version of its old value |
| Attention.MaskTwice | modules.py:156-158 | applying the padding mask then the cutoff mask is the same as one mask by their disjunction; an entry stays finite exactly when neither mask hits it |
| Attention.CutoffMask | modules.py:268-271 | a cutoff mask exists exactly when `distance_cutoff >= 0`, and it marks exactly the bonds longer than the cutoff |
| Attention.IsTopK | modules.py:55 | definition of a valid `topk(k)` answer: k distinct positions of the row, each scoring at least every position left out; the specification `Attention.KSoftmaxMask` and `Attention.KeepOnlyTopK` are stated against |
| Attention.KeepOnly | modules.py:55-58 | same length as the row |
| Attention.KSoftmaxMask | modules.py:52-58 | `k == -1` leaves the row unchanged; any other k out of range raises and changes nothing; otherwise exactly the top-k positions are kept and the rest become `-inf` |
| Attention.KeepOnlyTopK | modules.py:53-58 | exactly k positions stay, each keeps its score, and each kept score is at least every dropped score |
| Attention.KeepAllWhenKIsLength | modules.py:53-58 | `k` equal to the row length keeps the whole row |
| Attention.KeepNoneWhenKIsZero | modules.py:53-58 | `k == 0` masks the whole row |
| Attention.Append | modules.py:169 | the first block's output starts the summary; later ones are concatenated row by row along dimension 1, and a row-count mismatch raises |
| Attention.Summary | modules.py:284-287 | definition of the running summary after a sequence of block outputs; its meaning is stated by `Attention.SummaryGrowth` and `Attention.SummaryErrorStays` |
| Attention.SummaryOf | modules.py:169 | definition of the intended summary, row s the blocks' rows s joined in block order; it is the postcondition of `Attention.SummaryGrowth` |
| Attention.SummaryErrorStays | modules.py:284-287 | once the summary raises, later blocks do not recover it |
| Attention.FoldSummary | modules.py:284-287 | the block loop builds exactly the specified running summary |
| Attention.RowsAtSnoc | modules.py:169 | a site's summary row grows by the new block's row |
| Attention.SummaryGrowth | modules.py:169 | with no block there is no summary; after K blocks of width w, row s is the concatenation of the blocks' rows s and has width `K * w` |
| Encoder.ParsePooling | modules.py:298-303 | `"mean"` and `"max"` are the only aggregators, each selected by its name (both directions) |
| Encoder.Lift | modules.py:256-311 | definition: a layer's shape error surfaces as the encoder's error; used by every width function of the encoder |
| Encoder.Last | modules.py:138 | definition: the `[-1]` entry of a non-empty width list; it enters the meaning of `Encoder.ForwardShapes` through `Encoder.OutputWidth` |
| Encoder.BondWidth | modules.py:142 | definition: the bond-feature width `(site_dim * 2 + interaction_dim) * heads` that `g^W` expects; its meaning is stated by `Encoder.BlockShapes` |
| Encoder.Linear | modules.py:200-211 | definition of one `nn.Linear(i, j)` on the feature width; its meaning is stated by `Shapes.StackWidthAgrees` |
| Encoder.WellShapedInputs | modules.py:199-209 | definition: site tokens of width `embedding_size + site_feature_size + 1` and bond features of width `interaction_feature_size`; the precondition of `Encoder.CorrectedEncoderRuns` |
| Encoder.OutputWidth | modules.py:246-249 | definition: `post_pool_layers[-1]`, or `pre_pool_layers[-1]` without post-pool layers; the output width in `Encoder.ForwardShapes` and `Encoder.CorrectedEncoderRuns` |
| Encoder.Build | modules.py:217-253 | construction fails exactly when `attention_hidden_layers` is empty with at least one block, or `pre_pool_layers` is empty under a known aggregator |
| Encoder.Block | modules.py:136-171 | definition of one block on feature widths; its meaning is stated by `Encoder.BlockShapes` |
| Encoder.RunBlocks | modules.py:284-287 | definition of the block loop on widths; its meaning is stated by `Encoder.RunBlocksShapes` and `Encoder.AllBlocksShapes` |
| Encoder.PrePool | modules.py:288-294 | definition of the pre-pool stack on the summary width; its meaning is stated by `Encoder.PrePoolShapes` |
| Encoder.Pool | modules.py:298-303 | definition of the aggregator dispatch; its meaning is stated by `Encoder.UnknownPoolingRaises` and `Encoder.ParsePooling` |
| Encoder.Forward | modules.py:256-311 | definition of the whole forward pass on widths; its meaning is stated by `Encoder.ForwardShapes` and `Encoder.NoBlocksNoRepresentation`, and `Encoder.EncoderForward` computes it |
| Encoder.BlockShapes | modules.py:136-171 | a block accepts its inputs exactly when `2 * site + interaction` widths match `g^W`'s input width, and outputs the bottleneck width and `attention_dim_interaction * heads` |
| Encoder.EncoderForward | modules.py:256-311 | the forward loops compute exactly the specified output shape or error |
| Encoder.RunBlocksShapes | modules.py:284-287 | after the first block, the remaining blocks run exactly when the bottleneck equals `site_dim_per_head * heads`, and each adds the bottleneck width to the summary |
| Encoder.AllBlocksShapes | modules.py:217-229 | the K blocks run exactly when K is 1 or the bottleneck equals `site_dim_per_head * heads`, leaving a summary of width `K * bottleneck` |
| Encoder.PrePoolShapes | modules.py:232-242 | the pre-pool stack accepts the summary of K blocks exactly when the bottleneck equals `site_dim_per_head * heads`, and outputs `pre_pool_layers[-1]` |
| Encoder.ForwardShapes | modules.py:232-311 | for a constructed encoder with a known aggregator, forward succeeds exactly when the bottleneck equals `site_dim_per_head * heads`, with output shape `[records, w]`, where w is `post_pool_layers[-1]`, or `pre_pool_layers[-1]` when there are no post-pool layers |
| Encoder.UnknownPoolingRaises | modules.py:298-303 | an unknown aggregator name raises at forward |
| Encoder.NoBlocksNoRepresentation | modules.py:284-294 | with no attention blocks the summary stays `None` and forward fails |
| Encoder.ForwardAsWritten | modules.py:217-229 | definition of the encoder as written, every block with the default bottleneck; its meaning is stated by `Encoder.DefaultEncoderFails` |
| Encoder.ForwardCorrected | modules.py:144 | definition of the encoder with each block's bottleneck set to `site_dim_per_head * heads`; its meaning is stated by `Encoder.CorrectedEncoderRuns` |
| Encoder.DefaultConfig | modules.py:177-193 | definition: SiteNetEncoder's default arguments (embedding 100, 4 blocks, 4 heads, 64 per head, layers [256, 256], `mean`); its meaning for the model is stated by `Encoder.DefaultEncoderFails` |
| Encoder.DefaultEncoderFails | modules.py:122 | counterexample: with the default configuration and the block's default bottleneck of 64, forward fails at the second block |
| Encoder.CorrectedEncoderRuns | modules.py:144 | with the bottleneck set to `site_dim_per_head * heads`, every constructed encoder with well-shaped inputs yields `[records, output width]` |
| DIM.Roll | modules.py:540-541 | roll preserves the length |
| DIM.RollAt | modules.py:540-541 | `torch.roll` moves element i to position `(i + shift) mod n` |
| DIM.RollSplit | modules.py:540-541 | a roll is a rotation: the last `shift mod n` elements come first |
| DIM.RollPermutes | modules.py:540-541 | a roll is a permutation of the batch (same multiset) |
| DIM.FalseSample | lightning_module.py:378-379 | the false sample has the batch's length |
| DIM.FalseSampleTrivial | lightning_module.py:378-379 | a batch of at most one element is its own false sample |
| DIM.FalseSampleInvolution | lightning_module.py:378-379 | on an even-length axis, two half-rolls give back the batch |
| DIM.FalseCoo | modules.py:477 | the rolled COO has one label per site |
| DIM.RollDistance | modules.py:477 | the rolled label at site s comes from a site `n // 2` or `n - n // 2` positions away |
| DIM.NoSelfPairs | modules.py:477-478 | when no record holds more than half the batch's sites, no site's rolled label is its own record |
| DIM.SiteInRecord | lightning_module.py:104-111 | a flat site lies in the CSR interval of the record its COO label names |
| DIM.RolledOutside | modules.py:477 | a site of an interval holding at most half the batch rolls by half the batch to a position outside that interval |
| DIM.RolledLabelDiffers | modules.py:477 | when the sites labelled k are exactly such an interval, the rolled label at a site of it is not k |
| DIM.FalseSampleAt | lightning_module.py:378-379 | position s of the false sample holds the entry `(s - n // 2) mod n` of the batch |
| DIM.SingleRecordSelfPairs | modules.py:477-478 | a one-record batch pairs every site with its own global representation |
| DIM.PermuteRow | lightning_module.py:452 | slot t of the permuted row takes slot `perm[t]` of the original row |
| DIM.PermuteColumns | lightning_module.py:452 | every row of `attention_j` is permuted by the same column permutation |
| DIM.PermutedRowStaysInRecord | lightning_module.py:450-452 | a permuted row stays within the owner's interval and still contains every original entry |
| DIM.PermutedBatchStaysInRecord | lightning_module.py:450-452 | on a collated batch, every permuted `attention_j` row points only at sites of its own record |
| DIM.LocalNegatives | modules.py:636-648 | definition of the three local negatives; its meaning is stated by `DIM.LocalNegativesCover` |
| DIM.LocalNegativesCover | modules.py:636-648 | the three local negatives are exactly the combinations of real/rolled neighbours and bonds other than all-real; the distance weights follow the bonds and the mask follows the neighbours |
| DIM.LocalLoss | modules.py:653-656 | with extra false samples, the loss is the true score plus the mean of the three false scores; otherwise the true score plus the fully rolled one |
| DIM.Engineered | lightning_module.py:455-458 | three engineered negatives with `extra_false_samples`, none without |
| DIM.GlobalLoss | modules.py:474-482 | definition: the mean of the false scores plus the true score; its meaning is stated by `DIM.GlobalLossBranches` |
| DIM.GlobalLossBranches | modules.py:474-482 | the rolled-COO score is always one of the averaged false scores; with extra samples the average is over four scores, otherwise the loss is rolled plus true score |
| DIM.KLEnabled | lightning_module.py:396-399 | definition: KL is on exactly when its loss weight is positive, as at lines 396-399 and 437-440; its meaning is stated by `DIM.KLSwitch` |
| DIM.KLLoss | modules.py:484-487 | with KL off the KL loss is zero |
| DIM.WeightedLoss | lightning_module.py:396-411 | definition of the weighted training objective; its meaning is stated by `DIM.KLSwitch` |
| DIM.KLSwitch | lightning_module.py:396-411 | a KL weight of zero or less makes the loss independent of the divergence; a positive weight scales the divergence's contribution |
| Inference.RangeLength | lightning_module.py:195 | definition of the number of starts of `range(0, n, step)`; its meaning is stated by `Inference.RangeLengthBounds` |
| Inference.RangeLengthBounds | lightning_module.py:195 | `range(0, n, bs)` yields `ceil(n / bs)` starts |
| Inference.Chunks | lightning_module.py:195 | a batch size of zero raises; a negative batch size gives no batches |
| Inference.ChunkAt | lightning_module.py:195 | definition of the slice `b[i * bs : i * bs + bs]` for the i-th start, clipped at the end; its meaning is stated by `Inference.ChunkSizes` and `Inference.ChunkExtends` |
| Inference.ChunksOf | lightning_module.py:195 | definition of the batches for a positive batch size; its meaning is stated by `Inference.ChunkSizes`, `Inference.ChunksPrefix` and `Inference.ChunksCover` |
| Inference.ChunkSizes | lightning_module.py:195 | every chunk holds between 1 and `bs` entries, all but the last exactly `bs`, and there are `ceil(n / bs)` of them |
| Inference.ChunksPrefix | lightning_module.py:195 | the first m chunks, joined, are the first `min(m * bs, n)` entries |
| Inference.ChunkExtends | lightning_module.py:195 | chunk i continues the dataset where the first i chunks stop |
| Inference.ChunksCover | lightning_module.py:195 | joining the inference batches gives back the dataset in order |
| Inference.ChunksSmall | lightning_module.py:195 | an empty dataset gives no batches; a dataset no larger than the batch size gives one batch |
| Inference.SplitSizes | lightning_module.py:1061 | the two sizes add up to the dataset size, and the validation size is `n // 20` |
| Inference.SplitPiece | lightning_module.py:1059-1063 | part k has `lengths[k]` indices |
| Inference.SplitParts | lightning_module.py:1059-1063 | one part per requested length |
| Inference.SplitPrefix | lightning_module.py:1059-1063 | the first m parts, joined, are the first `lengths[0] + ... + lengths[m-1]` shuffled indices |
| Inference.SplitProportion | lightning_module.py:1061 | below 20 entries the validation set is empty; from 20 on it is non-empty and the training part is at least 19 times the validation part |
| Inference.RandomSplit | lightning_module.py:1059-1063 | lengths that do not add up to the dataset size raise; otherwise part k has `lengths[k]` indices |
| Inference.SplitCovers | lightning_module.py:1059-1063 | the parts, joined in order, are the shuffled index order |
| Inference.TrainValPartition | lightning_module.py:1059-1063 | with a shuffled order that is a permutation, every index lands in exactly one of the training and validation sets, of sizes `n - n // 20` and `n // 20` |

## Left out

- Numerics:
  - All floating-point tensor arithmetic is left out: linear layers,
    activations, normalisation, softmax, einsum, softplus, the distance
    weights, and the DIM and prior losses beyond their case structure.
  - Scores are reals or `-inf`.
  - Losses are real-valued parameters.
- `segment_csr`:
  - It is used only through its contract: one reduced row per CSR interval.
  - The width-level encoder assumes it returns one row per record.
- Randomness, passed as parameters:
  - `torch.randperm`, `random.shuffle`, the `topk` index choice, and the
    Gaussian noise of the KL samples.
  - The shuffled order of the underlying sampler.
  - The `torch.Generator` seed of the split.
- Out of scope:
  - PyTorch Lightning (optimisers, logging, checkpoints, dataloaders and
    workers) and the HDF5 loading.
  - The featurisation (`ElementFraction`, pymatgen structures) and the
    composition tensors.
  - The `DIM_train.py` driver and the `DIM_downstream_sklearn.py` evaluation.
- `torch.utils.data.random_split` and `itertools.cycle` are library code, not
  part of this model. They are modelled by their documented behaviour.
- `Encoder.Forward`, `Encoder.EncoderForward`: the encoder tracks only the
  feature width of each tensor, not its full shape. Site and bond counts pass
  through unchanged.
- The `SiteNetDIMAttentionBlock` and `SiteNetDIMGlobal` forwards are modelled
  only for the pieces they share with the encoder block and the DIM loss:
  - the masks;
  - `false_sample`;
  - the global negatives with the rolled COO;
  - the `extra_false_samples` and KL branches.

  Their layer widths are not modelled.
- The second masking pass `~Attention_Mask` inside the local DIM score sums
  (modules.py:646-649) is modelled only as which mask each negative uses
  (`DIM.LocalNegativesCover`), not as a weighted sum.
- `Attention.KSoftmaxMask`:
  - The softmax that follows the mask is left out.
  - The top-k positions come from the caller, constrained to be a valid top-k
    choice, because topk may break ties either way.
- `DIM.PermutedRowStaysInRecord`: states that every original entry still
  appears in the permuted row, rather than that the permuted row is a
  rearrangement of it with the same multiset.
- `Sampler.MultitaskSampler.Iter`:
  - requires every filler to have a positive `prim_size`, because with
    all-zero fillers the source loops forever;
  - filters the fillers against the shuffled labels. The filter only tests
    membership, which the shuffle does not change.
- Collate.JBlocks: models the intended alignment of the first Findings row,
  record k's block built from record k's own parameters. The code as
  written is `Collate.AttentionJAsWritten`.
- Encoder.Build: the configuration carries no activation, normalisation or
  `set_norm` names. So the KeyError the source raises when such a name is
  missing from its dictionaries (modules.py:132, 203, 211, 244, 252, 254) is
  not modelled. Build fails exactly on the conditions it can see.
- `Sampler.MultitaskSampler.Len` carries no contract of its own. Its meaning
  is stated by `Sampler.LenVersusYields`.
- `Collate.CollateBatch`:
  - the empty batch is keyed on the total site count being zero, where numpy's
    concatenate of an empty list fails;
  - it uses the corrected per-record lookup of `prim_size` and `images`
    (Findings, first row), not the pairing of the idx-th distinct label with
    the idx-th record. So on record counts [0, 3], prim sizes [5, 3] and
    images [1, 1] the source raises IndexError (record 0's five primitive
    slots reach past the three sites) where the model succeeds;
  - `initialize_tensors` and the `Structure` entries added in inference mode
    are left out.

## Findings

| source | as written | input that shows it | evidently intended | confidence | as-written member | corrected member |
|---|---|---|---|---|---|---|
| lightning_module.py:114-117 | the idx-th distinct COO label is paired with the idx-th record's `prim_size` and `images` | a batch whose first record has no sites: record counts [0, 3], prim sizes [1, 3], images [1, 1] | record `batch_n`'s own parameters are looked up, so a record without sites shifts nothing | not executed; high that the misalignment occurs when a record has zero sites, low that such records reach the collator | Collate.AsWrittenMisaligns | Collate.JBlocks |
| lightning_module.py:1132-1139 | the generator yields its opening empty batch when the first crystal alone exceeds the budget, and `collate_fn` cannot collate an empty batch | one crystal of `prim_size` 7 under a budget of 6 | no empty batch is ever yielded | not executed; medium | Sampler.GreedyEmptyFirstBatch | Sampler.GreedyBatchesFixedSound |
| modules.py:122 | the encoder builds its attention blocks without passing `site_bottleneck`, so every block outputs 64 features, while the next block expects `site_dim_per_head * heads` | the default configuration: 4 blocks, 4 heads, 64 per head | every block outputs `site_dim_per_head * heads` features, so the blocks chain | not executed; medium, since configurations with `site_dim_per_head * heads == 64` are unaffected | Encoder.DefaultEncoderFails | Encoder.CorrectedEncoderRuns |
