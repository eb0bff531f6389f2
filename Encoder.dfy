/** SiteNetEncoder at the level of shapes: featurisation, the attention
    blocks, the running summary, pre-pool layers, the pooling dispatch and
    the post-pool layers. Only feature widths and leading extents are
    tracked; the layers' numbers are not. */
module Encoder {
  import opened Wrappers
  import opened Shapes

  /** The configuration entries the encoder's shapes depend on. */
  datatype EncoderConfig = EncoderConfig(
    embeddingSize: nat,
    siteFeatureSize: nat,
    blocks: nat,                    // attention_blocks
    heads: nat,                     // attention_heads
    siteDimPerHead: nat,            // site_dim_per_head
    prePool: seq<nat>,              // pre_pool_layers
    postPool: seq<nat>,             // post_pool_layers
    symFunc: string,                // sym_func
    interactionFeatureSize: nat,    // interaction_feature_size
    interactionDimPerHead: nat,     // attention_dim_interaction
    hidden: seq<nat>)               // attention_hidden_layers

  /** The bottleneck width SiteNetAttentionBlock uses when none is passed. */
  const DefaultSiteBottleneck: nat := 64

  datatype EncoderError =
    | Layer(shape: ShapeError)   // a linear layer or reshape refuses its input
    | EmptyLayerList             // layers[-1] on an empty list at construction
    | NoSummary                  // no attention block ran, so there is no summary
    | UnknownPooling             // sym_func is neither "mean" nor "max"

  datatype Pooling = Mean | Max

  /** The aggregator dispatch: only "mean" and "max" name a pooling. */
  function ParsePooling(name: string): (p: Option<Pooling>)
    ensures p == Some(Mean) <==> name == "mean"
    ensures p == Some(Max) <==> name == "max"
    ensures p.None? <==> name != "mean" && name != "max"
  {
    if name == "mean" then Some(Mean) else if name == "max" then Some(Max) else None
  }

  function Lift<R>(r: Result<R, ShapeError>): Result<R, EncoderError>
  {
    match r
    case Ok(v) => Ok(v)
    case Err(e) => Err(Layer(e))
  }

  function Last(xs: seq<nat>): nat
    requires xs != []
  {
    xs[|xs| - 1]
  }

  /** Construction reads attention_hidden_layers[-1] in every block and,
      for a known pooling, pre_pool_layers[-1]. */
  function Build(c: EncoderConfig): (e: Option<EncoderError>)
    ensures e.None? <==> (c.blocks >= 1 ==> c.hidden != []) &&
                         (ParsePooling(c.symFunc).Some? ==> c.prePool != [])
  {
    if c.blocks >= 1 && c.hidden == [] then Some(EmptyLayerList)
    else if ParsePooling(c.symFunc).Some? && c.prePool == [] then Some(EmptyLayerList)
    else None
  }

  /** The width the attention block's bond-feature layers expect. */
  function BondWidth(c: EncoderConfig): nat
  {
    (2 * c.siteDimPerHead + c.interactionDimPerHead) * c.heads
  }

  /** nn.Linear(i, j) on the feature width. */
  function Linear(i: nat, j: nat, d: nat): Result<nat, EncoderError>
  {
    Lift(StackWidth([i, j], d))
  }

  /** One attention block on site features of width dx and interaction
      features of width di; the result is the new pair of widths. The bond
      features concatenate x_i, x_j and the interaction features. */
  function Block(c: EncoderConfig, bottleneck: nat, dx: nat, di: nat): Result<(nat, nat), EncoderError>
    requires c.hidden != []
  {
    var sd, idim, h := c.siteDimPerHead, c.interactionDimPerHead, c.heads;
    var ije := 2 * dx + di;
    var hiddenOut :- Lift(StackWidth([2 * sd * h + idim * h] + c.hidden, ije));   // g^W hidden layers
    var weights :- Linear(Last(c.hidden), h, hiddenOut);                           // one weight per head
    var features :- Lift(StackWidth([BondWidth(c)] + c.hidden + [sd], ije));       // g^F
    // einsum "ijk,ije->iek" and the reshape give features * heads per site
    var site :- Lift(StackWidth([sd * h, bottleneck], features * weights));        // g^S
    var inter :- Lift(StackWidth([BondWidth(c), idim * h], ije));                  // g^I
    Ok((site, inter))
  }

  /** A block accepts exactly bond features of the width its layers were
      built for, and then outputs sites of the bottleneck width and
      interactions of width attention_dim_interaction * heads. */
  lemma BlockShapes(c: EncoderConfig, bottleneck: nat, dx: nat, di: nat)
    requires c.hidden != []
    ensures Block(c, bottleneck, dx, di).Ok? <==> 2 * dx + di == BondWidth(c)
    ensures Block(c, bottleneck, dx, di).Ok? ==>
      Block(c, bottleneck, dx, di).value == (bottleneck, c.interactionDimPerHead * c.heads)
  {
    var sd, idim, h := c.siteDimPerHead, c.interactionDimPerHead, c.heads;
    assert 2 * sd * h + idim * h == BondWidth(c);
    var gf := [BondWidth(c)] + c.hidden + [sd];
    assert gf[|gf| - 1] == sd;
  }

  /** The block loop from the front: k blocks still to run, the current
      widths, and the summary width so far (None before the first block). */
  function RunBlocks(c: EncoderConfig, bottleneck: nat, k: nat, dx: nat, di: nat, m: Option<nat>): Result<Option<nat>, EncoderError>
    requires c.hidden != []
    decreases k
  {
    if k == 0 then Ok(m)
    else
      var next :- Block(c, bottleneck, dx, di);
      var grown := if m.Some? then m.value + next.0 else next.0;
      RunBlocks(c, bottleneck, k - 1, next.0, next.1, Some(grown))
  }

  /** The pre-pool layers on the summary width; without a summary they
      fail unless there is no pre-pool layer at all. */
  function PrePool(c: EncoderConfig, m: Option<nat>): Result<Option<nat>, EncoderError>
  {
    if m.None? then (if c.prePool == [] then Ok(None) else Err(NoSummary))
    else
      var d :- Lift(StackWidth([c.siteDimPerHead * c.blocks * c.heads] + c.prePool, m.value));
      Ok(Some(d))
  }

  /** The aggregator dispatch before segment_csr; the pooled width is the input width. */
  function Pool(name: string, x: Option<nat>): Result<nat, EncoderError>
  {
    if ParsePooling(name).None? then Err(UnknownPooling)
    else if x.None? then Err(NoSummary)
    else Ok(x.value)
  }

  /** The whole forward pass on a batch of r records, given the widths of
      the site and interaction features; the shape of the global
      representation is one row per record (segment_csr over the CSR offsets). */
  function Forward(c: EncoderConfig, bottleneck: nat, r: nat, siteWidth: nat, interWidth: nat): Result<Shape, EncoderError>
  {
    if Build(c).Some? then Err(Build(c).value)
    else
      var inter :- Linear(c.interactionFeatureSize, c.interactionDimPerHead * c.heads, interWidth);
      var site :- Linear(c.embeddingSize + c.siteFeatureSize + 1, c.siteDimPerHead * c.heads, siteWidth);
      var m :- if c.blocks == 0 then Ok(None) else RunBlocks(c, bottleneck, c.blocks, site, inter, None);
      var pre :- PrePool(c, m);
      var pooled :- Pool(c.symFunc, pre);
      var out :- Lift(StackWidth([Last(c.prePool)] + c.postPool, pooled));
      Ok([r, out])
  }

  /** SiteNetEncoder.forward on n sites: the blocks rebind the site
      features, the interaction features and the summary in turn, then the
      pre-pool stack, the pooling and the post-pool stack run one after
      another on the [sites, width] and [records, width] tensors. */
  method EncoderForward(c: EncoderConfig, bottleneck: nat, n: nat, r: nat, siteWidth: nat, interWidth: nat)
    returns (res: Result<Shape, EncoderError>)
    ensures res == Forward(c, bottleneck, r, siteWidth, interWidth)
  {
    var build := Build(c);
    if build.Some? {
      return Err(build.value);
    }
    var interStep := Linear(c.interactionFeatureSize, c.interactionDimPerHead * c.heads, interWidth);
    if interStep.Err? {
      return Err(interStep.error);
    }
    var siteStep := Linear(c.embeddingSize + c.siteFeatureSize + 1, c.siteDimPerHead * c.heads, siteWidth);
    if siteStep.Err? {
      return Err(siteStep.error);
    }
    var summary: Option<nat> := None;
    if c.blocks > 0 {
      var dx, di := siteStep.value, interStep.value;
      var i := 0;
      while i < c.blocks
        invariant 0 <= i <= c.blocks
        invariant i == 0 ==> summary.None? && dx == siteStep.value && di == interStep.value
        invariant RunBlocks(c, bottleneck, c.blocks - i, dx, di, summary) ==
                  RunBlocks(c, bottleneck, c.blocks, siteStep.value, interStep.value, None)
      {
        var step := Block(c, bottleneck, dx, di);
        if step.Err? {
          return Err(step.error);
        }
        summary := Some(if summary.Some? then summary.value + step.value.0 else step.value.0);
        dx, di := step.value.0, step.value.1;
        i := i + 1;
      }
    }
    var pre: Option<nat> := None;
    if summary.Some? {
      var stack := [c.siteDimPerHead * c.blocks * c.heads] + c.prePool;
      var chained := ChainForward(stack, [n] + [summary.value]);
      StackWidthAgrees(stack, [n], summary.value);
      if chained.Err? {
        return Err(Layer(chained.error));
      }
      pre := Some(chained.value[1]);
    } else if c.prePool != [] {
      return Err(NoSummary);
    }
    var pooled := Pool(c.symFunc, pre);
    if pooled.Err? {
      return Err(pooled.error);
    }
    var post := [Last(c.prePool)] + c.postPool;
    var out := ChainForward(post, [r] + [pooled.value]);
    StackWidthAgrees(post, [r], pooled.value);
    if out.Err? {
      return Err(Layer(out.error));
    }
    return Ok([r, out.value[1]]);
  }

  /** Inputs as featurisation produces them: site tokens of the token
      width and bond features of the interaction feature width. */
  predicate WellShapedInputs(c: EncoderConfig, siteWidth: nat, interWidth: nat)
  {
    siteWidth == c.embeddingSize + c.siteFeatureSize + 1 && interWidth == c.interactionFeatureSize
  }

  /** The width after the post-pool layers (the last pre-pool width when there are none). */
  function OutputWidth(c: EncoderConfig): nat
    requires c.prePool != []
  {
    Last([Last(c.prePool)] + c.postPool)
  }

  /** After the first block every block sees sites of the bottleneck width:
      the remaining k blocks run iff k == 0 or that width fits the bond
      layers, and each adds the bottleneck width to the summary. */
  lemma {:induction false} RunBlocksShapes(c: EncoderConfig, bottleneck: nat, k: nat, m: nat)
    requires c.hidden != []
    ensures var after := RunBlocks(c, bottleneck, k, bottleneck, c.interactionDimPerHead * c.heads, Some(m));
      (after.Ok? <==> k == 0 || bottleneck == c.siteDimPerHead * c.heads) &&
      (after.Ok? ==> after.value == Some(m + k * bottleneck))
    decreases k
  {
    var idim, h := c.interactionDimPerHead, c.heads;
    if k > 0 {
      BlockShapes(c, bottleneck, bottleneck, idim * h);
      assert 2 * bottleneck + idim * h == BondWidth(c) <==> bottleneck == c.siteDimPerHead * h;
      RunBlocksShapes(c, bottleneck, k - 1, m + bottleneck);
      assert m + bottleneck + (k - 1) * bottleneck == m + k * bottleneck;
    }
  }

  /** All K blocks from the featurised widths: they run iff K == 1 or the
      bottleneck fits the bond layers, and the summary is K * bottleneck wide. */
  lemma AllBlocksShapes(c: EncoderConfig, bottleneck: nat)
    requires c.hidden != [] && c.blocks >= 1
    ensures var blocks := RunBlocks(c, bottleneck, c.blocks, c.siteDimPerHead * c.heads,
                                    c.interactionDimPerHead * c.heads, None);
      (blocks.Ok? <==> c.blocks == 1 || bottleneck == c.siteDimPerHead * c.heads) &&
      (blocks.Ok? ==> blocks.value == Some(c.blocks * bottleneck))
  {
    var sd, idim, h, K := c.siteDimPerHead, c.interactionDimPerHead, c.heads, c.blocks;
    BlockShapes(c, bottleneck, sd * h, idim * h);
    assert 2 * (sd * h) + idim * h == BondWidth(c);
    RunBlocksShapes(c, bottleneck, K - 1, bottleneck);
    assert bottleneck + (K - 1) * bottleneck == K * bottleneck;
  }

  /** The pre-pool layers on the K * bottleneck wide summary of K blocks run
      exactly when the bottleneck is site_dim_per_head * attention_heads,
      and then give the last pre-pool width. */
  lemma PrePoolShapes(c: EncoderConfig, bottleneck: nat)
    requires c.blocks >= 1 && c.prePool != []
    ensures PrePool(c, Some(c.blocks * bottleneck)).Ok? <==> bottleneck == c.siteDimPerHead * c.heads
    ensures PrePool(c, Some(c.blocks * bottleneck)).Ok? ==>
      PrePool(c, Some(c.blocks * bottleneck)).value == Some(Last(c.prePool))
  {
    var sd, h, K := c.siteDimPerHead, c.heads, c.blocks;
    var stack := [sd * K * h] + c.prePool;
    assert sd * K * h == K * (sd * h);
    assert K * bottleneck == K * (sd * h) <==> bottleneck == sd * h by {
      if K * bottleneck == K * (sd * h) {
        MulCancel(K, bottleneck, sd * h);
      }
    }
    assert stack[|stack| - 1] == Last(c.prePool);
  }

  /** The encoder's shape contract: for a buildable configuration with at
      least one block and a known pooling, on well-shaped inputs, the
      forward pass goes through exactly when the blocks' bottleneck equals
      site_dim_per_head * attention_heads (the pre-pool input width per
      block), and it then yields one row per record of the output width. */
  lemma ForwardShapes(c: EncoderConfig, bottleneck: nat, r: nat, siteWidth: nat, interWidth: nat)
    requires Build(c).None? && c.blocks >= 1 && ParsePooling(c.symFunc).Some?
    requires WellShapedInputs(c, siteWidth, interWidth)
    ensures Forward(c, bottleneck, r, siteWidth, interWidth).Ok? <==>
      bottleneck == c.siteDimPerHead * c.heads
    ensures Forward(c, bottleneck, r, siteWidth, interWidth).Ok? ==>
      Forward(c, bottleneck, r, siteWidth, interWidth).value == [r, OutputWidth(c)]
  {
    AllBlocksShapes(c, bottleneck);
    PrePoolShapes(c, bottleneck);
  }

  /** With a pooling name other than "mean" or "max" the forward pass
      raises UnknownPooling whenever the blocks and the pre-pool layers go through. */
  lemma UnknownPoolingRaises(c: EncoderConfig, bottleneck: nat, r: nat, siteWidth: nat, interWidth: nat)
    requires ParsePooling(c.symFunc).None? && Build(c).None? && c.blocks >= 1
    requires WellShapedInputs(c, siteWidth, interWidth)
    requires bottleneck == c.siteDimPerHead * c.heads
    ensures Forward(c, bottleneck, r, siteWidth, interWidth) == Err(UnknownPooling)
  {
    AllBlocksShapes(c, bottleneck);
    assert c.siteDimPerHead * c.blocks * c.heads == c.blocks * bottleneck;
  }

  /** Without attention blocks the summary is never set and the forward
      pass cannot produce a representation. */
  lemma NoBlocksNoRepresentation(c: EncoderConfig, bottleneck: nat, r: nat, siteWidth: nat, interWidth: nat)
    requires c.blocks == 0
    ensures Forward(c, bottleneck, r, siteWidth, interWidth).Err?
  {
  }

  // SiteNetEncoder builds its blocks without passing site_bottleneck.

  /** The encoder as written: every block uses the default bottleneck. */
  function ForwardAsWritten(c: EncoderConfig, r: nat, siteWidth: nat, interWidth: nat): Result<Shape, EncoderError>
  {
    Forward(c, DefaultSiteBottleneck, r, siteWidth, interWidth)
  }

  /** The encoder's own default arguments. */
  function DefaultConfig(): EncoderConfig
  {
    EncoderConfig(100, 1, 4, 4, 64, [256, 256], [256, 256], "mean", 3, 64, [256, 256])
  }

  /** With its default arguments the encoder as written cannot run: the
      second block meets sites of width 64 where its layers expect 256. */
  lemma DefaultEncoderFails(r: nat)
    ensures ForwardAsWritten(DefaultConfig(), r, 102, 3).Err?
  {
    ForwardShapes(DefaultConfig(), DefaultSiteBottleneck, r, 102, 3);
  }

  /** The encoder with each block's bottleneck set to the width the
      pre-pool layers expect per block. */
  function ForwardCorrected(c: EncoderConfig, r: nat, siteWidth: nat, interWidth: nat): Result<Shape, EncoderError>
  {
    Forward(c, c.siteDimPerHead * c.heads, r, siteWidth, interWidth)
  }

  /** The corrected encoder runs on every buildable configuration with at
      least one block and a known pooling, and yields one row per record. */
  lemma CorrectedEncoderRuns(c: EncoderConfig, r: nat, siteWidth: nat, interWidth: nat)
    requires Build(c).None? && c.blocks >= 1 && ParsePooling(c.symFunc).Some?
    requires WellShapedInputs(c, siteWidth, interWidth)
    ensures ForwardCorrected(c, r, siteWidth, interWidth) == Ok([r, OutputWidth(c)])
  {
    ForwardShapes(c, c.siteDimPerHead * c.heads, r, siteWidth, interWidth);
  }
}
