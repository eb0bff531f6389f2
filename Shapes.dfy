/** Tensor shapes and the layer-width bookkeeping of the model's helper
    modules: the pairwise sliding window, the stacks of linear layers built
    from a width list, and the head reshape. Tensors appear only through
    their shapes; a shape lists the extent of every axis, the feature axis last. */
module Shapes {
  import opened Wrappers
  import SeqUtil

  type Shape = seq<nat>

  datatype ShapeError =
    | NoFeatureAxis                            // the tensor has no axes
    | WidthMismatch(expected: nat, actual: nat) // a linear layer meets the wrong width
    | ZeroHeads                                // integer division by a head count of zero
    | ElementCountMismatch                     // reshape to a shape of another size

  /** pairwise (modules.py): the length-2 sliding window over a sequence. */
  function Pairwise<T>(xs: seq<T>): (ps: seq<(T, T)>)
    ensures |ps| == if |xs| == 0 then 0 else |xs| - 1
    ensures forall i :: 0 <= i < |ps| ==> ps[i] == (xs[i], xs[i + 1])
  {
    if |xs| < 2 then [] else [(xs[0], xs[1])] + Pairwise(xs[1..])
  }

  /** nn.Linear(i, j) on a tensor: the feature axis must have width i and becomes j. */
  function ApplyLinear(shape: Shape, inWidth: nat, outWidth: nat): Result<Shape, ShapeError>
  {
    if shape == [] then Err(NoFeatureAxis)
    else if shape[|shape| - 1] != inWidth then Err(WidthMismatch(inWidth, shape[|shape| - 1]))
    else Ok(shape[..|shape| - 1] + [outWidth])
  }

  /** One stage after another; the activation and normalisation of a stage
      keep the shape, so each stage acts as its linear layer. */
  function ApplyStages(stages: seq<(nat, nat)>, shape: Shape): Result<Shape, ShapeError>
    decreases |stages|
  {
    if stages == [] then Ok(shape)
    else
      match ApplyLinear(shape, stages[0].0, stages[0].1)
      case Err(e) => Err(e)
      case Ok(next) => ApplyStages(stages[1..], next)
  }

  /** The stages set_seq_af_norm and pairwise_seq_af_norm build for a width list. */
  function Stages(layers: seq<nat>): seq<(nat, nat)>
  {
    Pairwise(layers)
  }

  /** Consecutive stages agree on the width they hand over. */
  predicate Chained(stages: seq<(nat, nat)>)
  {
    forall i :: 0 <= i < |stages| - 1 ==> stages[i].1 == stages[i + 1].0
  }

  lemma StagesChained(layers: seq<nat>)
    ensures Chained(Stages(layers))
  {
    var ps := Stages(layers);
    forall i | 0 <= i < |ps| - 1
      ensures ps[i].1 == ps[i + 1].0
    {
      assert ps[i] == (layers[i], layers[i + 1]);
      assert ps[i + 1] == (layers[i + 1], layers[i + 2]);
    }
  }

  /** A chained stack accepts exactly the tensors whose feature width is the
      first stage's input, keeps every other axis and ends at the last output. */
  lemma {:induction false} ApplyChained(stages: seq<(nat, nat)>, shape: Shape)
    requires Chained(stages) && stages != []
    ensures ApplyStages(stages, shape).Ok? <==> shape != [] && shape[|shape| - 1] == stages[0].0
    ensures ApplyStages(stages, shape).Ok? ==>
      ApplyStages(stages, shape).value == shape[..|shape| - 1] + [stages[|stages| - 1].1]
    decreases |stages|
  {
    if shape != [] && shape[|shape| - 1] == stages[0].0 {
      var next := shape[..|shape| - 1] + [stages[0].1];
      assert next[..|next| - 1] == shape[..|shape| - 1];
      if |stages| > 1 {
        ApplyChained(stages[1..], next);
      }
    }
  }

  /** The forward loop of set_seq_af_norm / pairwise_seq_af_norm: x is
      rebound by every stage in turn. */
  method ChainForward(layers: seq<nat>, shape: Shape) returns (res: Result<Shape, ShapeError>)
    ensures res == ApplyStages(Stages(layers), shape)
  {
    var stages := Stages(layers);
    var x := shape;
    var i := 0;
    while i < |stages|
      invariant 0 <= i <= |stages|
      invariant ApplyStages(stages[i..], x) == ApplyStages(stages, shape)
    {
      assert stages[i..][1..] == stages[i + 1..];
      var step := ApplyLinear(x, stages[i].0, stages[i].1);
      if step.Err? {
        return Err(step.error);
      }
      x := step.value;
      i := i + 1;
    }
    assert stages[i..] == [];
    return Ok(x);
  }

  /** The width chain of a layer list: with two or more widths the stack
      accepts exactly feature width layers[0] and ends at layers[-1]; with
      fewer it has no stage and is the identity. */
  lemma LayerChain(layers: seq<nat>, shape: Shape)
    ensures |layers| < 2 ==> ApplyStages(Stages(layers), shape) == Ok(shape)
    ensures |layers| >= 2 ==>
      (ApplyStages(Stages(layers), shape).Ok? <==> shape != [] && shape[|shape| - 1] == layers[0])
    ensures |layers| >= 2 && ApplyStages(Stages(layers), shape).Ok? ==>
      ApplyStages(Stages(layers), shape).value == shape[..|shape| - 1] + [layers[|layers| - 1]]
  {
    if |layers| >= 2 {
      StagesChained(layers);
      ApplyChained(Stages(layers), shape);
    }
  }

  /** What a stack built from a width list does to the feature width alone. */
  function StackWidth(layers: seq<nat>, d: nat): Result<nat, ShapeError>
  {
    if |layers| < 2 then Ok(d)
    else if d != layers[0] then Err(WidthMismatch(layers[0], d))
    else Ok(layers[|layers| - 1])
  }

  /** The stack on a tensor with leading axes lead and feature width d
      leaves the leading axes alone and acts on the width as StackWidth says,
      failing with the same error. */
  lemma StackWidthAgrees(layers: seq<nat>, lead: Shape, d: nat)
    ensures var r := StackWidth(layers, d);
      ApplyStages(Stages(layers), lead + [d]) == if r.Ok? then Ok(lead + [r.value]) else Err(r.error)
  {
    var shape := lead + [d];
    assert shape[..|shape| - 1] == lead && shape[|shape| - 1] == d;
    LayerChain(layers, shape);
    if |layers| >= 2 && d != layers[0] {
      assert Stages(layers)[0] == (layers[0], layers[1]);
    }
  }

  /** The number of elements of a tensor of the given shape. */
  function Prod(shape: Shape): nat
  {
    if shape == [] then 1 else Prod(shape[..|shape| - 1]) * shape[|shape| - 1]
  }

  lemma ProdSnoc(shape: Shape, d: nat)
    ensures Prod(shape + [d]) == Prod(shape) * d
  {
    assert (shape + [d])[..|shape|] == shape;
  }

  /** head_reshape: x.reshape(*x.shape[:-1], x.shape[-1] // heads, heads);
      reshape refuses a target with another element count. */
  function HeadReshape(shape: Shape, heads: nat): Result<Shape, ShapeError>
  {
    if shape == [] then Err(NoFeatureAxis)
    else if heads == 0 then Err(ZeroHeads)
    else
      var lead, d := shape[..|shape| - 1], shape[|shape| - 1];
      var target := lead + [d / heads, heads];
      if Prod(target) == Prod(shape) then Ok(target) else Err(ElementCountMismatch)
  }

  lemma MulCancel(a: nat, x: nat, y: nat)
    requires a > 0 && a * x == a * y
    ensures x == y
  {
    SeqUtil.DivMulExact(x, a);
    SeqUtil.DivMulExact(y, a);
    assert x * a == y * a;
  }

  /** On a non-empty tensor with a positive head count, the reshape succeeds
      exactly when the head count divides the feature width; it keeps the
      leading axes, splits the feature axis into (d / heads, heads) and keeps
      the element count. */
  lemma HeadReshapeExact(shape: Shape, heads: nat)
    requires shape != [] && heads >= 1
    requires Prod(shape[..|shape| - 1]) > 0
    ensures HeadReshape(shape, heads).Ok? <==> shape[|shape| - 1] % heads == 0
    ensures HeadReshape(shape, heads).Ok? ==>
      var r := HeadReshape(shape, heads).value;
      |r| == |shape| + 1 && r[..|shape| - 1] == shape[..|shape| - 1] &&
      r[|shape| - 1] * r[|shape|] == shape[|shape| - 1] && r[|shape|] == heads &&
      Prod(r) == Prod(shape)
  {
    var lead, d := shape[..|shape| - 1], shape[|shape| - 1];
    var q := d / heads;
    assert shape == lead + [d];
    ProdSnoc(lead, d);
    ProdSnoc(lead, q);
    ProdSnoc(lead + [q], heads);
    assert lead + [q] + [heads] == lead + [q, heads];
    var a := Prod(lead);
    assert Prod(lead + [q, heads]) == a * q * heads;
    assert a * q * heads == a * (q * heads);
    assert d == q * heads + d % heads;
    if a * (q * heads) == a * d {
      MulCancel(a, q * heads, d);
    }
  }

  /** A tensor whose leading axes hold no elements reshapes for every
      positive head count, whether or not it divides the feature width. */
  lemma HeadReshapeEmptyTensor(shape: Shape, heads: nat)
    requires shape != [] && heads >= 1
    requires Prod(shape[..|shape| - 1]) == 0
    ensures HeadReshape(shape, heads) ==
      Ok(shape[..|shape| - 1] + [shape[|shape| - 1] / heads, heads])
  {
    var lead, d := shape[..|shape| - 1], shape[|shape| - 1];
    var q := d / heads;
    assert shape == lead + [d];
    ProdSnoc(lead, d);
    ProdSnoc(lead, q);
    ProdSnoc(lead + [q], heads);
    assert lead + [q] + [heads] == lead + [q, heads];
  }
}
