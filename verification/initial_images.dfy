/** The initial images of a data set (SIRF_data_preparation/
    create_initial_images.py): the uniform starting image scaled to the
    data, and the kappa image used to make the prior's strength spatially
    uniform. Projection data and images are vectors of reals; the STIR
    objective function enters only through the values the script asks it
    for (the sum of the first subset sensitivity, the number of subsets and
    the Hessian applied to a uniform image). */
module InitialImages {
  import opened Outcomes
  import opened Reals

  /** The voxelwise product `additive_term * mult_factors`. */
  function Product(a: seq<real>, b: seq<real>): (p: seq<real>)
    requires |a| == |b|
    ensures |p| == |a|
  {
    seq(|a|, j requires 0 <= j < |a| => a[j] * b[j])
  }

  /** `acquired_data.sum() - (additive_term * mult_factors).sum()`: the
      counts not explained by the background. */
  function DataSum(prompts: seq<real>, additive: seq<real>, mult: seq<real>): real
    requires |additive| == |mult|
  {
    Sum(prompts) - Sum(Product(additive, mult))
  }

  datatype ScaleError = ValueError(promptsSum: real, dataSum: real)

  /** `scale_initial_image`: a uniform image whose value `ratio` makes the
      forward projection of the image, summed over all subsets, match the
      background-corrected counts. The script raises `ValueError` when
      those counts are not positive; it has no guard against a zero
      sensitivity sum. */
  function ScaleInitialImage(prompts: seq<real>, additive: seq<real>, mult: seq<real>, templateSize: nat,
                             sensitivitySum: real, numSubsets: nat): (r: Result<seq<real>, ScaleError>)
    requires |additive| == |mult|
    requires DataSum(prompts, additive, mult) > 0.0 ==> sensitivitySum * numSubsets as real != 0.0
    ensures r.Failure? <==> DataSum(prompts, additive, mult) <= 0.0
    ensures r.Failure? ==> r.error == ValueError(Sum(prompts), DataSum(prompts, additive, mult))
    ensures r.Success? ==>
              |r.value| == templateSize
              && forall j :: 0 <= j < templateSize ==>
                   r.value[j] * sensitivitySum * numSubsets as real == DataSum(prompts, additive, mult)
  {
    var dataSum := DataSum(prompts, additive, mult);
    if dataSum <= 0.0 then Failure(ValueError(Sum(prompts), dataSum))
    else
      var ratio := dataSum / (sensitivitySum * numSubsets as real);
      Success(seq(templateSize, j requires 0 <= j < templateSize => ratio))
  }

  /** With a positive sensitivity, a successful scaling starts OSEM from a
      strictly positive image, as a multiplicative update needs. */
  lemma ScaledImagePositive(prompts: seq<real>, additive: seq<real>, mult: seq<real>, templateSize: nat,
                            sensitivitySum: real, numSubsets: nat)
    requires |additive| == |mult| && sensitivitySum > 0.0 && numSubsets > 0
    requires ScaleInitialImage(prompts, additive, mult, templateSize, sensitivitySum, numSubsets).Success?
    ensures forall j :: 0 <= j < templateSize ==>
              ScaleInitialImage(prompts, additive, mult, templateSize, sensitivitySum, numSubsets).value[j] > 0.0
  {
    var den := sensitivitySum * numSubsets as real;
    assert den > 0.0;
  }

  // -----------------------------------------------------------------------
  // The kappa image

  /** `-1 * H.1` clamped at zero, for one voxel. */
  function Clamped(hessianRowSum: real): (c: real)
    ensures c >= 0.0
    ensures c == 0.0 <==> hessianRowSum >= 0.0
  {
    if -hessianRowSum > 0.0 then -hessianRowSum else 0.0
  }

  /** `kappa` is the voxelwise square root of the clamped negative Hessian
      row sums. */
  predicate IsKappaImage(hessianRowSum: seq<real>, kappa: seq<real>)
  {
    |kappa| == |hessianRowSum|
    && forall j :: 0 <= j < |kappa| ==> kappa[j] >= 0.0 && kappa[j] * kappa[j] == Clamped(hessianRowSum[j])
  }

  /** What `power(.5)` is taken to compute. */
  ghost predicate IsSquareRoot(sqrt: real -> real)
  {
    forall x: real :: x >= 0.0 ==> sqrt(x) >= 0.0 && sqrt(x) * sqrt(x) == x
  }

  /** `compute_kappa_image`: `(-1 * H.1).maximum(0).power(.5)`, where `H.1`
      is the Hessian of the objective at the initial image applied to a
      uniform image of ones. */
  function ComputeKappaImage(hessianRowSum: seq<real>, sqrt: real -> real): (kappa: seq<real>)
    requires IsSquareRoot(sqrt)
    ensures IsKappaImage(hessianRowSum, kappa)
  {
    var kappa := seq(|hessianRowSum|, j requires 0 <= j < |hessianRowSum| => sqrt(Clamped(hessianRowSum[j])));
    assert forall j :: 0 <= j < |kappa| ==> kappa[j] == sqrt(Clamped(hessianRowSum[j]));
    kappa
  }

  /** The kappa image is determined by the Hessian row sums: there is only
      one non-negative square root. */
  lemma KappaUnique(hessianRowSum: seq<real>, kappa: seq<real>, kappa': seq<real>)
    requires IsKappaImage(hessianRowSum, kappa) && IsKappaImage(hessianRowSum, kappa')
    ensures kappa == kappa'
  {
    forall j | 0 <= j < |kappa| ensures kappa[j] == kappa'[j] {
      var a, b := kappa[j], kappa'[j];
      if a > b {
        SquareStrictlyMonotone(b, a);
      } else if b > a {
        SquareStrictlyMonotone(a, b);
      }
    }
  }

  lemma SquareStrictlyMonotone(a: real, b: real)
    requires 0.0 <= a < b
    ensures a * a < b * b
  {
    var d := b - a;
    assert b * b == a * a + d * (a + b);
    assert d > 0.0 && a + b > 0.0;
    assert d * (a + b) > 0.0;
  }

  /** Kappa vanishes exactly where the row sum of the Hessian is not
      negative, i.e. where the objective is not concave along the uniform
      direction. */
  lemma KappaZeroIff(hessianRowSum: seq<real>, kappa: seq<real>, j: nat)
    requires IsKappaImage(hessianRowSum, kappa) && j < |kappa|
    ensures kappa[j] == 0.0 <==> hessianRowSum[j] >= 0.0
  {
    if kappa[j] != 0.0 {
      SquareStrictlyMonotone(0.0, kappa[j]);
    }
  }

  // -----------------------------------------------------------------------
  // The acquisition model for the whole data

  /** `create_acq_model_and_obj_fun`: partition the data into a single
      subset and return that subset's acquisition model and objective
      function. The partitioner is a parameter; it returns the data
      subsets, the acquisition models and the objective functions, and an
      empty list makes the indexing fail (`None`). */
  function CreateAcqModelAndObjFun<D, M, F>(dataPartition: nat -> (seq<D>, seq<M>, seq<F>)): (r: Option<(M, F)>)
    ensures r.Some? <==> |dataPartition(1).1| > 0 && |dataPartition(1).2| > 0
    ensures r.Some? ==> r.value.0 == dataPartition(1).1[0] && r.value.1 == dataPartition(1).2[0]
  {
    var (_, models, objectives) := dataPartition(1);
    if |models| == 0 || |objectives| == 0 then None else Some((models[0], objectives[0]))
  }

  /** Only the single-subset partition is ever consulted: partitioners that
      agree on one subset give the same result. */
  lemma OnlySingleSubsetUsed<D, M, F>(p: nat -> (seq<D>, seq<M>, seq<F>), q: nat -> (seq<D>, seq<M>, seq<F>))
    requires p(1).1 == q(1).1 && p(1).2 == q(1).2
    ensures CreateAcqModelAndObjFun(p) == CreateAcqModelAndObjFun(q)
  {
  }
}
