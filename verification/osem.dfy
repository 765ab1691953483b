/** The example submission of main_OSEM.py: ordered-subsets expectation
    maximisation written out by hand, plus the `MaxIteration` callback that
    ends a run after a fixed number of iterations.

    Images and acquisition data are vectors of reals. The STIR projectors
    are opaque: an `AcquisitionModel` carries its `forward` and `backward`
    projections as functions, with the subset's additive term already part
    of `forward`. Splitting the data into subsets (`partition_indices` and
    `get_subset`) and setting up the projectors happen outside this model:
    the constructor receives, for each subset index, the prompts, the
    multiplicative factors and the set-up projector of that subset. */
module Osem {
  import opened Outcomes
  import Petric

  /** `MaxIteration.__call__`: raise `StopIteration` once the algorithm has
      reached the bound. */
  function MaxIteration(maxIteration: nat, iteration: nat): Signal
  {
    if iteration >= maxIteration then Stop else Continue
  }

  /** The bound of the shipped `submission_callbacks`. */
  const SubmissionMaxIteration: nat := 660

  /** Checked once per iteration from iteration 0 on, `MaxIteration` lets
      exactly the iterations below the bound run, and stops at the bound
      and at every iteration after it. */
  lemma MaxIterationStopsAtBound(maxIteration: nat, iteration: nat)
    ensures MaxIteration(maxIteration, iteration) == Continue <==> iteration < maxIteration
    ensures iteration >= maxIteration ==> forall later :: later >= iteration ==> MaxIteration(maxIteration, later) == Stop
  {
  }

  /** With the shipped callback, iterations 0 to 659 run and 660 stops. */
  lemma SubmissionRunsSixHundredSixtyIterations()
    ensures forall i :: 0 <= i < 660 ==> MaxIteration(SubmissionMaxIteration, i) == Continue
    ensures MaxIteration(SubmissionMaxIteration, 660) == Stop
  {
  }

  // -----------------------------------------------------------------------
  // Vectors

  predicate AllNonNegative(v: seq<real>) { forall j :: 0 <= j < |v| ==> v[j] >= 0.0 }

  predicate AllPositive(v: seq<real>) { forall j :: 0 <= j < |v| ==> v[j] > 0.0 }

  /** `.max()` of an image. */
  function Max(s: seq<real>): (m: real)
    requires |s| > 0
    ensures forall j :: 0 <= j < |s| ==> s[j] <= m
    ensures exists j :: 0 <= j < |s| && s[j] == m
  {
    if |s| == 1 then s[0]
    else
      var rest := Max(s[..|s| - 1]);
      assert forall j :: 0 <= j < |s| - 1 ==> s[..|s| - 1][j] == s[j];
      if s[|s| - 1] > rest then s[|s| - 1] else rest
  }

  /** The value added to every voxel of a sensitivity image. */
  const SensitivityFloor: real := 0.000001

  /** `subset_sensitivity += subset_sensitivity.max() * 1e-6`: the same
      amount is added to every voxel, and for a non-negative image every
      voxel ends up at least that amount. */
  function Floored(s: seq<real>): (r: seq<real>)
    requires |s| > 0
    ensures |r| == |s|
    ensures forall j, k :: 0 <= j < |s| && 0 <= k < |s| ==> r[j] - s[j] == r[k] - s[k]
    ensures AllNonNegative(s) ==> forall j :: 0 <= j < |r| ==> r[j] >= Max(s) * SensitivityFloor
  {
    var lift := Max(s) * SensitivityFloor;
    seq(|s|, j requires 0 <= j < |s| => s[j] + lift)
  }

  /** The floor guards the division in `update` exactly when the
      back-projection of the multiplicative factors is not all zero: a
      non-negative sensitivity image with a positive maximum becomes
      strictly positive. */
  lemma FlooredPositive(s: seq<real>)
    requires |s| > 0 && AllNonNegative(s) && Max(s) > 0.0
    ensures AllPositive(Floored(s))
  {
    var r := Floored(s);
    forall j | 0 <= j < |r| ensures r[j] > 0.0 {
      assert r[j] >= Max(s) * SensitivityFloor;
    }
  }

  /** An all-zero sensitivity image is left as it is: the floor adds
      nothing, so every voxel stays zero. */
  lemma FlooredZeroStaysZero(s: seq<real>)
    requires |s| > 0 && forall j :: 0 <= j < |s| ==> s[j] == 0.0
    ensures Floored(s) == s
  {
    var r := Floored(s);
    forall j | 0 <= j < |s| ensures r[j] == s[j] {
      var k :| 0 <= k < |s| && s[k] == Max(s);
    }
  }

  // -----------------------------------------------------------------------
  // One OSEM step

  datatype AcquisitionModel = AcquisitionModel(forward: seq<real> -> seq<real>, backward: seq<real> -> seq<real>)

  /** The projectors map images of `imageSize` voxels to data of `dataSize`
      bins and back. */
  ghost predicate Shaped(m: AcquisitionModel, imageSize: nat, dataSize: nat)
  {
    (forall v :: |v| == imageSize ==> |m.forward(v)| == dataSize)
    && (forall w :: |w| == dataSize ==> |m.backward(w)| == imageSize)
  }

  /** Both projections keep non-negative inputs non-negative. */
  ghost predicate NonNegativeModel(m: AcquisitionModel)
  {
    (forall v :: AllNonNegative(v) ==> AllNonNegative(m.forward(v)))
    && (forall w :: AllNonNegative(w) ==> AllNonNegative(m.backward(w)))
  }

  /** The constant added to the forward projection. */
  const Epsilon: real := 0.0001

  /** `acquisition_models[subset].forward(x) + .0001`. */
  function Denominator(m: AcquisitionModel, x: seq<real>): (d: seq<real>)
    ensures |d| == |m.forward(x)|
  {
    var f := m.forward(x);
    seq(|f|, j requires 0 <= j < |f| => f[j] + Epsilon)
  }

  /** The denominator is strictly positive wherever the forward projection
      is non-negative, so the division never meets a zero. */
  lemma DenominatorPositive(m: AcquisitionModel, x: seq<real>)
    requires AllNonNegative(m.forward(x))
    ensures AllPositive(Denominator(m, x))
  {
  }

  /** The divisions of one update are defined: no bin of the denominator and
      no voxel of the sensitivity is zero. */
  ghost predicate StepDefined(x: seq<real>, m: AcquisitionModel, prompts: seq<real>, sensitivity: seq<real>)
  {
    Shaped(m, |x|, |prompts|) && |sensitivity| == |x|
    && (forall j :: 0 <= j < |prompts| ==> Denominator(m, x)[j] != 0.0)
    && (forall j :: 0 <= j < |x| ==> sensitivity[j] != 0.0)
  }

  /** `prompts_subsets[subset] / denom`, bin by bin. */
  function Quotient(x: seq<real>, m: AcquisitionModel, prompts: seq<real>, sensitivity: seq<real>): (q: seq<real>)
    requires StepDefined(x, m, prompts, sensitivity)
    ensures |q| == |prompts|
  {
    var d := Denominator(m, x);
    seq(|prompts|, j requires 0 <= j < |prompts| => prompts[j] / d[j])
  }

  /** The factor `x` is multiplied by: the back-projected quotient over the
      sensitivity, voxel by voxel. */
  function Ratio(x: seq<real>, m: AcquisitionModel, prompts: seq<real>, sensitivity: seq<real>): (r: seq<real>)
    requires StepDefined(x, m, prompts, sensitivity)
    ensures |r| == |x|
  {
    var b := m.backward(Quotient(x, m, prompts, sensitivity));
    seq(|x|, j requires 0 <= j < |x| => b[j] / sensitivity[j])
  }

  /** The image after one update with the given subset. */
  function OsemStep(x: seq<real>, m: AcquisitionModel, prompts: seq<real>, sensitivity: seq<real>): (x': seq<real>)
    requires StepDefined(x, m, prompts, sensitivity)
    ensures |x'| == |x|
  {
    var r := Ratio(x, m, prompts, sensitivity);
    seq(|x|, j requires 0 <= j < |x| => x[j] * r[j])
  }

  /** Non-negative data and projectors, and a positive sensitivity, make the
      divisions of an update defined. */
  lemma NonNegativeStepDefined(x: seq<real>, m: AcquisitionModel, prompts: seq<real>, sensitivity: seq<real>)
    requires Shaped(m, |x|, |prompts|) && |sensitivity| == |x|
    requires AllNonNegative(x) && NonNegativeModel(m) && AllPositive(sensitivity)
    ensures StepDefined(x, m, prompts, sensitivity)
  {
    DenominatorPositive(m, x);
  }

  /** The update is multiplicative: with a non-negative image, prompts and
      projectors and a positive sensitivity, the image stays non-negative. */
  lemma OsemStepNonNegative(x: seq<real>, m: AcquisitionModel, prompts: seq<real>, sensitivity: seq<real>)
    requires Shaped(m, |x|, |prompts|) && |sensitivity| == |x|
    requires AllNonNegative(x) && AllNonNegative(prompts) && NonNegativeModel(m) && AllPositive(sensitivity)
    ensures StepDefined(x, m, prompts, sensitivity)
    ensures AllNonNegative(OsemStep(x, m, prompts, sensitivity))
  {
    NonNegativeStepDefined(x, m, prompts, sensitivity);
    DenominatorPositive(m, x);
  }

  /** A voxel that is zero stays zero. */
  lemma ZeroVoxelStaysZero(x: seq<real>, m: AcquisitionModel, prompts: seq<real>, sensitivity: seq<real>, j: nat)
    requires StepDefined(x, m, prompts, sensitivity)
    requires j < |x| && x[j] == 0.0
    ensures OsemStep(x, m, prompts, sensitivity)[j] == 0.0
  {
  }

  /** When the back-projected quotient equals the sensitivity, the update
      leaves the image unchanged (a fixed point of the iteration). */
  lemma FixedPointWhenBalanced(x: seq<real>, m: AcquisitionModel, prompts: seq<real>, sensitivity: seq<real>)
    requires StepDefined(x, m, prompts, sensitivity)
    requires m.backward(Quotient(x, m, prompts, sensitivity)) == sensitivity
    ensures OsemStep(x, m, prompts, sensitivity) == x
  {
    var r := Ratio(x, m, prompts, sensitivity);
    forall j | 0 <= j < |x| ensures r[j] == 1.0 {
      assert sensitivity[j] != 0.0;
    }
  }

  // -----------------------------------------------------------------------
  // The subset cursor

  /** The subset after `c`: `(c + 1) % n` for a valid subset `c`, written
      as the wrap-around it is. */
  function Next(c: nat, n: nat): nat
  {
    if c + 1 < n then c + 1 else 0
  }

  /** `(c + 1) % n` is the next subset, wrapping to 0 after the last. */
  lemma NextIsSuccessorMod(c: nat, n: nat)
    requires c < n
    ensures (c + 1) % n == Next(c, n)
  {
    if c + 1 < n {
      Petric.ModOfBlock(0, n, c + 1);
    } else {
      Petric.ModOfBlock(1, n, 0);
    }
  }

  /** The cursor after `j` updates, starting from subset 0. */
  function CursorAfter(j: nat, n: nat): nat
  {
    if j == 0 then 0 else Next(CursorAfter(j - 1, n), n)
  }

  /** The subsets used by the first `k` updates. */
  function RoundRobin(k: nat, n: nat): (used: seq<nat>)
    ensures |used| == k
  {
    if k == 0 then [] else RoundRobin(k - 1, n) + [CursorAfter(k - 1, n)]
  }

  /** `(i mod n + 1) mod n == (i + 1) mod n`: advancing the cursor is
      counting the updates. */
  lemma ModSuccessor(i: nat, n: nat)
    requires n > 0
    ensures (i % n + 1) % n == (i + 1) % n
  {
    var q, r := i / n, i % n;
    assert i == q * n + r;
    if r + 1 < n {
      Petric.ModOfBlock(q, n, r + 1);
      Petric.ModOfBlock(0, n, r + 1);
    } else {
      assert i + 1 == (q + 1) * n + 0;
      Petric.ModOfBlock(q + 1, n, 0);
      Petric.ModOfBlock(1, n, 0);
    }
  }

  /** After `j` updates the cursor is at `j mod n`. */
  lemma {:induction false} CursorIsMod(j: nat, n: nat)
    requires n > 0
    ensures CursorAfter(j, n) == j % n
  {
    if j > 0 {
      CursorIsMod(j - 1, n);
      NextIsSuccessorMod((j - 1) % n, n);
      ModSuccessor(j - 1, n);
    }
  }

  /** The k-th update uses subset `k mod n`: the subsets are visited in
      index order, over and over. */
  lemma {:induction false} RoundRobinInOrder(k: nat, n: nat, j: nat)
    requires n > 0 && j < k
    ensures RoundRobin(k, n)[j] == j % n
  {
    if j < k - 1 {
      RoundRobinInOrder(k - 1, n, j);
    } else {
      CursorIsMod(j, n);
    }
  }

  /** The number of updates in `k` full rounds over `n` subsets. */
  function Rounds(k: nat, n: nat): nat
  {
    if k == 0 then 0 else Rounds(k - 1, n) + n
  }

  lemma {:induction false} RoundsIsProduct(k: nat, n: nat)
    ensures Rounds(k, n) == k * n
  {
    if k > 0 {
      RoundsIsProduct(k - 1, n);
      assert k * n == (k - 1) * n + n;
    }
  }

  /** Within a round that starts with the cursor at 0, the cursor after `j`
      more updates is `j`. */
  lemma {:induction false} CursorInRound(base: nat, n: nat, j: nat, at: nat)
    requires j < n && CursorAfter(base, n) == 0 && at == base + j
    ensures CursorAfter(at, n) == j
  {
    if j > 0 {
      CursorInRound(base, n, j - 1, at - 1);
    }
  }

  /** After full rounds the cursor is back at subset 0. */
  lemma {:induction false} CursorAfterRounds(k: nat, n: nat)
    requires n > 0
    ensures CursorAfter(Rounds(k, n), n) == 0
  {
    if k > 0 {
      var top := Rounds(k, n);
      CursorAfterRounds(k - 1, n);
      CursorInRound(Rounds(k - 1, n), n, n - 1, top - 1);
    }
  }

  /** How many of the first `k` updates use subset `i`. */
  function Uses(k: nat, n: nat, i: nat): nat
  {
    if k == 0 then 0 else Uses(k - 1, n, i) + (if CursorAfter(k - 1, n) == i then 1 else 0)
  }

  /** `Uses` counts the occurrences of `i` in the record of the updates. */
  lemma {:induction false} UsesCountsRoundRobin(k: nat, n: nat, i: nat)
    ensures multiset(RoundRobin(k, n))[i] == Uses(k, n, i)
  {
    if k > 0 {
      var before, c := RoundRobin(k - 1, n), CursorAfter(k - 1, n);
      UsesCountsRoundRobin(k - 1, n, i);
      assert RoundRobin(k, n) == before + [c];
      MultisetAppendOne(before, c, i);
    }
  }

  lemma MultisetAppendOne<T>(s: seq<T>, x: T, y: T)
    ensures multiset(s + [x])[y] == multiset(s)[y] + (if x == y then 1 else 0)
  {
    assert multiset(s + [x]) == multiset(s) + multiset{x};
  }

  /** After `k` full rounds plus `m` more updates, subset `i` has been used
      `k` times, plus once if it is among the first `m`. */
  lemma RoundRobinCountPartial(k: nat, m: nat, n: nat, i: nat)
    requires n > 0 && m <= n && i < n
    ensures multiset(RoundRobin(Rounds(k, n) + m, n))[i] == k + (if i < m then 1 else 0)
  {
    UsesAfterRounds(k, n, i);
    CursorAfterRounds(k, n);
    UsesWithinRound(Rounds(k, n), m, n, i, k, Rounds(k, n) + m);
    UsesCountsRoundRobin(Rounds(k, n) + m, n, i);
  }

  /** Each full round uses every subset once more. */
  lemma {:induction false} UsesAfterRounds(k: nat, n: nat, i: nat)
    requires n > 0 && i < n
    ensures Uses(Rounds(k, n), n, i) == k
  {
    if k > 0 {
      UsesAfterRounds(k - 1, n, i);
      CursorAfterRounds(k - 1, n);
      UsesWithinRound(Rounds(k - 1, n), n, n, i, k - 1, Rounds(k, n));
    }
  }

  /** Within a round that starts at update `base`, the first `m` updates
      (up to update `top`) use subsets 0 to `m - 1`. */
  lemma {:induction false} UsesWithinRound(base: nat, m: nat, n: nat, i: nat, count: nat, top: nat)
    requires m <= n && i < n && CursorAfter(base, n) == 0 && top == base + m
    requires Uses(base, n, i) == count
    ensures Uses(top, n, i) == count + (if i < m then 1 else 0)
  {
    if m > 0 {
      UsesWithinRound(base, m - 1, n, i, count, top - 1);
      CursorInRound(base, n, m - 1, top - 1);
    }
  }

  /** Over `k * n` updates each of the `n` subsets is used exactly `k`
      times. */
  lemma RoundRobinFair(k: nat, n: nat, i: nat)
    requires n > 0 && i < n
    ensures multiset(RoundRobin(k * n, n))[i] == k
  {
    RoundsIsProduct(k, n);
    UsesAfterRounds(k, n, i);
    UsesCountsRoundRobin(k * n, n, i);
  }

  // -----------------------------------------------------------------------
  // The submission

  /** What the constructor obtains for subset `i`. */
  datatype SubsetData = SubsetData(prompts: seq<real>, multFactors: seq<real>, model: AcquisitionModel)

  /** The defaults of `__init__`, which the harness relies on when it calls
      `Submission(data)`. */
  const DefaultNumSubsets: nat := 7
  const DefaultUpdateObjectiveInterval: nat := 10

  /** Data a run can start from: a non-negative image and, for each subset,
      non-negative prompts and multiplicative factors, a projector that keeps
      non-negative inputs non-negative, and a back-projected sensitivity that
      is not all zero. */
  ghost predicate NonNegativeStart(initial: seq<real>, numSubsets: nat, prepare: nat -> SubsetData)
  {
    && AllNonNegative(initial)
    && forall i :: 0 <= i < numSubsets ==>
         && NonNegativeModel(prepare(i).model)
         && AllNonNegative(prepare(i).prompts) && AllNonNegative(prepare(i).multFactors)
         && |prepare(i).model.backward(prepare(i).multFactors)| > 0
         && Max(prepare(i).model.backward(prepare(i).multFactors)) > 0.0
  }

  class Submission {
    const numSubsets: nat
    const updateObjectiveInterval: nat
    /** The current image estimate. */
    var x: array<real>
    /** The cursor: the subset the next update uses. */
    var subset: nat
    var acquisitionModels: seq<AcquisitionModel>
    var promptsSubsets: seq<seq<real>>
    var subsetSensitivities: seq<seq<real>>
    /** The subsets used by the updates so far. */
    ghost var history: seq<nat>

    ghost predicate Valid()
      reads this, x
    {
      && |acquisitionModels| == |promptsSubsets| == |subsetSensitivities| == numSubsets
      && (forall i :: 0 <= i < numSubsets ==>
            Shaped(acquisitionModels[i], x.Length, |promptsSubsets[i]|) && |subsetSensitivities[i]| == x.Length)
      && (numSubsets == 0 ==> subset == 0 && history == [])
      && (numSubsets > 0 ==> subset == CursorAfter(|history|, numSubsets) && history == RoundRobin(|history|, numSubsets))
    }

    /** The divisions of the next update are defined. */
    ghost predicate Defined()
      reads this, x
    {
      && Valid() && numSubsets > 0
      && StepDefined(x[..], acquisitionModels[subset], promptsSubsets[subset], subsetSensitivities[subset])
    }

    /** A physically meaningful state: a non-negative image and data,
        non-negative projectors and positive sensitivities. */
    ghost predicate NonNegative()
      reads this, x
    {
      && Valid()
      && AllNonNegative(x[..])
      && (forall i :: 0 <= i < numSubsets ==>
            NonNegativeModel(acquisitionModels[i]) && AllNonNegative(promptsSubsets[i])
            && AllPositive(subsetSensitivities[i]))
    }

    /** `__init__(data, num_subsets)`: clone the initial image, then for
        each subset store its projector, its prompts and its floored
        sensitivity (the back-projection of its multiplicative factors). */
    constructor (initial: seq<real>, prepare: nat -> SubsetData, numSubsets: nat := DefaultNumSubsets,
                 updateObjectiveInterval: nat := DefaultUpdateObjectiveInterval)
      requires |initial| > 0
      requires forall i :: 0 <= i < numSubsets ==>
                 Shaped(prepare(i).model, |initial|, |prepare(i).prompts|)
                 && |prepare(i).multFactors| == |prepare(i).prompts|
      ensures Valid() && fresh(x)
      ensures x[..] == initial && subset == 0 && history == []
      ensures this.numSubsets == numSubsets && this.updateObjectiveInterval == updateObjectiveInterval
      ensures forall i :: 0 <= i < numSubsets ==>
                acquisitionModels[i] == prepare(i).model && promptsSubsets[i] == prepare(i).prompts
                && subsetSensitivities[i] == Floored(prepare(i).model.backward(prepare(i).multFactors))
      ensures NonNegativeStart(initial, numSubsets, prepare) ==> NonNegative()
    {
      this.numSubsets := numSubsets;
      this.updateObjectiveInterval := updateObjectiveInterval;
      subset := 0;
      history := [];
      x := new real[|initial|](j requires 0 <= j < |initial| => initial[j]);
      var models: seq<AcquisitionModel>, prompts: seq<seq<real>>, sensitivities: seq<seq<real>> := [], [], [];
      for i := 0 to numSubsets
        invariant |models| == |prompts| == |sensitivities| == i
        invariant forall k :: 0 <= k < i ==>
                    models[k] == prepare(k).model && prompts[k] == prepare(k).prompts
                    && |sensitivities[k]| == |initial|
                    && sensitivities[k] == Floored(prepare(k).model.backward(prepare(k).multFactors))
      {
        var data := prepare(i);
        var sensitivity := Floored(data.model.backward(data.multFactors));
        models := models + [data.model];
        prompts := prompts + [data.prompts];
        sensitivities := sensitivities + [sensitivity];
      }
      acquisitionModels := models;
      promptsSubsets := prompts;
      subsetSensitivities := sensitivities;
      if NonNegativeStart(initial, numSubsets, prepare) {
        forall i | 0 <= i < numSubsets ensures AllPositive(sensitivities[i]) {
          FlooredPositive(prepare(i).model.backward(prepare(i).multFactors));
        }
      }
    }

    /** A non-negative state has defined divisions. */
    lemma NonNegativeIsDefined()
      requires NonNegative() && numSubsets > 0
      ensures Defined()
    {
      NonNegativeStepDefined(x[..], acquisitionModels[subset], promptsSubsets[subset], subsetSensitivities[subset]);
    }

    /** `update()`: one OSEM step with the subset under the cursor, in
        place, then advance the cursor. Only the image and the cursor
        change; the multiplicative factors play no part. */
    method Update()
      requires Defined()
      modifies x, this`subset, this`history
      ensures Valid()
      ensures x[..] == OsemStep(old(x[..]), acquisitionModels[old(subset)], promptsSubsets[old(subset)],
                                subsetSensitivities[old(subset)])
      ensures subset == (old(subset) + 1) % numSubsets
      ensures history == old(history) + [old(subset)]
      ensures old(NonNegative()) ==> NonNegative()
    {
      ghost var before := x[..];
      var ratio := Ratio(x[..], acquisitionModels[subset], promptsSubsets[subset], subsetSensitivities[subset]);
      forall j | 0 <= j < x.Length {
        x[j] := x[j] * ratio[j];
      }
      ghost var after := OsemStep(before, acquisitionModels[subset], promptsSubsets[subset], subsetSensitivities[subset]);
      assert forall j :: 0 <= j < x.Length ==> x[..][j] == after[j];
      assert x[..] == after;
      if old(NonNegative()) {
        OsemStepNonNegative(before, acquisitionModels[subset], promptsSubsets[subset], subsetSensitivities[subset]);
      }
      NextIsSuccessorMod(subset, numSubsets);
      history := history + [subset];
      subset := (subset + 1) % |promptsSubsets|;
    }

    /** `update_objective()`: the objective is not computed; 0 is reported. */
    method UpdateObjective() returns (value: real)
      ensures value == 0.0
    {
      value := 0.0;
    }
  }
}
