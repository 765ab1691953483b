/** The pure rules of the run harness petric.py: when a callback fires,
    which files `SaveIters` writes, the metric names of `QualityMetrics`,
    and how `get_data` names the VOI masks it finds. The timeout governor,
    which keeps state, is the module `PetricTimeout`. */
module Petric {
  import opened Outcomes
  import opened Text

  // ---------------------------------------------------------------------
  // Callback cadence (`Callback.skip_iteration`)

  /** `min(self.interval, algo.update_objective_interval)`; an infinite
      objective interval leaves `interval` alone. */
  function Period(interval: nat, updateObjectiveInterval: Bound): (p: nat)
    ensures p <= interval
    ensures updateObjectiveInterval.Finite? ==> p <= updateObjectiveInterval.n
    ensures p == interval || updateObjectiveInterval == Finite(p)
    ensures updateObjectiveInterval == Infinite ==> p == interval
  {
    match updateObjectiveInterval
    case Finite(u) => if u < interval then u else interval
    case Infinite => interval
  }

  /** The `interval` of `Callback.__init__` when none is given, as for
      every callback the harness builds. */
  const DefaultInterval: nat := 3

  /** `skip_iteration`: a callback does nothing at this iteration. A zero
      period would raise `ZeroDivisionError` in the source, so callers
      must avoid it. */
  function SkipIteration(iteration: nat, interval: nat := DefaultInterval, updateObjectiveInterval: Bound,
                         maxIteration: Bound): (skip: bool)
    requires Period(interval, updateObjectiveInterval) > 0
    ensures maxIteration == Finite(iteration) ==> !skip
    ensures iteration == 0 ==> !skip
    ensures !skip ==> maxIteration == Finite(iteration)
                      || iteration == (iteration / Period(interval, updateObjectiveInterval)) * Period(interval, updateObjectiveInterval)
  {
    iteration % Period(interval, updateObjectiveInterval) != 0 && maxIteration != Finite(iteration)
  }

  lemma MulAtLeast(d: int, p: int)
    requires d >= 1 && p > 0
    ensures d * p >= p
  {
  }

  /** Euclidean division is unique: `k * p + j` leaves remainder `j`. */
  lemma ModOfBlock(k: nat, p: nat, j: nat)
    requires 0 < p && j < p
    ensures (k * p + j) % p == j
  {
    var a := k * p + j;
    var q, r := a / p, a % p;
    assert a == q * p + r;
    assert (q - k) * p == j - r;
    if q > k {
      MulAtLeast(q - k, p);
    } else if q < k {
      MulAtLeast(k - q, p);
    }
  }

  /** Every multiple of the period fires, whatever the maximum. */
  lemma MultiplesOfPeriodFire(k: nat, iteration: nat, interval: nat, updateObjectiveInterval: Bound, maxIteration: Bound)
    requires Period(interval, updateObjectiveInterval) > 0
    requires iteration == k * Period(interval, updateObjectiveInterval)
    ensures !SkipIteration(iteration, interval, updateObjectiveInterval, maxIteration)
  {
    ModOfBlock(k, Period(interval, updateObjectiveInterval), 0);
  }

  /** Iterations off the period are skipped unless they are the last. */
  lemma OffPeriodSkipped(k: nat, j: nat, interval: nat, updateObjectiveInterval: Bound, maxIteration: Bound)
    requires 0 < j < Period(interval, updateObjectiveInterval)
    requires maxIteration != Finite(k * Period(interval, updateObjectiveInterval) + j)
    ensures SkipIteration(k * Period(interval, updateObjectiveInterval) + j, interval, updateObjectiveInterval, maxIteration)
  {
    ModOfBlock(k, Period(interval, updateObjectiveInterval), j);
  }

  /** How many of the iterations `0 .. n-1` a callback acts on. */
  function CountFired(n: nat, interval: nat, updateObjectiveInterval: Bound, maxIteration: Bound): nat
    requires Period(interval, updateObjectiveInterval) > 0
  {
    if n == 0 then 0
    else CountFired(n - 1, interval, updateObjectiveInterval, maxIteration)
         + (if SkipIteration(n - 1, interval, updateObjectiveInterval, maxIteration) then 0 else 1)
  }

  lemma {:induction false} CountWithinBlock(k: nat, j: nat, interval: nat, updateObjectiveInterval: Bound)
    requires 1 <= j <= Period(interval, updateObjectiveInterval)
    ensures var p := Period(interval, updateObjectiveInterval);
            CountFired(k * p + j, interval, updateObjectiveInterval, Infinite)
            == CountFired(k * p, interval, updateObjectiveInterval, Infinite) + 1
    decreases j
  {
    var p := Period(interval, updateObjectiveInterval);
    if j == 1 {
      MultiplesOfPeriodFire(k, k * p, interval, updateObjectiveInterval, Infinite);
    } else {
      CountWithinBlock(k, j - 1, interval, updateObjectiveInterval);
      OffPeriodSkipped(k, j - 1, interval, updateObjectiveInterval, Infinite);
    }
  }

  /** In an unbounded run (`max_iteration = inf`, as the harness runs every
      submission) a callback acts exactly once per period: `k` times over
      the first `k * period` iterations. */
  lemma {:induction false} FiresOncePerPeriod(k: nat, interval: nat, updateObjectiveInterval: Bound)
    requires Period(interval, updateObjectiveInterval) > 0
    ensures CountFired(k * Period(interval, updateObjectiveInterval), interval, updateObjectiveInterval, Infinite) == k
  {
    var p := Period(interval, updateObjectiveInterval);
    if k > 0 {
      FiresOncePerPeriod(k - 1, interval, updateObjectiveInterval);
      CountWithinBlock(k - 1, p, interval, updateObjectiveInterval);
      assert (k - 1) * p + p == k * p;
    }
  }

  // ---------------------------------------------------------------------
  // Checkpoint names (`SaveIters`)

  const CheckpointPrefix := "iter_"
  const ImageSuffix := ".hv"
  const FinalCheckpoint := "iter_final.hv"

  /** `f'iter_{iteration:04d}.hv'`, relative to the output folder. */
  function CheckpointName(iteration: nat): (name: string)
    ensures |name| >= 12
    ensures name[..5] == CheckpointPrefix && name[|name| - 3..] == ImageSuffix
  {
    CheckpointPrefix + PadNat(iteration, 4) + ImageSuffix
  }

  /** Reads the iteration back from a numbered checkpoint name. */
  function ParseCheckpointName(name: string): Option<nat>
  {
    if |name| > 8 && name[..5] == CheckpointPrefix && name[|name| - 3..] == ImageSuffix && AllDigits(name[5..|name| - 3])
    then Some(DigitsValue(name[5..|name| - 3]))
    else None
  }

  /** A numbered checkpoint name records its iteration. */
  lemma CheckpointNameRoundTrip(iteration: nat)
    ensures ParseCheckpointName(CheckpointName(iteration)) == Some(iteration)
  {
    var name := CheckpointName(iteration);
    assert name[5..|name| - 3] == PadNat(iteration, 4);
    PadNatValue(iteration, 4);
  }

  /** Different iterations never overwrite each other's checkpoint, and no
      numbered checkpoint is the final one. */
  lemma CheckpointNamesDistinct(i: nat, j: nat)
    ensures i != j ==> CheckpointName(i) != CheckpointName(j)
    ensures CheckpointName(i) != FinalCheckpoint
  {
    if i != j {
      CheckpointNameRoundTrip(i);
      CheckpointNameRoundTrip(j);
    }
    NumberedIsNotFinal(i);
  }

  lemma NumberedIsNotFinal(i: nat)
    ensures CheckpointName(i) != FinalCheckpoint
  {
    var digits := PadNat(i, 4);
    var name := CheckpointPrefix + digits + ImageSuffix;
    assert name[5] == digits[0];
    assert IsDigit(digits[0]);
    assert FinalCheckpoint[5] == 'f';
  }

  /** What one `SaveIters` call writes: the image and the objective row of
      a non-skipped iteration, then the final image at `max_iteration`. */
  datatype Write = WriteImage(name: string) | WriteCsvRow(iteration: nat)

  function SaveIters(iteration: nat, interval: nat := DefaultInterval, updateObjectiveInterval: Bound,
                     maxIteration: Bound): (writes: seq<Write>)
    requires Period(interval, updateObjectiveInterval) > 0
    ensures WriteImage(CheckpointName(iteration)) in writes
            <==> !SkipIteration(iteration, interval, updateObjectiveInterval, maxIteration)
    ensures WriteCsvRow(iteration) in writes
            <==> !SkipIteration(iteration, interval, updateObjectiveInterval, maxIteration)
    ensures WriteImage(FinalCheckpoint) in writes <==> maxIteration == Finite(iteration)
    ensures forall w :: w in writes ==>
              w == WriteImage(CheckpointName(iteration)) || w == WriteCsvRow(iteration) || w == WriteImage(FinalCheckpoint)
    ensures maxIteration == Finite(iteration) ==> |writes| == 3 && writes[2] == WriteImage(FinalCheckpoint)
  {
    CheckpointNamesDistinct(iteration, iteration);
    var image, row, final := WriteImage(CheckpointName(iteration)), WriteCsvRow(iteration), WriteImage(FinalCheckpoint);
    if SkipIteration(iteration, interval, updateObjectiveInterval, maxIteration) then
      (if maxIteration == Finite(iteration) then [final] else [])
    else
      (if maxIteration == Finite(iteration) then [image, row, final] else [image, row])
  }

  /** The harness runs every submission with an infinite `max_iteration` and
      an infinite `update_objective_interval`, and its `SaveIters` keeps the
      default interval: a checkpoint and an objective row are written exactly
      at the multiples of 3, and no final image is written. */
  lemma HarnessSavesEveryThird(iteration: nat)
    ensures var writes := SaveIters(iteration, updateObjectiveInterval := Infinite, maxIteration := Infinite);
            && (WriteImage(CheckpointName(iteration)) in writes <==> iteration % 3 == 0)
            && (WriteCsvRow(iteration) in writes <==> iteration % 3 == 0)
            && WriteImage(FinalCheckpoint) !in writes
  {
  }

  // ---------------------------------------------------------------------
  // VOI names (`get_data`)

  const VoiPrefix := "VOI_"

  /** Matches the pattern `VOI_*.hv`. */
  predicate IsVoiFile(f: string)
  {
    |f| >= 7 && f[..4] == VoiPrefix && f[|f| - 3..] == ImageSuffix
  }

  /** `voi.stem[4:]`: the file name without `VOI_` and without `.hv`. */
  function VoiNameOf(f: string): string
    requires IsVoiFile(f)
  {
    f[4..|f| - 3]
  }

  function VoiFileName(name: string): string { VoiPrefix + name + ImageSuffix }

  const BackgroundName := "background"
  const WholeObjectName := "whole_object"

  /** The two masks that are not reported per VOI. */
  predicate IsReservedVoi(name: string) { name == BackgroundName || name == WholeObjectName }

  /** The keys of `voi_masks`, in the order the folder is listed. */
  function VoiNames(files: seq<string>): seq<string>
  {
    if files == [] then []
    else (if IsVoiFile(files[0]) && !IsReservedVoi(VoiNameOf(files[0])) then [VoiNameOf(files[0])] else [])
         + VoiNames(files[1..])
  }

  lemma VoiFileNameOf(f: string, name: string)
    ensures IsVoiFile(VoiFileName(name)) && VoiNameOf(VoiFileName(name)) == name
    ensures IsVoiFile(f) ==> VoiFileName(VoiNameOf(f)) == f
  {
    if IsVoiFile(f) {
      assert f == f[..4] + f[4..|f| - 3] + f[|f| - 3..];
    }
  }

  /** A folder holding the files `VOI_<name>.hv` of non-reserved names
      yields exactly those names, in the order listed. */
  lemma {:induction false} VoiNamesOfFiles(names: seq<string>, files: seq<string>)
    requires |files| == |names|
    requires forall k :: 0 <= k < |names| ==> files[k] == VoiFileName(names[k]) && !IsReservedVoi(names[k])
    ensures VoiNames(files) == names
  {
    if names != [] {
      VoiFileNameOf(files[0], names[0]);
      var restNames, restFiles := names[1..], files[1..];
      forall k | 0 <= k < |restNames|
        ensures restFiles[k] == VoiFileName(restNames[k]) && !IsReservedVoi(restNames[k])
      {
        assert restFiles[k] == files[k + 1] && restNames[k] == names[k + 1];
      }
      VoiNamesOfFiles(restNames, restFiles);
      assert names == [names[0]] + restNames;
    }
  }

  /** A name is a VOI of the data set exactly when its `VOI_<name>.hv` file
      is in the folder and it is neither the background nor the whole-object
      mask. */
  lemma {:induction false} VoiNamesExactly(files: seq<string>, name: string)
    ensures name in VoiNames(files) <==> VoiFileName(name) in files && !IsReservedVoi(name)
  {
    if files != [] {
      VoiNamesExactly(files[1..], name);
      VoiFileNameOf(files[0], name);
      assert files == [files[0]] + files[1..];
    }
  }

  predicate Distinct<T(==)>(s: seq<T>) { forall i, j :: 0 <= i < j < |s| ==> s[i] != s[j] }

  /** A folder lists each file once, so no VOI name comes up twice. */
  lemma {:induction false} VoiNamesDistinct(files: seq<string>)
    requires Distinct(files)
    ensures Distinct(VoiNames(files))
  {
    if files != [] {
      var rest := VoiNames(files[1..]);
      VoiNamesDistinct(files[1..]);
      if IsVoiFile(files[0]) && !IsReservedVoi(VoiNameOf(files[0])) {
        var n := VoiNameOf(files[0]);
        if n in rest {
          VoiNamesExactly(files[1..], n);
          VoiFileNameOf(files[0], n);
          assert false;
        }
        assert VoiNames(files) == [n] + rest;
      }
    }
  }

  // ---------------------------------------------------------------------
  // Metric names (`QualityMetrics.keys` and `evaluate`)

  const RmseWholeObject := "RMSE_whole_object"
  const RmseBackground := "RMSE_background"
  const AemPrefix := "AEM_VOI_"

  function AemKey(name: string): string { AemPrefix + name }

  /** `keys()`: the two RMSE metrics, then one AEM metric per VOI in sorted
      name order. */
  function Keys(voiNames: seq<string>): (keys: seq<string>)
    ensures |keys| == 2 + |voiNames|
    ensures keys[0] == RmseWholeObject && keys[1] == RmseBackground
  {
    SortBySortedPermutation(voiNames, Identity);
    [RmseWholeObject, RmseBackground] + MapKey(SortBy(voiNames, Identity), AemKey)
  }

  /** After the two RMSE names come the AEM names of a sorted permutation of
      the VOI names. */
  lemma KeysListVoisSorted(voiNames: seq<string>)
    ensures var sorted := SortBy(voiNames, Identity);
            && multiset(sorted) == multiset(voiNames)
            && SortedBy(sorted, Identity)
            && |sorted| == |voiNames|
            && forall i :: 0 <= i < |sorted| ==> Keys(voiNames)[i + 2] == AemKey(sorted[i])
  {
    SortBySortedPermutation(voiNames, Identity);
  }

  lemma {:induction false} MultisetOfDistinct<T>(s: seq<T>, x: T)
    requires Distinct(s)
    ensures multiset(s)[x] <= 1
  {
    if s != [] {
      MultisetOfDistinct(s[1..], x);
      assert s == [s[0]] + s[1..];
      if s[0] == x {
        assert x !in s[1..];
      }
    }
  }

  lemma PermutationKeepsDistinct<T>(a: seq<T>, b: seq<T>)
    requires multiset(a) == multiset(b) && Distinct(a)
    ensures Distinct(b)
  {
    forall i, j | 0 <= i < j < |b| ensures b[i] != b[j] {
      if b[i] == b[j] {
        assert b == b[..i] + [b[i]] + b[i + 1..j] + [b[j]] + b[j + 1..];
        assert multiset(b)[b[i]] >= 2;
        MultisetOfDistinct(a, b[i]);
      }
    }
  }

  lemma AemKeyInjective(a: string, b: string)
    ensures AemKey(a)[0] == 'A'
    ensures AemKey(a) == AemKey(b) ==> a == b
  {
    assert AemKey(a)[8..] == a;
    assert AemKey(b)[8..] == b;
  }

  lemma AemKeysDistinct(names: seq<string>)
    requires Distinct(names)
    ensures Distinct(MapKey(names, AemKey))
  {
    var aem := MapKey(names, AemKey);
    forall i, j | 0 <= i < j < |aem| ensures aem[i] != aem[j] {
      var a, b := names[i], names[j];
      assert aem[i] == AemKey(a) && aem[j] == AemKey(b);
      AemKeyInjective(a, b);
    }
  }

  lemma AemKeysStartWithA(names: seq<string>)
    ensures forall i :: 0 <= i < |names| ==> |MapKey(names, AemKey)[i]| > 0 && MapKey(names, AemKey)[i][0] == 'A'
  {
    var aem := MapKey(names, AemKey);
    forall i | 0 <= i < |aem| ensures |aem[i]| > 0 && aem[i][0] == 'A' {
      var name := names[i];
      assert aem[i] == AemKey(name);
      AemKeyInjective(name, name);
    }
  }

  lemma RmseKeysBeforeAemKeysDistinct(aem: seq<string>)
    requires Distinct(aem)
    requires forall i :: 0 <= i < |aem| ==> |aem[i]| > 0 && aem[i][0] == 'A'
    ensures Distinct([RmseWholeObject, RmseBackground] + aem)
  {
    var keys := [RmseWholeObject, RmseBackground] + aem;
    assert RmseWholeObject[5] != RmseBackground[5];
    forall i, j | 0 <= i < j < |keys| ensures keys[i] != keys[j] {
      if 2 <= i {
        assert keys[i] == aem[i - 2] && keys[j] == aem[j - 2];
      } else if 2 <= j {
        assert keys[j] == aem[j - 2];
        assert keys[i][0] == 'R';
      } else {
        assert keys[i][5] != keys[j][5];
      }
    }
  }

  /** With distinct VOI names (the keys of a dictionary) every metric name is
      distinct, so the result of `evaluate` has one entry per key. */
  lemma KeysDistinct(voiNames: seq<string>)
    requires Distinct(voiNames)
    ensures Distinct(Keys(voiNames))
  {
    var sorted := SortBy(voiNames, Identity);
    SortBySortedPermutation(voiNames, Identity);
    PermutationKeepsDistinct(voiNames, sorted);
    AemKeysDistinct(sorted);
    AemKeysStartWithA(sorted);
    RmseKeysBeforeAemKeysDistinct(MapKey(sorted, AemKey));
  }

  function Name<M>(voi: (string, M)): string { voi.0 }

  function MetricName(entry: (string, real)): string { entry.0 }

  function AemEntries<M>(vois: seq<(string, M)>, aem: M -> real): (entries: seq<(string, real)>)
    ensures |entries| == |vois|
    ensures forall i :: 0 <= i < |vois| ==> entries[i] == (AemKey(vois[i].0), aem(vois[i].1))
  {
    if vois == [] then [] else [(AemKey(vois[0].0), aem(vois[0].1))] + AemEntries(vois[1..], aem)
  }

  /** `evaluate`: the values come from image numerics that are not modelled
      (`rmseWholeObject`, `rmseBackground`, and `aem` per VOI mask); the
      entries are built in the order of the dictionary display. */
  function Evaluate<M>(vois: seq<(string, M)>, rmseWholeObject: real, rmseBackground: real, aem: M -> real)
    : (entries: seq<(string, real)>)
    ensures |entries| == 2 + |vois|
    ensures entries[0] == (RmseWholeObject, rmseWholeObject) && entries[1] == (RmseBackground, rmseBackground)
  {
    SortBySortedPermutation(vois, Name);
    [(RmseWholeObject, rmseWholeObject), (RmseBackground, rmseBackground)] + AemEntries(SortBy(vois, Name), aem)
  }

  lemma AemEntriesNames<M>(vois: seq<(string, M)>, aem: M -> real)
    ensures MapKey(AemEntries(vois, aem), MetricName) == MapKey(MapKey(vois, Name), AemKey)
  {
  }

  /** `evaluate` reports its metrics under exactly the names of `keys()`, in
      the same order. */
  lemma EvaluateFollowsKeys<M>(vois: seq<(string, M)>, rmseWholeObject: real, rmseBackground: real, aem: M -> real)
    ensures MapKey(Evaluate(vois, rmseWholeObject, rmseBackground, aem), MetricName) == Keys(MapKey(vois, Name))
  {
    var sorted := SortBy(vois, Name);
    var tail := AemEntries(sorted, aem);
    var entries := Evaluate(vois, rmseWholeObject, rmseBackground, aem);
    assert entries == [(RmseWholeObject, rmseWholeObject), (RmseBackground, rmseBackground)] + tail;
    MapKeySortBy(vois, Name);
    AemEntriesNames(sorted, aem);
    var names := MapKey(tail, MetricName);
    assert names == MapKey(SortBy(MapKey(vois, Name), Identity), AemKey);
    assert MapKey(entries, MetricName) == [RmseWholeObject, RmseBackground] + names;
  }

  // ---------------------------------------------------------------------
  // Display slices (`DATA_SLICES`)

  const TransverseSlice := "transverse_slice"
  const CoronalSlice := "coronal_slice"
  const SagittalSlice := "sagittal_slice"

  /** The slices `StatsLog` shows for each known data set. */
  const DataSlices: map<string, map<string, nat>> := map[
    "Siemens_mMR_NEMA_IQ" := map[TransverseSlice := 72, CoronalSlice := 109, SagittalSlice := 89],
    "Siemens_mMR_NEMA_IQ_lowcounts" := map[TransverseSlice := 72, CoronalSlice := 109, SagittalSlice := 89],
    "Siemens_mMR_ACR" := map[TransverseSlice := 99],
    "NeuroLF_Hoffman_Dataset" := map[TransverseSlice := 72],
    "Mediso_NEMA_IQ" := map[TransverseSlice := 22, CoronalSlice := 89, SagittalSlice := 66],
    "Siemens_Vision600_thorax" := map[],
    "GE_DMI3_Torso" := map[]
  ]
}
