# PETRIC in Dafny

PETRIC is the PET Rapid Image reconstruction Challenge. Participants submit a reconstruction algorithm. The harness `petric.py` then runs each submission on several data sets under a wall-clock budget. Along the way it saves checkpoints, logs image slices and computes image-quality metrics against reference reconstructions. Data-preparation scripts produce the challenge data: initial images, volumes of interest (VOIs) and per-data-set settings.

This project models the self-contained logic of that repository and proves properties of it. Each module corresponds to one source file, or to one rule shared by several files:

| module | models |
|---|---|
| `Petric` (petric.dfy) | the pure rules of the harness: the callback cadence `skip_iteration`, the file names and writes of `SaveIters`, the metric names of `QualityMetrics.keys`/`evaluate`, the VOI names found by `get_data`, the `DATA_SLICES` table |
| `PetricTimeout` (petric_timeout.dfy) | `MetricsWithTimeout` as a class with fields `limit`, `offset` and `callbacks`; a run of calls after a reset is a trace over clock readings |
| `Osem` (osem.dfy) | the example submission of main_OSEM.py as a class: the subset lists, the sensitivity floor, the in-place multiplicative update of the image array, the round-robin subset cursor, `update_objective` and the `MaxIteration` callback |
| `SiemensNorm` (siemens_norm.dfy) | `fix_siemens_norm_EOL`: the in-place byte loop that turns every carriage return into a line feed. Four files carry identical copies; this one model covers all four |
| `Paths` (paths.dfy) | `os.path.join` as POSIX Python defines it. All data-path helpers are built on it |
| `DataUtilities`, `LibDataUtilities`, `SirfExercises` (data_paths.dfy) | the data-path helpers, with their error paths (`RuntimeError`) |
| `DatasetSettings` (dataset_settings.dfy) | the `get_settings` table |
| `NemaVois` (nema_vois.dfy) | the NEMA VOI script: reading the seven sphere masks, the shifted background VOI, and the VOI list with its names |
| `InitialImages` (initial_images.dfy) | the initial-image scaling with its `ValueError`, the kappa image, and the single-subset acquisition model |
| `Text`, `Outcomes` | Python's `str`, `f"{n:04d}"` and `sorted` on strings; `Option`, `Result`, and the `Continue`/`Stop` signal that stands for `StopIteration` |

External collaborators are parameters of the model:

- the clock (`time()`) becomes `now` and `later` arguments;
- the STIR projectors become functions held in an `AcquisitionModel`;
- the subset partitioner becomes a function from subset index to subset data;
- reading an image file, `os.path.exists` and the installer-written `data_path` module become parameters.

Images and projection data are vectors of mathematical reals.

## Model

| member | source | states |
|---|---|---|
| Petric.Period | petric.py:51-52 | The callback period is `min(interval, update_objective_interval)`. It is at most each of the two, and it is `interval` itself when the objective interval is infinite. |
| Petric.SkipIteration | petric.py:45-52 | The last iteration and iteration 0 are never skipped. An iteration that is not skipped is the last one or a multiple of the period. `interval` defaults to 3, as in `Callback.__init__`. |
| Petric.MultiplesOfPeriodFire | petric.py:50-52 | Every multiple of the period is acted on, whatever `max_iteration` is. |
| Petric.OffPeriodSkipped | petric.py:50-52 | An iteration strictly between two multiples of the period is skipped unless it is `max_iteration`. |
| Petric.CountWithinBlock | petric.py:50-52 | In an unbounded run, exactly one iteration of each period is acted on. |
| Petric.FiresOncePerPeriod | petric.py:50-52 | In an unbounded run, a callback acts exactly `k` times over the first `k` periods. |
| Petric.CheckpointName | petric.py:67 | A checkpoint name starts with `iter_`, ends with `.hv` and has at least four digits. |
| Petric.CheckpointNameRoundTrip | petric.py:67 | The iteration reads back from its checkpoint name, so the zero-padding loses nothing. |
| Petric.CheckpointNamesDistinct | petric.py:67-71 | Different iterations get different checkpoint files, and no numbered checkpoint is `iter_final.hv`. |
| Petric.SaveIters | petric.py:64-71 | The image and the CSV row are written exactly when the iteration is not skipped. `iter_final.hv` is written exactly at `max_iteration`, and it is the third and last write there. Nothing else is written. `interval` defaults to 3. |
| Petric.HarnessSavesEveryThird | petric.py:45-71 | Under the harness's run with infinite `max_iteration` and `update_objective_interval` (petric.py:309) and the default interval, the checkpoint and the objective row are written exactly at the multiples of 3, and `iter_final.hv` is never written. |
| Petric.VoiFileNameOf | petric.py:246-248 | `voi.stem[4:]` recovers the name from `VOI_<name>.hv`, and that file name rebuilds from the name. |
| Petric.VoiNamesExactly | petric.py:246-248 | A name is a VOI of the data set if and only if its `VOI_<name>.hv` file is in the folder and the name is neither `background` nor `whole_object`. |
| Petric.VoiNamesOfFiles | petric.py:246-248 | A folder holding the `VOI_<name>.hv` files of non-reserved names yields exactly those names, in listing order. |
| Petric.VoiNamesDistinct | petric.py:246-248 | A folder listing without repeats yields VOI names without repeats. |
| Petric.Keys | petric.py:143-144 | `keys()` has two more entries than there are VOIs. The first two are `RMSE_whole_object` and `RMSE_background`. |
| Petric.KeysListVoisSorted | petric.py:144 | After the RMSE names, `keys()` holds `AEM_VOI_<name>` for a sorted permutation of the VOI names. |
| Petric.AemKeyInjective | petric.py:144 | Different VOI names give different AEM metric names. |
| Petric.AemKeysDistinct | petric.py:144 | Distinct VOI names give distinct AEM names. |
| Petric.AemKeysStartWithA | petric.py:144 | Every AEM name starts with `A`, so none equals an RMSE name. |
| Petric.RmseKeysBeforeAemKeysDistinct | petric.py:143-144 | Neither RMSE name clashes with an AEM name or with the other RMSE name. |
| Petric.KeysDistinct | petric.py:143-144 | With distinct VOI names, every name in `keys()` is distinct. |
| Petric.AemEntries | petric.py:137-140 | There is one entry per VOI, in order, pairing `AEM_VOI_<name>` with the metric of that VOI's mask. |
| Petric.Evaluate | petric.py:129-141 | `evaluate` has two more entries than there are VOIs. The first two are the RMSE values under their names. |
| Petric.AemEntriesNames | petric.py:137-140 | The names of the AEM entries are the AEM keys of the VOI names, in order. |
| Petric.EvaluateFollowsKeys | petric.py:129-144 | The metric names of `evaluate` are exactly `keys()`, in the same order. |
| PetricTimeout.MetricsWithTimeout.constructor | petric.py:149-159 | The callbacks are progress, `SaveIters` and `StatsLog`, in that order. The budget, 600 seconds unless given, starts now with a zero offset. |
| PetricTimeout.MetricsWithTimeout.Reset | petric.py:161-163 | `limit = now + seconds`, using the constructor's budget when none is given, and `offset = 0`. |
| PetricTimeout.MetricsWithTimeout.AddQualityMetrics | petric.py:302-305 | `QualityMetrics` is appended after the other callbacks. |
| PetricTimeout.MetricsWithTimeout.Call | petric.py:165-172 | The call returns `Stop` if and only if `now > limit + offset`; then no callback runs and nothing changes. Otherwise every callback runs once in list order, `offset` grows by exactly `later - now`, and `limit` is untouched. The signal and the new offset are those of `Step`, which the trace lemmas below are about. |
| PetricTimeout.Replay | petric.py:165-172 | A run of calls yields one signal per call. |
| PetricTimeout.OffsetIsLoopTime | petric.py:161-172 | After a run of calls that all continue, `offset` has grown by exactly the time spent inside their callback loops. |
| PetricTimeout.LogicalTimeMonotone | petric.py:166-172 | Under a monotone clock, the logical time `now - offset` never goes back. |
| PetricTimeout.StopIsFinal | petric.py:166-168 | Under a monotone clock, once a call returns `Stop`, every later call returns `Stop`. |
| PetricTimeout.StaysExpired | petric.py:166-168 | From an expired state, calls that start no earlier all return `Stop`. |
| PetricTimeout.StopsWhenBudgetSpent | petric.py:161-172 | After a reset, the first stopping call is the first one at which the wall time since the reset, less all earlier callback-loop time, exceeds the budget. |
| Osem.MaxIterationStopsAtBound | main_OSEM.py:25-27 | `MaxIteration` returns `Stop` if and only if `iteration >= max_iteration`, and it stops at every iteration after the bound too. |
| Osem.SubmissionRunsSixHundredSixtyIterations | main_OSEM.py:102 | With the shipped bound, iterations 0 to 659 continue and 660 stops. |
| Osem.Max | main_OSEM.py:74 | `.max()` is one of the entries and bounds all of them. |
| Osem.Floored | main_OSEM.py:72-74 | Every voxel gets the same amount added. For a non-negative image, every voxel ends at least `max * 1e-6`. |
| Osem.FlooredPositive | main_OSEM.py:72-74 | A non-negative sensitivity with a positive maximum becomes strictly positive. |
| Osem.FlooredZeroStaysZero | main_OSEM.py:72-74 | An all-zero sensitivity is left all zero; the floor does not guard that case. |
| Osem.Denominator | main_OSEM.py:87 | The denominator has one bin per bin of the forward projection. |
| Osem.DenominatorPositive | main_OSEM.py:87 | `forward(x) + 0.0001` is strictly positive wherever the forward projection is non-negative. |
| Osem.Quotient | main_OSEM.py:89 | The quotient has one bin per prompt bin. |
| Osem.Ratio | main_OSEM.py:92 | The update factor has one value per voxel. |
| Osem.OsemStep | main_OSEM.py:87-92 | An update keeps the image size. |
| Osem.NonNegativeStepDefined | main_OSEM.py:87-92 | Non-negative image and projectors and a positive sensitivity leave no zero divisor in an update. |
| Osem.OsemStepNonNegative | main_OSEM.py:87-92 | With a non-negative image, prompts and projectors and a positive sensitivity, the update keeps the image non-negative. |
| Osem.ZeroVoxelStaysZero | main_OSEM.py:92 | A zero voxel stays zero under the multiplicative update. |
| Osem.FixedPointWhenBalanced | main_OSEM.py:92 | When the back-projected quotient equals the sensitivity, the image is unchanged. |
| Osem.RoundRobin | main_OSEM.py:93 | The record of the first `k` updates names exactly `k` subsets. |
| Osem.RoundRobinInOrder | main_OSEM.py:93 | The `j`-th update uses subset `j mod n`, so the subsets come in index order. |
| Osem.NextIsSuccessorMod | main_OSEM.py:93 | For a valid subset, `(subset + 1) % n` is the next subset, wrapping to 0 after the last. |
| Osem.CursorIsMod | main_OSEM.py:93 | After `j` updates from subset 0, the cursor is at `j mod n`. |
| Osem.ModSuccessor | main_OSEM.py:93 | Advancing the cursor `(subset + 1) % n` agrees with counting the updates modulo `n`. |
| Osem.RoundRobinCountPartial | main_OSEM.py:93 | After `k` rounds and `m` further updates, subset `i` has been used `k` times, plus one if `i < m`. |
| Osem.RoundRobinFair | main_OSEM.py:93 | Over `k * n` updates, each of the `n` subsets is used exactly `k` times. |
| Osem.Submission.constructor | main_OSEM.py:45-81 | The image is a fresh copy of the initial image and the cursor is 0. `num_subsets` defaults to 7 and `update_objective_interval` to 10. The three lists each have `num_subsets` entries: subset `i`'s projector, its prompts, and its floored back-projected multiplicative factors. From non-negative data whose back-projected sensitivities are not all zero, the new submission is in the non-negative state that `Update` preserves. |
| Osem.Submission.NonNegativeIsDefined | main_OSEM.py:83-92 | In a non-negative state, the next update divides by no zero. |
| Osem.Submission.Update | main_OSEM.py:83-93 | The image becomes one OSEM step with the subset under the cursor, updated in place. The cursor becomes `(subset + 1) % num_subsets`. Non-negativity is preserved. The subset lists are untouched, and the multiplicative factors play no part. |
| Osem.Submission.UpdateObjective | main_OSEM.py:95-100 | The objective is always reported as 0. |
| SiemensNorm.FixSiemensNormEol | SIRF_data_preparation/data_utilities.py:42-49 | The bytes after the loop are the bytes before it, with every 13 replaced by 10. The identical copies in lib/data_utilities/__init__.py:42-49, lib/sirf_exercises/__init__.py:64-71 and src/SIRF_data_preparation/data_preparation_setup.py:13-20 are modelled by the same method. |
| SiemensNorm.FixedLength | SIRF_data_preparation/data_utilities.py:45-47 | The rewrite keeps the length. |
| SiemensNorm.FixedAt | SIRF_data_preparation/data_utilities.py:45-47 | A byte 13 becomes 10, and every other byte stays as it was at its position. |
| SiemensNorm.NoCarriageReturnLeft | SIRF_data_preparation/data_utilities.py:45-47 | No byte 13 is left. |
| SiemensNorm.FixedIdempotent | SIRF_data_preparation/data_utilities.py:45-47 | Applying the rewrite twice equals applying it once. |
| Paths.JoinKeepsBase | SIRF_data_preparation/data_utilities.py:30 | Joining relative components keeps the base path as a prefix. |
| Paths.JoinAbsoluteRestarts | SIRF_data_preparation/data_utilities.py:30 | An absolute component discards everything joined before it. |
| Paths.JoinSingle | SIRF_data_preparation/data_utilities.py:30 | A relative name joined to a folder not ending in `/` gets exactly one `/` in between. |
| Paths.JoinSnoc | SIRF_data_preparation/data_utilities.py:30 | The components are joined left to right: joining one more component is one more single join onto the result so far. |
| Paths.JoinPlain | SIRF_data_preparation/data_utilities.py:30 | Onto a base not ending in `/`, non-empty names that neither start nor end with `/` are appended in order, each after exactly one `/`. |
| DataUtilities.BasesEndInName | SIRF_data_preparation/data_utilities.py:18-20 | `DATA_PATH` and `ORG_DATA_PATH` are never empty and never end in `/`. |
| DataUtilities.TheDataPath | SIRF_data_preparation/data_utilities.py:24-30 | With no folders the result is `DATA_PATH` itself. With relative folders the result lies under `DATA_PATH`. With plain folder names it is `DATA_PATH` followed by `/<folder>` for each folder, in order. |
| DataUtilities.TheOrgDataPath | SIRF_data_preparation/data_utilities.py:33-39 | With no folders the result is `ORG_DATA_PATH` itself. With relative folders the result lies under `ORG_DATA_PATH`. With plain folder names it is `ORG_DATA_PATH` followed by `/<folder>` for each folder, in order. |
| DataUtilities.DataAndOrgDataApart | SIRF_data_preparation/data_utilities.py:18-39 | With relative folders, no path string built under `orgdata` equals one built under `data`. This is about strings: a `..` folder can still reach the same file. |
| LibDataUtilities.TheDataPath | lib/data_utilities/__init__.py:26-39 | The call fails with `RuntimeError("Path to data not found.")` if and only if the installer module is missing. Otherwise the result is `os.path.join(data_path, *data_type)`. It lies under `data_path` for relative arguments, and for plain names on a `data_path` not ending in `/` it is `data_path` followed by `/<name>` for each name, in order. |
| SirfExercises.ExercisesDataPath | lib/sirf_exercises/__init__.py:21-40 | The call succeeds if and only if the installer's path, or else the environment's, exists. A failure carries the documented message. A success is that folder joined with the arguments. |
| SirfExercises.InstallerTakesPrecedence | lib/sirf_exercises/__init__.py:28-33 | When the installer module is present, the environment variable has no effect. |
| SirfExercises.FoundPathUnderExistingFolder | lib/sirf_exercises/__init__.py:35-40 | A path that is found lies under a folder that exists. |
| DatasetSettings.GetSettings | SIRF_data_preparation/dataset_settings.py:12-22 | Every scan gets a positive number of subsets and only transverse or coronal slices. Slices are given exactly for the mMR NEMA and the Hoffman scans. |
| DatasetSettings.SettingsAgreeWithHarnessSlices | SIRF_data_preparation/dataset_settings.py:13-21 | For every data set the harness knows, the preparation slices sit at the same positions as in `DATA_SLICES` of petric.py. |
| NemaVois.ZShift | SIRF_data_preparation/create_NEMA_IQ_VOIs.py:121-123 | The shift is the number of whole planes that fit in 1.2 sphere diameters (44.4 mm). |
| NemaVois.ShiftDown | SIRF_data_preparation/create_NEMA_IQ_VOIs.py:124-127 | With a shift `z >= 1`, the depth is kept, the first `z` planes are zero, and plane `i >= z` is input plane `i - z`. A zero shift gives no planes at all. |
| NemaVois.ShiftBeyondDepthClears | SIRF_data_preparation/create_NEMA_IQ_VOIs.py:124-127 | A shift of at least the depth clears the mask. |
| NemaVois.ShiftKeepsMask | SIRF_data_preparation/create_NEMA_IQ_VOIs.py:124-128 | A shifted 0/1 mask is a 0/1 mask of the same shape. |
| NemaVois.CreateBackgroundVoi | SIRF_data_preparation/create_NEMA_IQ_VOIs.py:113-129 | The central background is `orgVOIs[6]` itself. Otherwise it is `orgVOIs[5]` moved down by `ZShift` planes, with the same voxel size; a zero shift leaves no planes. |
| NemaVois.ReadNumbered | SIRF_data_preparation/create_NEMA_IQ_VOIs.py:98-102 | Exactly seven images are read, from the files numbered 1 to 7 in order. |
| NemaVois.ReadOrgVois | SIRF_data_preparation/create_NEMA_IQ_VOIs.py:98-102 | The images read are `S1.nii` to `S7.nii`, in order. |
| NemaVois.ReadUnregisteredVois | SIRF_data_preparation/create_NEMA_IQ_VOIs.py:91-95 | The images read are `unregistered_sphere1.nii` to `unregistered_sphere7.nii`, in order. |
| NemaVois.SphereFilesDistinct | SIRF_data_preparation/create_NEMA_IQ_VOIs.py:91-102 | The numbered files are pairwise different, and no registered mask file is an unregistered one. |
| NemaVois.SphereVois | SIRF_data_preparation/create_NEMA_IQ_VOIs.py:150 | There is one sphere VOI per selected sphere. |
| NemaVois.VoisMatchNames | SIRF_data_preparation/create_NEMA_IQ_VOIs.py:150-153 | The VOI list and the name list have equal length and line up: the whole object, then the background, then sphere `s` as `orgVOIs[s - 1]` named `VOI_sphere<s>`. |
| NemaVois.SphereVoiFromItsFile | SIRF_data_preparation/create_NEMA_IQ_VOIs.py:150 | For `s` from 1 to 7, the mask written as `VOI_sphere<s>` is the one read from `S<s>.nii`. |
| NemaVois.SphereZeroIsLastMask | SIRF_data_preparation/create_NEMA_IQ_VOIs.py:150 | Sphere number 0 is accepted, and Python's index -1 makes it hold sphere 7's mask. |
| NemaVois.VoiNamesDistinct | SIRF_data_preparation/create_NEMA_IQ_VOIs.py:153-160 | Distinct sphere numbers give distinct VOI file names, so no written VOI overwrites another. |
| NemaVois.HarnessFindsSelectedSpheres | SIRF_data_preparation/create_NEMA_IQ_VOIs.py:152-160 | For distinct sphere numbers, the written files are all different. Read back by the harness's `get_data`, they yield exactly the selected spheres as VOI names, in order. |
| InitialImages.ScaleInitialImage | SIRF_data_preparation/create_initial_images.py:44-59 | `ValueError` is raised if and only if the background-corrected count sum is not positive. Otherwise the result is a uniform image of the template's size whose value times sensitivity sum times subsets equals that count sum. |
| InitialImages.ScaledImagePositive | SIRF_data_preparation/create_initial_images.py:58-59 | With a positive sensitivity sum, a successful scaling gives a strictly positive image. |
| InitialImages.Clamped | SIRF_data_preparation/create_initial_images.py:85-86 | `max(0, -H.1)` is non-negative, and it is zero exactly where `H.1 >= 0`. |
| InitialImages.ComputeKappaImage | SIRF_data_preparation/create_initial_images.py:78-86 | Every kappa voxel is non-negative, and its square is `max(0, -H.1)`. |
| InitialImages.KappaUnique | SIRF_data_preparation/create_initial_images.py:86 | There is only one such kappa image. |
| InitialImages.KappaZeroIff | SIRF_data_preparation/create_initial_images.py:85-86 | Kappa is zero exactly where the Hessian row sum is not negative. |
| InitialImages.CreateAcqModelAndObjFun | SIRF_data_preparation/create_initial_images.py:34-41 | The result is the first model and the first objective of the one-subset partition; there is none when either list is empty. |
| InitialImages.OnlySingleSubsetUsed | SIRF_data_preparation/create_initial_images.py:38-41 | Only the one-subset partition is consulted. |
| Text.PadNatValue | petric.py:67 | `{n:04d}` reads back as `n`. |
| Text.IntToStringInjective | SIRF_data_preparation/create_NEMA_IQ_VOIs.py:153 | Different integers render as different strings. |
| Text.SortBySortedPermutation | petric.py:144 | `sorted` returns a sorted permutation of its input. |
| Text.MapKeySortBy | petric.py:140 | Sorting `(name, value)` pairs by name and taking the names equals sorting the names. |

## Left out

- Floating point: images, data, clock readings and sums are mathematical reals. Rounding, `inf` and `NaN` are not modelled. `math.isinf`/`math.isnan` in `scale_initial_image` can never fire on a real, and the constants `1e-6` and `.0001` are exact.
- Division by zero is excluded by preconditions wherever Python would produce `inf`/`NaN` or raise:
  - a zero cadence period in `skip_iteration` (`ZeroDivisionError`);
  - a zero divisor in the OSEM update (`Osem.Submission.Update` requires `Defined()`);
  - a zero sensitivity sum in `scale_initial_image`;
  - a zero z voxel size.
- `Osem.Submission.constructor` requires a non-empty initial image: `.max()` of an empty sensitivity raises.
- `Osem.Submission.Defined` requires `numSubsets > 0`, so `Osem.Submission.Update` is not modelled on an empty partition. There main_OSEM.py:87 raises `IndexError` at `self.acquisition_models[self.subset]`, and `% len(self.prompts_subsets)` at line 93 would raise `ZeroDivisionError`.
- `NemaVois.ValidSpheres` admits only sphere numbers from -6 to 7, the ones for which `orgVOIs[i - 1]` is a valid Python index. For any other number, create_NEMA_IQ_VOIs.py:150 raises `IndexError`; the model has no such error path.
- `Petric.Evaluate` leaves out `assert not any(self.filter.values())` at petric.py:130, which raises `AssertionError` when a filter is set. The filters are set by `ImageQualityCallback` of `img_quality_cil_stir`, which is not part of this model, so `evaluate` is modelled as if no filter were set.
- `Osem.Floored` adds `max * 1e-6`, which is zero when the sensitivity is all zero (`Osem.FlooredZeroStaysZero`), and `update` has no guard against a zero divisor.
- `PetricTimeout.MetricsWithTimeout.Call`: the logical time stamped on each inner callback (`c.__time`) is not modelled. Name mangling stores it under another attribute than the one `StatsLog` and `QualityMetrics` read, so it has no effect.
- What the inner callbacks do is not modelled: progress bar, image writing, TensorBoard logging, and the metric values (RMSE, AEM, `mean_absolute_error`). Callbacks are assumed not to raise.
- `Petric.Evaluate`: the RMSE and AEM values are parameters. Only the names and their order are modelled.
- `Petric.VoiNames` and `NemaVois.HarnessFindsSelectedSpheres` take the folder listing as a sequence. The order in which `glob` lists files is not modelled.
- `NemaVois.HarnessFindsSelectedSpheres` requires distinct sphere numbers. `--spheres` is user input, and a repeated number writes the same `VOI_sphere<s>.hv` twice, so the folder holds it once and `get_data` finds one VOI for it. The model states nothing about that read-back.
- The STIR/SIRF projectors, `partition_indices`, `get_subset`, `data_partition`, the Hessian product and image file reading are parameters.
- `NemaVois.CreateBackgroundVoi`: with a zero shift (z voxel size above 44.4 mm) the array handed to STIR's `fill` is empty. What `fill` does with it is not part of this model.
- `NemaVois.ReadNumbered`: `pathlib`'s `/` is modelled by `os.path.join`. The two agree only on a normalised folder path other than `.` (no trailing separator, no `//`, no `.` component), which is the form of the folder the script passes. `Path('.') / 'S1.nii'` is `S1.nii`, whereas `os.path.join` gives `./S1.nii`.
- The whole-object mask (percentile threshold and binary erosion), `connected_component`, the NEMA ROI generator and the plotting and QC calls are not modelled; the whole-object mask is a parameter.
- `InitialImages.ComputeKappaImage` takes the square root as a parameter characterised by its defining property. A real square root is not computed.
- The `docopt` command lines, module-level driver code, downloads, registration and the `os.system` calls of the data preparation are not modelled. Neither are the other driver scripts (`run_OSEM.py`, `run_BSREM.py`, the BSREM and ISTA examples).
- `Submission` inherits from CIL's `Algorithm`, whose `run` loop is not part of this model. So is the `update_objective_interval` it receives, which is stored but unused here.
