/** The VOIs of a NEMA image-quality phantom scan
    (SIRF_data_preparation/create_NEMA_IQ_VOIs.py): the seven sphere masks
    produced by the NEMA ROI generator are read back, a background VOI is
    chosen or built, and the whole-object, background and selected sphere
    masks are written as `VOI_<name>` files for the challenge.

    An image is its list of z-planes (each plane flattened to a vector) and
    its z voxel size in mm. Reading an image file is a function parameter;
    the whole-object mask (a percentile threshold and a binary erosion) is
    not part of this model and enters as a value. */
module NemaVois {
  import opened Text
  import opened Paths
  import Petric

  type Plane = seq<real>

  datatype Image = Image(planes: seq<Plane>, zVoxelSize: real)

  // -----------------------------------------------------------------------
  // The background VOI

  /** The shift is 1.2 times the 37 mm diameter of the largest sphere. */
  const ShiftMm: real := 37.0 * 1.2

  /** `int(np.floor(37 * 1.2 / z_voxel_size))`: the number of whole planes
      that fit in the shift distance. */
  function ZShift(zVoxelSize: real): (z: nat)
    requires zVoxelSize > 0.0
    ensures z as real * zVoxelSize <= ShiftMm < (z + 1) as real * zVoxelSize
  {
    var q := ShiftMm / zVoxelSize;
    assert q * zVoxelSize == ShiftMm;
    FloorBounds(q, zVoxelSize);
    q.Floor
  }

  lemma FloorBounds(q: real, v: real)
    requires q >= 0.0 && v > 0.0
    ensures q.Floor >= 0
    ensures q.Floor as real * v <= q * v < (q.Floor + 1) as real * v
  {
    assert q.Floor as real <= q < (q.Floor + 1) as real;
  }

  /** `arr[0:stop]` along the first axis, with Python's slice rules: a
      negative stop counts from the end and a stop out of range is clipped.
      In particular `arr[0:-0]` is `arr[0:0]`, which is empty. */
  function Take<T>(s: seq<T>, stop: int): seq<T>
  {
    if stop >= 0 then s[..if stop < |s| then stop else |s|]
    else s[..if |s| + stop > 0 then |s| + stop else 0]
  }

  /** `plane * 0`. */
  function ZeroPlane(p: Plane): Plane { seq(|p|, j requires 0 <= j < |p| => 0.0) }

  function Zeroed(ps: seq<Plane>): (r: seq<Plane>)
    ensures |r| == |ps|
  {
    seq(|ps|, i requires 0 <= i < |ps| => ZeroPlane(ps[i]))
  }

  /** The concatenation of `arr[0:z] * 0` and `arr[0:-z]`: the mask moved
      `z` planes along the first axis, with zero planes coming in. A shift of
      zero leaves no plane at all, since `arr[0:-0]` is empty. */
  function ShiftDown(planes: seq<Plane>, z: nat): (r: seq<Plane>)
    ensures z == 0 ==> r == []
    ensures z > 0 ==> |r| == |planes|
    ensures z > 0 ==> forall i :: 0 <= i < |planes| && i < z ==> r[i] == ZeroPlane(planes[i])
    ensures z > 0 ==> forall i: int :: z <= i < |planes| ==> r[i] == planes[i - z]
  {
    Zeroed(Take(planes, z)) + Take(planes, -(z as int))
  }

  /** A shift by at least the depth of the image clears the mask. */
  lemma ShiftBeyondDepthClears(planes: seq<Plane>, z: nat)
    requires z >= |planes| && z > 0
    ensures ShiftDown(planes, z) == Zeroed(planes)
  {
    var r := ShiftDown(planes, z);
    forall i | 0 <= i < |planes| ensures r[i] == Zeroed(planes)[i] {
      assert r[i] == ZeroPlane(planes[i]);
    }
  }

  /** A 0/1 mask. */
  predicate IsMask(planes: seq<Plane>)
  {
    forall i, j :: 0 <= i < |planes| && 0 <= j < |planes[i]| ==> planes[i][j] == 0.0 || planes[i][j] == 1.0
  }

  /** Every plane has `width` voxels. */
  predicate Uniform(planes: seq<Plane>, width: nat)
  {
    forall i :: 0 <= i < |planes| ==> |planes[i]| == width
  }

  /** Shifting a mask gives a mask of the same shape. */
  lemma ShiftKeepsMask(planes: seq<Plane>, z: nat, width: nat)
    requires IsMask(planes) && Uniform(planes, width) && z > 0
    ensures IsMask(ShiftDown(planes, z)) && Uniform(ShiftDown(planes, z), width)
  {
    var r := ShiftDown(planes, z);
    forall i, j | 0 <= i < |r| && 0 <= j < |r[i]| ensures r[i][j] == 0.0 || r[i][j] == 1.0 {
      if i >= z {
        assert r[i] == planes[i - z];
      }
    }
  }

  /** `create_background_VOI(orgVOIs, central_VOI)`: the central background
      VOI is the seventh mask itself; otherwise (the phantom with a lung
      insert) it is a copy of the largest sphere's mask, the sixth, moved
      down by `ZShift` planes. */
  function CreateBackgroundVoi(orgVois: seq<Image>, central: bool): (bg: Image)
    requires central ==> |orgVois| > 6
    requires !central ==> |orgVois| > 5 && orgVois[5].zVoxelSize > 0.0
    ensures central ==> bg == orgVois[6]
    ensures !central ==> bg.zVoxelSize == orgVois[5].zVoxelSize
    ensures !central && ZShift(orgVois[5].zVoxelSize) > 0 ==>
              var src, z := orgVois[5].planes, ZShift(orgVois[5].zVoxelSize);
              |bg.planes| == |src|
              && forall i :: 0 <= i < |src| ==> bg.planes[i] == if i < z then ZeroPlane(src[i]) else src[i - z]
    ensures !central && ZShift(orgVois[5].zVoxelSize) == 0 ==> bg.planes == []
  {
    if central then orgVois[6]
    else
      var largest := orgVois[5];
      Image(ShiftDown(largest.planes, ZShift(largest.zVoxelSize)), largest.zVoxelSize)
  }

  // -----------------------------------------------------------------------
  // Reading the sphere masks

  const SphereCount: nat := 7

  function OrgVoiFile(i: nat): string { "S" + NatToString(i) + ".nii" }

  function UnregisteredVoiFile(i: nat): string { "unregistered_sphere" + NatToString(i) + ".nii" }

  /** The shared loop of `read_orgVOIs` and `read_unregistered_VOIs`: read
      the files numbered 1 to 7 from `dir`, in order. */
  method ReadNumbered(dir: string, fileName: nat -> string, read: string -> Image) returns (vois: seq<Image>)
    ensures |vois| == SphereCount
    ensures forall k :: 0 <= k < SphereCount ==> vois[k] == read(Join(dir, [fileName(k + 1)]))
  {
    vois := [];
    for i := 1 to SphereCount + 1
      invariant |vois| == i - 1
      invariant forall k :: 0 <= k < i - 1 ==> vois[k] == read(Join(dir, [fileName(k + 1)]))
    {
      vois := vois + [read(Join(dir, [fileName(i)]))];
    }
  }

  /** `read_orgVOIs(intermediate_datadir)`: `S1.nii` to `S7.nii`. */
  method ReadOrgVois(dir: string, read: string -> Image) returns (vois: seq<Image>)
    ensures |vois| == SphereCount
    ensures forall k :: 0 <= k < SphereCount ==> vois[k] == read(Join(dir, [OrgVoiFile(k + 1)]))
  {
    vois := ReadNumbered(dir, OrgVoiFile, read);
  }

  /** `read_unregistered_VOIs(intermediate_datadir)`:
      `unregistered_sphere1.nii` to `unregistered_sphere7.nii`. */
  method ReadUnregisteredVois(dir: string, read: string -> Image) returns (vois: seq<Image>)
    ensures |vois| == SphereCount
    ensures forall k :: 0 <= k < SphereCount ==> vois[k] == read(Join(dir, [UnregisteredVoiFile(k + 1)]))
  {
    vois := ReadNumbered(dir, UnregisteredVoiFile, read);
  }

  /** The seven files read are seven different files, and none of the
      registered masks is one of the unregistered ones. */
  lemma SphereFilesDistinct(i: nat, j: nat)
    ensures i != j ==> OrgVoiFile(i) != OrgVoiFile(j) && UnregisteredVoiFile(i) != UnregisteredVoiFile(j)
    ensures OrgVoiFile(i) != UnregisteredVoiFile(j)
  {
    assert OrgVoiFile(i)[0] == 'S' && UnregisteredVoiFile(j)[0] == 'u';
    if i != j {
      NatToStringSuffixDistinct("S", i, j);
      NatToStringSuffixDistinct("unregistered_sphere", i, j);
    }
  }

  lemma NatToStringSuffixDistinct(prefix: string, i: nat, j: nat)
    requires i != j
    ensures prefix + NatToString(i) + ".nii" != prefix + NatToString(j) + ".nii"
  {
    var a, b := prefix + NatToString(i) + ".nii", prefix + NatToString(j) + ".nii";
    if a == b {
      assert |NatToString(i)| == |NatToString(j)|;
      assert NatToString(i) == a[|prefix|..|a| - 4] == b[|prefix|..|b| - 4] == NatToString(j);
      IntToStringInjective(i, j);
    }
  }

  // -----------------------------------------------------------------------
  // The VOI list and its names

  /** `orgVOIs[s - 1]` accepts what a Python list index accepts: from `-n`
      to `n - 1`, negative values counting from the end. */
  predicate ValidSpheres(spheres: seq<int>, count: nat)
  {
    forall k :: 0 <= k < |spheres| ==> -(count as int) <= spheres[k] - 1 < count
  }

  function PyIndex<T>(s: seq<T>, i: int): T
    requires -|s| <= i < |s|
  {
    if i < 0 then s[|s| + i] else s[i]
  }

  /** `sphere_VOIs = [orgVOIs[i - 1] for i in spheres]`. */
  function SphereVois(orgVois: seq<Image>, spheres: seq<int>): (vois: seq<Image>)
    requires ValidSpheres(spheres, |orgVois|)
    ensures |vois| == |spheres|
  {
    seq(|spheres|, k requires 0 <= k < |spheres| => PyIndex(orgVois, spheres[k] - 1))
  }

  /** `VOIs = [whole_object_mask, background_mask] + sphere_VOIs`. */
  function AllVois(wholeObject: Image, background: Image, orgVois: seq<Image>, spheres: seq<int>): seq<Image>
    requires ValidSpheres(spheres, |orgVois|)
  {
    [wholeObject, background] + SphereVois(orgVois, spheres)
  }

  const WholeObjectVoi := Petric.VoiPrefix + Petric.WholeObjectName
  const BackgroundVoi := Petric.VoiPrefix + Petric.BackgroundName

  /** The VOI name the harness derives from a sphere's file. */
  function SphereName(s: int): string { "sphere" + IntToString(s) }

  /** `f"VOI_sphere{s}"`. */
  function SphereVoiName(s: int): string { Petric.VoiPrefix + SphereName(s) }

  /** `[f"VOI_sphere{s}" for s in spheres]`. */
  function SphereVoiNames(spheres: seq<int>): (names: seq<string>)
    ensures |names| == |spheres|
    ensures forall k :: 0 <= k < |spheres| ==> names[k] == SphereVoiName(spheres[k])
  {
    seq(|spheres|, k requires 0 <= k < |spheres| => SphereVoiName(spheres[k]))
  }

  /** `VOInames`. */
  function WrittenVoiNames(spheres: seq<int>): seq<string>
  {
    [WholeObjectVoi, BackgroundVoi] + SphereVoiNames(spheres)
  }

  /** The two lists line up: the k-th name is written with the k-th mask,
      and the mask written as `VOI_sphere<s>` is `orgVOIs[s - 1]`. */
  lemma VoisMatchNames(wholeObject: Image, background: Image, orgVois: seq<Image>, spheres: seq<int>)
    requires ValidSpheres(spheres, |orgVois|)
    ensures |AllVois(wholeObject, background, orgVois, spheres)| == |WrittenVoiNames(spheres)| == |spheres| + 2
    ensures AllVois(wholeObject, background, orgVois, spheres)[0] == wholeObject && WrittenVoiNames(spheres)[0] == WholeObjectVoi
    ensures AllVois(wholeObject, background, orgVois, spheres)[1] == background && WrittenVoiNames(spheres)[1] == BackgroundVoi
    ensures forall k :: 0 <= k < |spheres| ==>
              AllVois(wholeObject, background, orgVois, spheres)[k + 2] == PyIndex(orgVois, spheres[k] - 1)
              && WrittenVoiNames(spheres)[k + 2] == SphereVoiName(spheres[k])
  {
  }

  /** With the masks read by `read_orgVOIs`, the VOI named after sphere `s`
      (1 to 7) is the mask read from `S<s>.nii`. */
  lemma SphereVoiFromItsFile(dir: string, read: string -> Image, orgVois: seq<Image>, spheres: seq<int>, k: nat)
    requires |orgVois| == SphereCount
    requires forall i :: 0 <= i < SphereCount ==> orgVois[i] == read(Join(dir, [OrgVoiFile(i + 1)]))
    requires ValidSpheres(spheres, |orgVois|)
    requires k < |spheres| && 1 <= spheres[k]
    ensures SphereVois(orgVois, spheres)[k] == read(Join(dir, [OrgVoiFile(spheres[k])]))
  {
  }

  /** Sphere number 0 is not rejected: Python's index -1 picks the last
      mask, so `VOI_sphere0` holds the mask of sphere 7. */
  lemma SphereZeroIsLastMask(orgVois: seq<Image>, spheres: seq<int>, k: nat)
    requires |orgVois| == SphereCount && ValidSpheres(spheres, |orgVois|)
    requires k < |spheres| && spheres[k] == 0
    ensures SphereVois(orgVois, spheres)[k] == orgVois[6]
  {
  }

  /** Distinct sphere numbers give distinct file names, so no VOI file
      overwrites another. */
  lemma VoiNamesDistinct(spheres: seq<int>)
    requires Petric.Distinct(spheres)
    ensures Petric.Distinct(WrittenVoiNames(spheres))
  {
    var tail := SphereVoiNames(spheres);
    forall i, j | 0 <= i < j < |tail| ensures tail[i] != tail[j] {
      SphereVoiNamesDiffer(spheres[i], spheres[j]);
    }
    forall k | 0 <= k < |tail| ensures tail[k] != WholeObjectVoi && tail[k] != BackgroundVoi {
      SphereVoiNameNotReserved(spheres[k]);
    }
    assert WholeObjectVoi[4] != BackgroundVoi[4];
    DistinctAfterTwo(WholeObjectVoi, BackgroundVoi, tail);
  }

  /** Two different names before distinct names they do not occur in. */
  lemma DistinctAfterTwo(a: string, b: string, rest: seq<string>)
    requires a != b && Petric.Distinct(rest)
    requires forall k :: 0 <= k < |rest| ==> rest[k] != a && rest[k] != b
    ensures Petric.Distinct([a, b] + rest)
  {
    var all := [a, b] + rest;
    forall i, j | 0 <= i < j < |all| ensures all[i] != all[j] {
      if i >= 2 {
        assert all[i] == rest[i - 2] && all[j] == rest[j - 2];
      } else if j >= 2 {
        assert all[j] == rest[j - 2];
      }
    }
  }

  lemma SphereVoiNamesDiffer(a: int, b: int)
    requires a != b
    ensures SphereVoiName(a) != SphereVoiName(b)
  {
    var na, nb := SphereVoiName(a), SphereVoiName(b);
    if na == nb {
      assert IntToString(a) == na[10..] == nb[10..] == IntToString(b);
      IntToStringInjective(a, b);
    }
  }

  lemma SphereVoiNameNotReserved(s: int)
    ensures SphereVoiName(s) != WholeObjectVoi && SphereVoiName(s) != BackgroundVoi
  {
    assert SphereVoiName(s)[4] == 's';
    assert WholeObjectVoi[4] == 'w' && BackgroundVoi[4] == 'b';
  }

  // -----------------------------------------------------------------------
  // The written files, as the challenge harness reads them

  /** STIR writes each VOI as Interfile, adding `.hv` to the name. */
  function WrittenFiles(names: seq<string>): seq<string>
  {
    seq(|names|, k requires 0 <= k < |names| => names[k] + Petric.ImageSuffix)
  }

  function SphereNames(spheres: seq<int>): (names: seq<string>)
    ensures |names| == |spheres|
    ensures forall k :: 0 <= k < |spheres| ==> names[k] == SphereName(spheres[k])
  {
    seq(|spheres|, k requires 0 <= k < |spheres| => SphereName(spheres[k]))
  }

  /** Appending the same suffix keeps different names different. */
  lemma SuffixCancels(a: string, b: string, suffix: string)
    requires a + suffix == b + suffix
    ensures a == b
  {
    assert |a| == |b|;
    assert a == (a + suffix)[..|a|];
    assert b == (b + suffix)[..|b|];
  }

  /** With distinct sphere numbers the files written are all different, so
      the folder holds each of them once. Listing it in the order the files
      were written, the harness's `get_data` finds exactly the selected
      spheres as its VOIs, in the order given: the whole-object and
      background files are not among them. */
  lemma HarnessFindsSelectedSpheres(spheres: seq<int>)
    requires Petric.Distinct(spheres)
    ensures Petric.Distinct(WrittenFiles(WrittenVoiNames(spheres)))
    ensures Petric.VoiNames(WrittenFiles(WrittenVoiNames(spheres))) == SphereNames(spheres)
  {
    var files := WrittenFiles(WrittenVoiNames(spheres));
    VoiNamesDistinct(spheres);
    forall i, j | 0 <= i < j < |files| ensures files[i] != files[j] {
      if files[i] == files[j] {
        SuffixCancels(WrittenVoiNames(spheres)[i], WrittenVoiNames(spheres)[j], Petric.ImageSuffix);
        assert false;
      }
    }
    assert files[0] == Petric.VoiFileName(Petric.WholeObjectName);
    assert files[1] == Petric.VoiFileName(Petric.BackgroundName);
    ReservedFileSkipped(Petric.WholeObjectName, files);
    ReservedFileSkipped(Petric.BackgroundName, files[1..]);
    assert files[1..][1..] == files[2..];
    var sphereFiles, names := files[2..], SphereNames(spheres);
    forall k | 0 <= k < |spheres|
      ensures sphereFiles[k] == Petric.VoiFileName(names[k]) && !Petric.IsReservedVoi(names[k])
    {
      assert sphereFiles[k] == files[k + 2];
      SphereNameNotReserved(spheres[k]);
    }
    Petric.VoiNamesOfFiles(names, sphereFiles);
  }

  /** The harness passes over a whole-object or background file. */
  lemma ReservedFileSkipped(name: string, files: seq<string>)
    requires files != [] && files[0] == Petric.VoiFileName(name) && Petric.IsReservedVoi(name)
    ensures Petric.VoiNames(files) == Petric.VoiNames(files[1..])
  {
    Petric.VoiFileNameOf(files[0], name);
  }

  lemma SphereNameNotReserved(s: int)
    ensures !Petric.IsReservedVoi(SphereName(s))
  {
    assert SphereName(s)[0] == 's';
    assert Petric.BackgroundName[0] == 'b' && Petric.WholeObjectName[0] == 'w';
  }
}
