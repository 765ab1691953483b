/** Where the data-preparation scripts find their data
    (SIRF_data_preparation/data_utilities.py). `DATA_PATH` and
    `ORG_DATA_PATH` are the `data` and `orgdata` folders of the repository;
    the repository folder itself (two `dirname`s of `__file__`) is a
    parameter. */
module DataUtilities {
  import opened Paths

  function DataPath(repo: string): string { Join(repo, ["data"]) }

  function OrgDataPath(repo: string): string { Join(repo, ["orgdata"]) }

  /** Both base folders end in a folder name, never in a separator. */
  lemma BasesEndInName(repo: string)
    ensures DataPath(repo) != [] && DataPath(repo)[|DataPath(repo)| - 1] != Sep
    ensures OrgDataPath(repo) != [] && OrgDataPath(repo)[|OrgDataPath(repo)| - 1] != Sep
  {
    var pre := if repo == [] || repo[|repo| - 1] == Sep then repo else repo + [Sep];
    assert DataPath(repo) == pre + "data";
    assert OrgDataPath(repo) == pre + "orgdata";
  }

  /** `the_data_path(*folders)`: the folders joined onto `DATA_PATH`, in
      order. */
  function TheDataPath(repo: string, folders: seq<string>): (p: string)
    ensures folders == [] ==> p == DataPath(repo)
    ensures AllRelative(folders) ==> |DataPath(repo)| <= |p| && p[..|DataPath(repo)|] == DataPath(repo)
    ensures AllPlain(folders) ==> p == DataPath(repo) + SlashEach(folders)
  {
    BasesEndInName(repo);
    JoinKeepsBase(DataPath(repo), folders);
    JoinPlain(DataPath(repo), folders);
    Join(DataPath(repo), folders)
  }

  /** `the_orgdata_path(*folders)`: the folders joined onto `ORG_DATA_PATH`,
      in order. */
  function TheOrgDataPath(repo: string, folders: seq<string>): (p: string)
    ensures folders == [] ==> p == OrgDataPath(repo)
    ensures AllRelative(folders) ==> |OrgDataPath(repo)| <= |p| && p[..|OrgDataPath(repo)|] == OrgDataPath(repo)
    ensures AllPlain(folders) ==> p == OrgDataPath(repo) + SlashEach(folders)
  {
    BasesEndInName(repo);
    JoinKeepsBase(OrgDataPath(repo), folders);
    JoinPlain(OrgDataPath(repo), folders);
    Join(OrgDataPath(repo), folders)
  }

  /** With relative folder names, the string built under `orgdata` is never
      the string built under `data`. This is a fact about the path strings
      only: a folder name `..` can still lead both to the same file. */
  lemma DataAndOrgDataApart(repo: string, folders: seq<string>, orgFolders: seq<string>)
    requires AllRelative(folders) && AllRelative(orgFolders)
    ensures TheDataPath(repo, folders) != TheOrgDataPath(repo, orgFolders)
  {
    var pre := if repo == [] || repo[|repo| - 1] == Sep then repo else repo + [Sep];
    assert DataPath(repo) == pre + "data";
    assert OrgDataPath(repo) == pre + "orgdata";
    var p, q := TheDataPath(repo, folders), TheOrgDataPath(repo, orgFolders);
    assert p[|pre|] == DataPath(repo)[|pre|] == 'd';
    assert q[|pre|] == OrgDataPath(repo)[|pre|] == 'o';
  }
}

/** The data-path helper of the SIRF exercises' data utilities
    (lib/data_utilities/__init__.py). The installer-written `data_path`
    module is an `Option`: `None` when importing it fails. */
module LibDataUtilities {
  import opened Outcomes
  import opened Paths

  const DataPathNotFound := "Path to data not found."

  /** `the_data_path(*data_type)`: the subfolders joined onto the
      installer's `data_path`, in order. */
  function TheDataPath(installed: Option<string>, dataType: seq<string>): (r: Result<string, PathError>)
    ensures r.Failure? <==> installed.None?
    ensures r.Failure? ==> r.error == RuntimeError(DataPathNotFound)
    ensures r.Success? ==> r.value == Join(installed.value, dataType)
    ensures r.Success? && AllRelative(dataType) ==>
              |installed.value| <= |r.value| && r.value[..|installed.value|] == installed.value
    ensures r.Success? && installed.value != [] && installed.value[|installed.value| - 1] != Sep && AllPlain(dataType) ==>
              r.value == installed.value + SlashEach(dataType)
  {
    match installed
    case None => Failure(RuntimeError(DataPathNotFound))
    case Some(dataPath) =>
      JoinKeepsBase(dataPath, dataType);
      JoinPlain(dataPath, dataType);
      Success(Join(dataPath, dataType))
  }
}

/** The data-path helper of SIRF-Exercises (lib/sirf_exercises/__init__.py):
    the installer-written `data_path` module first, then the
    `SIRF_EXERCISES_DATA_PATH` environment variable; the file system's
    `os.path.exists` is a parameter. */
module SirfExercises {
  import opened Outcomes
  import opened Paths

  const ExercisesDataNotFound :=
    "Exercises data weren't found. Please run download_data.sh in the "
    + "scripts directory (use its -h option to get help)"

  /** The folder that is tried: the installer's, else the environment's. */
  function Candidate(installer: Option<string>, env: Option<string>): Option<string>
  {
    if installer.Some? then installer else env
  }

  /** `exercises_data_path(*data_type)`. */
  function ExercisesDataPath(installer: Option<string>, env: Option<string>, pathExists: string -> bool,
                             dataType: seq<string>): (r: Result<string, PathError>)
    ensures r.Success? <==> Candidate(installer, env).Some? && pathExists(Candidate(installer, env).value)
    ensures r.Failure? ==> r.error == RuntimeError(ExercisesDataNotFound)
    ensures r.Success? ==> r.value == Join(Candidate(installer, env).value, dataType)
  {
    var dataPath := Candidate(installer, env);
    if dataPath.None? || !pathExists(dataPath.value) then Failure(RuntimeError(ExercisesDataNotFound))
    else Success(Join(dataPath.value, dataType))
  }

  /** When the installer module is present the environment variable is never
      consulted, even if the installer's folder does not exist. */
  lemma InstallerTakesPrecedence(installer: Option<string>, env: Option<string>, env': Option<string>,
                                 pathExists: string -> bool, dataType: seq<string>)
    requires installer.Some?
    ensures ExercisesDataPath(installer, env, pathExists, dataType) == ExercisesDataPath(installer, env', pathExists, dataType)
  {
  }

  /** A found path always lies under an existing data folder. */
  lemma FoundPathUnderExistingFolder(installer: Option<string>, env: Option<string>, pathExists: string -> bool,
                                     dataType: seq<string>)
    requires AllRelative(dataType)
    requires ExercisesDataPath(installer, env, pathExists, dataType).Success?
    ensures var base := Candidate(installer, env).value;
            var p := ExercisesDataPath(installer, env, pathExists, dataType).value;
            pathExists(base) && |base| <= |p| && p[..|base|] == base
  {
    JoinKeepsBase(Candidate(installer, env).value, dataType);
  }
}
