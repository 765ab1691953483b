/** The per-data-set settings used by the data-preparation scripts
    (SIRF_data_preparation/dataset_settings.py): the number of OSEM subsets
    and the slices to display. */
module DatasetSettings {
  import Petric

  datatype Settings = Settings(numSubsets: nat, slices: map<string, nat>)

  const NemaIq := "Siemens_mMR_NEMA_IQ"
  const Hoffman := "NeuroLF_Hoffman_Dataset"

  /** `get_settings(scanID)`: the NEMA phantom on the mMR, the Hoffman
      phantom on the NeuroLF, and every other scan (the Vision data sets). */
  function GetSettings(scanId: string): (s: Settings)
    ensures s.numSubsets > 0
    ensures s.slices.Keys <= {Petric.TransverseSlice, Petric.CoronalSlice}
    ensures s.slices != map[] <==> scanId == NemaIq || scanId == Hoffman
  {
    assert map[Petric.TransverseSlice := 72, Petric.CoronalSlice := 109].Keys == {Petric.TransverseSlice, Petric.CoronalSlice};
    if scanId == NemaIq then Settings(7, map[Petric.TransverseSlice := 72, Petric.CoronalSlice := 109])
    else if scanId == Hoffman then Settings(16, map[Petric.TransverseSlice := 72])
    else Settings(5, map[])
  }

  predicate SubMap(a: map<string, nat>, b: map<string, nat>)
  {
    forall k :: k in a ==> k in b && a[k] == b[k]
  }

  /** For every data set the harness knows, the slices the preparation
      scripts display are among the harness's own display slices, at the
      same positions. */
  lemma SettingsAgreeWithHarnessSlices(scanId: string)
    requires scanId in Petric.DataSlices
    ensures SubMap(GetSettings(scanId).slices, Petric.DataSlices[scanId])
  {
    var slices := GetSettings(scanId).slices;
    if scanId == NemaIq {
      assert Petric.DataSlices[scanId] == map[Petric.TransverseSlice := 72, Petric.CoronalSlice := 109, Petric.SagittalSlice := 89];
    } else if scanId == Hoffman {
      assert Petric.DataSlices[scanId] == map[Petric.TransverseSlice := 72];
    }
  }
}
