/**
 * Transcription-model settings of the desktop recorder (windows.py):
 * `get_model_name` maps a model identifier back to its display name and
 * `get_selected_model` / `change_model` map a display name to an identifier.
 * The model table is a Python dict, i.e. an insertion-ordered list of
 * (display name, identifier) pairs with distinct names.
 */
module Settings {

  type ModelTable = seq<(string, string)>

  const FastName := "Rapide"
  const FastModel := "openai/whisper-large-v3-turbo"
  const PreciseModel := "openai/whisper-large-v3"

  /** The table both `SettingsDialog` and `MainWindow` start with. */
  const DefaultModels: ModelTable := [(FastName, FastModel), ("Pr\U{00E9}cis", PreciseModel)]

  /** Display names are distinct (true of every Python dict). */
  predicate DistinctNames(models: ModelTable) {
    forall i, j :: 0 <= i < j < |models| ==> models[i].0 != models[j].0
  }

  /** Identifiers are distinct. */
  predicate DistinctModels(models: ModelTable) {
    forall i, j :: 0 <= i < j < |models| ==> models[i].1 != models[j].1
  }

  /** Entry `k` is the first whose identifier is `model`. */
  predicate FirstWithModel(models: ModelTable, k: int, model: string) {
    0 <= k < |models| && models[k].1 == model && forall m :: 0 <= m < k ==> models[m].1 != model
  }

  /** Entry `k` is the first whose display name is `name`. */
  predicate FirstWithName(models: ModelTable, k: int, name: string) {
    0 <= k < |models| && models[k].0 == name && forall m :: 0 <= m < k ==> models[m].0 != name
  }

  /** `get_model_name`: the first display name whose identifier is `model`, else "Rapide". */
  function ModelName(models: ModelTable, model: string): (name: string)
    ensures (forall k :: 0 <= k < |models| ==> models[k].1 != model) ==> name == FastName
    ensures forall k :: FirstWithModel(models, k, model) ==> name == models[k].0
  {
    if models == [] then FastName
    else if models[0].1 == model then models[0].0
    else ModelName(models[1..], model)
  }

  /** `models.get(name, 'openai/whisper-large-v3-turbo')`. */
  function SelectedModel(models: ModelTable, name: string): (model: string)
    ensures (forall k :: 0 <= k < |models| ==> models[k].0 != name) ==> model == FastModel
    ensures forall k :: FirstWithName(models, k, name) ==> model == models[k].1
  {
    if models == [] then FastModel
    else if models[0].0 == name then models[0].1
    else SelectedModel(models[1..], name)
  }

  /** Showing a known model in the combo box and reading the selection back returns it. */
  lemma ModelRoundTrip(models: ModelTable, k: nat)
    requires k < |models| && DistinctNames(models) && DistinctModels(models)
    ensures ModelName(models, models[k].1) == models[k].0
    ensures SelectedModel(models, ModelName(models, models[k].1)) == models[k].1
  {
    assert FirstWithModel(models, k, models[k].1);
    assert FirstWithName(models, k, models[k].0);
  }

  /** An identifier that is not in the default table is shown as "Rapide" and read back as the turbo model. */
  lemma UnknownModelFallsBack(model: string)
    requires model != FastModel && model != PreciseModel
    ensures ModelName(DefaultModels, model) == FastName
    ensures SelectedModel(DefaultModels, ModelName(DefaultModels, model)) == FastModel
  {
  }
}
