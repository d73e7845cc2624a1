/** The sections of the AIBOM document that `generate_aibom` computes from its
    inputs alone: model and dataset information passed through, the
    architecture preview, the dependency dict and the AI-specific warnings.
    The timestamp, dataset metadata, model hash and size, and hardware
    sections come from the clock, pandas, hashlib, platform and psutil and
    are not part of this model. */
module Aibom {
  import opened Wrappers
  import opened Json
  import Requirements
  import Risks
  import Architecture

  datatype Sections = Sections(
    modelInformation: Json,
    datasetInformation: Json,
    modelArchitecture: Json,
    dependencies: seq<Requirements.Dependency>,
    warnings: seq<string>)

  /** The inputs of `generate_aibom` that these sections depend on. */
  datatype ModelDirectory = ModelDirectory(
    modelInfo: JsonFile,
    dataset: JsonFile,
    modelSource: Option<string>,
    modelSize: nat,
    manifest: Requirements.Manifest)

  /** The dict literal of `generate_aibom`, evaluated in order: the model-info
      file, then the dataset file, are read first and a decoding error in
      either ends the run; the warnings come from reading the model-info file
      a second time, which gives the same document. */
  function GenerateSections(dir: ModelDirectory, installed: seq<Requirements.Distribution>): (r: Result<Sections, PyError>)
    ensures dir.modelInfo.Unparsable? ==> r == Failure(JsonDecodeError)
    ensures dir.dataset.Unparsable? ==> r == Failure(JsonDecodeError)
    ensures r.Success? <==>
      && ReadJson(dir.modelInfo).Success?
      && ReadJson(dir.dataset).Success?
      && IsContainer(ReadJson(dir.modelInfo).value)
    ensures
      && ReadJson(dir.modelInfo).Success?
      && ReadJson(dir.dataset).Success?
      && !IsContainer(ReadJson(dir.modelInfo).value)
      ==> r == Failure(TypeError)
    ensures r.Success? ==> r.value.modelInformation == ReadJson(dir.modelInfo).value
    ensures r.Success? ==> r.value.datasetInformation == ReadJson(dir.dataset).value
    ensures r.Success? ==> r.value.modelArchitecture == Architecture.ModelArchitecture(dir.modelSource, dir.modelSize)
    ensures r.Success? ==> Risks.DetectBasicAiRisks(r.value.modelInformation) == Success(r.value.warnings)
    ensures r.Success? ==> r.value.dependencies == Requirements.ReadRequirements(dir.manifest, installed)
    ensures r.Success? && dir.modelSource.None? ==> r.value.modelArchitecture == EmptyObject
    ensures r.Success? && dir.dataset.Missing? ==> r.value.datasetInformation == EmptyObject
  {
    var modelInfo :- ReadJson(dir.modelInfo);
    var dataset :- ReadJson(dir.dataset);
    var architecture := Architecture.ModelArchitecture(dir.modelSource, dir.modelSize);
    var dependencies := Requirements.ReadRequirements(dir.manifest, installed);
    var warnings :- Risks.DetectBasicAiRisks(modelInfo);
    Success(Sections(modelInfo, dataset, architecture, dependencies, warnings))
  }

  /** For a model-info dict, the document carries that dict as its model
      information and warns exactly about the keys it lacks. */
  lemma SectionsWarnAboutMissingKeys(dir: ModelDirectory, installed: seq<Requirements.Distribution>, members: seq<(string, Json)>)
    requires dir.modelInfo == Parsed(JObj(members)) && !dir.dataset.Unparsable?
    ensures GenerateSections(dir, installed).Success?
    ensures GenerateSections(dir, installed).value.modelInformation == JObj(members)
    ensures Risks.ExplainabilityWarning in GenerateSections(dir, installed).value.warnings
      <==> Risks.ExplainabilityKey !in Keys(members)
    ensures Risks.BiasWarning in GenerateSections(dir, installed).value.warnings
      <==> Risks.BiasKey !in Keys(members)
  {
    Risks.RisksOfObject(members);
  }

  /** A model directory holding only `model_info.json = {}` still gives a
      complete set of sections: empty dataset information, an empty
      architecture section, no dependencies, and both warnings. */
  lemma BareModelDirectory(installed: seq<Requirements.Distribution>)
    ensures GenerateSections(ModelDirectory(Parsed(EmptyObject), Missing, None, 0, Requirements.NoManifest), installed)
      == Success(Sections(EmptyObject, EmptyObject, EmptyObject, [], [Risks.ExplainabilityWarning, Risks.BiasWarning]))
  {
  }
}
