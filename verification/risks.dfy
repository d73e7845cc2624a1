/** AI-risk flagging, `detect_basic_ai_risks`: two fixed warnings, in a fixed
    order, each raised when a key is missing from the model-info document. */
module Risks {
  import opened Wrappers
  import opened Json

  const ExplainabilityKey := "explainability"
  const BiasKey := "bias_mitigation"

  const ExplainabilityWarning := "\U{26A0}\U{FE0F} Explainability not defined."
  const BiasWarning := "\U{26A0}\U{FE0F} Bias mitigation not mentioned."

  /** `detect_basic_ai_risks(model_info)`. Each check is Python's
      `key not in model_info`, so a model-info document that is a number,
      boolean or null makes the first check raise `TypeError`. */
  function DetectBasicAiRisks(modelInfo: Json): (r: Result<seq<string>, PyError>)
    ensures r.Success? <==> IsContainer(modelInfo)
    ensures r.Failure? ==> r.error == TypeError
    ensures r.Success? ==> |r.value| <= 2
    ensures r.Success? ==>
      (ExplainabilityWarning in r.value <==> Contains(modelInfo, ExplainabilityKey) == Success(false))
    ensures r.Success? ==>
      (BiasWarning in r.value <==> Contains(modelInfo, BiasKey) == Success(false))
    ensures r.Success? ==> forall w :: w in r.value ==> w == ExplainabilityWarning || w == BiasWarning
    ensures r.Success? && |r.value| == 2 ==> r.value == [ExplainabilityWarning, BiasWarning]
  {
    match Contains(modelInfo, ExplainabilityKey)
    case Failure(e) => Failure(e)
    case Success(explained) =>
      var mitigated := Contains(modelInfo, BiasKey).value;
      Success((if explained then [] else [ExplainabilityWarning]) + (if mitigated then [] else [BiasWarning]))
  }

  /** For the usual model-info object, a warning is raised exactly when its key
      is not among the object's keys. */
  lemma RisksOfObject(members: seq<(string, Json)>)
    ensures DetectBasicAiRisks(JObj(members)).Success?
    ensures ExplainabilityWarning in DetectBasicAiRisks(JObj(members)).value
      <==> ExplainabilityKey !in Keys(members)
    ensures BiasWarning in DetectBasicAiRisks(JObj(members)).value
      <==> BiasKey !in Keys(members)
  {
  }

  /** With no `model_info.json` the script reads `{}`, and both warnings are
      raised, explainability first. */
  lemma RisksWithoutModelInfo()
    ensures ReadJson(Missing).Success?
    ensures DetectBasicAiRisks(ReadJson(Missing).value) == Success([ExplainabilityWarning, BiasWarning])
  {
  }
}
