/**
 * Whether the footer offers the "attach image" action, decided from the selected
 * backend service and, for the CodeGPT backend, from its selected chat model.
 */
module ImageAction {

  /**
   * The backend services. The six named here are the ones the decision names;
   * `Other` stands for every further member of the service enum.
   */
  datatype ServiceType = CodeGPT | OpenAI | CustomOpenAI | Anthropic | Google | Ollama | Other(name: string)

  /** The CodeGPT chat models that accept images, a fixed literal list. */
  const VisionModels: seq<string> :=
    ["gpt-4.1", "gpt-4.1-mini", "gemini-pro-2.5", "gemini-flash-2.5", "claude-4-sonnet", "claude-4-sonnet-thinking"]

  function IsImageActionSupported(service: ServiceType, codegptModel: string): (r: bool)
    ensures service.CodeGPT? ==>
      (r <==> (codegptModel == "gpt-4.1" || codegptModel == "gpt-4.1-mini"
               || codegptModel == "gemini-pro-2.5" || codegptModel == "gemini-flash-2.5"
               || codegptModel == "claude-4-sonnet" || codegptModel == "claude-4-sonnet-thinking"))
    ensures service.Other? ==> !r
    ensures !service.CodeGPT? && !service.Other? ==> r
  {
    match service
    case CustomOpenAI | Anthropic | Google | OpenAI | Ollama => true
    case CodeGPT => codegptModel in VisionModels
    case Other(_) => false
  }
}
