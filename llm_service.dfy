/** The language model as the services see it. Each call of the LLM service is a
    request; awaiting it yields the reply text or the message of an exception. The
    transport (HTTP, JSON, the local server) is not modelled, so the model is a
    parameter: any function from requests to replies. */
module LlmService {
  import opened PromptBuilder

  datatype Turn = Turn(role: string, content: string)

  /** The calls the services make on the LLM service. */
  datatype Request =
    | AnalyzeCode(code: string, language: string)
    | GenerateFixes(code: string, issues: string, language: string)
    | GenerateCode(description: string, language: string)
    | ContinueConversation(messages: seq<Turn>)

  /** What awaiting a call yields: the reply, or the message of the exception the
      awaited call threw. */
  datatype Reply = Answer(text: string) | Fault(message: string)

  /** A model: the reply it gives to each request. */
  type Model = Request -> Reply

  const SystemInstruction: string := "You are a helpful AI assistant for analyzing and generating code."

  /** The two-turn conversation of a single prompt: the system instruction, then the
      prompt as the user's turn. */
  function SingleRequest(prompt: string): seq<Turn>
  {
    [Turn("system", SystemInstruction), Turn("user", prompt)]
  }

  /** The conversation each request sends. */
  function Conversation(r: Request): (messages: seq<Turn>)
    ensures !r.ContinueConversation? ==> |messages| == 2 && messages[1].role == "user"
    ensures r.ContinueConversation? ==> messages == r.messages
  {
    match r
    case AnalyzeCode(code, language) => SingleRequest(BuildAnalysisPrompt(code, language))
    case GenerateFixes(code, issues, language) => SingleRequest(BuildFixPrompt(code, issues, language))
    case GenerateCode(description, language) => SingleRequest(BuildGenerationPrompt(description, language))
    case ContinueConversation(messages) => messages
  }

  /** The fix request carries the analysis report to the model inside the user's
      prompt, on the line after "Issues to address:". */
  lemma FixRequestCarriesIssues(code: string, issues: string, language: string)
    ensures var prompt := Conversation(GenerateFixes(code, issues, language))[1].content;
      exists i :: RunAt(prompt, ["Issues to address:", issues], i)
  {
    FixPromptIssues(code, issues, language);
  }

  /** The analysis request carries the code to the model between two fence lines. */
  lemma AnalysisRequestCarriesCode(code: string, language: string)
    ensures var prompt := Conversation(AnalyzeCode(code, language))[1].content;
      exists i :: RunAt(prompt, FencedBlock(code), i)
  {
    AnalysisPromptCode(code, language);
  }
}
