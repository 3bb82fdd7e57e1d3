/**
 * The chat-completion request `_generate` sends: the messages, the token limit and
 * the optional temperature.
 */
module Request {
  import opened Wrappers

  datatype Role = System | User

  /** A system message carries a plain string; the user message a list of text parts. */
  datatype Content = PlainText(text: string) | TextParts(parts: seq<string>)

  datatype Message = Message(role: Role, content: Content)

  datatype ChatRequest = ChatRequest(
    model: string,
    messages: seq<Message>,
    maxTokens: int,
    temperature: Option<real>)

  /** The token limit sent: the field's value, or -1 ("no limit") when it is below 1. */
  function MaxTokens(tokens: int): (r: int)
    ensures r == -1 || r >= 1
    ensures tokens >= 1 ==> r == tokens
    ensures tokens < 1 ==> r == -1
  {
    if tokens < 1 then -1 else tokens
  }

  /**
   * The request for one model. The system message comes first and only when the
   * system prompt is non-empty; the user prompt is always the last message, as a
   * single text part; the temperature is sent only when the default is not used.
   */
  function BuildRequest(modelId: string, sysPrompt: string, userPrompt: string, tokens: int,
                        useDefaultTemp: bool, temperature: real): (r: ChatRequest)
    ensures r.model == modelId
    ensures |r.messages| == (if sysPrompt == "" then 1 else 2)
    ensures r.messages[|r.messages| - 1] == Message(User, TextParts([userPrompt]))
    ensures r.messages[0].role == System <==> sysPrompt != ""
    ensures r.maxTokens == MaxTokens(tokens)
    ensures r.temperature == (if useDefaultTemp then None else Some(temperature))
  {
    var system := if sysPrompt == "" then [] else [Message(System, PlainText(sysPrompt))];
    ChatRequest(modelId, system + [Message(User, TextParts([userPrompt]))], MaxTokens(tokens),
                if useDefaultTemp then None else Some(temperature))
  }

  /** The system prompt a request carries, `""` when it has no system message. */
  function SystemPromptOf(r: ChatRequest): string {
    if |r.messages| > 0 && r.messages[0].role == System && r.messages[0].content.PlainText? then
      r.messages[0].content.text
    else ""
  }

  /** The user prompt a request carries: the text of its last message's single part. */
  function UserPromptOf(r: ChatRequest): Option<string> {
    if |r.messages| == 0 then None
    else
      var last := r.messages[|r.messages| - 1];
      if last.role == User && last.content.TextParts? && |last.content.parts| == 1 then Some(last.content.parts[0])
      else None
  }

  /** Both prompts can be read back from the request, so neither is lost or altered. */
  lemma PromptsRoundTrip(modelId: string, sysPrompt: string, userPrompt: string, tokens: int,
                         useDefaultTemp: bool, temperature: real)
    ensures var r := BuildRequest(modelId, sysPrompt, userPrompt, tokens, useDefaultTemp, temperature);
      SystemPromptOf(r) == sysPrompt && UserPromptOf(r) == Some(userPrompt)
  {
  }
}
