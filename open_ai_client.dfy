/** The OpenAI implementation of the answer port (OpenAiClient.kt): the
    blank-key short-circuit, the prompt it assembles from the thread's
    history, the model defaulting, and the choice of answer text from what
    the chat-completions call produced. The HTTP exchange itself is the
    parameter `send`, which yields either a decoded body or an exception's
    message. */
module OpenAi {
  import opened Common
  import opened Chats
  import opened AiClientPort

  datatype Message = Message(role: string, content: string)

  datatype CompletionRequest = CompletionRequest(model: string, messages: seq<Message>, stream: bool)

  /** The decoded response, keeping only what the answer is read from; every
      level is nullable in the source. */
  datatype MessageResponse = MessageResponse(content: Option<string>)
  datatype Choice = Choice(message: Option<MessageResponse>)
  datatype CompletionResponse = CompletionResponse(choices: Option<seq<Choice>>)

  /** Outcome of the blocking call: `block()`'s possibly-null body, or the
      message (possibly null) of the exception it threw. */
  datatype HttpOutcome = Ok(body: Option<CompletionResponse>) | Err(message: Option<string>)

  /** The client's configuration properties. */
  datatype OpenAiConfig = OpenAiConfig(apiKey: string, defaultModel: string)

  const SystemInstruction: string :=
    "당신은 친절하고 도움이 되는 AI 어시스턴트입니다. 사용자의 질문에 정확하고 유용한 답변을 제공해주세요."
  const KeyNotSetAnswer: string :=
    "OpenAI API 키가 설정되지 않았습니다. OPENAI_API_KEY 환경 변수를 설정해주세요."
  const NoResponseAnswer: string := "AI 응답을 받지 못했습니다."
  const ErrorAnswerPrefix: string := "AI 응답 생성 중 오류가 발생했습니다: "

  const SystemMessage: Message := Message("system", SystemInstruction)

  /** Kotlin's `Char.isWhitespace()`: Java whitespace or a Unicode space
      separator (categories Zs, Zl, Zp, tab to carriage return, and the four
      information separators). */
  function IsWhitespace(c: char): (b: bool)
    ensures c == ' ' || c == '\t' || c == '\n' || c == '\r' ==> b
    ensures ('0' <= c <= '9') || ('a' <= c <= 'z') || ('A' <= c <= 'Z') ==> !b
  {
    || ('\t' <= c <= '\r')
    || ('\U{1C}' <= c <= '\U{1F}')
    || c == ' ' || c == '\U{A0}' || c == '\U{1680}'
    || ('\U{2000}' <= c <= '\U{200A}')
    || c == '\U{2028}' || c == '\U{2029}' || c == '\U{202F}' || c == '\U{205F}' || c == '\U{3000}'
  }

  /** Kotlin's `String.isBlank()`: empty or whitespace only. */
  function IsBlank(s: string): (b: bool)
    ensures s == [] ==> b
    ensures b <==> forall c :: c in s ==> IsWhitespace(c)
  {
    forall i :: 0 <= i < |s| ==> IsWhitespace(s[i])
  }

  /** Each earlier turn becomes a user message followed by an assistant
      message, in history order. */
  function HistoryMessages(history: seq<Chat>): (r: seq<Message>)
    ensures |r| == 2 * |history|
    ensures forall i :: 0 <= i < |history| ==>
              r[2 * i] == Message("user", history[i].question) &&
              r[2 * i + 1] == Message("assistant", history[i].answer)
  {
    if history == [] then []
    else
      var front := history[..|history| - 1];
      var last := history[|history| - 1];
      assert forall i :: 0 <= i < |front| ==> front[i] == history[i];
      HistoryMessages(front) + [Message("user", last.question), Message("assistant", last.answer)]
  }

  /** The message list sent to the model: the fixed system instruction, the
      history as alternating user/assistant turns, then the new question. */
  function PromptMessages(question: string, history: seq<Chat>): (r: seq<Message>)
    ensures |r| == 2 * |history| + 2
    ensures r[0] == SystemMessage
    ensures forall i :: 0 <= i < |history| ==>
              r[2 * i + 1] == Message("user", history[i].question) &&
              r[2 * i + 2] == Message("assistant", history[i].answer)
    ensures r[|r| - 1] == Message("user", question)
  {
    var h := HistoryMessages(history);
    var r := [SystemMessage] + h + [Message("user", question)];
    assert forall k :: 0 <= k < |h| ==> r[k + 1] == h[k];
    r
  }

  /** `buildMessages`: appends to a growing list, one history turn at a time. */
  method BuildMessages(question: string, history: seq<Chat>) returns (messages: seq<Message>)
    ensures messages == PromptMessages(question, history)
  {
    messages := [SystemMessage];
    for i := 0 to |history|
      invariant messages == [SystemMessage] + HistoryMessages(history[..i])
    {
      assert history[..i + 1][..i] == history[..i];
      messages := messages + [Message("user", history[i].question), Message("assistant", history[i].answer)];
    }
    assert history[..|history|] == history;
    messages := messages + [Message("user", question)];
  }

  /** The request body: the caller's model when given, else the configured
      default; never streaming. */
  function BuildRequest(config: OpenAiConfig, question: string, history: seq<Chat>, model: Option<string>): (req: CompletionRequest)
    ensures model.Some? ==> req.model == model.value
    ensures model.None? ==> req.model == config.defaultModel
    ensures !req.stream
    ensures req.messages == PromptMessages(question, history)
  {
    CompletionRequest(model.GetOr(config.defaultModel), PromptMessages(question, history), false)
  }

  /** `response?.choices?.firstOrNull()?.message?.content`. */
  function FirstContent(body: Option<CompletionResponse>): (r: Option<string>)
    ensures body.None? ==> r.None?
    ensures body.Some? && (body.value.choices.None? || body.value.choices.value == []) ==> r.None?
    ensures (body.Some? && body.value.choices.Some? && |body.value.choices.value| > 0 &&
             body.value.choices.value[0].message.Some?) ==> r == body.value.choices.value[0].message.value.content
    ensures r.Some? ==> body.Some? && body.value.choices.Some? && |body.value.choices.value| > 0 &&
                        body.value.choices.value[0].message == Some(MessageResponse(r))
  {
    if body.Some? && body.value.choices.Some? && |body.value.choices.value| > 0
       && body.value.choices.value[0].message.Some?
    then body.value.choices.value[0].message.value.content
    else None
  }

  /** String interpolation of a possibly-null exception message. */
  function MessageText(message: Option<string>): (t: string)
    ensures message.Some? ==> t == message.value
    ensures message.None? ==> t == "null"
  {
    message.GetOr("null")
  }

  /** The answer text produced from the call's outcome: the first choice's
      content, the no-response notice when there is none, or the error notice
      carrying the exception's message. */
  function SelectAnswer(outcome: HttpOutcome): (answer: string)
    ensures outcome.Ok? && FirstContent(outcome.body).Some? ==> answer == FirstContent(outcome.body).value
    ensures outcome.Ok? && FirstContent(outcome.body).None? ==> answer == NoResponseAnswer
    ensures outcome.Err? ==> answer == ErrorAnswerPrefix + MessageText(outcome.message)
    ensures answer == [] ==> outcome.Ok? && FirstContent(outcome.body) == Some([])
  {
    match outcome
    case Ok(body) => FirstContent(body).GetOr(NoResponseAnswer)
    case Err(message) => ErrorAnswerPrefix + MessageText(message)
  }

  /** `generateAnswer`. A blank key answers with the configuration notice and
      sends nothing; otherwise exactly one request is sent and its outcome
      chooses the answer. The response is never marked as streaming, whatever
      the caller asked for. */
  method GenerateAnswer(config: OpenAiConfig, send: CompletionRequest -> HttpOutcome,
                        question: string, history: seq<Chat>, model: Option<string>, isStreaming: bool)
    returns (response: AiResponse, ghost sent: Option<CompletionRequest>)
    ensures IsBlank(config.apiKey) ==> sent.None? && response == AiResponse(KeyNotSetAnswer, false)
    ensures !IsBlank(config.apiKey) ==>
              sent == Some(BuildRequest(config, question, history, model)) &&
              response == AiResponse(SelectAnswer(send(sent.value)), false)
    ensures !response.isStreaming
  {
    if IsBlank(config.apiKey) {
      return AiResponse(KeyNotSetAnswer, false), None;
    }
    var messages := BuildMessages(question, history);
    var request := CompletionRequest(model.GetOr(config.defaultModel), messages, false);
    sent := Some(request);
    var outcome := send(request);
    response := AiResponse(SelectAnswer(outcome), false);
  }

  /** A failed call never yields an empty answer: the stored turn always
      shows the error notice and the exception's text. */
  lemma FailureAnswerVisible(message: Option<string>)
    ensures |SelectAnswer(Err(message))| >= |ErrorAnswerPrefix| > 0
    ensures SelectAnswer(Err(message))[..|ErrorAnswerPrefix|] == ErrorAnswerPrefix
  {
  }
}
