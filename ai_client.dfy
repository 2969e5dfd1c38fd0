/** The answer-generation port (AiClient.kt) as the chat service sees it:
    a question, the thread's earlier turns, an optional model name and the
    streaming flag go in; an answer comes out. */
module AiClientPort {
  import opened Common
  import opened Chats

  datatype AiResponse = AiResponse(answer: string, isStreaming: bool)

  /** `generateAnswer(question, conversationHistory, model, isStreaming)`. */
  type AnswerGenerator = (string, seq<Chat>, Option<string>, bool) -> AiResponse
}
