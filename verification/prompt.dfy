/**
 * `LLMResponseGenerator.generate_response` (chatbot.py:114-143): the
 * message list sent to the chat-completion API and the conversion of any
 * failure of that call into a fixed answer.
 *
 * The hosted API is a parameter `complete`: given the request it yields the
 * completion text, or `None` when the call raises (network or
 * authentication failure, malformed response, missing content).
 */
module Prompt {
  import opened Options
  import opened Text

  datatype Role = System | User | Assistant

  datatype Message = Message(role: Role, content: string)

  /** One entry of the chat history: `{"user": ..., "bot": ...}`. */
  datatype Turn = Turn(user: string, bot: string)

  /** The arguments of `chat.completions.create`. */
  datatype Request = Request(messages: seq<Message>, model: string, temperature: real, maxTokens: nat)

  /** An answer, with the request sent to the completion API to obtain it
      (`None` when the API was not called). */
  datatype Reply = Reply(text: string, request: Option<Request>)

  const Instruction := "You are a helpful chatbot for the BotPenguin website. Answer user questions based ONLY on the provided context."
  const Fallback := "I am unable to generate a response at this time. Please try again later."
  const DefaultModel := "llama-3.1-8b-instant"
  const Temperature: real := 0.7
  const MaxTokens: nat := 200

  /** The history part of the message list: for each turn, oldest first, the
      user's words and then the bot's answer. */
  function HistoryMessages(history: seq<Turn>): (ms: seq<Message>)
    ensures |ms| == 2 * |history|
    ensures forall t :: 0 <= t < |history| ==>
      ms[2 * t] == Message(User, history[t].user) && ms[2 * t + 1] == Message(Assistant, history[t].bot)
    decreases |history|
  {
    if history == [] then []
    else
      var last := history[|history| - 1];
      HistoryMessages(history[..|history| - 1]) + [Message(User, last.user), Message(Assistant, last.bot)]
  }

  /** The final user message: the retrieved chunks separated by blank lines,
      then the question. */
  function QuestionText(query: string, context: seq<string>): string {
    "Context: " + Join("\n\n", context) + "\n\nQuestion: " + query
  }

  /** `messages` as `generate_response` builds it. */
  function BuildMessages(query: string, context: seq<string>, history: seq<Turn>): (ms: seq<Message>)
    ensures |ms| == 2 * |history| + 2
    ensures ms[0] == Message(System, Instruction)
    ensures forall t :: 0 <= t < |history| ==>
      ms[2 * t + 1] == Message(User, history[t].user) && ms[2 * t + 2] == Message(Assistant, history[t].bot)
    ensures ms[|ms| - 1] == Message(User, QuestionText(query, context))
  {
    [Message(System, Instruction)] + HistoryMessages(history) + [Message(User, QuestionText(query, context))]
  }

  /** Reads the conversation back out of a message list. */
  function HistoryOf(ms: seq<Message>): seq<Turn>
    requires |ms| >= 2 && |ms| % 2 == 0
  {
    var n := (|ms| - 2) / 2;
    seq(n, t requires 0 <= t < n => Turn(ms[2 * t + 1].content, ms[2 * t + 2].content))
  }

  /** The message list carries the whole history, and nothing else between
      the instruction and the question: it can be read back exactly. */
  lemma {:induction false} HistoryRoundTrip(query: string, context: seq<string>, history: seq<Turn>)
    ensures HistoryOf(BuildMessages(query, context, history)) == history
  {
    var ms := BuildMessages(query, context, history);
    var h := HistoryOf(ms);
    assert |h| == |history|;
    forall t | 0 <= t < |h| ensures h[t] == history[t] {
      assert ms[2 * t + 1].content == history[t].user;
    }
  }

  /** The request `generate_response` sends for a question. */
  function RequestFor(model: string, query: string, context: seq<string>, history: seq<Turn>): Request {
    Request(BuildMessages(query, context, history), model, Temperature, MaxTokens)
  }

  /** `generate_response`: exactly one call to the completion API; its text,
      stripped, on success; the fixed fallback when the call fails, so no
      failure reaches the caller. */
  function Generate(model: string, query: string, context: seq<string>, history: seq<Turn>,
                    complete: Request -> Option<string>): (r: Reply)
    ensures r.request == Some(RequestFor(model, query, context, history))
    ensures complete(r.request.value).None? ==> r.text == Fallback
    ensures complete(r.request.value).Some? ==> r.text == Strip(complete(r.request.value).value)
  {
    var request := RequestFor(model, query, context, history);
    match complete(request)
    case None => Reply(Fallback, Some(request))
    case Some(content) => Reply(Strip(content), Some(request))
  }
}
