/**
 * The chat-context layer in front of the generative-language service: the catalog
 * serialised as context, the system instruction, the request contents for a chat and
 * for a one-shot summary, and how the awaited reply (or its failure) becomes text.
 * The service call itself is not modelled: its outcome is a parameter.
 */
module Gemini {
  import opened Types
  import opened Text
  import Data

  const ModelName := "gemini-3-flash-preview"

  /** The persona that precedes the context in the system instruction. */
  const ExpertPersona := "You are an expert in Large Language Model (LLM) evaluation. You have access to information about key papers and datasets like MMLU, HELM, GSM8K, HumanEval, etc. Your goal is to help users understand how LLMs are tested and evaluated. "
  const UseContext := "Use context: "

  const SummaryPreamble := "Context about LLM Evaluation research:\n"
  const QuestionLabel := "\n\nUser Question: "
  const SummaryInstructions := "\n\nInstructions: Provide a professional, concise, and academic summary based on the provided context or general knowledge if relevant. Format with markdown."

  const NoResponseText := "No response received."
  const UnavailableText := "The AI expert is currently unavailable."
  const NoSummaryText := "I'm sorry, I couldn't generate a summary at this time."
  const ConnectionErrorText := "Error connecting to AI expert. Please ensure your API environment is correct."

  /** A chat message as the service function accepts it: any role string. */
  datatype WireMessage = WireMessage(role: string, content: string)

  datatype Part = Part(text: string)

  /** One turn of the request: the service's role ("user" or "model") and its parts. */
  datatype Content = Content(role: string, parts: seq<Part>)

  /** What is handed to the service: a single prompt text, or a list of turns. */
  datatype Request =
    | PromptRequest(model: string, prompt: string)
    | TurnsRequest(model: string, turns: seq<Content>)

  /** How the awaited call ends: a response whose `text` may be absent, or an exception. */
  datatype CallOutcome = Responded(text: Option<string>) | Failed

  /** The panel's message as the service takes it: role "user" or "assistant", the text unchanged. */
  function AsWire(m: ChatMessage): (r: WireMessage)
    ensures r.content == m.content
    ensures r.role == "user" <==> m.role == User
    ensures r.role == "assistant" <==> m.role == Role.Assistant
  {
    WireMessage(if m.role == User then "user" else "assistant", m.content)
  }

  function AsWireAll(ms: seq<ChatMessage>): (r: seq<WireMessage>)
    ensures |r| == |ms| && forall i :: 0 <= i < |ms| ==> r[i] == AsWire(ms[i])
  {
    if ms == [] then [] else [AsWire(ms[0])] + AsWireAll(ms[1..])
  }

  /** Converting a longer history converts the older part the same way. */
  lemma AsWireAllAppend(ms: seq<ChatMessage>, m: ChatMessage)
    ensures AsWireAll(ms + [m]) == AsWireAll(ms) + [AsWire(m)]
  {
    var a, b := AsWireAll(ms + [m]), AsWireAll(ms) + [AsWire(m)];
    forall i | 0 <= i < |a| ensures a[i] == b[i] {
      assert (ms + [m])[i] == if i < |ms| then ms[i] else m;
    }
  }

  // ---------------------------------------------------------------- the context

  /** `${title} (${year}): ${description}`. */
  function ContextLine(item: ResearchItem): (r: string)
    ensures item.title <= r && |r| > |item.title| + |item.description|
    ensures r[|r| - |item.description|..] == item.description
    ensures '\n' !in item.title && '\n' !in item.description ==> '\n' !in r
  {
    NoNewlineInNumber(item.year);
    item.title + " (" + IntToString(item.year) + "): " + item.description
  }

  /** One context line per catalog entry, in catalog order. */
  function ContextLines(items: seq<ResearchItem>): (r: seq<string>)
    ensures |r| == |items| && forall i :: 0 <= i < |items| ==> r[i] == ContextLine(items[i])
  {
    if items == [] then [] else [ContextLine(items[0])] + ContextLines(items[1..])
  }

  /** The context lines joined by newlines: empty only for an empty catalog, led by the first entry's line. */
  function BuildContext(items: seq<ResearchItem>): (r: string)
    ensures r == "" <==> items == []
    ensures items != [] ==> ContextLine(items[0]) <= r
  {
    Join(ContextLines(items), "\n")
  }

  lemma NoNewlineInNumber(n: int)
    ensures '\n' !in IntToString(n)
  {
    var s := NatToString(if n < 0 then -n else n);
    assert forall i :: 0 <= i < |s| ==> s[i] != '\n';
  }

  /**
   * The context has exactly one line per entry, in order, with no trailing newline:
   * splitting it at newlines gives the lines back, provided no title or description
   * has a newline of its own.
   */
  lemma ContextSplitsIntoLines(items: seq<ResearchItem>)
    requires |items| >= 1
    requires forall i :: 0 <= i < |items| ==> '\n' !in items[i].title && '\n' !in items[i].description
    ensures Split(BuildContext(items), '\n') == ContextLines(items)
  {
    var lines := ContextLines(items);
    forall k | 0 <= k < |lines| ensures '\n' !in lines[k] {
      assert lines[k] == ContextLine(items[k]);
    }
    SplitJoin(lines, '\n');
  }

  /** Adding an entry adds one line at the end, after a newline if there was a line before. */
  lemma ContextAppend(items: seq<ResearchItem>, x: ResearchItem)
    ensures BuildContext(items + [x]) == if items == [] then ContextLine(x) else BuildContext(items) + "\n" + ContextLine(x)
  {
    assert ContextLines(items + [x]) == ContextLines(items) + [ContextLine(x)];
    JoinSnoc(ContextLines(items), ContextLine(x), "\n");
  }

  /** The context of an empty catalog is empty. */
  lemma ContextOfEmpty()
    ensures BuildContext([]) == ""
  {
  }

  // ---------------------------------------------------------------- the chat request

  /** The persona, then "Use context: ", then the context. */
  function SystemInstruction(items: seq<ResearchItem>): (r: string)
    ensures |r| == |ExpertPersona + UseContext| + |BuildContext(items)|
    ensures r[..|ExpertPersona + UseContext|] == ExpertPersona + UseContext
    ensures r[|ExpertPersona + UseContext|..] == BuildContext(items)
  {
    ExpertPersona + UseContext + BuildContext(items)
  }

  /** The context embedded in a system instruction, if it has the fixed prefix. */
  function ContextOf(instruction: string): Option<string> {
    var n := |ExpertPersona + UseContext|;
    if n <= |instruction| && instruction[..n] == ExpertPersona + UseContext then Some(instruction[n..]) else None
  }

  /** The system instruction is the fixed prefix followed by exactly the context. */
  lemma SystemInstructionRoundTrip(items: seq<ResearchItem>)
    ensures ContextOf(SystemInstruction(items)) == Some(BuildContext(items))
  {
    var p := ExpertPersona + UseContext;
    var s := SystemInstruction(items);
    assert s == p + BuildContext(items);
    assert s[..|p|] == p && s[|p|..] == BuildContext(items);
  }

  /** `m.role === 'user' ? 'user' : 'model'`. */
  function ApiRole(role: string): (r: string)
    ensures r == "user" || r == "model"
    ensures r == "user" <==> role == "user"
  {
    if role == "user" then "user" else "model"
  }

  /** One turn: the mapped role and the message text as its only part. */
  function FormatMessage(m: WireMessage): (r: Content)
    ensures r.parts == [Part(m.content)]
    ensures r.role == ApiRole(m.role) && (r.role == "user" <==> m.role == "user")
  {
    Content(ApiRole(m.role), [Part(m.content)])
  }

  /** The history mapped turn by turn: same length, same order, same texts. */
  function FormatMessages(ms: seq<WireMessage>): (r: seq<Content>)
    ensures |r| == |ms|
    ensures forall i :: 0 <= i < |ms| ==> r[i].parts == [Part(ms[i].content)]
    ensures forall i :: 0 <= i < |ms| ==> (r[i].role == "user" <==> ms[i].role == "user")
    ensures forall i :: 0 <= i < |ms| ==> (r[i].role == "model" <==> ms[i].role != "user")
  {
    if ms == [] then [] else [FormatMessage(ms[0])] + FormatMessages(ms[1..])
  }

  /** Formatting distributes over concatenation of histories. */
  lemma {:induction false} FormatMessagesAppend(a: seq<WireMessage>, b: seq<WireMessage>)
    ensures FormatMessages(a + b) == FormatMessages(a) + FormatMessages(b)
    decreases |a|
  {
    if a == [] {
      assert a + b == b;
    } else {
      assert (a + b)[1..] == a[1..] + b;
      FormatMessagesAppend(a[1..], b);
    }
  }

  /** The turns sent: the system instruction as a user turn, then the formatted history. */
  function ChatTurns(items: seq<ResearchItem>, ms: seq<WireMessage>): (r: seq<Content>)
    ensures |r| == |ms| + 1
    ensures r[0] == Content("user", [Part(SystemInstruction(items))])
    ensures r[1..] == FormatMessages(ms)
  {
    [Content("user", [Part(SystemInstruction(items))])] + FormatMessages(ms)
  }

  /** One more message in the history is one more turn at the end of the request. */
  lemma ChatTurnsAppend(items: seq<ResearchItem>, ms: seq<WireMessage>, m: WireMessage)
    ensures ChatTurns(items, ms + [m]) == ChatTurns(items, ms) + [FormatMessage(m)]
  {
    FormatMessagesAppend(ms, [m]);
  }

  /**
   * The request `chatWithExpert` makes for a history: a list of turns for the fixed
   * model, one more than the history, the first carrying the seed catalog's context.
   */
  function ChatRequest(ms: seq<WireMessage>): (r: Request)
    ensures r.TurnsRequest? && r.model == ModelName && |r.turns| == |ms| + 1
    ensures r.turns[0].role == "user" && |r.turns[0].parts| == 1
    ensures ContextOf(r.turns[0].parts[0].text) == Some(BuildContext(Data.ResearchItems))
  {
    SystemInstructionRoundTrip(Data.ResearchItems);
    TurnsRequest(ModelName, ChatTurns(Data.ResearchItems, ms))
  }

  /** A history one message longer is sent as the same request with one more turn at the end. */
  lemma ChatRequestAppend(ms: seq<WireMessage>, m: WireMessage)
    ensures ChatRequest(ms + [m]).turns == ChatRequest(ms).turns + [FormatMessage(m)]
  {
    ChatTurnsAppend(Data.ResearchItems, ms, m);
  }

  /** `chatWithExpert`'s result: the reply text, or a fixed text when there is none. */
  function ChatReply(outcome: CallOutcome): (r: string)
    ensures r != ""
    ensures outcome.Responded? && outcome.text.Some? && outcome.text.value != "" ==> r == outcome.text.value
    ensures outcome == Responded(None) || outcome == Responded(Some("")) ==> r == NoResponseText
    ensures outcome.Failed? ==> r == UnavailableText
  {
    match outcome
    case Failed => UnavailableText
    case Responded(Some(t)) => if t != "" then t else NoResponseText
    case Responded(None) => NoResponseText
  }

  // ---------------------------------------------------------------- the summary request

  /** The one-shot prompt of `getResearchSummary`: context, then the question, then instructions. */
  function SummaryPrompt(items: seq<ResearchItem>, query: string): (r: string)
    ensures |r| == |SummaryPreamble| + |BuildContext(items)| + |QuestionLabel + query + SummaryInstructions|
    ensures r[..|SummaryPreamble|] == SummaryPreamble
    ensures r[|SummaryPreamble|..|SummaryPreamble| + |BuildContext(items)|] == BuildContext(items)
    ensures r[|SummaryPreamble| + |BuildContext(items)|..] == QuestionLabel + query + SummaryInstructions
  {
    var context, tail := BuildContext(items), QuestionLabel + query + SummaryInstructions;
    ThreeParts(SummaryPreamble, context, tail);
    SummaryPreamble + context + tail
  }

  /** The question embedded in a summary prompt over `items`, if the prompt has that shape. */
  function QueryOf(prompt: string, items: seq<ResearchItem>): Option<string> {
    Between(prompt, SummaryPreamble + BuildContext(items) + QuestionLabel, SummaryInstructions)
  }

  /** The summary prompt embeds the whole context and exactly the user's question. */
  lemma SummaryPromptRoundTrip(items: seq<ResearchItem>, query: string)
    ensures QueryOf(SummaryPrompt(items, query), items) == Some(query)
    ensures SummaryPrompt(items, query)[|SummaryPreamble|..|SummaryPreamble| + |BuildContext(items)|] == BuildContext(items)
  {
    var head := SummaryPreamble + BuildContext(items) + QuestionLabel;
    var p := SummaryPrompt(items, query);
    assert p == head + query + SummaryInstructions;
    BetweenOfJoin(head, query, SummaryInstructions);
  }

  /** The request `getResearchSummary` makes: one prompt for the fixed model, from which the question reads back. */
  function SummaryRequest(query: string): (r: Request)
    ensures r.PromptRequest? && r.model == ModelName
    ensures QueryOf(r.prompt, Data.ResearchItems) == Some(query)
  {
    SummaryPromptRoundTrip(Data.ResearchItems, query);
    PromptRequest(ModelName, SummaryPrompt(Data.ResearchItems, query))
  }

  /** `getResearchSummary`'s result: the reply text, or one of two fixed texts. */
  function SummaryReply(outcome: CallOutcome): (r: string)
    ensures r != ""
    ensures outcome.Responded? && outcome.text.Some? && outcome.text.value != "" ==> r == outcome.text.value
    ensures outcome == Responded(None) || outcome == Responded(Some("")) ==> r == NoSummaryText
    ensures outcome.Failed? ==> r == ConnectionErrorText
  {
    match outcome
    case Failed => ConnectionErrorText
    case Responded(Some(t)) => if t != "" then t else NoSummaryText
    case Responded(None) => NoSummaryText
  }

  // ---------------------------------------------------------------- the seed catalog

  /** With the seed catalog the context has five lines, GSM8K's third. */
  lemma SeedContext()
    ensures |ContextLines(Data.ResearchItems)| == 5
    ensures ContextLines(Data.ResearchItems)[2] == ContextLine(Data.Gsm8k)
  {
  }
}
