/**
 * The chat panel: a history of messages, an input box and a loading flag. A send is
 * split at its `await`: `Submit` is everything before it, `Resolve` everything after,
 * so a session that is waiting for the service is a state of its own.
 */
module Assistant {
  import opened Types
  import opened Text
  import Gemini

  const Greeting := ChatMessage(Role.Assistant, "Hello! I'm your LLM Eval Assistant. Ask me anything about how large language models are evaluated, or about specific datasets like MMLU or HumanEval.")
  const SendErrorText := "Sorry, I ran into an error. Please try again."

  /** How the awaited `chatWithExpert` call ends: with its string, or with an exception. */
  datatype SendOutcome = Returned(reply: string) | Threw

  /** The panel's three pieces of state. */
  datatype PanelState = PanelState(messages: seq<ChatMessage>, input: string, isLoading: bool)

  const InitialState := PanelState([Greeting], "", false)

  /** The guard of a send: something other than whitespace typed, and no reply awaited. */
  predicate CanSend(s: PanelState) {
    Trim(s.input) != "" && !s.isLoading
  }

  /** A send goes ahead exactly when no reply is awaited and some typed character is not whitespace. */
  lemma CanSendIff(s: PanelState)
    ensures CanSend(s) <==> !s.isLoading && exists i :: 0 <= i < |s.input| && !IsSpace(s.input[i])
  {
    TrimEmptyIff(s.input);
  }

  /** The text of the assistant turn a finished call adds. */
  function ReplyText(outcome: SendOutcome): string {
    match outcome
    case Returned(reply) => reply
    case Threw => SendErrorText
  }

  /**
   * A send up to the `await`: the new state and the history handed to the service.
   * A refused send changes nothing and calls nothing.
   */
  function SendStep(s: PanelState): (r: (PanelState, Option<seq<ChatMessage>>))
    ensures !CanSend(s) ==> r == (s, None)
    ensures CanSend(s) ==> r.0.messages == s.messages + [ChatMessage(User, s.input)]
    ensures CanSend(s) ==> r.0.input == "" && r.0.isLoading && r.1 == Some(r.0.messages)
  {
    if !CanSend(s) then (s, None)
    else
      var history := s.messages + [ChatMessage(User, s.input)];
      (PanelState(history, "", true), Some(history))
  }

  /** A send after the `await`: one assistant turn, loading cleared, input left alone. */
  function ResolveStep(s: PanelState, outcome: SendOutcome): (r: PanelState)
    ensures |r.messages| == |s.messages| + 1 && r.messages[..|s.messages|] == s.messages
    ensures r.messages[|s.messages|] == ChatMessage(Role.Assistant, ReplyText(outcome))
    ensures r.input == s.input && !r.isLoading
  {
    s.(messages := s.messages + [ChatMessage(Role.Assistant, ReplyText(outcome))], isLoading := false)
  }

  /**
   * The shape every history has: the greeting, then user and assistant turns taking
   * turns, each user turn non-blank, and a trailing user turn exactly while loading.
   */
  predicate Transcript(ms: seq<ChatMessage>, loading: bool) {
    |ms| >= 1 && ms[0] == Greeting
    && (forall i :: 1 <= i < |ms| ==> (ms[i].role == User <==> i % 2 == 1))
    && (forall i :: 1 <= i < |ms| && i % 2 == 1 ==> Trim(ms[i].content) != "")
    && (loading <==> |ms| % 2 == 0)
  }

  // ---------------------------------------------------------------- properties of a send

  lemma InitialTranscript()
    ensures Transcript(InitialState.messages, InitialState.isLoading)
  {
  }

  /** Input that is empty or only whitespace is ignored: nothing changes, nothing is sent. */
  lemma BlankInputIgnored(s: PanelState)
    requires forall i :: 0 <= i < |s.input| ==> IsSpace(s.input[i])
    ensures SendStep(s) == (s, None)
  {
    TrimEmptyIff(s.input);
  }

  /** While a reply is awaited a send is ignored, whatever was typed. */
  lemma SendWhileLoadingIgnored(s: PanelState)
    requires s.isLoading
    ensures SendStep(s) == (s, None)
  {
  }

  /**
   * An accepted send appends the input as typed (not trimmed) as a user turn, clears the
   * box, starts loading and hands the service the prior history plus that turn.
   */
  lemma SendAccepted(s: PanelState)
    requires CanSend(s)
    ensures SendStep(s).0.messages == s.messages + [ChatMessage(User, s.input)]
    ensures SendStep(s).0.input == "" && SendStep(s).0.isLoading
    ensures SendStep(s).1 == Some(SendStep(s).0.messages)
  {
  }

  /** A send followed by its resolution adds exactly two turns, user then assistant. */
  lemma FullSendAddsTwo(s: PanelState, outcome: SendOutcome)
    requires CanSend(s)
    ensures ResolveStep(SendStep(s).0, outcome).messages
         == s.messages + [ChatMessage(User, s.input), ChatMessage(Role.Assistant, ReplyText(outcome))]
    ensures !ResolveStep(SendStep(s).0, outcome).isLoading
  {
    assert s.messages + [ChatMessage(User, s.input)] + [ChatMessage(Role.Assistant, ReplyText(outcome))]
        == s.messages + [ChatMessage(User, s.input), ChatMessage(Role.Assistant, ReplyText(outcome))];
  }

  /** The history only grows: the old one is always a prefix of the new one. */
  lemma HistoryAppendOnly(s: PanelState, outcome: SendOutcome)
    ensures s.messages <= SendStep(s).0.messages
    ensures s.messages <= ResolveStep(s, outcome).messages
    ensures |ResolveStep(s, outcome).messages| == |s.messages| + 1
  {
  }

  /** A send keeps the transcript well formed. */
  lemma SendKeepsTranscript(s: PanelState)
    requires Transcript(s.messages, s.isLoading)
    ensures Transcript(SendStep(s).0.messages, SendStep(s).0.isLoading)
  {
    if CanSend(s) {
      var n := |s.messages|;
      var ms := s.messages + [ChatMessage(User, s.input)];
      assert SendStep(s).0 == PanelState(ms, "", true);
      forall i | 1 <= i < |ms|
        ensures (ms[i].role == User <==> i % 2 == 1)
        ensures i % 2 == 1 ==> Trim(ms[i].content) != ""
      {
        if i < n {
          assert ms[i] == s.messages[i];
        } else {
          assert i == n && n % 2 == 1;
        }
      }
    }
  }

  /** Resolving an awaited send keeps the transcript well formed and ends loading. */
  lemma ResolveKeepsTranscript(s: PanelState, outcome: SendOutcome)
    requires Transcript(s.messages, s.isLoading) && s.isLoading
    ensures Transcript(ResolveStep(s, outcome).messages, false)
  {
    var n := |s.messages|;
    var ms := s.messages + [ChatMessage(Role.Assistant, ReplyText(outcome))];
    assert ResolveStep(s, outcome).messages == ms;
    forall i | 1 <= i < |ms|
      ensures (ms[i].role == User <==> i % 2 == 1)
      ensures i % 2 == 1 ==> Trim(ms[i].content) != ""
    {
      if i < n {
        assert ms[i] == s.messages[i];
      } else {
        assert i == n && n % 2 == 0;
      }
    }
  }

  /**
   * The request of an accepted send, over any catalog: system instruction, the prior
   * history, and last the typed text as a user turn, one turn more than the new history.
   */
  lemma SendRequest(s: PanelState, catalog: seq<ResearchItem>)
    requires CanSend(s)
    ensures var turns := Gemini.ChatTurns(catalog, Gemini.AsWireAll(SendStep(s).0.messages));
      |turns| == |s.messages| + 2
      && turns[|turns| - 1] == Gemini.Content("user", [Gemini.Part(s.input)])
      && turns[..|turns| - 1] == Gemini.ChatTurns(catalog, Gemini.AsWireAll(s.messages))
  {
    var u := ChatMessage(User, s.input);
    var w := Gemini.AsWireAll(s.messages);
    assert SendStep(s).0.messages == s.messages + [u];
    Gemini.AsWireAllAppend(s.messages, u);
    Gemini.ChatTurnsAppend(catalog, w, Gemini.AsWire(u));
  }

  // ---------------------------------------------------------------- the component

  class ChatPanel {
    var messages: seq<ChatMessage>
    var input: string
    var isLoading: bool

    function Snapshot(): PanelState
      reads this
    {
      PanelState(messages, input, isLoading)
    }

    ghost predicate Valid()
      reads this
    {
      Transcript(messages, isLoading)
    }

    /** The panel opens with the greeting alone, an empty box, not loading. */
    constructor ()
      ensures Valid() && Snapshot() == InitialState
    {
      messages := [Greeting];
      input := "";
      isLoading := false;
    }

    /** The input box's `onChange`. */
    method SetInput(text: string)
      requires Valid()
      modifies this
      ensures Valid()
      ensures Snapshot() == old(Snapshot()).(input := text)
    {
      input := text;
    }

    /**
     * `handleSend` up to the `await`: returns the history passed to `chatWithExpert`,
     * or `None` when the guard refuses the send.
     */
    method Submit() returns (sent: Option<seq<ChatMessage>>)
      requires Valid()
      modifies this
      ensures Valid()
      ensures (Snapshot(), sent) == SendStep(old(Snapshot()))
    {
      SendKeepsTranscript(Snapshot());
      if Trim(input) == "" || isLoading {
        sent := None;
        return;
      }
      var userMsg := ChatMessage(User, input);
      var prior := messages;
      messages := messages + [userMsg];
      input := "";
      isLoading := true;
      sent := Some(prior + [userMsg]);
    }

    /** `handleSend` after the `await`: the reply or the error text, then loading ends. */
    method Resolve(outcome: SendOutcome)
      requires Valid() && isLoading
      modifies this
      ensures Valid()
      ensures Snapshot() == ResolveStep(old(Snapshot()), outcome)
    {
      ResolveKeepsTranscript(Snapshot(), outcome);
      match outcome {
        case Returned(response) =>
          messages := messages + [ChatMessage(Role.Assistant, response)];
        case Threw =>
          messages := messages + [ChatMessage(Role.Assistant, SendErrorText)];
      }
      isLoading := false;
    }
  }

  /** One full exchange through the panel, as a user at the keyboard drives it. */
  method Exchange(panel: ChatPanel, text: string, outcome: Gemini.CallOutcome)
    requires panel.Valid() && !panel.isLoading && Trim(text) != ""
    modifies panel
    ensures panel.Valid() && !panel.isLoading && panel.input == ""
    ensures panel.messages == old(panel.messages)
      + [ChatMessage(User, text), ChatMessage(Role.Assistant, Gemini.ChatReply(outcome))]
  {
    var reply := Returned(Gemini.ChatReply(outcome));
    panel.SetInput(text);
    ghost var typed := panel.Snapshot();
    FullSendAddsTwo(typed, reply);
    var sent := panel.Submit();
    assert panel.Snapshot() == SendStep(typed).0;
    panel.Resolve(reply);
  }
}
