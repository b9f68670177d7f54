/** The conversation state of the chat component and the send step: the
    message log, the input box, the request-in-flight flag and the two
    selectors. The model behind the send is a parameter: any function from
    the request to a reply text or a failure. */
module Session {
  import opened JsText
  import opened Messages

  /** What the content generator hands back: the reply text, or a thrown
      error. */
  datatype Outcome = Reply(text: string) | Failure

  /** What a send passes to the content generator: the typed text, the log
      as it was before the user's turn was appended, and the two settings. */
  datatype Request = Request(message: string, history: seq<Message>, citationStyle: CitationStyle, language: Language)

  /** The assistant turn shown when the generator throws. */
  const FallbackReply: string := "Sorry, I encountered an error. Please try again."

  /** `!input.trim()`: the input is empty or whitespace only. */
  predicate IsBlank(input: string) {
    Trim(input) == []
  }

  /** The assistant turn a send appends: the reply text verbatim, or the
      fixed apology when the generator failed. */
  function ReplyMessage(outcome: Outcome): (m: Message)
    ensures m.role == Assistant
    ensures m.content == (if outcome.Failure? then FallbackReply else outcome.text)
  {
    match outcome
    case Reply(text) => Message(Assistant, text)
    case Failure => Message(Assistant, FallbackReply)
  }

  /** The log after one send of `input` whose generator call ended in
      `outcome`: unchanged for blank input, otherwise the untrimmed input as
      a user turn followed by exactly one assistant turn. */
  function SendStep(log: seq<Message>, input: string, outcome: Outcome): (r: seq<Message>)
    ensures |r| == |log| + (if IsBlank(input) then 0 else 2)
    ensures r[..|log|] == log
    ensures !IsBlank(input) ==> r[|log|] == Message(User, input) && r[|log| + 1] == ReplyMessage(outcome)
  {
    if IsBlank(input) then log
    else
      var turn, reply := Message(User, input), ReplyMessage(outcome);
      var r := log + [turn, reply];
      assert r[..|log|] == log && r[|log|] == turn && r[|log| + 1] == reply;
      r
  }

  /** A log whose turns alternate user, assistant, user, ... and that ends
      with an assistant turn. */
  predicate Alternating(log: seq<Message>) {
    |log| % 2 == 0 && forall i :: 0 <= i < |log| ==> log[i].role == (if i % 2 == 0 then User else Assistant)
  }

  /** A send leaves the log unchanged exactly when the input is blank. */
  lemma SendStepUnchangedIff(log: seq<Message>, input: string, outcome: Outcome)
    ensures SendStep(log, input, outcome) == log <==> IsBlank(input)
  {
    if !IsBlank(input) {
      assert |SendStep(log, input, outcome)| != |log|;
    }
  }

  /** Sends keep the turns alternating. */
  lemma SendStepAlternates(log: seq<Message>, input: string, outcome: Outcome)
    requires Alternating(log)
    ensures Alternating(SendStep(log, input, outcome))
  {
    if !IsBlank(input) {
      AlternatingExchange(log, Message(User, input), ReplyMessage(outcome));
    }
  }

  /** A user turn and then an assistant turn keep the turns alternating. */
  lemma AlternatingExchange(log: seq<Message>, u: Message, a: Message)
    requires Alternating(log) && u.role == User && a.role == Assistant
    ensures Alternating(log + [u, a])
  {
    var r := log + [u, a];
    forall i | 0 <= i < |r| ensures r[i].role == (if i % 2 == 0 then User else Assistant) {
      if i < |log| {
        assert r[i] == log[i];
      }
    }
  }

  /** The log after a run of sends starting from an empty conversation, the
      `k`-th send typing `inputs[k]` and its generator call ending in
      `outcomes[k]`. */
  function Replay(inputs: seq<string>, outcomes: seq<Outcome>): seq<Message>
    requires |inputs| == |outcomes|
  {
    if inputs == [] then []
    else
      var n := |inputs| - 1;
      SendStep(Replay(inputs[..n], outcomes[..n]), inputs[n], outcomes[n])
  }

  /** How many of the inputs are not blank. */
  function SentCount(inputs: seq<string>): nat {
    if inputs == [] then 0
    else SentCount(inputs[..|inputs| - 1]) + (if IsBlank(inputs[|inputs| - 1]) then 0 else 1)
  }

  /** Any run of sends yields an alternating log with two turns per
      non-blank input. */
  lemma {:induction false} ReplayShape(inputs: seq<string>, outcomes: seq<Outcome>)
    requires |inputs| == |outcomes|
    ensures Alternating(Replay(inputs, outcomes))
    ensures |Replay(inputs, outcomes)| == 2 * SentCount(inputs)
  {
    if inputs != [] {
      var n := |inputs| - 1;
      ReplayShape(inputs[..n], outcomes[..n]);
      SendStepAlternates(Replay(inputs[..n], outcomes[..n]), inputs[n], outcomes[n]);
    }
  }

  /** Later sends never change earlier turns: the log after a run of sends
      begins with the log after any first part of the run. */
  lemma {:induction false} ReplayAppendOnly(inputs: seq<string>, outcomes: seq<Outcome>,
                                            more: seq<string>, moreOutcomes: seq<Outcome>)
    requires |inputs| == |outcomes| && |more| == |moreOutcomes|
    ensures Extends(Replay(inputs + more, outcomes + moreOutcomes), Replay(inputs, outcomes))
    decreases |more|
  {
    if more == [] {
      assert inputs + more == inputs && outcomes + moreOutcomes == outcomes;
    } else {
      var n := |more| - 1;
      var ins, outs := inputs + more[..n], outcomes + moreOutcomes[..n];
      assert inputs + more == ins + [more[n]];
      assert outcomes + moreOutcomes == outs + [moreOutcomes[n]];
      ReplayAppendOnly(inputs, outcomes, more[..n], moreOutcomes[..n]);
      ReplaySnoc(ins, outs, more[n], moreOutcomes[n]);
      SendStepExtends(Replay(ins, outs), more[n], moreOutcomes[n]);
      ExtendsTrans(Replay(inputs, outcomes), Replay(ins, outs), Replay(inputs + more, outcomes + moreOutcomes));
    }
  }

  /** One more send after a run applies `SendStep` to the run's log. */
  lemma ReplaySnoc(inputs: seq<string>, outcomes: seq<Outcome>, input: string, outcome: Outcome)
    requires |inputs| == |outcomes|
    ensures Replay(inputs + [input], outcomes + [outcome]) == SendStep(Replay(inputs, outcomes), input, outcome)
  {
    assert (inputs + [input])[..|inputs|] == inputs;
    assert (outcomes + [outcome])[..|inputs|] == outcomes;
  }

  /** A send keeps every earlier turn. */
  lemma SendStepExtends(log: seq<Message>, input: string, outcome: Outcome)
    ensures Extends(SendStep(log, input, outcome), log)
  {
  }

  /** `log` begins with all of `earlier`. */
  predicate Extends(log: seq<Message>, earlier: seq<Message>) {
    |earlier| <= |log| && log[..|earlier|] == earlier
  }

  lemma ExtendsTrans(a: seq<Message>, b: seq<Message>, c: seq<Message>)
    requires Extends(b, a) && Extends(c, b)
    ensures Extends(c, a)
  {
    assert c[..|a|] == c[..|b|][..|a|];
  }

  /** The component's state. */
  class ChatSession {
    var messages: seq<Message>
    var input: string
    var loading: bool
    var citationStyle: CitationStyle
    var language: Language

    /** The initial state: no messages, empty input, IEEE, English. */
    constructor ()
      ensures messages == [] && input == [] && !loading
      ensures citationStyle == IEEE && language == English
    {
      messages := [];
      input := [];
      loading := false;
      citationStyle := IEEE;
      language := English;
    }

    /** The input box's change handler. */
    method SetInput(text: string)
      modifies this
      ensures input == text
      ensures messages == old(messages) && loading == old(loading)
      ensures citationStyle == old(citationStyle) && language == old(language)
    {
      input := text;
    }

    /** The citation-style selector's change handler. */
    method SetCitationStyle(style: CitationStyle)
      modifies this
      ensures citationStyle == style
      ensures messages == old(messages) && input == old(input) && loading == old(loading)
      ensures language == old(language)
    {
      citationStyle := style;
    }

    /** The language selector's change handler. */
    method SetLanguage(lang: Language)
      modifies this
      ensures language == lang
      ensures messages == old(messages) && input == old(input) && loading == old(loading)
      ensures citationStyle == old(citationStyle)
    {
      language := lang;
    }

    /** The first half of a send, up to the generator call: blank input does
      nothing; otherwise the untrimmed input is appended as a user turn, the
      input box is cleared, the flag is raised, and the request carries the
      log as it was before the append. */
    method BeginSend() returns (request: Option<Request>)
      modifies this
      ensures IsBlank(old(input)) ==>
        request == None && messages == old(messages) && input == old(input) && loading == old(loading)
      ensures !IsBlank(old(input)) ==>
        request == Some(Request(old(input), old(messages), old(citationStyle), old(language)))
        && messages == old(messages) + [Message(User, old(input))] && input == [] && loading
      ensures citationStyle == old(citationStyle) && language == old(language)
    {
      if Trim(input) == [] {
        return None;
      }
      var text, history := input, messages;
      messages := messages + [Message(User, text)];
      input := [];
      loading := true;
      request := Some(Request(text, history, citationStyle, language));
    }

    /** The second half of a send: the assistant turn is appended and the
      flag is lowered, whether the generator replied or failed. */
    method FinishSend(outcome: Outcome)
      modifies this
      ensures messages == old(messages) + [ReplyMessage(outcome)]
      ensures !loading
      ensures input == old(input)
      ensures citationStyle == old(citationStyle) && language == old(language)
    {
      match outcome {
        case Reply(text) =>
          messages := messages + [Message(Assistant, text)];
        case Failure =>
          messages := messages + [Message(Assistant, FallbackReply)];
      }
      loading := false;
    }

    /** `handleSendMessage` as one step, the generator given as `generate`:
      the log grows by `SendStep`, and the generator sees the log from before
      the user's turn. */
    method SendMessage(generate: Request -> Outcome)
      modifies this
      ensures messages == SendStep(old(messages), old(input),
                                   generate(Request(old(input), old(messages), old(citationStyle), old(language))))
      ensures IsBlank(old(input)) ==> input == old(input) && loading == old(loading)
      ensures !IsBlank(old(input)) ==> input == [] && !loading
      ensures citationStyle == old(citationStyle) && language == old(language)
    {
      var request := BeginSend();
      if request.Some? {
        var outcome := generate(request.value);
        FinishSend(outcome);
      }
    }

    /** `handleKeyPress`: Enter sends unless a request is in flight; any
      other key, or Enter while loading, changes nothing. */
    method KeyPress(key: string, generate: Request -> Outcome)
      modifies this
      ensures key == "Enter" && !old(loading) ==>
        messages == SendStep(old(messages), old(input),
                             generate(Request(old(input), old(messages), old(citationStyle), old(language))))
      ensures key == "Enter" && !old(loading) && IsBlank(old(input)) ==>
        input == old(input) && loading == old(loading)
      ensures key == "Enter" && !old(loading) && !IsBlank(old(input)) ==> input == [] && !loading
      ensures !(key == "Enter" && !old(loading)) ==>
        messages == old(messages) && input == old(input) && loading == old(loading)
      ensures old(messages) <= messages
      ensures citationStyle == old(citationStyle) && language == old(language)
    {
      if key == "Enter" && !loading {
        SendMessage(generate);
      }
    }
  }
}
