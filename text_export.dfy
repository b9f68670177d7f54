/** The plain-text export of the conversation: every message becomes its role
    label, a line feed, its content with any presentation markup undone, and
    a blank line, in conversation order. */
module TextExport {
  import opened JsText
  import opened Messages
  import opened Presentation

  /** `msg.role === 'user' ? 'User' : 'AutoPaper Pro'` */
  function RoleLabel(role: Role): string {
    if role == User then "User" else "AutoPaper Pro"
  }

  /** The text of one message in the exported file. */
  function MessageText(m: Message): string {
    RoleLabel(m.role) + ":\n" + CleanContent(m.content) + "\n\n"
  }

  /** `messages.map(...).join('')` */
  function Transcript(messages: seq<Message>): string {
    Concat(seq(|messages|, i requires 0 <= i < |messages| => MessageText(messages[i])))
  }

  /** `handleExportChat`: nothing is exported for an empty conversation,
      otherwise the transcript is the file content. */
  function ExportChat(messages: seq<Message>): (file: Option<string>)
    ensures file == None <==> messages == []
  {
    if |messages| == 0 then None else Some(Transcript(messages))
  }

  /** The transcript of a conversation is the transcript of its first part
      followed by that of the rest: the file lists messages in order, each
      block depending on its own message only. */
  lemma TranscriptAppend(a: seq<Message>, b: seq<Message>)
    ensures Transcript(a + b) == Transcript(a) + Transcript(b)
  {
    var ta := seq(|a|, i requires 0 <= i < |a| => MessageText(a[i]));
    var tb := seq(|b|, i requires 0 <= i < |b| => MessageText(b[i]));
    var ab := a + b;
    assert seq(|ab|, i requires 0 <= i < |ab| => MessageText(ab[i])) == ta + tb;
    ConcatAppend(ta, tb);
  }

  /** Appending a message to the conversation appends exactly its block to
      the exported text. */
  lemma TranscriptSnoc(messages: seq<Message>, m: Message)
    ensures Transcript(messages + [m]) == Transcript(messages) + MessageText(m)
  {
    TranscriptAppend(messages, [m]);
    var t := seq(1, i requires 0 <= i < 1 => MessageText([m][i]));
    assert t == [MessageText(m)];
    assert Concat(t) == MessageText(m) + Concat([]);
  }

  /** Rendering every message before exporting changes nothing: the cleanup
      undoes the presentation encoding of content free of literal tags. */
  lemma TranscriptOfRendered(messages: seq<Message>)
    requires forall i :: 0 <= i < |messages| ==>
      !Contains(messages[i].content, SupOpen) && !Contains(messages[i].content, LineBreakTag)
    ensures Transcript(Rendered(messages)) == Transcript(messages)
  {
    var r := Rendered(messages);
    forall i | 0 <= i < |messages| ensures MessageText(r[i]) == MessageText(messages[i]) {
      assert r[i] == Message(messages[i].role, RenderMessageContent(messages[i].content));
      RoundTrip(messages[i].content);
      CleanIdentity(messages[i].content);
    }
    assert seq(|r|, i requires 0 <= i < |r| => MessageText(r[i]))
        == seq(|messages|, i requires 0 <= i < |messages| => MessageText(messages[i]));
  }

  /** What the chat window displays for each message. */
  function Rendered(messages: seq<Message>): seq<Message> {
    seq(|messages|, i requires 0 <= i < |messages| =>
      Message(messages[i].role, RenderMessageContent(messages[i].content)))
  }

  /** A message whose content holds no markup is exported verbatim under
      its label and followed by a blank line. */
  lemma MessageTextPlain(m: Message)
    requires '<' !in m.content
    ensures MessageText(m) == RoleLabel(m.role) + ":\n" + m.content + "\n\n"
  {
    NoAngleNoTag(m.content, SupOpen);
    NoAngleNoTag(m.content, LineBreakTag);
    CleanIdentity(m.content);
  }

  /** Two messages whose content holds no markup are exported verbatim,
      each under its label and followed by a blank line. */
  lemma TranscriptOfTwo(m1: Message, m2: Message)
    requires '<' !in m1.content && '<' !in m2.content
    ensures Transcript([m1, m2])
         == (RoleLabel(m1.role) + ":\n" + m1.content + "\n\n") + (RoleLabel(m2.role) + ":\n" + m2.content + "\n\n")
  {
    MessageTextPlain(m1);
    MessageTextPlain(m2);
    TranscriptSnoc([], m1);
    TranscriptSnoc([m1], m2);
    assert [m1] == [] + [m1] && [m1, m2] == [m1] + [m2];
    assert Transcript([]) == "";
  }

  /** A two-message exchange exported as text. */
  lemma ExportExample()
    ensures ExportChat([Message(User, "Hi"), Message(Assistant, "Sure^1 thing^2")])
         == Some("User:\nHi\n\nAutoPaper Pro:\nSure^1 thing^2\n\n")
  {
    TranscriptOfTwo(Message(User, "Hi"), Message(Assistant, "Sure^1 thing^2"));
    ExampleLayout();
  }

  lemma ExampleLayout()
    ensures ("User" + ":\n" + "Hi" + "\n\n") + ("AutoPaper Pro" + ":\n" + "Sure^1 thing^2" + "\n\n")
         == "User:\nHi\n\nAutoPaper Pro:\nSure^1 thing^2\n\n"
  {
  }
}
