/** The word-processor export: the conversation becomes an ordered list of
    paragraphs made of styled text runs. The model stops at this tree; turning
    it into a file is the document library's business. */
module DocExport {
  import opened JsText
  import opened Messages
  import opened Presentation

  /** A styled span of text (`TextRun`). */
  datatype Run = Run(text: string, bold: bool, superScript: bool)

  /** The four kinds of paragraph the exporter creates. */
  datatype Paragraph =
    | LabelPara(heading: Run)   // the role label, spacing 120 after
    | EmptyPara                 // `new Paragraph({ text: '' })` for a blank line
    | SpacerPara                // empty, spacing 240 after, between messages
    | RunsPara(runs: seq<Run>)  // one non-blank content line

  /** The bold role label heading each message. */
  function LabelRun(role: Role): Run {
    Run(if role == User then "User:" else "AutoPaper Pro:", true, false)
  }

  /** A segment that `/(\^\d+)/` matched: a caret and a non-empty digit run. */
  predicate IsMarker(seg: string) {
    |seg| >= 2 && seg[0] == '^' && forall i :: 1 <= i < |seg| ==> IsDigit(seg[i])
  }

  /** `line.split(/(\^\d+)/)`: the text between matches alternating with the
      matches themselves (kept because the group captures them), including
      the empty texts at either end and between adjacent markers. Its
      properties are stated by the lemmas below. */
  function SplitOnMarkers(s: string): (segs: seq<string>)
    ensures |segs| % 2 == 1
    decreases |s|
  {
    if s == [] then [""]
    else if MarkerAt(s) then
      var n := MarkerLen(s);
      ["", s[..n]] + SplitOnMarkers(s[n..])
    else
      var rest := SplitOnMarkers(s[1..]);
      [[s[0]] + rest[0]] + rest[1..]
  }

  /** The segments put back together give the line. */
  lemma {:induction false} SplitOnMarkersJoin(s: string)
    ensures Concat(SplitOnMarkers(s)) == s
    decreases |s|
  {
    if s != [] {
      if MarkerAt(s) {
        SplitOnMarkersJoin(s[MarkerLen(s)..]);
        JoinMarkerStep(s);
      } else {
        SplitOnMarkersJoin(s[1..]);
        JoinPlainStep(s);
      }
    }
  }

  lemma JoinMarkerStep(s: string)
    requires MarkerAt(s) && Concat(SplitOnMarkers(s[MarkerLen(s)..])) == s[MarkerLen(s)..]
    ensures Concat(SplitOnMarkers(s)) == s
  {
    var n := MarkerLen(s);
    ConcatAppend(["", s[..n]], SplitOnMarkers(s[n..]));
    assert Concat(["", s[..n]]) == "" + (s[..n] + Concat([]));
    assert s == s[..n] + s[n..];
  }

  lemma JoinPlainStep(s: string)
    requires s != [] && !MarkerAt(s) && Concat(SplitOnMarkers(s[1..])) == s[1..]
    ensures Concat(SplitOnMarkers(s)) == s
  {
    var rest := SplitOnMarkers(s[1..]);
    var segs := [[s[0]] + rest[0]] + rest[1..];
    assert segs[0] == [s[0]] + rest[0] && segs[1..] == rest[1..];
    assert Concat(rest) == rest[0] + Concat(rest[1..]);
    AppendAssoc([s[0]], rest[0], Concat(rest[1..]));
    assert s == [s[0]] + s[1..];
  }

  /** The first segment is a prefix of the line. */
  lemma SplitOnMarkersHead(s: string)
    ensures SplitOnMarkers(s)[0] != [] ==> s != [] && SplitOnMarkers(s)[0][0] == s[0]
  {
    var segs := SplitOnMarkers(s);
    SplitOnMarkersJoin(s);
    assert Concat(segs) == segs[0] + Concat(segs[1..]);
  }

  /** Every odd segment is a match: a caret and a non-empty digit run. */
  lemma {:induction false} SplitOnMarkersMatches(s: string)
    ensures forall k :: 0 <= k < |SplitOnMarkers(s)| && k % 2 == 1 ==> IsMarker(SplitOnMarkers(s)[k])
    decreases |s|
  {
    if s != [] {
      var segs := SplitOnMarkers(s);
      if MarkerAt(s) {
        var n := MarkerLen(s);
        var rest := SplitOnMarkers(s[n..]);
        SplitOnMarkersMatches(s[n..]);
        forall k | 0 <= k < |segs| && k % 2 == 1 ensures IsMarker(segs[k]) {
          if k >= 2 {
            assert segs[k] == rest[k - 2];
          }
        }
      } else {
        var rest := SplitOnMarkers(s[1..]);
        SplitOnMarkersMatches(s[1..]);
        forall k | 0 <= k < |segs| && k % 2 == 1 ensures IsMarker(segs[k]) {
          assert segs[k] == rest[k];
        }
      }
    }
  }

  /** Every even segment is text: it holds no marker, and one that follows a
      match does not start with a digit, since the match took the whole
      digit run. */
  lemma {:induction false} SplitOnMarkersTexts(s: string)
    ensures TextSegments(SplitOnMarkers(s))
    decreases |s|
  {
    if s != [] {
      if MarkerAt(s) {
        SplitOnMarkersTexts(s[MarkerLen(s)..]);
        TextsMarkerStep(s);
      } else {
        SplitOnMarkersTexts(s[1..]);
        TextsPlainStep(s);
      }
    }
  }

  /** The even segments hold no marker, and those after the first do not
      start with a digit. */
  predicate TextSegments(segs: seq<string>) {
    (forall k :: 0 <= k < |segs| && k % 2 == 0 ==> !HasMarker(segs[k]))
    && (forall k :: 0 < k < |segs| && k % 2 == 0 && segs[k] != [] ==> !IsDigit(segs[k][0]))
  }

  lemma TextsMarkerStep(s: string)
    requires MarkerAt(s) && TextSegments(SplitOnMarkers(s[MarkerLen(s)..]))
    ensures TextSegments(SplitOnMarkers(s))
  {
    var n := MarkerLen(s);
    var segs := SplitOnMarkers(s);
    var rest := SplitOnMarkers(s[n..]);
    assert segs == ["", s[..n]] + rest;
    SplitOnMarkersHead(s[n..]);
    forall k | 0 <= k < |segs| && k % 2 == 0
      ensures !HasMarker(segs[k]) && (k > 0 && segs[k] != [] ==> !IsDigit(segs[k][0]))
    {
      if k >= 2 {
        assert segs[k] == rest[k - 2];
        if k == 2 && rest[0] != [] {
          assert rest[0][0] == s[n];
        }
      }
    }
  }

  lemma TextsPlainStep(s: string)
    requires s != [] && !MarkerAt(s) && TextSegments(SplitOnMarkers(s[1..]))
    ensures TextSegments(SplitOnMarkers(s))
  {
    var segs := SplitOnMarkers(s);
    var rest := SplitOnMarkers(s[1..]);
    assert segs == [[s[0]] + rest[0]] + rest[1..];
    SplitOnMarkersHead(s[1..]);
    assert !HasMarker(segs[0]) by {
      assert !HasMarker([s[0]]);
      NoMarkerAppend([s[0]], rest[0]);
    }
    forall k | 0 < k < |segs| && k % 2 == 0
      ensures !HasMarker(segs[k]) && (segs[k] != [] ==> !IsDigit(segs[k][0]))
    {
      assert segs[k] == rest[k];
    }
  }

  /** The run one non-empty segment becomes: `segment.startsWith('^')`
      decides, so any segment opening with a caret becomes a superscript run
      without its caret, marker or not. */
  function SegmentRun(segment: string): Run
    requires segment != []
  {
    if segment[0] == '^' then Run(segment[1..], false, true) else Run(segment, false, false)
  }

  /** The runs of a list of segments, empty segments skipped. */
  function SegmentRuns(segments: seq<string>): seq<Run> {
    if segments == [] then []
    else
      var last := segments[|segments| - 1];
      SegmentRuns(segments[..|segments| - 1]) + (if last == [] then [] else [SegmentRun(last)])
  }

  /** The runs of one content line. */
  function LineRuns(line: string): seq<Run> {
    SegmentRuns(SplitOnMarkers(line))
  }

  /** The paragraphs one content line contributes: an empty paragraph for a
      blank line, otherwise a paragraph of its runs if it has any. */
  function LineParagraphs(line: string): seq<Paragraph> {
    if Trim(line) == [] then [EmptyPara]
    else
      var runs := LineRuns(line);
      if |runs| > 0 then [RunsPara(runs)] else []
  }

  function LinesParagraphs(lines: seq<string>): seq<Paragraph> {
    if lines == [] then []
    else LinesParagraphs(lines[..|lines| - 1]) + LineParagraphs(lines[|lines| - 1])
  }

  /** The paragraphs of one message: its label, then one per content line. */
  function MessageParagraphs(m: Message): seq<Paragraph> {
    [LabelPara(LabelRun(m.role))] + LinesParagraphs(SplitLines(m.content))
  }

  /** The block of paragraphs `f` gives each message, in message order. */
  function MapBlocks(f: Message -> seq<Paragraph>, messages: seq<Message>): (blocks: seq<seq<Paragraph>>)
    ensures |blocks| == |messages|
    ensures forall k :: 0 <= k < |messages| ==> blocks[k] == f(messages[k])
  {
    if messages == [] then []
    else MapBlocks(f, messages[..|messages| - 1]) + [f(messages[|messages| - 1])]
  }

  lemma MapBlocksSnoc(f: Message -> seq<Paragraph>, messages: seq<Message>, m: Message)
    ensures MapBlocks(f, messages + [m]) == MapBlocks(f, messages) + [f(m)]
  {
    assert (messages + [m])[..|messages|] == messages;
  }

  /** Blocks of paragraphs in order, one spacer between consecutive blocks
      and none after the last. */
  function Interleave(blocks: seq<seq<Paragraph>>): seq<Paragraph> {
    if blocks == [] then []
    else
      Interleave(blocks[..|blocks| - 1])
      + (if |blocks| > 1 then [SpacerPara] else [])
      + blocks[|blocks| - 1]
  }

  /** The document body: each message's paragraphs in order, a spacer
      between consecutive messages. */
  function Document(messages: seq<Message>): seq<Paragraph> {
    Interleave(MapBlocks(MessageParagraphs, messages))
  }

  /** The `segments.forEach` callback run over one line's segments: one run
      per non-empty segment, in order. */
  method SegmentsToRuns(segments: seq<string>) returns (lineParts: seq<Run>)
    ensures lineParts == SegmentRuns(segments)
  {
    lineParts := [];
    var k := 0;
    while k < |segments|
      invariant 0 <= k <= |segments|
      invariant lineParts == SegmentRuns(segments[..k])
    {
      var segment := segments[k];
      if segment != "" {
        if segment[0] == '^' {
          lineParts := lineParts + [Run(segment[1..], false, true)];
        } else {
          lineParts := lineParts + [Run(segment, false, false)];
        }
      }
      assert segments[..k + 1][..k] == segments[..k];
      k := k + 1;
    }
    assert segments[..k] == segments;
  }

  /** The `contentLines.forEach` callback for one line: it pushes the line's
      paragraphs onto the document. */
  method PushLine(docChildren: seq<Paragraph>, line: string) returns (result: seq<Paragraph>)
    ensures result == docChildren + LineParagraphs(line)
  {
    if Trim(line) == "" {
      return docChildren + [EmptyPara];
    }
    var lineParts := SegmentsToRuns(SplitOnMarkers(line));
    if |lineParts| > 0 {
      result := docChildren + [RunsPara(lineParts)];
    } else {
      result := docChildren;
    }
  }

  /** The `messages.forEach` callback for the message at `index`: its label,
      its lines, and a spacer unless it is the last message. */
  method PushMessage(docChildren: seq<Paragraph>, messages: seq<Message>, index: nat)
    returns (result: seq<Paragraph>)
    requires index < |messages|
    ensures result == docChildren + MessageParagraphs(messages[index])
                      + (if index < |messages| - 1 then [SpacerPara] else [])
  {
    var msg := messages[index];
    var contentLines := SplitLines(msg.content);
    ghost var head := docChildren + [LabelPara(LabelRun(msg.role))];
    result := docChildren + [LabelPara(LabelRun(msg.role))];
    var j := 0;
    while j < |contentLines|
      invariant 0 <= j <= |contentLines|
      invariant result == head + LinesParagraphs(contentLines[..j])
    {
      LinesParagraphsStep(contentLines, j);
      AppendAssoc(head, LinesParagraphs(contentLines[..j]), LineParagraphs(contentLines[j]));
      result := PushLine(result, contentLines[j]);
      j := j + 1;
    }
    MessageParagraphsAppend(docChildren, msg, contentLines[..j]);
    if index < |messages| - 1 {
      result := result + [SpacerPara];
    }
  }

  lemma LinesParagraphsStep(lines: seq<string>, j: nat)
    requires j < |lines|
    ensures LinesParagraphs(lines[..j + 1]) == LinesParagraphs(lines[..j]) + LineParagraphs(lines[j])
  {
    assert lines[..j + 1][..j] == lines[..j];
  }

  lemma MessageParagraphsAppend(docChildren: seq<Paragraph>, m: Message, lines: seq<string>)
    requires lines == SplitLines(m.content)
    ensures docChildren + [LabelPara(LabelRun(m.role))] + LinesParagraphs(lines)
         == docChildren + MessageParagraphs(m)
  {
    AppendAssoc(docChildren, [LabelPara(LabelRun(m.role))], LinesParagraphs(lines));
  }

  /** `handleExportDocx` up to the document tree: nothing for an empty
      conversation, otherwise the paragraphs the callbacks push. */
  method ExportDocx(messages: seq<Message>) returns (doc: Option<seq<Paragraph>>)
    ensures messages == [] ==> doc == None
    ensures messages != [] ==> doc == Some(Document(messages))
  {
    if |messages| == 0 {
      return None;
    }
    var docChildren: seq<Paragraph> := [];
    var index := 0;
    while index < |messages|
      invariant 0 <= index <= |messages|
      invariant docChildren == Document(messages[..index]) + (if 0 < index < |messages| then [SpacerPara] else [])
    {
      ghost var before := docChildren;
      docChildren := PushMessage(docChildren, messages, index);
      DocumentStep(messages, index, before, docChildren);
      index := index + 1;
    }
    assert docChildren == Document(messages[..index]);
    assert messages[..index] == messages;
    return Some(docChildren);
  }

  /** One pass of the export loop: if the paragraphs so far are the document
      of the first `index` messages (plus the spacer pushed after the last of
      them), pushing message `index` gives the document of the first
      `index + 1`. */
  lemma DocumentStep(messages: seq<Message>, index: nat, before: seq<Paragraph>, after: seq<Paragraph>)
    requires index < |messages|
    requires before == Document(messages[..index]) + (if 0 < index < |messages| then [SpacerPara] else [])
    requires after == before + MessageParagraphs(messages[index])
                      + (if index < |messages| - 1 then [SpacerPara] else [])
    ensures after == Document(messages[..index + 1]) + (if 0 < index + 1 < |messages| then [SpacerPara] else [])
  {
    MappedStep(MessageParagraphs, messages, index, before, after);
  }

  /** `DocumentStep` for any per-message block function. */
  lemma MappedStep(f: Message -> seq<Paragraph>, messages: seq<Message>, index: nat,
                   before: seq<Paragraph>, after: seq<Paragraph>)
    requires index < |messages|
    requires before == Interleave(MapBlocks(f, messages[..index])) + (if 0 < index then [SpacerPara] else [])
    requires after == before + f(messages[index]) + (if index < |messages| - 1 then [SpacerPara] else [])
    ensures after == Interleave(MapBlocks(f, messages[..index + 1])) + (if index + 1 < |messages| then [SpacerPara] else [])
  {
    var blocks := MapBlocks(f, messages[..index]);
    assert messages[..index + 1] == messages[..index] + [messages[index]];
    MapBlocksSnoc(f, messages[..index], messages[index]);
    InterleaveSnoc(blocks, f(messages[index]));
    assert (blocks != []) == (index > 0);
  }

  // ---------------------------------------------------------------------
  // Runs of a line

  /** The source text a run stands for: a superscript run gets its caret back. */
  function RunSource(r: Run): string {
    if r.superScript then "^" + r.text else r.text
  }

  function RunsSource(runs: seq<Run>): string {
    if runs == [] then [] else RunsSource(runs[..|runs| - 1]) + RunSource(runs[|runs| - 1])
  }

  lemma {:induction false} RunsSourceAppend(a: seq<Run>, b: seq<Run>)
    ensures RunsSource(a + b) == RunsSource(a) + RunsSource(b)
    decreases |b|
  {
    if b == [] {
      assert a + b == a;
    } else {
      var init, last := b[..|b| - 1], b[|b| - 1];
      assert b == init + [last];
      assert a + b == (a + init) + [last];
      RunsSourceSnoc(a + init, last);
      RunsSourceAppend(a, init);
      RunsSourceSnoc(init, last);
      AppendAssoc(RunsSource(a), RunsSource(init), RunSource(last));
    }
  }

  lemma RunsSourceSnoc(runs: seq<Run>, r: Run)
    ensures RunsSource(runs + [r]) == RunsSource(runs) + RunSource(r)
  {
    assert (runs + [r])[..|runs|] == runs;
  }

  lemma {:induction false} SegmentRunsSource(segments: seq<string>)
    ensures RunsSource(SegmentRuns(segments)) == Concat(segments)
  {
    if segments != [] {
      var init, last := segments[..|segments| - 1], segments[|segments| - 1];
      assert segments == init + [last];
      SegmentRunsSource(init);
      SegmentRunsStep(init, last);
      var tail: seq<Run> := if last == [] then [] else [SegmentRun(last)];
      RunsSourceAppend(SegmentRuns(init), tail);
      SegmentRunSource(last);
      ConcatSnoc(init, last);
    }
  }

  /** A non-empty segment's run stands for the segment itself. */
  lemma SegmentRunSource(segment: string)
    ensures RunsSource(if segment == [] then [] else [SegmentRun(segment)]) == segment
  {
    if segment != [] {
      var r := SegmentRun(segment);
      assert RunsSource([r]) == RunsSource([]) + RunSource(r);
      assert segment == [segment[0]] + segment[1..];
    }
  }

  /** Putting the caret back on every superscript run and joining the run
      texts gives the line back exactly: runs keep left-to-right order and
      lose no character. */
  lemma LineReconstruction(line: string)
    ensures RunsSource(LineRuns(line)) == line
  {
    SegmentRunsSource(SplitOnMarkers(line));
    SplitOnMarkersJoin(line);
  }

  /** Every run of a line is unbolded; every plain run is a non-empty segment
      that does not open with a caret. */
  lemma {:induction false} SegmentRunsShape(segments: seq<string>)
    ensures forall r :: r in SegmentRuns(segments) ==>
      !r.bold && (!r.superScript ==> r.text != [] && r.text[0] != '^')
  {
    if segments != [] {
      SegmentRunsShape(segments[..|segments| - 1]);
    }
  }

  /** Each content line yields exactly one paragraph: an empty paragraph when
      it is blank after trimming, otherwise a paragraph of at least one run,
      so the guard on the run count never drops a line. */
  lemma LineParagraphsOne(line: string)
    ensures |LineParagraphs(line)| == 1
    ensures Trim(line) == [] ==> LineParagraphs(line) == [EmptyPara]
    ensures Trim(line) != [] ==> LineRuns(line) != [] && LineParagraphs(line) == [RunsPara(LineRuns(line))]
  {
    if Trim(line) != [] {
      assert line != [];
      LineReconstruction(line);
    }
  }

  /** The paragraphs of a message's lines: exactly one per line, in order. */
  lemma {:induction false} LinesParagraphsEach(lines: seq<string>)
    ensures |LinesParagraphs(lines)| == |lines|
    ensures forall j :: 0 <= j < |lines| ==> [LinesParagraphs(lines)[j]] == LineParagraphs(lines[j])
  {
    if lines != [] {
      var init := lines[..|lines| - 1];
      LinesParagraphsEach(init);
      LineParagraphsOne(lines[|lines| - 1]);
      forall j | 0 <= j < |lines| ensures [LinesParagraphs(lines)[j]] == LineParagraphs(lines[j]) {
        if j < |lines| - 1 {
          assert lines[j] == init[j];
        }
      }
    }
  }

  /** A message contributes its label followed by one paragraph per line of
      its content. */
  lemma MessageParagraphsShape(m: Message)
    ensures |MessageParagraphs(m)| == 1 + |SplitLines(m.content)|
    ensures MessageParagraphs(m)[0] == LabelPara(LabelRun(m.role))
    ensures forall j :: 0 <= j < |SplitLines(m.content)| ==>
      [MessageParagraphs(m)[j + 1]] == LineParagraphs(SplitLines(m.content)[j])
  {
    LinesParagraphsEach(SplitLines(m.content));
  }

  // ---------------------------------------------------------------------
  // Document structure

  lemma {:induction false} NoSpacerInLines(lines: seq<string>)
    ensures SpacerPara !in LinesParagraphs(lines)
  {
    if lines != [] {
      NoSpacerInLines(lines[..|lines| - 1]);
      LineParagraphsNoSpacer(lines[|lines| - 1]);
    }
  }

  lemma LineParagraphsNoSpacer(line: string)
    ensures SpacerPara !in LineParagraphs(line)
  {
    if Trim(line) != [] {
      var runs := LineRuns(line);
      assert LineParagraphs(line) == if |runs| > 0 then [RunsPara(runs)] else [];
    }
  }

  /** A message's paragraphs hold no spacer. */
  lemma MessageNoSpacer(m: Message)
    ensures SpacerPara !in MessageParagraphs(m)
  {
    NoSpacerInLines(SplitLines(m.content));
  }

  /** Interleaving blocks that hold no spacer gives exactly one spacer fewer
      than there are blocks. */
  lemma {:induction false} InterleaveSpacers(blocks: seq<seq<Paragraph>>)
    requires blocks != []
    requires forall k :: 0 <= k < |blocks| ==> SpacerPara !in blocks[k]
    ensures multiset(Interleave(blocks))[SpacerPara] == |blocks| - 1
  {
    var last := blocks[|blocks| - 1];
    assert multiset(last)[SpacerPara] == 0;
    if |blocks| > 1 {
      InterleaveSpacers(blocks[..|blocks| - 1]);
    }
  }

  /** Exactly one spacer between consecutive messages and none after the
      last: a conversation of n messages has n - 1 spacers. */
  lemma DocumentSpacers(messages: seq<Message>)
    requires messages != []
    ensures multiset(Document(messages))[SpacerPara] == |messages| - 1
  {
    var blocks := MapBlocks(MessageParagraphs, messages);
    forall k | 0 <= k < |blocks| ensures SpacerPara !in blocks[k] {
      MessageNoSpacer(messages[k]);
    }
    InterleaveSpacers(blocks);
  }

  /** One more block is appended after a spacer, unless it is the first. */
  lemma InterleaveSnoc(blocks: seq<seq<Paragraph>>, b: seq<Paragraph>)
    ensures Interleave(blocks + [b]) == Interleave(blocks) + (if blocks != [] then [SpacerPara] else []) + b
  {
    assert (blocks + [b])[..|blocks|] == blocks;
  }

  lemma {:induction false} InterleaveAppend(x: seq<seq<Paragraph>>, y: seq<seq<Paragraph>>)
    requires x != [] && y != []
    ensures Interleave(x + y) == Interleave(x) + [SpacerPara] + Interleave(y)
    decreases |y|
  {
    var init, last := y[..|y| - 1], y[|y| - 1];
    assert y == init + [last];
    if init == [] {
      InterleaveSnoc(x, last);
      InterleaveSnoc([], last);
    } else {
      assert x + y == (x + init) + [last];
      InterleaveSnoc(x + init, last);
      InterleaveAppend(x, init);
      InterleaveSnoc(init, last);
      SpacedAssoc(Interleave(x), Interleave(init), last);
    }
  }

  lemma {:induction false} MapBlocksAppend(f: Message -> seq<Paragraph>, a: seq<Message>, b: seq<Message>)
    ensures MapBlocks(f, a + b) == MapBlocks(f, a) + MapBlocks(f, b)
    decreases |b|
  {
    if b == [] {
      assert a + b == a;
    } else {
      var init, last := b[..|b| - 1], b[|b| - 1];
      assert (a + b)[..|a + b| - 1] == a + init && (a + b)[|a + b| - 1] == last;
      MapBlocksAppend(f, a, init);
      assert MapBlocks(f, b) == MapBlocks(f, init) + [f(last)];
    }
  }

  /** The document of a conversation split in two is the first part's
      document, one spacer, and the second part's: message order is kept and
      every message's paragraphs stay together. */
  lemma DocumentAppend(a: seq<Message>, b: seq<Message>)
    requires a != [] && b != []
    ensures Document(a + b) == Document(a) + [SpacerPara] + Document(b)
  {
    MapBlocksAppend(MessageParagraphs, a, b);
    InterleaveAppend(MapBlocks(MessageParagraphs, a), MapBlocks(MessageParagraphs, b));
  }

  lemma SpacedAssoc(x: seq<Paragraph>, y: seq<Paragraph>, z: seq<Paragraph>)
    ensures x + [SpacerPara] + y + [SpacerPara] + z == x + [SpacerPara] + (y + [SpacerPara] + z)
  {
  }

  // ---------------------------------------------------------------------
  // Examples

  /** A cited clause: plain text, the superscript citation, plain text. */
  lemma RunsExample()
    ensures LineRuns("A^1 B") == [Run("A", false, false), Run("1", false, true), Run(" B", false, false)]
  {
    assert "A^1 B" == "A" + "^" + "1" + " B";
    NoCaretNoMarker("A");
    NoCaretNoMarker(" B");
    ClauseRuns("A", "1", " B");
  }

  /** Adjacent markers become separate superscript runs. */
  lemma AdjacentMarkersExample()
    ensures LineRuns("^1^2") == [Run("1", false, true), Run("2", false, true)]
  {
    assert "^1^2" == "^" + "1" + "^" + "2";
    MarkerPairRuns("1", "2");
  }

  /** Two markers back to back give two superscript runs: the empty texts
      around and between them yield no run. */
  lemma MarkerPairRuns(d: string, e: string)
    requires |d| >= 1 && forall i :: 0 <= i < |d| ==> IsDigit(d[i])
    requires |e| >= 1 && forall i :: 0 <= i < |e| ==> IsDigit(e[i])
    ensures LineRuns("^" + d + "^" + e) == [Run(d, false, true), Run(e, false, true)]
  {
    var m1, m2 := "^" + d, "^" + e;
    SplitTwoMarkers(d, e);
    var segs := ["", m1, "", m2, ""];
    assert segs == ["", m1, "", m2] + [""];
    assert ["", m1, "", m2] == ["", m1, ""] + [m2];
    assert ["", m1, ""] == ["", m1] + [""];
    assert ["", m1] == [""] + [m1];
    assert [""] == [] + [""];
    SegmentRunsStep(["", m1, "", m2], "");
    SegmentRunsStep(["", m1, ""], m2);
    SegmentRunsStep(["", m1], "");
    SegmentRunsStep([""], m1);
    SegmentRunsStep([], "");
    AppendSlices("^", d);
    AppendSlices("^", e);
  }

  /** Two markers back to back: empty texts before, between and after them. */
  lemma SplitTwoMarkers(d: string, e: string)
    requires |d| >= 1 && forall i :: 0 <= i < |d| ==> IsDigit(d[i])
    requires |e| >= 1 && forall i :: 0 <= i < |e| ==> IsDigit(e[i])
    ensures SplitOnMarkers("^" + d + "^" + e) == ["", "^" + d, "", "^" + e, ""]
  {
    var u := "^" + e;
    var t := "^" + d + u;
    AppendAssoc("^" + d, "^", e);
    AppendAssoc("^", d, u);
    AppendSlices("^", d + u);
    assert MarkerAt(t);
    DigitRunExact(d + u, |d|);
    AppendSlices("^" + d, u);
    SplitAtMarker(t, 1 + |d|);
    SplitMarkerThen(e, []);
    assert u + [] == u;
  }

  lemma SplitAtMarker(t: string, n: nat)
    requires MarkerAt(t) && MarkerLen(t) == n
    ensures SplitOnMarkers(t) == ["", t[..n]] + SplitOnMarkers(t[n..])
  {
  }

  /** The caret quirk: a text segment that happens to open with a caret
      (here `^y`, right after the marker `^1`) also becomes a superscript run,
      its caret dropped. */
  lemma CaretQuirkExample()
    ensures LineRuns("x^1^y") == [Run("x", false, false), Run("1", false, true), Run("y", false, true)]
  {
    assert "x^1^y" == "x" + "^" + "1" + "^y";
    CaretThenPlain('y');
    NoCaretNoMarker("x");
    ClauseRuns("x", "1", "^y");
  }

  /** A caret followed by a non-digit is not a marker. */
  lemma CaretThenPlain(c: char)
    requires c != '^' && !IsDigit(c)
    ensures !HasMarker(['^', c])
  {
    NoCaretNoMarker([c]);
    assert ['^', c][1..] == [c];
  }

  /** The runs of a cited clause: the text before the citation, if any, as
      typed; the citation's digits as a superscript run; then the text after
      it, if any. */
  lemma ClauseRuns(a: string, d: string, b: string)
    requires !HasMarker(a)
    requires |d| >= 1 && forall i :: 0 <= i < |d| ==> IsDigit(d[i])
    requires (b == [] || !IsDigit(b[0])) && !HasMarker(b)
    ensures LineRuns(a + "^" + d + b)
         == (if a == [] then [] else [SegmentRun(a)]) + [Run(d, false, true)]
            + (if b == [] then [] else [SegmentRun(b)])
  {
    SplitCitedClause(a, d, b);
    SegmentRunsOfThree(a, "^" + d, b);
    AppendSlices("^", d);
  }

  lemma SegmentRunsStep(init: seq<string>, last: string)
    ensures SegmentRuns(init + [last])
         == SegmentRuns(init) + (if last == [] then [] else [SegmentRun(last)])
  {
    assert (init + [last])[..|init|] == init;
  }

  /** Three segments, the middle one non-empty, give its run between those
      of the outer two; an empty outer segment gives none. */
  lemma SegmentRunsOfThree(a: string, m: string, b: string)
    requires m != []
    ensures SegmentRuns([a, m, b])
         == (if a == [] then [] else [SegmentRun(a)]) + [SegmentRun(m)]
            + (if b == [] then [] else [SegmentRun(b)])
  {
    assert [a, m, b] == [a, m] + [b];
    assert [a, m] == [a] + [m];
    assert [a] == [] + [a];
    SegmentRunsStep([a, m], b);
    SegmentRunsStep([a], m);
    SegmentRunsStep([], a);
  }

  /** A line made of marker-free text, one marker and marker-free text that
      does not start with a digit splits into exactly those three segments. */
  lemma SplitCitedClause(a: string, d: string, b: string)
    requires !HasMarker(a)
    requires |d| >= 1 && forall i :: 0 <= i < |d| ==> IsDigit(d[i])
    requires (b == [] || !IsDigit(b[0])) && !HasMarker(b)
    ensures SplitOnMarkers(a + "^" + d + b) == [a, "^" + d, b]
  {
    var t := "^" + d + b;
    AppendAssoc(a, "^", d);
    AppendAssoc(a, "^" + d, b);
    AppendAssoc("^", d, b);
    SplitPlainPrefix(a, t);
    SplitMarkerThen(d, b);
    assert a + [] == a;
  }

  /** A marker followed by marker-free text that does not start with a
      digit: an empty text, the match, and that text. */
  lemma SplitMarkerThen(d: string, b: string)
    requires |d| >= 1 && forall i :: 0 <= i < |d| ==> IsDigit(d[i])
    requires (b == [] || !IsDigit(b[0])) && !HasMarker(b)
    ensures SplitOnMarkers("^" + d + b) == ["", "^" + d, b]
  {
    var t := "^" + d + b;
    AppendAssoc("^", d, b);
    AppendSlices("^", d + b);
    assert MarkerAt(t);
    if b == [] {
      assert d + b == d;
      DigitRunIsRun(d);
    } else {
      DigitRunExact(d + b, |d|);
    }
    AppendSlices("^" + d, b);
    SplitAtMarker(t, 1 + |d|);
    SplitOfPlain(b);
  }

  /** `segs` with `x` put in front of its first segment. */
  function PrependText(x: string, segs: seq<string>): seq<string>
    requires segs != []
  {
    [x + segs[0]] + segs[1..]
  }

  lemma PrependTextTwice(c: char, x: string, segs: seq<string>)
    requires segs != []
    ensures PrependText([c], PrependText(x, segs)) == PrependText([c] + x, segs)
  {
    AppendAssoc([c], x, segs[0]);
  }

  /** Marker-free text at the head, followed by text that cannot complete a
      marker it ends with, joins the first segment and leaves the other
      segments alone. */
  lemma {:induction false} SplitPlainPrefix(a: string, t: string)
    requires !HasMarker(a) && (t == [] || !IsDigit(t[0]))
    ensures SplitOnMarkers(a + t) == PrependText(a, SplitOnMarkers(t))
  {
    if a == [] {
      var segs := SplitOnMarkers(t);
      assert a + t == t;
      assert a + segs[0] == segs[0];
      assert [segs[0]] + segs[1..] == segs;
    } else {
      SplitPlainPrefix(a[1..], t);
      assert a + t == [a[0]] + (a[1..] + t);
      PlainHead(a, t);
      SplitPlainThen(a[0], a[1..] + t);
      PrependTextTwice(a[0], a[1..], SplitOnMarkers(t));
      assert [a[0]] + a[1..] == a;
    }
  }

  /** Marker-free text followed by anything that does not start with a
      digit does not open a marker. */
  lemma PlainHead(a: string, t: string)
    requires a != [] && !HasMarker(a) && (t == [] || !IsDigit(t[0]))
    ensures !MarkerAt([a[0]] + (a[1..] + t))
  {
    var u := [a[0]] + (a[1..] + t);
    if |a| >= 2 {
      assert !MarkerAt(a);
      assert u[0] == a[0] && u[1] == a[1];
    } else if t != [] {
      assert u[1] == t[0];
    }
  }

  /** A head character that does not open a marker joins the first segment. */
  lemma SplitPlainThen(c: char, t: string)
    requires !MarkerAt([c] + t)
    ensures SplitOnMarkers([c] + t) == PrependText([c], SplitOnMarkers(t))
  {
    assert ([c] + t)[1..] == t;
  }

  /** Text without markers is a single segment. */
  lemma {:induction false} SplitOfPlain(s: string)
    requires !HasMarker(s)
    ensures SplitOnMarkers(s) == [s]
  {
    if s != [] {
      SplitOfPlain(s[1..]);
      assert !MarkerAt(s);
      assert SplitOnMarkers(s) == [[s[0]] + s[1..]] + [s[1..]][1..];
      assert s == [s[0]] + s[1..];
    }
  }
}
