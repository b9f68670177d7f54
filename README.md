# AutoPaper Pro chat component: citation markers, exports and the send step

This project models the logic inside the chat component of AutoPaper Pro
(`components/ChatInterface.tsx`). Assistant replies cite their sources with
compact markers: a caret followed by digits, such as `^1`.

- `renderMessageContent` presents a message as HTML. Every marker becomes a
  `<sup>` tag and every line feed becomes `<br />`.
- The plain-text export writes each message under its role label. It first
  undoes the presentation tags.
- The word-processor export builds a tree of paragraphs and styled runs. The
  digits of a marker become a superscript run.
- The send handler appends the user's turn, asks the content generator for a
  reply, and appends exactly one assistant turn. The reply is either the
  generator's text or a fixed apology.

Modules:

- `JsText` (`js_text.dfy`) states the JavaScript string built-ins the
  component relies on: `\d`, greedy `\d+`, `trim`, `split('\n')` and
  `join('')`. The regexes carry no `u` flag, so `\d` means `[0-9]`.
- `Messages` (`messages.dfy`) holds the records: `Message`, `Role`, and the
  citation-style and language enumerations.
- `Presentation` (`presentation.dfy`) models `renderMessageContent` and the
  cleanup the plain-text export applies to each message. It proves the
  round trip between them.
- `TextExport` (`text_export.dfy`) models the plain-text file content.
- `DocExport` (`doc_export.dfy`) models the paragraph/run tree as a datatype.
  The source builds it with nested `forEach` callbacks that push onto
  arrays. Each `forEach` is modelled as a loop: over the messages in
  `ExportDocx`, over the lines in `PushMessage`, and over the segments in
  `SegmentsToRuns`; the push of one line's paragraph is the method
  `PushLine`. Each method is proved against a specification function.
- `Session` (`session.dfy`) models the component state as a class: messages,
  input, loading flag, citation style and language. Its methods are the
  handlers. The content generator is a function parameter from the request
  to `Reply(text)` or `Failure`.

The regex replacements are modelled as global, left-to-right, non-overlapping,
greedy scans. `split` with a capturing group keeps the matched markers. It
yields empty strings at both ends and between adjacent markers.

The word-processor export classifies runs with `segment.startsWith('^')`
(`components/ChatInterface.tsx:113`), not with the marker pattern. The model
follows the code. A plain segment that happens to begin with a caret also
becomes a superscript run, and its caret is dropped.
`DocExport.CaretQuirkExample` shows this for the line `x^1^y`.

## Model

| member | source | states |
|---|---|---|
| JsText.DigitRun | components/ChatInterface.tsx:148 | the greedy `\d+` run at the head of a string: every character in it is a digit and the character after it is not |
| JsText.TrimStart | components/ChatInterface.tsx:27 | the leading-whitespace half of `trim()`: drops exactly the leading JavaScript whitespace and keeps the rest as a suffix |
| JsText.TrimEnd | components/ChatInterface.tsx:103 | the trailing half of `trim()`: drops exactly the trailing JavaScript whitespace and keeps the rest as a prefix |
| JsText.Trim | components/ChatInterface.tsx:27 | `trim()` as `TrimEnd` after `TrimStart`; `TrimEmptyIff` states when the result is empty |
| JsText.TrimEmptyIff | components/ChatInterface.tsx:103 | `line.trim() === ''` holds exactly when every character of the line is whitespace |
| JsText.ConcatAppend | components/ChatInterface.tsx:64 | `join('')` of two lists of parts is the join of the first followed by the join of the second |
| JsText.ConcatSnoc | components/ChatInterface.tsx:64 | joining parts with one more part at the end appends that part |
| JsText.SplitLines | components/ChatInterface.tsx:101 | `split('\n')` yields at least one piece, no piece holds a line feed, and re-joining the pieces with line feeds gives the content back |
| Presentation.ReplaceMarkers | components/ChatInterface.tsx:148 | `.replace(/\^(\d+)/g, '<sup>$1</sup>')` as a left-to-right scan taking each maximal match; `RenderMarkerStep`, `ReplaceMarkersOfPlain` and `ReplaceMarkersOfMarker` state its cases |
| Presentation.ReplaceNewlines | components/ChatInterface.tsx:149 | `.replace(/\n/g, '<br />')` character by character; `ReplaceNewlinesAppend` and `ReplaceNewlinesNoNewline` state its behaviour |
| Presentation.RenderMessageContent | components/ChatInterface.tsx:146-151 | `renderMessageContent`: the marker replacement, then the line-feed replacement; `RoundTrip`, `RenderRemovesMarkers` and `RenderRemovesNewlines` state what it guarantees |
| Presentation.RestoreMarkers | components/ChatInterface.tsx:62 | `.replace(/<sup>(\d+)<\/sup>/g, '^$1')` as a left-to-right scan; `RestoreMarkersTag` and `RestoreMarkersHead` state its cases |
| Presentation.RestoreNewlines | components/ChatInterface.tsx:62 | `.replace(/<br \/>/g, '\n')` as a left-to-right scan; `RestoreNewlinesOfReplace` states that it inverts the line-feed replacement |
| Presentation.CleanContent | components/ChatInterface.tsx:62 | the export cleanup: the `<sup>` restoration, then the `<br />` restoration; `RoundTrip` states that it undoes `RenderMessageContent` |
| Presentation.MarkerLen | components/ChatInterface.tsx:148 | a match of `\^\d+` is a caret and the maximal digit run after it: at least two characters, all digits after the caret, and no digit right after the match |
| Presentation.ReplaceNewlinesAppend | components/ChatInterface.tsx:149 | the line-feed replacement works piecewise on a concatenation |
| Presentation.ReplaceNewlinesNoNewline | components/ChatInterface.tsx:149 | text without line feeds is left alone by the line-feed replacement |
| Presentation.RenderMarkerStep | components/ChatInterface.tsx:146-151 | a marker at the head is rendered as one `<sup>` tag holding exactly its digits, followed by the rendering of the rest |
| Presentation.SupTagPlain | components/ChatInterface.tsx:148 | the `<sup>` tag put in place of a marker holds neither a line feed nor a caret |
| Presentation.RenderPlainStep | components/ChatInterface.tsx:146-151 | any other head character is copied, and a line feed becomes `<br />` |
| Presentation.RenderHead | components/ChatInterface.tsx:146-151 | rendering non-empty content gives non-empty output whose first character is a digit exactly when the content's first character is |
| Presentation.RenderPrefix | components/ChatInterface.tsx:146-151 | a prefix of the rendered text that holds no `<` is also a prefix of the content |
| Presentation.RenderRemovesNewlines | components/ChatInterface.tsx:149 | rendered content holds no line feed |
| Presentation.NoMarkerAppend | components/ChatInterface.tsx:148 | a concatenation holds no marker when neither part holds one and none straddles the seam |
| Presentation.NoCaretNoMarker | components/ChatInterface.tsx:148 | text without a caret holds no marker |
| Presentation.RenderRemovesMarkers | components/ChatInterface.tsx:148 | rendered content holds no caret followed by a digit: every marker was replaced |
| Presentation.RenderIdentity | components/ChatInterface.tsx:146-151 | content without line feeds or markers is rendered unchanged, lone carets included |
| Presentation.RenderLoneCaret | components/ChatInterface.tsx:148 | a caret not followed by a digit is copied as literal text |
| Presentation.RenderCitedClause | components/ChatInterface.tsx:146-151 | a plain clause followed by one marker renders as the clause followed by `<sup>digits</sup>`, with the caret dropped |
| Presentation.ReplaceMarkersOfMarker | components/ChatInterface.tsx:148 | a lone marker `^digits` becomes exactly `<sup>digits</sup>` |
| Presentation.RenderExample | components/ChatInterface.tsx:146-151 | `Help with intro^1` renders as `Help with intro<sup>1</sup>` |
| Presentation.DigitRunIsRun | components/ChatInterface.tsx:148 | on a string made only of digits, the greedy digit run is the whole string |
| Presentation.ReplaceMarkersOfPlain | components/ChatInterface.tsx:148 | text without a caret is copied unchanged ahead of whatever follows it |
| Presentation.RestoreMarkersPlain | components/ChatInterface.tsx:62 | the `<sup>` cleanup copies a prefix that holds no `<` |
| Presentation.RestoreNewlinesPlain | components/ChatInterface.tsx:62 | the `<br />` cleanup copies a prefix that holds no `<` |
| Presentation.RestoreNewlinesHead | components/ChatInterface.tsx:62 | a head character other than `<` passes through the `<br />` cleanup |
| Presentation.RestoreMarkersTag | components/ChatInterface.tsx:62 | a `<sup>` tag around a digit run is turned back into a caret and the digits |
| Presentation.RestoreMarkersBreak | components/ChatInterface.tsx:62 | a `<br />` tag passes through the `<sup>` cleanup unchanged |
| Presentation.RestoreMarkersHead | components/ChatInterface.tsx:62 | a head character that does not open `<sup>` passes through the `<sup>` cleanup |
| Presentation.ReplaceNewlinesMarker | components/ChatInterface.tsx:149 | a marker passes through the line-feed replacement unchanged |
| Presentation.RestoreMarkersOfRender | components/ChatInterface.tsx:62 | undoing the `<sup>` tags of rendered content leaves only its line feeds presented, for content without a literal `<sup>` |
| Presentation.ReplaceNewlinesPrefix | components/ChatInterface.tsx:149 | a prefix without `<` of the line-feed replacement is a prefix of its input |
| Presentation.RestoreNewlinesOfReplace | components/ChatInterface.tsx:62 | the `<br />` cleanup undoes the line-feed replacement for content without a literal `<br />` |
| Presentation.RoundTrip | components/ChatInterface.tsx:62 | the export cleanup undoes the presentation encoding of any content that holds neither a literal `<sup>` nor a literal `<br />` |
| Presentation.NoAngleNoTag | components/ChatInterface.tsx:62 | text without `<` contains neither tag |
| Presentation.RestoreMarkersNoTag | components/ChatInterface.tsx:62 | the `<sup>` cleanup leaves text without `<sup>` unchanged |
| Presentation.RestoreNewlinesNoTag | components/ChatInterface.tsx:62 | the `<br />` cleanup leaves text without `<br />` unchanged |
| Presentation.CleanIdentity | components/ChatInterface.tsx:62 | the cleanup leaves stored content free of literal tags untouched |
| TextExport.RoleLabel | components/ChatInterface.tsx:61 | `User` for the user and `AutoPaper Pro` for the assistant |
| TextExport.MessageText | components/ChatInterface.tsx:60-63 | one message's block: label, colon, line feed, cleaned content, blank line; `MessageTextPlain` states it for content without markup |
| TextExport.Transcript | components/ChatInterface.tsx:60-64 | the blocks of all messages joined in order; `TranscriptAppend` and `TranscriptSnoc` state how it grows |
| TextExport.ExportChat | components/ChatInterface.tsx:57-64 | an export yields a file exactly when the conversation is not empty |
| TextExport.TranscriptAppend | components/ChatInterface.tsx:60-64 | the file lists the messages in order, and each block depends only on its own message |
| TextExport.TranscriptSnoc | components/ChatInterface.tsx:60-64 | one more message appends exactly its block: label, colon, line feed, cleaned content, blank line |
| TextExport.MessageTextPlain | components/ChatInterface.tsx:60-63 | a message whose content holds no `<` is written verbatim under its label and followed by a blank line |
| TextExport.TranscriptOfRendered | components/ChatInterface.tsx:60-64 | exporting the displayed content gives the same file as exporting the stored content, for content free of literal tags |
| TextExport.TranscriptOfTwo | components/ChatInterface.tsx:60-64 | two messages without `<` are exported verbatim, each under its label and followed by a blank line |
| TextExport.ExportExample | components/ChatInterface.tsx:57-64 | a two-message exchange gives `User:\nHi\n\nAutoPaper Pro:\nSure^1 thing^2\n\n` |
| DocExport.SplitOnMarkers | components/ChatInterface.tsx:109 | `split(/(\^\d+)/)` yields an odd number of segments: text, then match and text pairs |
| DocExport.SplitOnMarkersJoin | components/ChatInterface.tsx:109 | the segments joined give the line back |
| DocExport.SplitOnMarkersHead | components/ChatInterface.tsx:109 | a non-empty first segment starts with the line's first character |
| DocExport.SplitOnMarkersMatches | components/ChatInterface.tsx:109 | every odd segment is a match: a caret and a non-empty digit run |
| DocExport.SplitOnMarkersTexts | components/ChatInterface.tsx:109 | every even segment holds no marker, and one after a match does not start with a digit |
| DocExport.LabelRun | components/ChatInterface.tsx:93-94 | the bold `User:` or `AutoPaper Pro:` heading run |
| DocExport.SegmentRun | components/ChatInterface.tsx:113-117 | a segment starting with a caret gives a superscript run of the rest, any other a plain run of the whole; `SegmentRunSource` states it loses nothing |
| DocExport.SegmentRuns | components/ChatInterface.tsx:111-118 | one run per non-empty segment, in order; `SegmentRunsSource` and `SegmentRunsShape` state its properties |
| DocExport.LineRuns | components/ChatInterface.tsx:108-118 | the runs of one line's segments; `LineReconstruction` states that they rebuild the line |
| DocExport.LineParagraphs | components/ChatInterface.tsx:103-122 | an empty paragraph for a blank line, otherwise a paragraph of its runs if it has any; `LineParagraphsOne` states that there is always exactly one |
| DocExport.LinesParagraphs | components/ChatInterface.tsx:101-123 | the paragraphs of all lines in order; `LinesParagraphsEach` states one per line |
| DocExport.MessageParagraphs | components/ChatInterface.tsx:88-123 | the label paragraph, then the lines' paragraphs; `MessageParagraphsShape` states the shape |
| DocExport.Interleave | components/ChatInterface.tsx:125-127 | blocks in order with a spacer between consecutive ones; `InterleaveSnoc`, `InterleaveAppend` and `InterleaveSpacers` state its properties |
| DocExport.Document | components/ChatInterface.tsx:88-127 | the document body: the messages' paragraph blocks interleaved with spacers; `ExportDocx` computes it, `DocumentSpacers` and `DocumentAppend` state its properties |
| DocExport.SegmentsToRuns | components/ChatInterface.tsx:108-118 | the segment callback produces one run per non-empty segment, in order, classified by a leading caret |
| DocExport.PushLine | components/ChatInterface.tsx:102-122 | the line callback pushes an empty paragraph for a blank line, otherwise a paragraph of the line's runs if there are any |
| DocExport.PushMessage | components/ChatInterface.tsx:88-127 | the message callback pushes the bold label, the message's line paragraphs, and a spacer unless the message is the last |
| DocExport.ExportDocx | components/ChatInterface.tsx:78-128 | nothing for an empty conversation, otherwise exactly the document the specification function describes |
| DocExport.MapBlocks | components/ChatInterface.tsx:88 | `messages.forEach` visits every message once and in order: one block per message, block k made from message k |
| DocExport.MapBlocksAppend | components/ChatInterface.tsx:88 | the blocks of two consecutive parts of the conversation are the first part's blocks followed by the second's |
| DocExport.DocumentStep | components/ChatInterface.tsx:88-127 | one pass of the message loop extends the document of the first messages by the next message's paragraphs |
| DocExport.RunsSourceAppend | components/ChatInterface.tsx:111-118 | the text runs stand for is compositional over concatenation |
| DocExport.SegmentRunsSource | components/ChatInterface.tsx:111-118 | putting the caret back on superscript runs and joining gives the joined segments |
| DocExport.SegmentRunSource | components/ChatInterface.tsx:112-117 | a non-empty segment's run stands for the segment itself, and an empty segment yields no run |
| DocExport.LineReconstruction | components/ChatInterface.tsx:108-118 | the runs of a line, with carets restored on superscript runs, rebuild the line exactly, in order and without losing a character |
| DocExport.SegmentRunsShape | components/ChatInterface.tsx:113-117 | content runs are never bold, and every plain run is non-empty and does not start with a caret |
| DocExport.LineParagraphsOne | components/ChatInterface.tsx:103-122 | each content line yields exactly one paragraph: an empty one when blank, otherwise a non-empty run paragraph |
| DocExport.LinesParagraphsEach | components/ChatInterface.tsx:101-123 | a message's lines yield one paragraph per line, in line order |
| DocExport.MessageParagraphsShape | components/ChatInterface.tsx:88-123 | a message contributes its label followed by one paragraph per content line |
| DocExport.NoSpacerInLines | components/ChatInterface.tsx:102-123 | content lines never yield a spacer |
| DocExport.MessageNoSpacer | components/ChatInterface.tsx:88-123 | a message's own paragraphs, label and lines, never include a spacer |
| DocExport.InterleaveSnoc | components/ChatInterface.tsx:125-127 | one more block is appended after a spacer when others precede it, and directly otherwise |
| DocExport.InterleaveAppend | components/ChatInterface.tsx:125-127 | joining two non-empty runs of blocks puts exactly one spacer at the seam |
| DocExport.InterleaveSpacers | components/ChatInterface.tsx:125-127 | blocks without spacers, joined, hold exactly one spacer fewer than there are blocks |
| DocExport.DocumentSpacers | components/ChatInterface.tsx:125-127 | a conversation of n messages has exactly n - 1 spacers |
| DocExport.DocumentAppend | components/ChatInterface.tsx:88-128 | the document of two consecutive parts is the first part's document, one spacer, then the second's, so message order is kept |
| DocExport.RunsExample | components/ChatInterface.tsx:108-118 | `A^1 B` gives a plain `A`, a superscript `1`, and a plain ` B` |
| DocExport.AdjacentMarkersExample | components/ChatInterface.tsx:108-118 | `^1^2` gives two superscript runs, and the empty segments are skipped |
| DocExport.CaretQuirkExample | components/ChatInterface.tsx:113-114 | `x^1^y` gives plain `x`, superscript `1`, and superscript `y`, because a text segment starting with a caret is also superscripted |
| DocExport.ClauseRuns | components/ChatInterface.tsx:108-118 | a line of marker-free text, one marker of any length and marker-free text not starting with a digit gives the first text's run if it is non-empty, the marker's digits as a superscript run, then the second text's run if it is non-empty |
| DocExport.MarkerPairRuns | components/ChatInterface.tsx:108-118 | two markers of any length back to back give exactly two superscript runs, the empty texts around them skipped |
| DocExport.SplitCitedClause | components/ChatInterface.tsx:109 | marker-free text, one marker and marker-free text not starting with a digit split into exactly those three segments |
| DocExport.SplitTwoMarkers | components/ChatInterface.tsx:109 | two adjacent markers of any length split with empty texts before, between and after them |
| DocExport.SplitOfPlain | components/ChatInterface.tsx:109 | text without markers is a single segment |
| DocExport.SplitMarkerThen | components/ChatInterface.tsx:109 | a marker of any length followed by marker-free text not starting with a digit splits into an empty text, the match and the text, the text possibly empty |
| DocExport.SplitPlainThen | components/ChatInterface.tsx:109 | a head character that does not open a marker joins the first text segment and leaves the other segments alone |
| DocExport.SplitPlainPrefix | components/ChatInterface.tsx:109 | marker-free text ahead of text that does not start with a digit joins the first segment and leaves the others alone |
| DocExport.CaretThenPlain | components/ChatInterface.tsx:109 | a caret followed by a character that is neither a digit nor a caret is not a match |
| DocExport.SegmentRunsOfThree | components/ChatInterface.tsx:111-118 | three segments give the middle one's run between those of the outer two, an empty outer segment giving none |
| Session.IsBlank | components/ChatInterface.tsx:27 | `!input.trim()`: the input is empty after trimming, which `TrimEmptyIff` states is all-whitespace |
| Session.ReplyMessage | components/ChatInterface.tsx:34-45 | the assistant turn is the generator's text verbatim, or the fixed apology when the generator throws |
| Session.SendStep | components/ChatInterface.tsx:26-49 | a send leaves the log alone for blank input; otherwise it keeps every earlier turn and appends the untrimmed input as a user turn, then exactly one assistant turn |
| Session.SendStepUnchangedIff | components/ChatInterface.tsx:26-29 | a send changes the log exactly when the input is not blank |
| Session.SendStepAlternates | components/ChatInterface.tsx:26-49 | sends keep the turns alternating user, assistant |
| Session.ReplayShape | components/ChatInterface.tsx:26-49 | any run of sends from an empty conversation gives an alternating log with two turns per non-blank input |
| Session.ReplayAppendOnly | components/ChatInterface.tsx:30-45 | later sends never change earlier turns: the log after a run of sends begins with the log after any first part of it |
| Session.SendStepExtends | components/ChatInterface.tsx:30-45 | one send keeps every earlier turn in place |
| Session.AlternatingExchange | components/ChatInterface.tsx:30-45 | a user turn followed by an assistant turn keeps the log alternating |
| Session.ChatSession.constructor | components/ChatInterface.tsx:11-16 | the initial state: no messages, empty input, not loading, IEEE style, English |
| Session.ChatSession.SetInput | components/ChatInterface.tsx:246 | typing replaces the input and changes nothing else |
| Session.ChatSession.SetCitationStyle | components/ChatInterface.tsx:164 | the style selector sets the style and changes nothing else |
| Session.ChatSession.SetLanguage | components/ChatInterface.tsx:172 | the language selector sets the language and changes nothing else |
| Session.ChatSession.BeginSend | components/ChatInterface.tsx:26-33 | blank input changes nothing; otherwise the user turn is appended, the input is cleared, loading is raised, and the request carries the log from before the append |
| Session.ChatSession.FinishSend | components/ChatInterface.tsx:34-48 | the assistant turn is appended and loading is lowered, whether the generator replied or failed |
| Session.ChatSession.SendMessage | components/ChatInterface.tsx:26-49 | a whole send grows the log by `SendStep`, the generator sees the log from before the user turn, and loading is false afterwards |
| Session.ChatSession.KeyPress | components/ChatInterface.tsx:51-55 | Enter sends unless a request is in flight, with everything `SendMessage` promises: the log grows by `SendStep`, and for non-blank input the box is cleared and loading is false afterwards; any other key, or Enter while loading, changes nothing; the log only grows |

## Left out

- The JSX, styling, scrolling and the HTML injection of the rendered content are user interface. The model stops at the rendered string.
- Blob, URL and anchor downloads, the `docx` `Document` and `Packer` serialisation, `file-saver`, `alert` and `console` are browser I/O and foreign libraries. The word-processor export stops at the paragraph/run tree.
- Timestamped file names depend on the wall clock.
- `services/geminiService.ts` is not part of this model. The generator is a parameter that may return any text or fail. Its prompt framing and role mapping are not modelled.
- `docxLoading` is left out. The export is modelled as one atomic step, and the flag only disables the export button.
- Asynchronous interleaving and React's batched state updates are left out. A send is either `BeginSend` followed by `FinishSend`, or the atomic `SendMessage`.
- Session.ChatSession.BeginSend: does not check `loading`, like the source. While a request is in flight, only the disabled send button and input box stop a second send, and those are user interface.
- The export button's `disabled` condition is user interface. The empty-conversation guard inside the handlers is modelled.
- Strings are sequences of Unicode scalar values, not UTF-16 code units. Every pattern involved is ASCII, so the results agree except for `trim()` on unpaired surrogates, which is not modelled.
- The display strings of the citation-style and language enumerations are declarations only. The enumerations are closed datatypes.
