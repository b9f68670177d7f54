/** The citation-marker codec between compact content (`^12`) and the
    presentation markup shown in the chat window (`<sup>12</sup>`, `<br />`),
    together with the cleanup that undoes it before a plain-text export.
    Each `replace` with a global regex is a left-to-right scan that rewrites
    non-overlapping matches and copies every other character. */
module Presentation {
  import opened JsText

  const SupOpen := "<sup>"
  const SupClose := "</sup>"
  const LineBreakTag := "<br />"

  /** A citation marker starts here: a caret followed by at least one digit. */
  predicate MarkerAt(s: string) {
    |s| >= 2 && s[0] == '^' && IsDigit(s[1])
  }

  /** Length of the match of `/\^\d+/` at the head: the caret and the maximal
      digit run after it. */
  function MarkerLen(s: string): (n: nat)
    requires MarkerAt(s)
    ensures 2 <= n <= |s|
    ensures forall i :: 1 <= i < n ==> IsDigit(s[i])
    ensures n < |s| ==> !IsDigit(s[n])
  {
    1 + DigitRun(s[1..])
  }

  /** Some position of `s` starts a citation marker. */
  predicate HasMarker(s: string)
    decreases |s|
  {
    s != [] && (MarkerAt(s) || HasMarker(s[1..]))
  }

  /** `.replace(/\^(\d+)/g, '<sup>$1</sup>')` */
  function ReplaceMarkers(s: string): string
    decreases |s|
  {
    if s == [] then []
    else if MarkerAt(s) then
      var n := MarkerLen(s);
      SupOpen + s[1..n] + SupClose + ReplaceMarkers(s[n..])
    else [s[0]] + ReplaceMarkers(s[1..])
  }

  /** `.replace(/\n/g, '<br />')` */
  function ReplaceNewlines(s: string): string {
    if s == [] then []
    else (if s[0] == '\n' then LineBreakTag else [s[0]]) + ReplaceNewlines(s[1..])
  }

  /** `renderMessageContent`: markers first, then line breaks. */
  function RenderMessageContent(content: string): string {
    ReplaceNewlines(ReplaceMarkers(content))
  }

  /** A match of `/<sup>(\d+)<\/sup>/` starts here. The digit run is greedy and
      no digit can stand in for the `<` of the closing tag, so the pattern
      matches exactly when the maximal digit run after `<sup>` is non-empty and
      is followed by `</sup>`. */
  predicate SupTagAt(s: string) {
    HasPrefix(s, SupOpen) && DigitRun(s[5..]) >= 1 && HasPrefix(s[5 + DigitRun(s[5..])..], SupClose)
  }

  /** `.replace(/<sup>(\d+)<\/sup>/g, '^$1')` */
  function RestoreMarkers(s: string): string
    decreases |s|
  {
    if s == [] then []
    else if SupTagAt(s) then
      var k := DigitRun(s[5..]);
      "^" + s[5..5 + k] + RestoreMarkers(s[5 + k + 6..])
    else [s[0]] + RestoreMarkers(s[1..])
  }

  /** `.replace(/<br \/>/g, '\n')` */
  function RestoreNewlines(s: string): string
    decreases |s|
  {
    if s == [] then []
    else if HasPrefix(s, LineBreakTag) then "\n" + RestoreNewlines(s[6..])
    else [s[0]] + RestoreNewlines(s[1..])
  }

  /** The cleanup applied to each message before the plain-text export. */
  function CleanContent(s: string): string {
    RestoreNewlines(RestoreMarkers(s))
  }

  // ---------------------------------------------------------------------
  // Unfolding steps of the renderer

  lemma {:induction false} ReplaceNewlinesAppend(a: string, b: string)
    ensures ReplaceNewlines(a + b) == ReplaceNewlines(a) + ReplaceNewlines(b)
  {
    if a != [] {
      assert (a + b)[0] == a[0] && (a + b)[1..] == a[1..] + b;
      ReplaceNewlinesAppend(a[1..], b);
    } else {
      assert a + b == b;
    }
  }

  lemma {:induction false} ReplaceNewlinesNoNewline(s: string)
    requires '\n' !in s
    ensures ReplaceNewlines(s) == s
  {
    if s != [] {
      ReplaceNewlinesNoNewline(s[1..]);
    }
  }

  /** A marker at the head is rendered as one superscript tag holding its digits. */
  lemma RenderMarkerStep(s: string)
    requires MarkerAt(s)
    ensures RenderMessageContent(s)
         == SupOpen + s[1..MarkerLen(s)] + SupClose + RenderMessageContent(s[MarkerLen(s)..])
  {
    var n := MarkerLen(s);
    var tag := SupOpen + s[1..n] + SupClose;
    SupTagPlain(s[1..n]);
    ReplaceNewlinesAppend(tag, ReplaceMarkers(s[n..]));
    ReplaceNewlinesNoNewline(tag);
  }

  /** A `<sup>` tag around digits holds no line feed and no caret. */
  lemma SupTagPlain(d: string)
    requires forall i :: 0 <= i < |d| ==> IsDigit(d[i])
    ensures '\n' !in SupOpen + d + SupClose && '^' !in SupOpen + d + SupClose
  {
    var tag := SupOpen + d + SupClose;
    forall i | 0 <= i < |tag| ensures tag[i] != '\n' && tag[i] != '^' {
      if 5 <= i < 5 + |d| { assert tag[i] == d[i - 5]; }
    }
  }

  /** Any other head character is copied, a line feed becoming `<br />`. */
  lemma RenderPlainStep(s: string)
    requires s != [] && !MarkerAt(s)
    ensures RenderMessageContent(s)
         == (if s[0] == '\n' then LineBreakTag else [s[0]]) + RenderMessageContent(s[1..])
  {
    ReplaceNewlinesAppend([s[0]], ReplaceMarkers(s[1..]));
  }

  /** The first rendered character is a digit exactly when the first content
      character is. */
  lemma RenderHead(s: string)
    requires s != []
    ensures RenderMessageContent(s) != []
    ensures IsDigit(RenderMessageContent(s)[0]) <==> IsDigit(s[0])
  {
    if MarkerAt(s) {
      RenderMarkerStep(s);
    } else {
      RenderPlainStep(s);
    }
  }

  /** Whether `[c] + rest` starts with `p`, decided one character at a time. */
  lemma HasPrefixCons(c: char, rest: string, p: string)
    requires p != []
    ensures HasPrefix([c] + rest, p) <==> c == p[0] && HasPrefix(rest, p[1..])
  {
    assert p == [p[0]] + p[1..];
    if |p| <= |rest| + 1 {
      assert ([c] + rest)[..|p|] == [c] + rest[..|p| - 1];
    }
  }

  /** A rendered prefix without `<` can only come from the same prefix of the
      content: every marker and every line feed renders as a tag that opens
      with `<`. */
  lemma {:induction false} RenderPrefix(s: string, p: string)
    requires '<' !in p
    ensures HasPrefix(RenderMessageContent(s), p) ==> HasPrefix(s, p)
  {
    if p != [] && s != [] {
      if MarkerAt(s) {
        RenderMarkerStep(s);
        HasPrefixCons('<', RenderMessageContent(s)[1..], p);
        assert RenderMessageContent(s) == [RenderMessageContent(s)[0]] + RenderMessageContent(s)[1..];
      } else {
        RenderPlainStep(s);
        if s[0] == '\n' {
          HasPrefixCons('<', RenderMessageContent(s)[1..], p);
          assert RenderMessageContent(s) == [RenderMessageContent(s)[0]] + RenderMessageContent(s)[1..];
        } else {
          RenderPrefix(s[1..], p[1..]);
          HasPrefixCons(s[0], RenderMessageContent(s[1..]), p);
          HasPrefixCons(s[0], s[1..], p);
          assert s == [s[0]] + s[1..];
        }
      }
    }
  }

  // ---------------------------------------------------------------------
  // Presentation encoding: what renderMessageContent guarantees

  /** After rendering there is no line feed left. */
  lemma {:induction false} RenderRemovesNewlines(s: string)
    ensures '\n' !in RenderMessageContent(s)
    decreases |s|
  {
    if s != [] {
      if MarkerAt(s) {
        RenderMarkerStep(s);
        RenderRemovesNewlines(s[MarkerLen(s)..]);
      } else {
        RenderPlainStep(s);
        RenderRemovesNewlines(s[1..]);
      }
    }
  }

  lemma {:induction false} NoCaretNoMarker(s: string)
    requires '^' !in s
    ensures !HasMarker(s)
  {
    if s != [] {
      NoCaretNoMarker(s[1..]);
    }
  }

  /** No marker in `a + b` when there is none in `a`, none in `b` and none
      across the seam. */
  lemma {:induction false} NoMarkerAppend(a: string, b: string)
    requires !HasMarker(a) && !HasMarker(b)
    requires !(a != [] && b != [] && a[|a| - 1] == '^' && IsDigit(b[0]))
    ensures !HasMarker(a + b)
  {
    if a == [] {
      assert a + b == b;
    } else {
      assert (a + b)[0] == a[0] && (a + b)[1..] == a[1..] + b;
      if |a| == 1 {
        assert a[1..] + b == b;
      } else {
        assert a[1..][|a[1..]| - 1] == a[|a| - 1];
        assert (a + b)[1] == a[1];
        NoMarkerAppend(a[1..], b);
      }
    }
  }

  /** After rendering no caret is followed by a digit: every marker was
      replaced. */
  lemma {:induction false} RenderRemovesMarkers(s: string)
    ensures !HasMarker(RenderMessageContent(s))
    decreases |s|
  {
    if s != [] {
      if MarkerAt(s) {
        RenderRemovesMarkers(s[MarkerLen(s)..]);
        MarkerStepNoMarker(s);
      } else {
        RenderRemovesMarkers(s[1..]);
        PlainStepNoMarker(s);
      }
    }
  }

  lemma MarkerStepNoMarker(s: string)
    requires MarkerAt(s) && !HasMarker(RenderMessageContent(s[MarkerLen(s)..]))
    ensures !HasMarker(RenderMessageContent(s))
  {
    var n := MarkerLen(s);
    var tag := SupOpen + s[1..n] + SupClose;
    RenderMarkerStep(s);
    SupTagPlain(s[1..n]);
    NoCaretNoMarker(tag);
    NoMarkerAppend(tag, RenderMessageContent(s[n..]));
  }

  lemma PlainStepNoMarker(s: string)
    requires s != [] && !MarkerAt(s) && !HasMarker(RenderMessageContent(s[1..]))
    ensures !HasMarker(RenderMessageContent(s))
  {
    var head := if s[0] == '\n' then LineBreakTag else [s[0]];
    RenderPlainStep(s);
    if s[0] == '\n' {
      NoCaretNoMarker(head);
    } else {
      assert !HasMarker(head);
    }
    if |s| > 1 {
      RenderHead(s[1..]);
    }
    NoMarkerAppend(head, RenderMessageContent(s[1..]));
  }

  /** Content without line feeds or markers, lone carets included, is
      rendered unchanged. */
  lemma {:induction false} RenderIdentity(s: string)
    requires '\n' !in s && !HasMarker(s)
    ensures RenderMessageContent(s) == s
  {
    if s != [] {
      RenderPlainStep(s);
      RenderIdentity(s[1..]);
    }
  }

  /** A caret not followed by a digit is copied as literal text. */
  lemma RenderLoneCaret(s: string)
    requires s != [] && s[0] == '^' && (|s| == 1 || !IsDigit(s[1]))
    ensures RenderMessageContent(s) == "^" + RenderMessageContent(s[1..])
  {
    RenderPlainStep(s);
  }

  /** A clause of plain text followed by one citation marker renders as the
      clause followed by the superscript digits, the caret dropped. */
  lemma RenderCitedClause(a: string, d: string)
    requires '^' !in a && '\n' !in a
    requires |d| >= 1 && forall i :: 0 <= i < |d| ==> IsDigit(d[i])
    ensures RenderMessageContent(a + "^" + d) == a + SupOpen + d + SupClose
  {
    var tag := SupOpen + d + SupClose;
    AppendAssoc(a, "^", d);
    ReplaceMarkersOfPlain(a, "^" + d);
    ReplaceMarkersOfMarker(d);
    SupTagPlain(d);
    ReplaceNewlinesAppend(a, tag);
    ReplaceNewlinesNoNewline(a);
    ReplaceNewlinesNoNewline(tag);
    AppendAssoc(a, SupOpen + d, SupClose);
    AppendAssoc(a, SupOpen, d);
  }

  /** A lone marker becomes one superscript tag. */
  lemma ReplaceMarkersOfMarker(d: string)
    requires |d| >= 1 && forall i :: 0 <= i < |d| ==> IsDigit(d[i])
    ensures ReplaceMarkers("^" + d) == SupOpen + d + SupClose
  {
    var b := "^" + d;
    AppendSlices("^", d);
    assert MarkerAt(b);
    DigitRunIsRun(d);
    var n := MarkerLen(b);
    assert n == |b|;
    assert ReplaceMarkers(b) == SupOpen + b[1..n] + SupClose + ReplaceMarkers(b[n..]);
    assert b[1..n] == d && b[n..] == [];
  }

  lemma {:induction false} DigitRunIsRun(d: string)
    requires forall i :: 0 <= i < |d| ==> IsDigit(d[i])
    ensures DigitRun(d) == |d|
  {
    if d != [] {
      DigitRunIsRun(d[1..]);
    }
  }

  /** The rendering of a clause cited with marker 1. */
  lemma RenderExample()
    ensures RenderMessageContent("Help with intro^1") == "Help with intro<sup>1</sup>"
  {
    var a := "Help with intro";
    assert '^' !in a && '\n' !in a;
    RenderCitedClause(a, "1");
    assert a + "^" + "1" == "Help with intro^1";
    assert a + SupOpen + "1" + SupClose == "Help with intro<sup>1</sup>";
  }

  /** Plain text followed by a marker: the plain text is copied as is. */
  lemma {:induction false} ReplaceMarkersOfPlain(a: string, b: string)
    requires '^' !in a
    ensures ReplaceMarkers(a + b) == a + ReplaceMarkers(b)
  {
    if a != [] {
      assert (a + b)[0] == a[0] && (a + b)[1..] == a[1..] + b;
      ReplaceMarkersOfPlain(a[1..], b);
    } else {
      assert a + b == b;
    }
  }

  // ---------------------------------------------------------------------
  // The cleanup and the round trip

  /** `RestoreMarkers` copies any prefix that holds no `<`. */
  lemma {:induction false} RestoreMarkersPlain(p: string, x: string)
    requires '<' !in p
    ensures RestoreMarkers(p + x) == p + RestoreMarkers(x)
  {
    if p != [] {
      assert p + x == [p[0]] + (p[1..] + x);
      RestoreMarkersHead(p[0], p[1..] + x);
      RestoreMarkersPlain(p[1..], x);
      assert p == [p[0]] + p[1..];
    } else {
      assert p + x == x;
    }
  }

  /** `RestoreNewlines` copies any prefix that holds no `<`. */
  lemma {:induction false} RestoreNewlinesPlain(p: string, x: string)
    requires '<' !in p
    ensures RestoreNewlines(p + x) == p + RestoreNewlines(x)
  {
    if p != [] {
      assert p + x == [p[0]] + (p[1..] + x);
      RestoreNewlinesHead(p[0], p[1..] + x);
      RestoreNewlinesPlain(p[1..], x);
      assert p == [p[0]] + p[1..];
    } else {
      assert p + x == x;
    }
  }

  /** A head character other than `<` passes through newline restoration. */
  lemma RestoreNewlinesHead(c: char, rest: string)
    requires c != '<'
    ensures RestoreNewlines([c] + rest) == [c] + RestoreNewlines(rest)
  {
    assert !HasPrefix([c] + rest, LineBreakTag);
    assert ([c] + rest)[1..] == rest;
  }

  lemma {:induction false} ContainsSuffix(s: string, p: string, k: nat)
    requires k <= |s| && !Contains(s, p)
    ensures !Contains(s[k..], p)
  {
    if k > 0 {
      ContainsSuffix(s[1..], p, k - 1);
      assert s[1..][k - 1..] == s[k..];
    }
  }

  /** The digit run of a string that opens with `k` digits and then a
      non-digit is `k`. */
  lemma {:induction false} DigitRunExact(t: string, k: nat)
    requires k < |t| && !IsDigit(t[k])
    requires forall i :: 0 <= i < k ==> IsDigit(t[i])
    ensures DigitRun(t) == k
  {
    if k > 0 {
      DigitRunExact(t[1..], k - 1);
    }
  }

  /** A superscript tag around a digit run is turned back into a marker. */
  lemma RestoreMarkersTag(d: string, rest: string)
    requires |d| >= 1 && forall i :: 0 <= i < |d| ==> IsDigit(d[i])
    ensures RestoreMarkers(SupOpen + d + SupClose + rest) == "^" + d + RestoreMarkers(rest)
  {
    var u := SupClose + rest;
    var t := d + u;
    var r := SupOpen + t;
    AppendAssoc(SupOpen + d, SupClose, rest);
    AppendAssoc(SupOpen, d, u);
    AppendSlices(SupOpen, t);
    AppendSlices(d, u);
    AppendSlices(SupClose, rest);
    assert |SupOpen| == 5 && |SupClose| == 6 && u[0] == '<';
    DigitRunExact(t, |d|);
    assert r[5..] == t && t[|d|..] == u;
    assert HasPrefix(r, SupOpen) && HasPrefix(r[5 + |d|..], SupClose);
    assert r[5..5 + |d|] == t[..|d|];
    assert r[5 + |d| + 6..] == u[6..];
  }

  /** A presented line break passes through marker restoration. */
  lemma RestoreMarkersBreak(rest: string)
    ensures RestoreMarkers(LineBreakTag + rest) == LineBreakTag + RestoreMarkers(rest)
  {
    var r := LineBreakTag + rest;
    assert LineBreakTag == "<" + "br />";
    AppendAssoc("<", "br />", rest);
    AppendSlices("<", "br />" + rest);
    assert r[1] == 'b';
    assert !SupTagAt(r);
    RestoreMarkersPlain("br />", rest);
    AppendAssoc("<", "br />", RestoreMarkers(rest));
  }

  /** A head character that does not open a `<sup>` passes through. */
  lemma RestoreMarkersHead(c: char, rest: string)
    requires c != '<' || !HasPrefix(rest, "sup>")
    ensures RestoreMarkers([c] + rest) == [c] + RestoreMarkers(rest)
  {
    HasPrefixCons(c, rest, SupOpen);
    assert SupOpen[1..] == "sup>";
    assert !SupTagAt([c] + rest);
    assert ([c] + rest)[1..] == rest;
  }

  lemma ReplaceNewlinesMarker(s: string)
    requires MarkerAt(s)
    ensures ReplaceNewlines(s) == "^" + s[1..MarkerLen(s)] + ReplaceNewlines(s[MarkerLen(s)..])
  {
    var n := MarkerLen(s);
    ReplaceNewlinesAppend(s[..n], s[n..]);
    assert s == s[..n] + s[n..];
    assert '\n' !in s[..n] by {
      forall i | 0 <= i < n ensures s[..n][i] != '\n' { }
    }
    ReplaceNewlinesNoNewline(s[..n]);
    assert s[..n] == "^" + s[1..n];
  }

  /** Undoing the superscript tags of rendered content leaves the content with
      only its line feeds still presented, provided the content held no
      literal `<sup>`. */
  lemma {:induction false} RestoreMarkersOfRender(s: string)
    requires !Contains(s, SupOpen)
    ensures RestoreMarkers(RenderMessageContent(s)) == ReplaceNewlines(s)
    decreases |s|
  {
    if s != [] {
      if MarkerAt(s) {
        var n := MarkerLen(s);
        RenderMarkerStep(s);
        RestoreMarkersTag(s[1..n], RenderMessageContent(s[n..]));
        ContainsSuffix(s, SupOpen, n);
        RestoreMarkersOfRender(s[n..]);
        ReplaceNewlinesMarker(s);
      } else {
        RenderPlainStep(s);
        ContainsSuffix(s, SupOpen, 1);
        RestoreMarkersOfRender(s[1..]);
        var rest := RenderMessageContent(s[1..]);
        if s[0] == '\n' {
          RestoreMarkersBreak(rest);
        } else {
          RenderPrefix(s[1..], "sup>");
          HasPrefixCons(s[0], s[1..], SupOpen);
          assert SupOpen[1..] == "sup>";
          RestoreMarkersHead(s[0], rest);
        }
        ReplaceNewlinesAppend([s[0]], s[1..]);
        assert s == [s[0]] + s[1..];
      }
    }
  }

  /** A prefix without `<` of presented line breaks comes from the same prefix
      of the content. */
  lemma {:induction false} ReplaceNewlinesPrefix(s: string, p: string)
    requires '<' !in p
    ensures HasPrefix(ReplaceNewlines(s), p) ==> HasPrefix(s, p)
  {
    if p != [] && s != [] {
      var r := ReplaceNewlines(s);
      if s[0] == '\n' {
        HasPrefixCons('<', r[1..], p);
        assert r == [r[0]] + r[1..];
      } else {
        ReplaceNewlinesPrefix(s[1..], p[1..]);
        HasPrefixCons(s[0], ReplaceNewlines(s[1..]), p);
        HasPrefixCons(s[0], s[1..], p);
        assert s == [s[0]] + s[1..];
      }
    }
  }

  /** Presented line breaks are turned back into line feeds, provided the
      content held no literal `<br />`. */
  lemma {:induction false} RestoreNewlinesOfReplace(s: string)
    requires !Contains(s, LineBreakTag)
    ensures RestoreNewlines(ReplaceNewlines(s)) == s
  {
    if s != [] {
      ContainsSuffix(s, LineBreakTag, 1);
      RestoreNewlinesOfReplace(s[1..]);
      var rest := ReplaceNewlines(s[1..]);
      if s[0] == '\n' {
        assert ReplaceNewlines(s) == LineBreakTag + rest;
        assert (LineBreakTag + rest)[6..] == rest;
      } else {
        ReplaceNewlinesPrefix(s[1..], "br />");
        HasPrefixCons(s[0], s[1..], LineBreakTag);
        HasPrefixCons(s[0], rest, LineBreakTag);
        assert LineBreakTag[1..] == "br />";
        assert ([s[0]] + rest)[1..] == rest;
      }
      assert s == [s[0]] + s[1..];
    }
  }

  /** Round trip: the export cleanup undoes the presentation encoding of any
      content that holds neither a literal `<sup>` nor a literal `<br />`. */
  lemma RoundTrip(s: string)
    requires !Contains(s, SupOpen) && !Contains(s, LineBreakTag)
    ensures CleanContent(RenderMessageContent(s)) == s
  {
    RestoreMarkersOfRender(s);
    RestoreNewlinesOfReplace(s);
  }

  lemma {:induction false} NoAngleNoTag(s: string, p: string)
    requires '<' !in s && p != [] && p[0] == '<'
    ensures !Contains(s, p)
  {
    if s != [] {
      NoAngleNoTag(s[1..], p);
    }
  }

  lemma {:induction false} RestoreMarkersNoTag(s: string)
    requires !Contains(s, SupOpen)
    ensures RestoreMarkers(s) == s
  {
    if s != [] {
      ContainsSuffix(s, SupOpen, 1);
      RestoreMarkersNoTag(s[1..]);
    }
  }

  lemma {:induction false} RestoreNewlinesNoTag(s: string)
    requires !Contains(s, LineBreakTag)
    ensures RestoreNewlines(s) == s
  {
    if s != [] {
      ContainsSuffix(s, LineBreakTag, 1);
      RestoreNewlinesNoTag(s[1..]);
    }
  }

  /** The cleanup leaves content without literal tags untouched. */
  lemma CleanIdentity(s: string)
    requires !Contains(s, SupOpen) && !Contains(s, LineBreakTag)
    ensures CleanContent(s) == s
  {
    RestoreMarkersNoTag(s);
    RestoreNewlinesNoTag(s);
  }
}
