/** What the scan promises: its invariant, the effect of each kind of line, and whole-body results. */
module MarkdownProperties {
  import opened JsString
  import opened InlineFormat
  import opened MarkdownConverter

  /** A `### ` line is never taken for a `## ` heading. */
  lemma H3IsNotH2(line: string)
    requires IsH3Line(line)
    ensures !IsH2Line(line)
  {
    assert line[2] == line[..4][2] == '#';
  }

  /** A blank (all white space) line is neither a heading nor a list item. */
  lemma BlankIsPlain(line: string)
    requires IsBlank(line)
    ensures !IsHeading(line) && !IsListLine(line)
  {
    TrimEmptyIff(line);
  }

  /** Every line kind keeps the invariant. */
  lemma StepValid(st: Scan, line: string)
    requires Valid(st)
    ensures Valid(Step(st, line))
  {
  }

  /** The invariant holds after any prefix of any body. */
  lemma {:induction false} ScanValid(st: Scan, lines: seq<string>)
    requires Valid(st)
    ensures Valid(ScanFrom(st, lines))
    decreases |lines|
  {
    if |lines| > 0 {
      ScanValid(st, lines[..|lines| - 1]);
      StepValid(ScanFrom(st, lines[..|lines| - 1]), lines[|lines| - 1]);
    }
  }

  /** Scanning two stretches of lines is scanning the first, then the second from there. */
  lemma {:induction false} ScanAppend(st: Scan, a: seq<string>, b: seq<string>)
    ensures ScanFrom(st, a + b) == ScanFrom(ScanFrom(st, a), b)
    decreases |b|
  {
    if |b| == 0 {
      assert a + b == a;
    } else {
      assert (a + b)[..|a + b| - 1] == a + b[..|b| - 1];
      ScanAppend(st, a, b[..|b| - 1]);
    }
  }

  /**
   * A `## ` line flushes a pending paragraph as escaped text, then emits one
   * H2 holding the line minus its first `## `, untrimmed and unformatted; an
   * open list stays open.
   */
  lemma H2Step(st: Scan, line: string)
    requires IsH2Line(line)
    ensures Step(st, line) == st.(elements := st.elements + ParagraphNodes(st.paragraph, false) + [H2(line[3..])],
                                  paragraph := [])
  {
    ReplacePrefix(line, "## ");
  }

  /** A `### ` line does the same with an H3 holding the line minus its first `### `. */
  lemma H3Step(st: Scan, line: string)
    requires IsH3Line(line)
    ensures Step(st, line) == st.(elements := st.elements + ParagraphNodes(st.paragraph, false) + [H3(line[4..])],
                                  paragraph := [])
  {
    H3IsNotH2(line);
    ReplacePrefix(line, "### ");
  }

  /**
   * A list line opens the list if needed, flushing a pending paragraph as
   * escaped text, and appends the trimmed line minus its `- `.
   */
  lemma ListStep(st: Scan, line: string)
    requires Valid(st)
    requires IsListLine(line) && !IsHeading(line)
    ensures Step(st, line) == st.(elements := st.elements + ParagraphNodes(st.paragraph, false),
                                  paragraph := [],
                                  listItems := st.listItems + [ItemText(line)],
                                  inList := true)
    ensures ItemText(line) == Trim(line)[2..]
  {
    ReplacePrefix(Trim(line), "- ");
  }

  /** A text line closes an open list, then joins the paragraph after inline formatting. */
  lemma TextStep(st: Scan, line: string)
    requires Valid(st)
    requires !IsHeading(line) && !IsListLine(line) && !IsBlank(line)
    ensures Step(st, line) == st.(elements := st.elements + ListNodes(st),
                                  paragraph := st.paragraph + [Format(line)],
                                  listItems := [], inList := false)
  {
    if !st.inList {
      assert st.elements + ListNodes(st) == st.elements;
    }
  }

  /** A blank line closes an open list and flushes the paragraph as raw markup. */
  lemma BlankStep(st: Scan, line: string)
    requires Valid(st)
    requires IsBlank(line)
    ensures Step(st, line) == Scan(st.elements + ListNodes(st) + ParagraphNodes(st.paragraph, true), [], [], false)
  {
    BlankIsPlain(line);
  }

  /** End of input flushes the paragraph as raw markup and then the open list; never both. */
  lemma FinishOrder(st: Scan)
    requires Valid(st)
    ensures Finish(st) == st.elements + ParagraphNodes(st.paragraph, true) + ListNodes(st)
    ensures |Finish(st)| <= |st.elements| + 1
  {
  }

  /** The texts a run of list lines contributes, in encounter order. */
  function ItemTexts(lines: seq<string>): (items: seq<string>)
    ensures |items| == |lines|
    ensures forall i :: 0 <= i < |lines| ==> items[i] == ItemText(lines[i])
  {
    if |lines| == 0 then [] else ItemTexts(lines[..|lines| - 1]) + [ItemText(lines[|lines| - 1])]
  }

  predicate AllListLines(lines: seq<string>) {
    forall i :: 0 <= i < |lines| ==> IsListLine(lines[i]) && !IsHeading(lines[i])
  }

  /**
   * A run of list lines read while no list is open flushes the pending
   * paragraph as escaped text once and collects the items in order.
   */
  lemma {:induction false} ListRun(st: Scan, lines: seq<string>)
    requires Valid(st) && !st.inList
    requires |lines| > 0 && AllListLines(lines)
    ensures ScanFrom(st, lines) == st.(elements := st.elements + ParagraphNodes(st.paragraph, false),
                                      paragraph := [], listItems := ItemTexts(lines), inList := true)
    decreases |lines|
  {
    var n := |lines|;
    if n == 1 {
      ListStep(st, lines[0]);
    } else {
      var init := lines[..n - 1];
      ListRun(st, init);
      var mid := ScanFrom(st, init);
      assert ScanFrom(st, lines) == Step(mid, lines[n - 1]);
      ListStep(mid, lines[n - 1]);
    }
  }

  /** A line an open list survives: a heading or a list line. */
  predicate KeepsList(line: string) {
    IsHeading(line) || IsListLine(line)
  }

  predicate AllKeepList(lines: seq<string>) {
    forall i :: 0 <= i < |lines| ==> KeepsList(lines[i])
  }

  /** The heading a line emits, if it is one. */
  function HeadingOf(line: string): seq<Node> {
    if IsH2Line(line) then [H2(line[3..])] else if IsH3Line(line) then [H3(line[4..])] else []
  }

  /** The item a line adds to the list, unless it is a heading. */
  function ItemOf(line: string): seq<string> {
    if IsHeading(line) then [] else [ItemText(line)]
  }

  /** The headings a run emits, in order. */
  function HeadingNodes(lines: seq<string>): seq<Node>
    decreases |lines|
  {
    if |lines| == 0 then [] else HeadingNodes(lines[..|lines| - 1]) + HeadingOf(lines[|lines| - 1])
  }

  /** The list items a run collects, in order: the item texts of its non-heading lines. */
  function RunItems(lines: seq<string>): seq<string>
    decreases |lines|
  {
    if |lines| == 0 then [] else RunItems(lines[..|lines| - 1]) + ItemOf(lines[|lines| - 1])
  }

  /** A heading or list line, read with no paragraph pending, emits its heading or adds its item. */
  lemma KeepStep(st: Scan, line: string)
    requires Valid(st) && st.paragraph == []
    requires KeepsList(line)
    ensures Step(st, line) == st.(elements := st.elements + HeadingOf(line),
                                  listItems := st.listItems + ItemOf(line),
                                  inList := st.inList || !IsHeading(line))
  {
    if IsH2Line(line) {
      H2Step(st, line);
    } else if IsH3Line(line) {
      H3Step(st, line);
    } else {
      ListStep(st, line);
    }
  }

  /**
   * The state after a run of headings and list lines: a pending paragraph
   * flushed as escaped text once, the run's headings emitted in order, the
   * item texts of its list lines added to the list, which is open exactly
   * when it was open before or the run holds a list line.
   */
  function AfterRun(st: Scan, lines: seq<string>): Scan {
    st.(elements := st.elements + ParagraphNodes(st.paragraph, false) + HeadingNodes(lines),
        paragraph := [],
        listItems := st.listItems + RunItems(lines),
        inList := st.inList || |RunItems(lines)| > 0)
  }

  /** The first line of such a run. */
  lemma {:induction false} MixedRunFirst(st: Scan, line: string)
    requires Valid(st) && KeepsList(line)
    ensures ScanFrom(st, [line]) == AfterRun(st, [line])
  {
    assert [line][..0] == [];
    assert HeadingNodes([line]) == HeadingOf(line);
    assert RunItems([line]) == ItemOf(line);
    var flushed := st.(elements := st.elements + ParagraphNodes(st.paragraph, false), paragraph := []);
    assert Step(st, line) == Step(flushed, line);
    KeepStep(flushed, line);
  }

  /** Extending a run by one line adds that line's heading and item to `AfterRun`. */
  lemma {:induction false} AfterRunSnoc(st: Scan, lines: seq<string>)
    requires |lines| > 1
    ensures var before := AfterRun(st, lines[..|lines| - 1]);
      var line := lines[|lines| - 1];
      AfterRun(st, lines) == before.(elements := before.elements + HeadingOf(line),
                                     listItems := before.listItems + ItemOf(line),
                                     inList := before.inList || !IsHeading(line))
  {
    var init := lines[..|lines| - 1];
    var line := lines[|lines| - 1];
    assert HeadingNodes(lines) == HeadingNodes(init) + HeadingOf(line);
    assert RunItems(lines) == RunItems(init) + ItemOf(line);
  }

  /** One more line of such a run. */
  lemma {:induction false} MixedRunNext(st: Scan, lines: seq<string>)
    requires Valid(st) && |lines| > 1 && KeepsList(lines[|lines| - 1])
    requires ScanFrom(st, lines[..|lines| - 1]) == AfterRun(st, lines[..|lines| - 1])
    ensures ScanFrom(st, lines) == AfterRun(st, lines)
  {
    var init := lines[..|lines| - 1];
    var mid := ScanFrom(st, init);
    ScanValid(st, init);
    KeepStep(mid, lines[|lines| - 1]);
    AfterRunSnoc(st, lines);
  }

  /** A run of headings and list lines leaves `AfterRun`. */
  lemma {:induction false} MixedRun(st: Scan, lines: seq<string>)
    requires Valid(st)
    requires |lines| > 0 && AllKeepList(lines)
    ensures ScanFrom(st, lines) == AfterRun(st, lines)
    decreases |lines|
  {
    var n := |lines|;
    if n == 1 {
      assert lines == [lines[0]];
      MixedRunFirst(st, lines[0]);
    } else {
      MixedRun(st, lines[..n - 1]);
      MixedRunNext(st, lines);
    }
  }

  /**
   * With the list open after a run of headings and list lines, the first
   * later line that is neither, blank included, emits exactly one list
   * holding every item collected, after the run's headings, and resets the
   * list state; a text line then starts the paragraph.
   */
  lemma ListClosed(st: Scan, lines: seq<string>, next: string)
    requires Valid(st)
    requires |lines| > 0 && AllKeepList(lines)
    requires st.inList || |RunItems(lines)| > 0
    requires !IsHeading(next) && !IsListLine(next)
    ensures var after := ScanFrom(st, lines + [next]);
      && after.elements == st.elements + ParagraphNodes(st.paragraph, false) + HeadingNodes(lines)
                           + [List(st.listItems + RunItems(lines))]
      && after.listItems == [] && !after.inList
      && after.paragraph == (if IsBlank(next) then [] else [Format(next)])
  {
    MixedRun(st, lines);
    assert (lines + [next])[..|lines|] == lines;
    var mid := ScanFrom(st, lines);
    if IsBlank(next) {
      BlankStep(mid, next);
    } else {
      TextStep(mid, next);
    }
  }

  /** A run of list lines only emits no heading and collects exactly its item texts. */
  lemma {:induction false} ListOnlyRun(lines: seq<string>)
    requires AllListLines(lines)
    ensures HeadingNodes(lines) == [] && RunItems(lines) == ItemTexts(lines)
    decreases |lines|
  {
    if |lines| > 0 {
      ListOnlyRun(lines[..|lines| - 1]);
    }
  }

  /** The paragraph buffer after formatting each line. */
  function FormattedLines(lines: seq<string>): (r: seq<string>)
    ensures |r| == |lines|
    ensures forall i :: 0 <= i < |lines| ==> r[i] == Format(lines[i])
  {
    if |lines| == 0 then [] else FormattedLines(lines[..|lines| - 1]) + [Format(lines[|lines| - 1])]
  }

  predicate AllTextLines(lines: seq<string>) {
    forall i :: 0 <= i < |lines| ==> !IsHeading(lines[i]) && !IsListLine(lines[i]) && !IsBlank(lines[i])
  }

  lemma {:induction false} TextRun(lines: seq<string>)
    requires AllTextLines(lines)
    ensures ScanFrom(Start, lines) == Scan([], FormattedLines(lines), [], false)
    decreases |lines|
  {
    var n := |lines|;
    if n > 0 {
      var init := lines[..n - 1];
      TextRun(init);
      var mid := ScanFrom(Start, init);
      assert ScanFrom(Start, lines) == Step(mid, lines[n - 1]);
      TextStep(mid, lines[n - 1]);
    }
  }

  /**
   * A body with no heading, list or blank line renders as exactly one raw
   * paragraph: its lines, each formatted, joined by single spaces.
   */
  lemma ParagraphOnly(content: string)
    requires AllTextLines(Split(content, '\n'))
    ensures Render(content) == [Para(Join(FormattedLines(Split(content, '\n')), " "), true)]
  {
    TextRun(Split(content, '\n'));
  }

  lemma {:induction false} BlankRun(lines: seq<string>)
    requires forall i :: 0 <= i < |lines| ==> IsBlank(lines[i])
    ensures ScanFrom(Start, lines) == Start
    decreases |lines|
  {
    var n := |lines|;
    if n > 0 {
      BlankRun(lines[..n - 1]);
      BlankStep(Start, lines[n - 1]);
    }
  }

  /** The lines of an all-white-space body are all white space. */
  lemma {:induction false} SplitWhiteSpace(s: string)
    requires AllWhiteSpace(s)
    ensures forall i :: 0 <= i < |Split(s, '\n')| ==> AllWhiteSpace(Split(s, '\n')[i])
    decreases |s|
  {
    if |s| > 0 {
      SplitWhiteSpace(s[1..]);
    }
  }

  /** An empty body, or one of blank lines only, renders nothing. */
  lemma BlankBodyRendersNothing(content: string)
    requires AllWhiteSpace(content)
    ensures Render(content) == []
  {
    var lines := Split(content, '\n');
    SplitWhiteSpace(content);
    forall i | 0 <= i < |lines|
      ensures IsBlank(lines[i])
    {
      TrimEmptyIff(lines[i]);
    }
    BlankRun(lines);
  }

  /** A one-line body `## t` renders as the single heading `t`, spacing kept. */
  lemma SingleH2(t: string)
    requires '\n' !in t
    ensures Render("## " + t) == [H2(t)]
  {
    var line := "## " + t;
    assert '\n' !in line;
    SplitJoin([line], '\n');
    H2Step(Start, line);
    assert ScanFrom(Start, [line]) == Step(Start, line);
    assert line[3..] == t;
  }

  /** A one-line body `### t` renders as the single H3 `t`. */
  lemma SingleH3(t: string)
    requires '\n' !in t
    ensures Render("### " + t) == [H3(t)]
  {
    var line := "### " + t;
    assert '\n' !in line;
    SplitJoin([line], '\n');
    H3Step(Start, line);
    assert ScanFrom(Start, [line]) == Step(Start, line);
    assert line[4..] == t;
  }
}

module MarkdownExamples {
  import opened JsString
  import opened InlineFormat
  import opened MarkdownConverter
  import opened MarkdownProperties

  predicate ItemLike(a: string) {
    |a| > 0 && !IsWhiteSpace(a[|a| - 1]) && '\n' !in a
  }

  lemma ListLineOf(a: string)
    requires ItemLike(a)
    ensures IsListLine("- " + a) && !IsHeading("- " + a) && ItemText("- " + a) == a
  {
    var line := "- " + a;
    TrimUnchanged(line);
    assert line[..2] == "- ";
    assert line[0] == '-';
    assert !IsHeading(line);
    ReplacePrefix(line, "- ");
    assert line[2..] == a;
  }

  /** Rendering a body is rendering the lines it was joined from. */
  lemma RenderJoined(lines: seq<string>)
    requires |lines| > 0 && forall i :: 0 <= i < |lines| ==> '\n' !in lines[i]
    ensures Render(Join(lines, "\n")) == RenderLines(lines)
  {
    assert "\n" == ['\n'];
    SplitJoin(lines, '\n');
    assert Split(Join(lines, "\n"), '\n') == lines;
  }

  /** Scanning one more line is one more step. */
  lemma ScanSnoc(st: Scan, lines: seq<string>, line: string)
    ensures ScanFrom(st, lines + [line]) == Step(ScanFrom(st, lines), line)
  {
    assert (lines + [line])[..|lines|] == lines;
  }

  /** `line` is a list line, not a heading, whose item text is `a` (ListLineOf gives one). */
  predicate ItemLine(line: string, a: string) {
    IsListLine(line) && !IsHeading(line) && ItemText(line) == a
  }

  lemma TwoItemLines(l1: string, l2: string, a: string, b: string)
    requires ItemLine(l1, a) && ItemLine(l2, b)
    ensures AllListLines([l1, l2]) && ItemTexts([l1, l2]) == [a, b]
  {
    assert [l1, l2][..1] == [l1];
  }

  lemma ScanTwoItems(l1: string, l2: string, a: string, b: string)
    requires ItemLine(l1, a) && ItemLine(l2, b)
    ensures ScanFrom(Start, [l1, l2]) == Scan([], [], [a, b], true)
  {
    TwoItemLines(l1, l2, a, b);
    ListRun(Start, [l1, l2]);
  }

  lemma ScanListBlankText(l1: string, l2: string, a: string, b: string, text: string)
    requires ItemLine(l1, a) && ItemLine(l2, b)
    requires !IsHeading(text) && !IsListLine(text) && !IsBlank(text)
    ensures ScanFrom(Start, [l1, l2, "", text]) == Scan([List([a, b])], [Format(text)], [], false)
  {
    ScanTwoItems(l1, l2, a, b);
    var s1 := Scan([], [], [a, b], true);
    BlankStep(s1, "");
    var s2 := Scan([List([a, b])], [], [], false);
    assert Step(s1, "") == s2;
    ScanSnoc(Start, [l1, l2], "");
    assert [l1, l2] + [""] == [l1, l2, ""];
    TextStep(s2, text);
    ScanSnoc(Start, [l1, l2, ""], text);
    assert [l1, l2, ""] + [text] == [l1, l2, "", text];
  }

  /**
   * Two items, a blank line, a plain line: the blank line closes the list
   * before the paragraph starts.
   */
  lemma BlankLineClosesList(l1: string, l2: string, a: string, b: string, text: string)
    requires ItemLine(l1, a) && ItemLine(l2, b)
    requires |text| > 0 && !IsWhiteSpace(text[0]) && !IsWhiteSpace(text[|text| - 1])
    requires text[0] != '-' && text[0] != '#'
    requires '*' !in text && '[' !in text
    ensures RenderLines([l1, l2, "", text]) == [List([a, b]), Para(text, true)]
  {
    TrimUnchanged(text);
    assert text[0] != '#' && text[0] != ' ';
    assert !IsHeading(text) && !IsListLine(text) && !IsBlank(text);
    ScanListBlankText(l1, l2, a, b, text);
    FormatPlain(text);
    var st := Scan([List([a, b])], [text], [], false);
    FinishOrder(st);
    assert Finish(st) == [List([a, b]), Para(text, true)];
  }

  /** The same four lines as one body, joined by line feeds. */
  lemma BlankLineClosesListBody(l1: string, l2: string, a: string, b: string, text: string)
    requires ItemLine(l1, a) && ItemLine(l2, b)
    requires '\n' !in l1 && '\n' !in l2 && '\n' !in text
    requires |text| > 0 && !IsWhiteSpace(text[0]) && !IsWhiteSpace(text[|text| - 1])
    requires text[0] != '-' && text[0] != '#'
    requires '*' !in text && '[' !in text
    ensures Render(Join([l1, l2, "", text], "\n")) == [List([a, b]), Para(text, true)]
  {
    RenderJoined([l1, l2, "", text]);
    BlankLineClosesList(l1, l2, a, b, text);
  }

  /** `text` is a plain paragraph line. */
  lemma PlainText(text: string)
    requires text == "text"
    ensures '\n' !in text && '*' !in text && '[' !in text
    ensures |text| > 0 && !IsWhiteSpace(text[0]) && !IsWhiteSpace(text[|text| - 1])
    ensures text[0] != '-' && text[0] != '#'
  {
    assert text[0] == 't' && text[|text| - 1] == 't';
  }

  /** `- ` followed by an item-like text is a newline-free item line for that text. */
  lemma ItemLineOf(a: string, line: string)
    requires ItemLike(a) && line == "- " + a
    ensures ItemLine(line, a) && '\n' !in line
  {
    ListLineOf(a);
    assert forall k :: 0 <= k < |line| ==> line[k] in "- " || line[k] in a;
  }

  /** `- a` and `- b` are list lines, without a line feed, whose items are `a` and `b`. */
  lemma ListExampleItems(l1: string, l2: string)
    requires l1 == "- a" && l2 == "- b"
    ensures ItemLine(l1, "a") && ItemLine(l2, "b")
    ensures '\n' !in l1 && '\n' !in l2
  {
    ItemLineOf("a", l1);
    ItemLineOf("b", l2);
  }

  /** `- a`, `- b`, a blank line and `text`, joined by line feeds. */
  lemma ListExampleJoin(l1: string, l2: string, text: string)
    requires l1 == "- a" && l2 == "- b" && text == "text"
    ensures Join([l1, l2, "", text], "\n") == "- a\n- b\n\ntext"
  {
    assert [l1, l2, "", text][1..] == [l2, "", text];
    assert [l2, "", text][1..] == ["", text];
    assert ["", text][1..] == [text];
    assert Join(["", text], "\n") == "\ntext";
    assert Join([l2, "", text], "\n") == "- b\n\ntext";
  }

  /** The body `- a`, `- b`, a blank line, `text`: a two-item list, then a raw paragraph. */
  lemma ListBlankTextBody()
    ensures Render("- a\n- b\n\ntext") == [List(["a", "b"]), Para("text", true)]
  {
    var l1, l2, text := "- a", "- b", "text";
    ListExampleItems(l1, l2);
    PlainText(text);
    ListExampleJoin(l1, l2, text);
    BlankLineClosesListBody(l1, l2, "a", "b", text);
  }

  lemma ScanListHeading(l1: string, a: string, h: string)
    requires ItemLine(l1, a) && IsH2Line(h)
    ensures ScanFrom(Start, [l1, h]) == Scan([H2(h[3..])], [], [a], true)
  {
    var s1 := Scan([], [], [a], true);
    assert ScanFrom(Start, [l1]) == s1 by {
      assert AllListLines([l1]);
      assert ItemTexts([l1]) == [a];
      ListRun(Start, [l1]);
    }
    H2Step(s1, h);
    ScanSnoc(Start, [l1], h);
    assert [l1] + [h] == [l1, h];
  }

  /** A heading does not close an open list: the list comes out after the heading. */
  lemma HeadingLeavesListOpen(l1: string, a: string, h: string)
    requires ItemLine(l1, a) && IsH2Line(h)
    ensures RenderLines([l1, h]) == [H2(h[3..]), List([a])]
  {
    ScanListHeading(l1, a, h);
    var st := Scan([H2(h[3..])], [], [a], true);
    FinishOrder(st);
    assert Finish(st) == [H2(h[3..]), List([a])];
  }

  /**
   * A text line followed by a heading: the paragraph is flushed by the
   * heading, so its formatted text comes out escaped (`raw` is false) and
   * inline markup shows as literal tags.
   */
  lemma HeadingEscapesParagraph(text: string, h: string)
    requires !IsHeading(text) && !IsListLine(text) && !IsBlank(text)
    requires IsH2Line(h)
    ensures RenderLines([text, h]) == [Para(Format(text), false), H2(h[3..])]
  {
    TextStep(Start, text);
    var s1 := Scan([], [Format(text)], [], false);
    assert ScanFrom(Start, [text]) == s1 by {
      assert ScanFrom(Start, [text]) == Step(Start, text);
    }
    H2Step(s1, h);
    ScanSnoc(Start, [text], h);
    assert [text] + [h] == [text, h];
    var st := Scan([Para(Format(text), false), H2(h[3..])], [], [], false);
    FinishOrder(st);
  }
}
