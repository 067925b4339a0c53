/**
 * The `Markdown` component: one left-to-right scan over the lines of a body
 * that turns `## ` and `### ` lines into headings, runs of `- ` lines into a
 * list and everything else into paragraphs, with two buffers (paragraph lines
 * and list items) and an "in a list" flag. The scan is specified by `Step`
 * (one line) and `Finish` (end of input); the method `Markdown` is the loop
 * itself and is proved to compute `Render`.
 */
module MarkdownConverter {
  import opened JsString
  import opened InlineFormat

  /** What the converter emits. A `Para` is `raw` when its text is inserted as markup, not escaped. */
  datatype Node =
    | H2(text: string)
    | H3(text: string)
    | Para(text: string, raw: bool)
    | List(items: seq<string>)

  /** The scan's state: emitted nodes, the paragraph buffer, the list buffer and the list flag. */
  datatype Scan = Scan(elements: seq<Node>, paragraph: seq<string>, listItems: seq<string>, inList: bool)

  const Start := Scan([], [], [], false)

  /** The scan's invariant: the flag says whether list items are pending, and a list excludes a paragraph. */
  predicate Valid(st: Scan) {
    && (st.inList <==> |st.listItems| > 0)
    && (st.inList ==> st.paragraph == [])
  }

  predicate IsH2Line(line: string) { StartsWith(line, "## ") }
  predicate IsH3Line(line: string) { StartsWith(line, "### ") }
  predicate IsHeading(line: string) { IsH2Line(line) || IsH3Line(line) }
  predicate IsListLine(line: string) { StartsWith(Trim(line), "- ") }
  predicate IsBlank(line: string) { Trim(line) == "" }

  /** A list item's text: the trimmed line with its first `- ` removed. */
  function ItemText(line: string): string {
    ReplaceFirst(Trim(line), "- ", "")
  }

  /** The nodes a paragraph buffer flushes to: none when empty, else one paragraph joined by spaces. */
  function ParagraphNodes(paragraph: seq<string>, raw: bool): seq<Node> {
    if |paragraph| > 0 then [Para(Join(paragraph, " "), raw)] else []
  }

  /** The nodes an open list flushes to. */
  function ListNodes(st: Scan): seq<Node> {
    if st.inList then [List(st.listItems)] else []
  }

  function FlushParagraph(st: Scan, raw: bool): Scan {
    st.(elements := st.elements + ParagraphNodes(st.paragraph, raw), paragraph := [])
  }

  function CloseList(st: Scan): Scan {
    if st.inList then st.(elements := st.elements + [List(st.listItems)], listItems := [], inList := false)
    else st
  }

  /** One turn of the scan. */
  function Step(st: Scan, line: string): Scan {
    if IsH2Line(line) then
      var st' := FlushParagraph(st, false);
      st'.(elements := st'.elements + [H2(ReplaceFirst(line, "## ", ""))])
    else if IsH3Line(line) then
      var st' := FlushParagraph(st, false);
      st'.(elements := st'.elements + [H3(ReplaceFirst(line, "### ", ""))])
    else if IsListLine(line) then
      var st' := if st.inList then st else FlushParagraph(st.(inList := true), false);
      st'.(listItems := st'.listItems + [ItemText(line)])
    else
      var st' := CloseList(st);
      if !IsBlank(line) then st'.(paragraph := st'.paragraph + [Format(line)])
      else FlushParagraph(st', true)
  }

  /** The state after scanning `lines` from `st`. */
  function ScanFrom(st: Scan, lines: seq<string>): Scan
    decreases |lines|
  {
    if |lines| == 0 then st
    else Step(ScanFrom(st, lines[..|lines| - 1]), lines[|lines| - 1])
  }

  /** End of input: the paragraph first, then a list that is still open. */
  function Finish(st: Scan): seq<Node> {
    FlushParagraph(st, true).elements + (if st.inList && |st.listItems| > 0 then [List(st.listItems)] else [])
  }

  function RenderLines(lines: seq<string>): seq<Node> {
    Finish(ScanFrom(Start, lines))
  }

  /** What the component renders for `content`, split at every newline. */
  function Render(content: string): seq<Node> {
    RenderLines(Split(content, '\n'))
  }

  /**
   * The `forEach` callback: one line's effect on the four variables, with the
   * early `return`s of the two heading branches and of the list branch.
   */
  method VisitLine(line: string, elements: seq<Node>, currentParagraph: seq<string>, listItems: seq<string>, inList: bool)
    returns (elements': seq<Node>, currentParagraph': seq<string>, listItems': seq<string>, inList': bool)
    ensures Scan(elements', currentParagraph', listItems', inList')
         == Step(Scan(elements, currentParagraph, listItems, inList), line)
  {
    elements', currentParagraph', listItems', inList' := elements, currentParagraph, listItems, inList;
    if StartsWith(line, "## ") {
      if |currentParagraph'| > 0 {
        elements' := elements' + [Para(Join(currentParagraph', " "), false)];
        currentParagraph' := [];
      }
      elements' := elements' + [H2(ReplaceFirst(line, "## ", ""))];
      return;
    }
    if StartsWith(line, "### ") {
      if |currentParagraph'| > 0 {
        elements' := elements' + [Para(Join(currentParagraph', " "), false)];
        currentParagraph' := [];
      }
      elements' := elements' + [H3(ReplaceFirst(line, "### ", ""))];
      return;
    }
    if StartsWith(Trim(line), "- ") {
      if !inList' {
        inList' := true;
        if |currentParagraph'| > 0 {
          elements' := elements' + [Para(Join(currentParagraph', " "), false)];
          currentParagraph' := [];
        }
      }
      listItems' := listItems' + [ReplaceFirst(Trim(line), "- ", "")];
      return;
    } else if inList' {
      elements' := elements' + [List(listItems')];
      listItems' := [];
      inList' := false;
    }
    if Trim(line) != "" {
      var processedLine := line;
      processedLine := ReplaceEmphasis(processedLine, "**", "strong");
      processedLine := ReplaceEmphasis(processedLine, "*", "em");
      processedLine := ReplaceLinks(processedLine, AnchorTemplate);
      currentParagraph' := currentParagraph' + [processedLine];
    } else {
      if |currentParagraph'| > 0 {
        elements' := elements' + [Para(Join(currentParagraph', " "), true)];
        currentParagraph' := [];
      }
    }
  }

  /** The component: the callback over every line, then the two final flushes. */
  method Markdown(content: string) returns (elements: seq<Node>)
    ensures elements == Render(content)
  {
    var lines := Split(content, '\n');
    elements := [];
    var currentParagraph: seq<string> := [];
    var listItems: seq<string> := [];
    var inList := false;
    for index := 0 to |lines|
      invariant ScanFrom(Start, lines[..index]) == Scan(elements, currentParagraph, listItems, inList)
    {
      assert lines[..index + 1][..index] == lines[..index];
      elements, currentParagraph, listItems, inList := VisitLine(lines[index], elements, currentParagraph, listItems, inList);
    }
    assert lines[..|lines|] == lines;
    if |currentParagraph| > 0 {
      elements := elements + [Para(Join(currentParagraph, " "), true)];
    }
    if inList && |listItems| > 0 {
      elements := elements + [List(listItems)];
    }
  }
}
