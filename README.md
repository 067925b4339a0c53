# BlockRenderer, modelled in Dafny

This project models the article-body renderer of a Next.js front end for a
Strapi CMS (`frontend/components/BlockRenderer.tsx`). The component has two
parts.

- **`Markdown`** converts a constrained Markdown body into a list of nodes.
  - It makes one left-to-right pass over `content.split('\n')` with four
    pieces of state: the emitted elements, a paragraph buffer, a list-item
    buffer and an "in a list" flag.
  - Lines starting with `## ` and `### ` become headings. Lines whose trim
    starts with `- ` become list items. Blank lines end paragraphs. Every
    other line is inline-formatted and buffered into a paragraph.
  - Inline formatting runs three global, lazy regular-expression passes in
    order: bold, italic, link.
- **`BlockRenderer`** dispatches on a block's `__component` tag:
  - rich text goes through `Markdown`;
  - a quote shows its body and an optional citation;
  - a media block shows one image;
  - a slider shows one image per file that has a url.

  Alternative text falls back with JavaScript truthiness, so an empty string
  counts as missing. The `console.warn` calls become a list of warnings.

Modules:

- `JsString`: the JavaScript string operations the component uses, with
  ECMAScript semantics:
  - `split` on one character, with `""` giving `[""]`;
  - `join`;
  - `trim`, over the ECMAScript WhiteSpace and LineTerminator sets;
  - `startsWith`;
  - `replace` with a string pattern and a replacement free of `$`
    patterns, which replaces the first occurrence only;
  - the decimal text a template literal gives a number.
- `InlineFormat`: the three regular-expression passes.
  - Each pass is a left-to-right scan that substitutes the leftmost match and
    resumes after it.
  - `(.*?)` is the shortest run of characters that are not ECMAScript line
    terminators (`\n`, `\r`, U+2028, U+2029).
  - For a `[x](y)` match, the engine's retry with a longer link text never
    succeeds (`LaterMiddleClosesEarlier`). So the match is the first `](` and
    the first `)` after it (`FindLinkFirst`).
  - The link pass takes its replacement string as a `Template`: literal text
    around `$2` (the target) and `$1` (the text). The renderer passes
    `AnchorTemplate`, the markup of line 73; `AnchorFill` shows it yields
    `Anchor`.
- `MarkdownConverter`:
  - `Step`, `ScanFrom` and `Finish` specify the scan as functions.
  - The method `VisitLine` is the `forEach` callback, early returns
    included. It is proved to perform one `Step`.
  - The method `Markdown` is the loop itself, updating its four variables in
    place. It is proved to compute `Render`.
- `MarkdownProperties`:
  - the scan invariant: `inList` holds exactly when list items are pending,
    and an open list means the paragraph buffer is empty;
  - the effect of each kind of line;
  - results about whole bodies.
- `MarkdownExamples`: concrete bodies.
- `BlockDispatch` and `BlockProperties`: the dispatcher and its properties,
  tag by tag. `BlockExamples` holds a concrete slider.

In three places the code does less than the rest of the component
suggests. The model follows the code in each.

1. **Escaped paragraphs.** Every paragraph line holds the formatter's HTML
   (lines 67-75), which suggests paragraphs are to be inserted as markup.
   In the code, only a paragraph flushed by a blank line or by the end of
   input is inserted as markup (`dangerouslySetInnerHTML`, lines 79 and 89).
   - A paragraph flushed by a heading or by the start of a list becomes an
     escaped text child (lines 17, 30 and 46).
   - So the `<strong>`/`<em>`/`<a>` tags it already holds show up literally.
   - `Para.raw` records which case applies; `HeadingEscapesParagraph` shows it.
2. **Rescanning.** The code runs three independent `replace` passes, so
   each pass rescans what the ones before it substituted.
   - The italic pass sees the inner text of a bold span.
   - The link pass sees the output of both emphasis passes.
   - `Format` composes the passes in exactly that way.
3. **Slider warnings.** The comment at line 193 says a warning is logged
   when a slider block has no files. The code warns only when `files` is
   `undefined` or an empty array. A `null` or non-array `files` renders nothing silently (line
   194); see `SliderWithoutSlides`.

Other behaviours the code has, kept as written:

- A heading does not close an open list, so the list comes out after the
  heading (`HeadingLeavesListOpen`), and list lines after the heading join
  the same list (`MixedRun`, `ListClosed`).
- Heading text is neither trimmed nor formatted (`H2Step`, `SingleH2`).
- List item text is not formatted.

## Model

| member | source | states |
|---|---|---|
| MarkdownConverter.Step | frontend/components/BlockRenderer.tsx:13-84 | one line's effect on the scan state; stated by `StepValid`, `H2Step`, `H3Step`, `ListStep`, `TextStep` and `BlankStep`, and by `VisitLine`, which is proved to perform it |
| MarkdownConverter.ScanFrom | frontend/components/BlockRenderer.tsx:13 | the `forEach` over the lines, one `Step` per line in order; stated by `ScanValid`, `ScanAppend`, `ScanSnoc`, `MixedRun`, `ListRun`, `TextRun` and `BlankRun`, and by `Markdown`'s loop invariant |
| MarkdownConverter.Finish | frontend/components/BlockRenderer.tsx:86-100 | what is emitted after the last line; stated by `FinishOrder` |
| MarkdownConverter.Render | frontend/components/BlockRenderer.tsx:6-103 | the nodes rendered for a body; stated by `Markdown`, which computes it, and by `ParagraphOnly`, `BlankBodyRendersNothing`, `SingleH2`, `SingleH3`, `RenderJoined`, `BlankLineClosesListBody` and `HeadingLeavesListOpen` |
| MarkdownConverter.VisitLine | frontend/components/BlockRenderer.tsx:13-84 | one call of the `forEach` callback, with its early returns, leaves the four variables exactly as `Step` prescribes for that line |
| MarkdownConverter.Markdown | frontend/components/BlockRenderer.tsx:6-103 | the line loop, updating elements, paragraph buffer, list buffer and flag in place, returns exactly `Render(content)`, the scan specified by `Step` and `Finish` over `content.split('\n')` |
| MarkdownProperties.H3IsNotH2 | frontend/components/BlockRenderer.tsx:15-28 | a line starting with `### ` never passes the `## ` test |
| MarkdownProperties.BlankIsPlain | frontend/components/BlockRenderer.tsx:15-65 | a line whose trim is empty is neither a heading nor a list line |
| MarkdownProperties.StepValid | frontend/components/BlockRenderer.tsx:13-84 | every kind of line keeps the invariant: `inList` exactly when items are pending, and an open list means no pending paragraph |
| MarkdownProperties.ScanValid | frontend/components/BlockRenderer.tsx:13-84 | the invariant holds after any number of lines |
| MarkdownProperties.ScanAppend | frontend/components/BlockRenderer.tsx:13-84 | scanning two stretches of lines is scanning the second from the state the first leaves |
| MarkdownProperties.H2Step | frontend/components/BlockRenderer.tsx:15-26 | a `## ` line flushes a pending paragraph as escaped text joined by spaces, then emits one H2 holding the line minus its leading `## `, untrimmed and unformatted; the list state is untouched |
| MarkdownProperties.H3Step | frontend/components/BlockRenderer.tsx:28-39 | the same for `### ` and an H3 |
| MarkdownProperties.ListStep | frontend/components/BlockRenderer.tsx:42-51 | a list line flushes a pending paragraph as escaped text, opens the list and appends the trimmed line minus its leading `- ` |
| MarkdownProperties.TextStep | frontend/components/BlockRenderer.tsx:52-75 | a non-blank text line first emits an open list, then appends the formatted line to the paragraph buffer |
| MarkdownProperties.BlankStep | frontend/components/BlockRenderer.tsx:52-83 | a blank line emits an open list, then flushes the paragraph as raw markup, leaving the empty state |
| MarkdownProperties.FinishOrder | frontend/components/BlockRenderer.tsx:86-100 | at end of input the paragraph (raw) comes first, then the open list, and never both |
| MarkdownProperties.ListRun | frontend/components/BlockRenderer.tsx:42-51 | a run of list lines flushes the pending paragraph once and collects the item texts in encounter order |
| MarkdownProperties.KeepStep | frontend/components/BlockRenderer.tsx:15-51 | with no paragraph pending, a heading line emits its heading and leaves the list as it is, and a list line adds its item and opens the list |
| MarkdownProperties.MixedRun | frontend/components/BlockRenderer.tsx:13-62 | a run of headings and list lines flushes a pending paragraph as escaped text once, emits its headings in order and adds its list lines' item texts to the list, which the headings leave open |
| MarkdownProperties.ListClosed | frontend/components/BlockRenderer.tsx:15-83 | after such a run with the list open, the first later line that is neither a heading nor a list line, blank included, emits exactly one List with every collected item after the run's headings, resets the list state, and a text line starts the paragraph |
| MarkdownProperties.ListOnlyRun | frontend/components/BlockRenderer.tsx:42-51 | a run of list lines only emits no heading and collects exactly its item texts |
| MarkdownProperties.TextRun | frontend/components/BlockRenderer.tsx:64-75 | a run of text lines from the start fills the paragraph buffer with the formatted lines, in order |
| MarkdownProperties.ParagraphOnly | frontend/components/BlockRenderer.tsx:7-91 | a body of text lines only renders as one raw paragraph: the formatted lines joined by single spaces |
| MarkdownProperties.BlankRun | frontend/components/BlockRenderer.tsx:76-83 | blank lines from the start leave the initial state |
| MarkdownProperties.SplitWhiteSpace | frontend/components/BlockRenderer.tsx:7 | every line of an all-white-space body is all white space |
| MarkdownProperties.BlankBodyRendersNothing | frontend/components/BlockRenderer.tsx:7-100 | an empty body, or one of blank lines only, renders no node |
| MarkdownProperties.SingleH2 | frontend/components/BlockRenderer.tsx:7-26 | the body `## t` renders as the single H2 `t`, spacing kept |
| MarkdownProperties.SingleH3 | frontend/components/BlockRenderer.tsx:7-39 | the body `### t` renders as the single H3 `t` |
| MarkdownExamples.ListLineOf | frontend/components/BlockRenderer.tsx:42-50 | `- a`, with `a` ending in non-white space, is a list line whose item text is `a` |
| MarkdownExamples.RenderJoined | frontend/components/BlockRenderer.tsx:7 | rendering the body joined from newline-free lines is rendering those lines |
| MarkdownExamples.ScanSnoc | frontend/components/BlockRenderer.tsx:13 | one more line is one more step of the scan |
| MarkdownExamples.TwoItemLines | frontend/components/BlockRenderer.tsx:42-50 | two item lines are list lines whose texts are the two items |
| MarkdownExamples.ScanTwoItems | frontend/components/BlockRenderer.tsx:42-51 | after two item lines the list is open with both items and nothing is emitted |
| MarkdownExamples.ScanListBlankText | frontend/components/BlockRenderer.tsx:42-75 | two items, a blank line and a text line leave the list emitted and the formatted text pending |
| MarkdownExamples.BlankLineClosesList | frontend/components/BlockRenderer.tsx:42-91 | two items, a blank line and a plain line render as the list followed by the raw paragraph |
| MarkdownExamples.BlankLineClosesListBody | frontend/components/BlockRenderer.tsx:7-91 | the same four lines, joined by line feeds into one body, render as the list followed by the raw paragraph |
| MarkdownExamples.ItemLineOf | frontend/components/BlockRenderer.tsx:42-50 | `- ` followed by a text with a non-white-space end and no line feed is a list line whose item text is that text |
| MarkdownExamples.ListBlankTextBody | frontend/components/BlockRenderer.tsx:7-91 | the body `- a`, `- b`, a blank line, `text` renders as the list of `a` and `b` followed by the raw paragraph `text` |
| MarkdownExamples.ScanListHeading | frontend/components/BlockRenderer.tsx:15-51 | an item then a `## ` line emits the heading while the list stays open |
| MarkdownExamples.HeadingLeavesListOpen | frontend/components/BlockRenderer.tsx:15-100 | an item then a `## ` line render as the heading followed by the list |
| MarkdownExamples.HeadingEscapesParagraph | frontend/components/BlockRenderer.tsx:15-75 | a text line then a `## ` line render as an escaped paragraph of the formatted text, then the heading |
| JsString.StartsWith | frontend/components/BlockRenderer.tsx:15-42 | `startsWith`: the prefix fits and the string begins with it; used by `H3IsNotH2`, `BlankIsPlain` and `ReplacePrefix` |
| JsString.ReplaceFirst | frontend/components/BlockRenderer.tsx:22-50 | `replace` with a string pattern and a `$`-free replacement: the first occurrence only; stated by `ReplacePrefix` for the prefix case the renderer uses at lines 22, 35 and 50 |
| JsString.TrimStart | frontend/components/BlockRenderer.tsx:42-65 | the leading half of `trim`; stated by `TrimStartSpec` |
| JsString.TrimEnd | frontend/components/BlockRenderer.tsx:42-65 | the trailing half of `trim`; stated by `TrimEndSpec` |
| JsString.Trim | frontend/components/BlockRenderer.tsx:42-65 | `trim`; stated by `TrimIsInfix`, `TrimUnchanged` and `TrimEmptyIff` |
| JsString.IndexOf | frontend/components/BlockRenderer.tsx:22 | a reported position lies at or after the start, with the whole pattern inside the string |
| JsString.IndexOfFirst | frontend/components/BlockRenderer.tsx:22 | the position reported is the first occurrence of the pattern at or after the start, and none is reported only when there is none |
| JsString.ReplacePrefix | frontend/components/BlockRenderer.tsx:22 | replacing a prefix the string starts with by nothing drops exactly that prefix |
| JsString.TrimStartSpec | frontend/components/BlockRenderer.tsx:42 | the result is a suffix of the input; what is dropped is white space and what is left does not start with white space |
| JsString.TrimEndSpec | frontend/components/BlockRenderer.tsx:42 | the result is a prefix of the input; what is dropped is white space and what is left does not end with white space |
| JsString.TrimUnchanged | frontend/components/BlockRenderer.tsx:42 | a string with no white space at either end is its own trim |
| JsString.TrimEmptyIff | frontend/components/BlockRenderer.tsx:65 | a string's trim is empty exactly when the string is all white space |
| JsString.TrimIsInfix | frontend/components/BlockRenderer.tsx:42 | a trim sits inside the string between two all-white-space ends and neither starts nor ends with white space |
| JsString.Join | frontend/components/BlockRenderer.tsx:17-89 | `Array.prototype.join` of the paragraph buffer at lines 17, 30, 46, 79 and 89; stated by `JoinSnoc`, `JoinSplit` and `SplitJoin`, and `ParagraphOnly` shows a paragraph is its lines joined by single spaces |
| JsString.JoinSnoc | frontend/components/BlockRenderer.tsx:17 | joining one more part appends the separator and that part |
| JsString.Split | frontend/components/BlockRenderer.tsx:7 | `split` gives at least one part and no part contains the separator |
| JsString.JoinSplit | frontend/components/BlockRenderer.tsx:7 | joining the parts of a split with the separator restores the string |
| JsString.SplitJoin | frontend/components/BlockRenderer.tsx:7 | splitting the join of separator-free parts restores the parts |
| JsString.NatToString | frontend/components/BlockRenderer.tsx:175 | a number's decimal text is non-empty, all digits, with no leading zero |
| JsString.NatToStringRoundTrip | frontend/components/BlockRenderer.tsx:175 | that decimal text reads back as the number |
| InlineFormat.Format | frontend/components/BlockRenderer.tsx:67-73 | the three passes in order; stated by `FormatPlain`, `FormatBold`, `FormatItalic`, `FormatLink` and `FormatMixed` |
| InlineFormat.ReplaceEmphasis | frontend/components/BlockRenderer.tsx:69-71 | one emphasis pass; stated by `EmphasisKeep`, `EmphasisSkip`, `EmphasisIdentity`, `NoOccurrenceIdentity`, `BoldIdentity` and `EmphasisShortest` |
| InlineFormat.ReplaceLinks | frontend/components/BlockRenderer.tsx:73 | the link pass; stated by `LinkKeep`, `LinksSkip`, `LinkFound` and `LinkShortest` |
| InlineFormat.Wrap | frontend/components/BlockRenderer.tsx:69-71 | the `<strong>$1</strong>` and `<em>$1</em>` replacements; `EmphasisShortest`, `FormatBold`, `FormatItalic` and `FormatMixed` show each match becomes its inner text wrapped in the tag |
| InlineFormat.Fill | frontend/components/BlockRenderer.tsx:73 | the `$1`/`$2` substitution of a replacement `Template`; `AnchorFill` shows the link pass's template puts the target in the `href` and the text between the tags, and `LinkFound`/`LinkShortest` show each link is replaced by it |
| InlineFormat.Anchor | frontend/components/BlockRenderer.tsx:73 | the anchor markup; `AnchorFill` shows the pass's template yields it |
| InlineFormat.FindClose | frontend/components/BlockRenderer.tsx:69 | a reported closing position lies at or after the start and has the closing delimiter there |
| InlineFormat.FindCloseShortest | frontend/components/BlockRenderer.tsx:69-73 | the lazy `(.*?)` run ends where the closing delimiter first follows, before any line terminator, and there is none when it reports none |
| InlineFormat.FindCloseAt | frontend/components/BlockRenderer.tsx:69-71 | when no character before a closing delimiter could begin one, the lazy run ends there |
| InlineFormat.EmphasisSkip | frontend/components/BlockRenderer.tsx:69-71 | text without the delimiter's first character passes through an emphasis pass unchanged |
| InlineFormat.EmphasisIdentity | frontend/components/BlockRenderer.tsx:69-71 | a line without the delimiter's first character is left unchanged by an emphasis pass |
| InlineFormat.EmphasisShortest | frontend/components/BlockRenderer.tsx:69-71 | a delimited run whose inner text has no delimiter character and no line terminator is wrapped whole in the tag, and the scan resumes after it |
| InlineFormat.EmphasisKeep | frontend/components/BlockRenderer.tsx:69-71 | where no delimiter opens, an emphasis pass keeps the first character and moves on |
| InlineFormat.NoOccurrenceIdentity | frontend/components/BlockRenderer.tsx:69-71 | a line in which the delimiter never occurs is left unchanged by its pass |
| InlineFormat.BoldIdentity | frontend/components/BlockRenderer.tsx:69 | a line with no two adjacent `*` is left unchanged by the bold pass, single stars included |
| InlineFormat.FindLink | frontend/components/BlockRenderer.tsx:73 | a reported link has its `](` after the `[` and its `)` after the `](` |
| InlineFormat.LaterMiddleClosesEarlier | frontend/components/BlockRenderer.tsx:73 | a target that closes after a later `](` also closes after an earlier one |
| InlineFormat.FindLinkFirst | frontend/components/BlockRenderer.tsx:73 | the link found is a match and the first in the regular-expression engine's order (shortest text, then shortest target); there is none when none is found |
| InlineFormat.FoundLinkFirst | frontend/components/BlockRenderer.tsx:73 | a reported link is a match, and no match has an earlier `](`, or the same one and an earlier `)` |
| InlineFormat.NoLinkFound | frontend/components/BlockRenderer.tsx:73 | when no link is reported there is no match at all |
| InlineFormat.FindLinkOfShortest | frontend/components/BlockRenderer.tsx:73 | with no `]` in the text and no `)` in the target, the match found is exactly that one |
| InlineFormat.AnchorFill | frontend/components/BlockRenderer.tsx:73 | the link pass's template puts the target in the `href` and the text between the tags, giving `Anchor` |
| InlineFormat.LinkKeep | frontend/components/BlockRenderer.tsx:73 | a character other than `[` is kept by the link pass and the scan moves on |
| InlineFormat.LinksSkip | frontend/components/BlockRenderer.tsx:73 | text without `[` passes through the link pass unchanged |
| InlineFormat.LinkFound | frontend/components/BlockRenderer.tsx:73 | where a link is found, the template filled with its text and target replaces it and the scan resumes after its `)` |
| InlineFormat.LinkShortest | frontend/components/BlockRenderer.tsx:73 | `[x](y)` with a `]`-free text and a `)`-free target becomes the template filled with text `x` and target `y`, and the scan resumes after it |
| InlineFormat.FormatPlain | frontend/components/BlockRenderer.tsx:67-73 | a line with neither `*` nor `[` comes out of the three passes unchanged |
| InlineFormat.FormatBold | frontend/components/BlockRenderer.tsx:67-73 | `**x**` with plain `x` comes out as one `strong` element and is left alone by the italic and link passes |
| InlineFormat.FormatItalic | frontend/components/BlockRenderer.tsx:67-73 | `*x*` with plain non-empty `x` passes the bold pass unchanged and comes out as one `em` element |
| InlineFormat.FormatLink | frontend/components/BlockRenderer.tsx:67-73 | `[x](y)` with plain `x` and `y` comes out of the three passes as the anchor markup with href `y`, the link class, a new-tab target, `rel="noopener noreferrer"` and text `x` |
| InlineFormat.BoldOfMixed | frontend/components/BlockRenderer.tsx:69 | the bold pass wraps `**a**` and leaves the single-star rest alone |
| InlineFormat.ItalicOfMixed | frontend/components/BlockRenderer.tsx:71 | the italic pass wraps `*c*` between star-free text |
| InlineFormat.StarsApart | frontend/components/BlockRenderer.tsx:69-71 | single stars around a plain run, with none elsewhere, never touch, so the bold pass leaves them |
| InlineFormat.EmphasisOfMixed | frontend/components/BlockRenderer.tsx:69-71 | both emphasis passes on `**a**`, text, `*c*`, text give the `strong` element, the text, the `em` element and the text |
| InlineFormat.FormatMixed | frontend/components/BlockRenderer.tsx:67-73 | a line with a bold span, an italic span and a link between plain text comes out with each replaced by its markup |
| BlockDispatch.Truthy | frontend/components/BlockRenderer.tsx:122-180 | JavaScript truthiness of a string field: present and not empty; it decides the citation, the media picture, the alt-text chain, the caption and each slide, as `QuoteCitation`, `MediaOutcome`, `AltTextChain`, `Caption` and `SliderKeepsOrder` state |
| BlockDispatch.ApiUrl | frontend/components/BlockRenderer.tsx:3 | the or-fallback of line 3 as a one-candidate `FirstTruthy` chain: the configured base url when it is truthy, else `http://localhost:1337` |
| BlockDispatch.FirstTruthy | frontend/components/BlockRenderer.tsx:138 | a chain of JavaScript or-fallbacks yields the first truthy candidate, or the fallback when none is truthy |
| BlockDispatch.AltText | frontend/components/BlockRenderer.tsx:138 | alternative text with its fallback; stated by `AltTextChain` |
| BlockDispatch.Caption | frontend/components/BlockRenderer.tsx:144-148 | a caption is shown exactly when it is truthy, and it is the file's caption |
| BlockDispatch.PictureOf | frontend/components/BlockRenderer.tsx:136-186 | a picture: the url behind the API base, the alt text and the caption; stated by `MediaOutcome` and `SliderKeepsOrder` |
| BlockDispatch.SlideAt | frontend/components/BlockRenderer.tsx:165-187 | one file's slide, present exactly when its url is truthy; stated by `SliderKeepsOrder` and `UrlOnlySlide` |
| BlockDispatch.Compact | frontend/components/BlockRenderer.tsx:165-187 | dropping the nulls a `map` returns never lengthens the list |
| BlockDispatch.SlideEntries | frontend/components/BlockRenderer.tsx:165-187 | one entry per file |
| BlockDispatch.WarningEntries | frontend/components/BlockRenderer.tsx:165-170 | one entry per file |
| BlockDispatch.SlideWarnings | frontend/components/BlockRenderer.tsx:165-170 | at most one warning per file |
| BlockDispatch.Dispatch | frontend/components/BlockRenderer.tsx:105-202 | the component; stated tag by tag by `UnknownTagSilent`, `RichTextIsMarkdown`, `QuoteCitation`, `MediaOutcome`, `SliderKeepsOrder`, `SliderWarnings` and `SliderWithoutSlides` |
| BlockProperties.UnknownTagSilent | frontend/components/BlockRenderer.tsx:199-200 | an unknown tag renders nothing and warns nothing |
| BlockProperties.RichTextIsMarkdown | frontend/components/BlockRenderer.tsx:109-114 | rich text renders as the Markdown rendering of its body, without warnings |
| BlockProperties.QuoteCitation | frontend/components/BlockRenderer.tsx:116-128 | a quote shows its body as it is, with a citation exactly when the title is truthy, and no warning |
| BlockProperties.AltTextChain | frontend/components/BlockRenderer.tsx:138 | alternative text is alternativeText, else name, else caption, else the fallback, each taken only when truthy |
| BlockProperties.MediaOutcome | frontend/components/BlockRenderer.tsx:130-157 | a media block renders exactly when it has a file with a truthy url: the url behind the API base, alt text falling back to "Media", caption when truthy, no warning; otherwise nothing and one warning |
| BlockProperties.PresentPositions | frontend/components/BlockRenderer.tsx:165-187 | the kept positions are in range, strictly increasing, and exactly those of non-null entries |
| BlockProperties.CompactKeepsOrder | frontend/components/BlockRenderer.tsx:165-187 | the k-th rendered entry is the value at the k-th non-null position |
| BlockProperties.SliderKeepsOrder | frontend/components/BlockRenderer.tsx:159-191 | a non-empty slider renders one picture per file with a truthy url, in file order, alt text falling back to "Slide N" with N its original position plus one; pictures plus warnings number the files |
| BlockProperties.CompactHas | frontend/components/BlockRenderer.tsx:165-187 | the value of every non-null entry is among the kept entries |
| BlockProperties.PresentSplit | frontend/components/BlockRenderer.tsx:165-170 | entries non-null at complementary positions split the length between them |
| BlockProperties.SliderWarnings | frontend/components/BlockRenderer.tsx:165-170 | every warning of a non-empty slider names a url-less file, in increasing position, and every url-less file is named |
| BlockProperties.SliderWithoutSlides | frontend/components/BlockRenderer.tsx:192-197 | a slider whose files are undefined or an empty array renders nothing with one warning; null or non-array files render nothing silently |
| BlockExamples.UrlOnlySlide | frontend/components/BlockRenderer.tsx:167-178 | a slide with only a url shows that url behind the base, "Slide N" as alt text and no caption |
| BlockExamples.SlidesSkipMiddle | frontend/components/BlockRenderer.tsx:165-187 | of three files whose middle url is empty, the outer two become slides 1 and 3, in order |
| BlockExamples.WarningsSkipMiddle | frontend/components/BlockRenderer.tsx:165-170 | of three files whose middle url is empty, only position 1 is warned about |
| BlockExamples.SliderSkipsMiddleOf | frontend/components/BlockRenderer.tsx:159-191 | three files with an empty middle url render the outer two as slides 1 and 3 and warn about position 1 |
| BlockExamples.SliderSkipsMiddle | frontend/components/BlockRenderer.tsx:159-191 | the same for `/a.png`, an empty url and `/c.png`, with alt texts "Slide 1" and "Slide 3" |

## Left out

- JSX markup, CSS class strings and React keys (`key={...}`, including `file.id || index`) are presentation only. Nodes are abstract (`H2`, `H3`, `Para`, `List`; `Prose`, `Quotation`, `Figure`, `Gallery`). The anchor markup's attributes are kept, because they are part of the paragraph text.
- `next/image` (`fill`, `unoptimized`, `className`) is left out; a picture is its source, its alternative text and its caption.
- `process.env.NEXT_PUBLIC_API_URL` is a parameter: `ApiUrl` takes the environment value, and `Dispatch` takes the resulting base.
- `console.warn` is modelled as a list of warnings in `Output`. The logged block or file object is not part of a warning; a slide's warning carries its position instead.
- HTML escaping and what a browser does with `dangerouslySetInnerHTML` are left out; only the `raw` flag on `Para` records which of the two a paragraph gets.
- Block fields of other types are not modelled. The model's fields are strings, optional strings, an optional file and a `files` value that is undefined, an array or something else. A rich-text or quote body that is missing or not a string is left out too; for rich text the code would throw in `split`. So is a `null` entry inside a slider's `files` array, on which `file.url` throws at line 167.
- JavaScript strings are UTF-16 code units, and Dafny's `char` is a Unicode scalar value. The passes and `trim` treat astral characters alike either way. Lengths and indices are not compared with JavaScript's.
- JsString.ReplaceFirst: inserts the replacement as it is and does not expand `$&`, `$$`, `` $` `` or `$'`. The component only replaces with `""` (lines 22, 35 and 50), where these cannot occur.
- The output of `***x***` follows from the three passes as written, with no extra rule for it.
- `frontend/lib/api.ts`, `frontend/app/page.tsx`, `frontend/app/articles/[slug]/page.tsx`, `not-found.tsx` and `frontend/next.config.ts` are not part of this model. They are network fetching, page layout, locale-dependent date formatting and framework configuration.
