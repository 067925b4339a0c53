/**
 * The `BlockRenderer` component: it looks at a block's `__component` tag and
 * renders rich text through the Markdown converter, a quotation, one media
 * file or a slider of media files; any other tag renders nothing. The two
 * media shapes fall back through JavaScript truthiness, so an empty string
 * counts as missing, and the console warnings become a list of diagnostics.
 */
module BlockDispatch {
  import opened Wrappers
  import opened JsString
  import opened MarkdownConverter

  /** A string field is truthy when it is present and not empty. */
  predicate Truthy(f: Option<string>) {
    f.Some? && f.value != ""
  }

  const DefaultApiUrl := "http://localhost:1337"

  /** `process.env.NEXT_PUBLIC_API_URL || 'http://localhost:1337'` */
  function ApiUrl(env: Option<string>): (url: string)
    ensures Truthy(env) ==> url == env.value
    ensures !Truthy(env) ==> url == DefaultApiUrl
  {
    FirstTruthy([env], DefaultApiUrl)
  }

  /** An uploaded file as the content API delivers it inside a block. */
  datatype MediaFile = MediaFile(
    url: Option<string>,
    alternativeText: Option<string>,
    name: Option<string>,
    caption: Option<string>)

  /** A slider's `files`: left undefined, an array, or anything else (null included). */
  datatype FilesField = FilesUndefined | FilesArray(items: seq<MediaFile>) | FilesOther

  /** A block of an article, tagged by `__component`; the fields other tags do not use are ignored. */
  datatype Block = Block(
    component: string,
    body: string,
    title: Option<string>,
    file: Option<MediaFile>,
    files: FilesField)

  /** An image the page shows: its source, its alternative text and the caption printed with it. */
  datatype Picture = Picture(src: string, alt: string, caption: Option<string>)

  /** What a block renders to. */
  datatype View =
    | Prose(nodes: seq<Node>)
    | Quotation(text: string, cite: Option<string>)
    | Figure(picture: Picture)
    | Gallery(slides: seq<Picture>)

  /** The console warnings; a slide's warning names its position in `files`. */
  datatype Warning = MediaWithoutFile | SlideWithoutUrl(index: nat) | SliderWithoutFiles

  datatype Output = Output(view: Option<View>, warnings: seq<Warning>)

  /** `a || b || ... || fallback` over string fields: the first truthy one, else the fallback. */
  function FirstTruthy(candidates: seq<Option<string>>, fallback: string): (r: string)
    ensures (forall i :: 0 <= i < |candidates| ==> !Truthy(candidates[i])) ==> r == fallback
    ensures forall i ::
              (0 <= i < |candidates| && Truthy(candidates[i]) && forall h :: 0 <= h < i ==> !Truthy(candidates[h]))
              ==> r == candidates[i].value
  {
    if |candidates| == 0 then fallback
    else if Truthy(candidates[0]) then candidates[0].value
    else FirstTruthy(candidates[1..], fallback)
  }

  /** `file.alternativeText || file.name || file.caption || fallback` */
  function AltText(f: MediaFile, fallback: string): string {
    FirstTruthy([f.alternativeText, f.name, f.caption], fallback)
  }

  /** The caption shown under a picture: only a truthy one. */
  function Caption(f: MediaFile): (c: Option<string>)
    ensures c.Some? <==> Truthy(f.caption)
    ensures c.Some? ==> c == f.caption
  {
    if Truthy(f.caption) then f.caption else None
  }

  function PictureOf(apiUrl: string, f: MediaFile, fallback: string): Picture
    requires Truthy(f.url)
  {
    Picture(apiUrl + f.url.value, AltText(f, fallback), Caption(f))
  }

  /** The `index`-th file of a slider: a picture when it has a url, otherwise nothing. */
  function SlideAt(apiUrl: string, f: MediaFile, index: nat): Option<Picture> {
    if Truthy(f.url) then Some(PictureOf(apiUrl, f, "Slide " + NatToString(index + 1))) else None
  }

  /** The present values of a sequence of options, in order (React drops the nulls a `map` returns). */
  function Compact<T>(xs: seq<Option<T>>): (r: seq<T>)
    ensures |r| <= |xs|
    decreases |xs|
  {
    if |xs| == 0 then []
    else Compact(xs[..|xs| - 1]) + (if xs[|xs| - 1].Some? then [xs[|xs| - 1].value] else [])
  }

  /** `files.map(...)`: one entry per file, in order. */
  function SlideEntries(apiUrl: string, files: seq<MediaFile>): (r: seq<Option<Picture>>)
    ensures |r| == |files|
  {
    seq(|files|, i requires 0 <= i < |files| => SlideAt(apiUrl, files[i], i))
  }

  /** What each file's turn of `map` logs: a warning naming its position when it has no url. */
  function WarningEntries(files: seq<MediaFile>): (r: seq<Option<Warning>>)
    ensures |r| == |files|
  {
    seq(|files|, i requires 0 <= i < |files| => if Truthy(files[i].url) then None else Some(SlideWithoutUrl(i)))
  }

  /** The warnings that `map` logs, one per url-less file, in order. */
  function SlideWarnings(files: seq<MediaFile>): (r: seq<Warning>)
    ensures |r| <= |files|
  {
    Compact(WarningEntries(files))
  }

  /** The component itself. */
  function Dispatch(apiUrl: string, block: Block): Output {
    if block.component == "shared.rich-text" then
      Output(Some(Prose(Render(block.body))), [])
    else if block.component == "shared.quote" then
      Output(Some(Quotation(block.body, if Truthy(block.title) then block.title else None)), [])
    else if block.component == "shared.media" then
      if block.file.Some? && Truthy(block.file.value.url) then
        Output(Some(Figure(PictureOf(apiUrl, block.file.value, "Media"))), [])
      else
        Output(None, [MediaWithoutFile])
    else if block.component == "shared.slider" then
      match block.files
      case FilesArray(files) =>
        if |files| > 0 then
          Output(Some(Gallery(Compact(SlideEntries(apiUrl, files)))), SlideWarnings(files))
        else Output(None, [SliderWithoutFiles])
      case FilesUndefined => Output(None, [SliderWithoutFiles])
      case FilesOther => Output(None, [])
    else
      Output(None, [])
  }
}
