/** What the dispatcher promises, tag by tag. */
module BlockProperties {
  import opened Wrappers
  import opened JsString
  import opened MarkdownConverter
  import opened BlockDispatch

  predicate KnownTag(tag: string) {
    tag in ["shared.rich-text", "shared.quote", "shared.media", "shared.slider"]
  }

  /** An unknown tag renders nothing and logs nothing. */
  lemma UnknownTagSilent(apiUrl: string, block: Block)
    requires !KnownTag(block.component)
    ensures Dispatch(apiUrl, block) == Output(None, [])
  {
  }

  /** Rich text is the Markdown rendering of the body, without warnings. */
  lemma RichTextIsMarkdown(apiUrl: string, block: Block)
    requires block.component == "shared.rich-text"
    ensures Dispatch(apiUrl, block) == Output(Some(Prose(Render(block.body))), [])
  {
  }

  /** A quote shows its body as it is, and a citation exactly when the title is truthy. */
  lemma QuoteCitation(apiUrl: string, block: Block)
    requires block.component == "shared.quote"
    ensures Dispatch(apiUrl, block).warnings == []
    ensures Dispatch(apiUrl, block).view == Some(Quotation(block.body, Dispatch(apiUrl, block).view.value.cite))
    ensures Dispatch(apiUrl, block).view.value.cite.Some? <==> Truthy(block.title)
    ensures Dispatch(apiUrl, block).view.value.cite.Some? ==> Dispatch(apiUrl, block).view.value.cite == block.title
  {
  }

  /** The alternative-text chain: alternativeText, then name, then caption, then the fallback. */
  lemma AltTextChain(f: MediaFile, fallback: string)
    ensures Truthy(f.alternativeText) ==> AltText(f, fallback) == f.alternativeText.value
    ensures !Truthy(f.alternativeText) && Truthy(f.name) ==> AltText(f, fallback) == f.name.value
    ensures !Truthy(f.alternativeText) && !Truthy(f.name) && Truthy(f.caption) ==> AltText(f, fallback) == f.caption.value
    ensures !Truthy(f.alternativeText) && !Truthy(f.name) && !Truthy(f.caption) ==> AltText(f, fallback) == fallback
  {
    var c := [f.alternativeText, f.name, f.caption];
    assert c[0] == f.alternativeText && c[1] == f.name && c[2] == f.caption;
  }

  /**
   * A media block renders exactly when it has a file with a truthy url, as
   * that url behind the API base; otherwise it renders nothing and logs one
   * warning.
   */
  lemma MediaOutcome(apiUrl: string, block: Block)
    requires block.component == "shared.media"
    ensures var out := Dispatch(apiUrl, block);
      && (out.view.Some? <==> block.file.Some? && Truthy(block.file.value.url))
      && (out.view.Some? ==>
            && out.warnings == [] && out.view.value.Figure?
            && out.view.value.picture.src == apiUrl + block.file.value.url.value
            && out.view.value.picture.alt == AltText(block.file.value, "Media")
            && out.view.value.picture.caption == Caption(block.file.value))
      && (out.view.None? ==> out.warnings == [MediaWithoutFile])
  {
  }

  /** The positions of the present entries, in increasing order. */
  function Present<T>(xs: seq<Option<T>>): (p: seq<nat>)
    ensures |p| <= |xs|
    decreases |xs|
  {
    if |xs| == 0 then []
    else Present(xs[..|xs| - 1]) + (if xs[|xs| - 1].Some? then [|xs| - 1] else [])
  }

  /** The present positions are in range, increasing, and are exactly the present entries. */
  lemma {:induction false} PresentPositions<T>(xs: seq<Option<T>>)
    ensures forall k :: 0 <= k < |Present(xs)| ==> Present(xs)[k] < |xs| && xs[Present(xs)[k]].Some?
    ensures forall k, l :: 0 <= k < l < |Present(xs)| ==> Present(xs)[k] < Present(xs)[l]
    ensures forall i :: 0 <= i < |xs| ==> (xs[i].Some? <==> i in Present(xs))
    decreases |xs|
  {
    if |xs| > 0 {
      var n := |xs|;
      var init := xs[..n - 1];
      PresentPositions(init);
      var p, q := Present(init), Present(xs);
      assert q == p + (if xs[n - 1].Some? then [n - 1] else []);
      forall i | 0 <= i < n
        ensures xs[i].Some? <==> i in q
      {
        if i < n - 1 {
          assert xs[i] == init[i];
          assert i in q <==> i in p;
        } else {
          assert n - 1 !in p;
        }
      }
    }
  }

  /** Compact keeps exactly the present entries, in order: its k-th value sits at the k-th present position. */
  lemma {:induction false} CompactKeepsOrder<T>(xs: seq<Option<T>>)
    ensures |Compact(xs)| == |Present(xs)|
    ensures forall k :: 0 <= k < |Present(xs)| ==> Present(xs)[k] < |xs| && xs[Present(xs)[k]] == Some(Compact(xs)[k])
    decreases |xs|
  {
    if |xs| > 0 {
      var n := |xs|;
      var init := xs[..n - 1];
      CompactKeepsOrder(init);
      PresentPositions(init);
      var p, q := Present(init), Present(xs);
      assert q == p + (if xs[n - 1].Some? then [n - 1] else []);
      forall k | 0 <= k < |q|
        ensures q[k] < n && xs[q[k]] == Some(Compact(xs)[k])
      {
        if k < |p| {
          assert q[k] == p[k] && xs[p[k]] == init[p[k]];
        }
      }
    }
  }

  /**
   * A slider with a non-empty array renders one picture per file that has a
   * truthy url, in the original order, with "Slide N" (N the original
   * position plus one) as the last alt-text fallback; each url-less file
   * instead logs one warning naming its position.
   */
  lemma SliderKeepsOrder(apiUrl: string, block: Block)
    requires block.component == "shared.slider"
    requires block.files.FilesArray? && |block.files.items| > 0
    ensures var files := block.files.items;
      var out := Dispatch(apiUrl, block);
      var kept := Present(SlideEntries(apiUrl, files));
      && out.view.Some? && out.view.value.Gallery?
      && |out.view.value.slides| == |kept|
      && (forall i :: 0 <= i < |files| ==> (i in kept <==> Truthy(files[i].url)))
      && (forall k, l :: 0 <= k < l < |kept| ==> kept[k] < kept[l])
      && (forall k :: 0 <= k < |kept| ==>
            && kept[k] < |files|
            && out.view.value.slides[k] == PictureOf(apiUrl, files[kept[k]], "Slide " + NatToString(kept[k] + 1)))
      && |out.view.value.slides| + |out.warnings| == |files|
  {
    var files := block.files.items;
    var entries := SlideEntries(apiUrl, files);
    CompactKeepsOrder(entries);
    PresentPositions(entries);
    var warned := WarningEntries(files);
    CompactKeepsOrder(warned);
    PresentSplit(entries, warned);
  }

  /** Two option sequences that are present at complementary positions share out their length. */
  lemma {:induction false} PresentSplit<T, U>(xs: seq<Option<T>>, ys: seq<Option<U>>)
    requires |xs| == |ys|
    requires forall i :: 0 <= i < |xs| ==> (xs[i].Some? <==> ys[i].None?)
    ensures |Present(xs)| + |Present(ys)| == |xs|
    decreases |xs|
  {
    if |xs| > 0 {
      PresentSplit(xs[..|xs| - 1], ys[..|ys| - 1]);
    }
  }

  /** Every present entry's value is kept by Compact. */
  lemma {:induction false} CompactHas<T>(xs: seq<Option<T>>, i: nat)
    requires i < |xs| && xs[i].Some?
    ensures xs[i].value in Compact(xs)
    decreases |xs|
  {
    if i < |xs| - 1 {
      CompactHas(xs[..|xs| - 1], i);
    }
  }

  /** Each url-less file of a non-empty slider logs one warning, in order of position. */
  lemma SliderWarnings(apiUrl: string, block: Block)
    requires block.component == "shared.slider"
    requires block.files.FilesArray? && |block.files.items| > 0
    ensures var files := block.files.items;
      var ws := Dispatch(apiUrl, block).warnings;
      && (forall k :: 0 <= k < |ws| ==> ws[k].SlideWithoutUrl? && ws[k].index < |files| && !Truthy(files[ws[k].index].url))
      && (forall k, l :: 0 <= k < l < |ws| ==> ws[k].index < ws[l].index)
      && (forall i :: 0 <= i < |files| && !Truthy(files[i].url) ==> SlideWithoutUrl(i) in ws)
  {
    var files := block.files.items;
    var entries := WarningEntries(files);
    var ws := Compact(entries);
    assert Dispatch(apiUrl, block).warnings == ws;
    CompactKeepsOrder(entries);
    PresentPositions(entries);
    var p := Present(entries);
    assert forall k :: 0 <= k < |ws| ==> ws[k] == SlideWithoutUrl(p[k]) by {
      forall k | 0 <= k < |ws|
        ensures ws[k] == SlideWithoutUrl(p[k])
      {
        assert entries[p[k]] == Some(ws[k]);
      }
    }
    forall i | 0 <= i < |files| && !Truthy(files[i].url)
      ensures SlideWithoutUrl(i) in ws
    {
      assert entries[i] == Some(SlideWithoutUrl(i));
      CompactHas(entries, i);
    }
  }

  /**
   * A slider whose `files` is undefined or an empty array renders nothing
   * and logs one warning; one whose `files` is null or not an array renders
   * nothing silently.
   */
  lemma SliderWithoutSlides(apiUrl: string, block: Block)
    requires block.component == "shared.slider"
    requires !(block.files.FilesArray? && |block.files.items| > 0)
    ensures Dispatch(apiUrl, block).view == None
    ensures Dispatch(apiUrl, block).warnings == if block.files.FilesOther? then [] else [SliderWithoutFiles]
  {
  }
}

/** Concrete examples of the dispatcher. */
module BlockExamples {
  import opened Wrappers
  import opened JsString
  import opened BlockDispatch

  function UrlOnly(url: string): MediaFile {
    MediaFile(Some(url), None, None, None)
  }

  /** A slide with only a url: its alternative text is "Slide N" and it has no caption. */
  lemma UrlOnlySlide(apiUrl: string, url: string, i: nat)
    requires url != ""
    ensures SlideAt(apiUrl, UrlOnly(url), i) == Some(Picture(apiUrl + url, "Slide " + NatToString(i + 1), None))
  {
    var none: seq<Option<string>> := [None, None, None];
    assert forall k :: 0 <= k < |none| ==> !Truthy(none[k]);
  }

  /** The slides of three files whose middle url is empty: the outer two, in order. */
  lemma SlidesSkipMiddle(apiUrl: string, u1: string, u3: string)
    requires u1 != "" && u3 != ""
    ensures Compact(SlideEntries(apiUrl, [UrlOnly(u1), UrlOnly(""), UrlOnly(u3)]))
         == [Picture(apiUrl + u1, "Slide " + NatToString(1), None), Picture(apiUrl + u3, "Slide " + NatToString(3), None)]
  {
    var entries := SlideEntries(apiUrl, [UrlOnly(u1), UrlOnly(""), UrlOnly(u3)]);
    UrlOnlySlide(apiUrl, u1, 0);
    UrlOnlySlide(apiUrl, u3, 2);
    var pa, pc := Picture(apiUrl + u1, "Slide " + NatToString(1), None), Picture(apiUrl + u3, "Slide " + NatToString(3), None);
    assert entries[0] == Some(pa) && entries[1] == None && entries[2] == Some(pc);
    assert entries[..2][..1] == [entries[0]] && entries[..2] == [entries[0], entries[1]];
    assert Compact([entries[0]]) == [pa];
    assert Compact(entries[..2]) == [pa];
  }

  /** The warnings of three files whose middle url is empty: one, for position 1. */
  lemma WarningsSkipMiddle(u1: string, u3: string)
    requires u1 != "" && u3 != ""
    ensures SlideWarnings([UrlOnly(u1), UrlOnly(""), UrlOnly(u3)]) == [SlideWithoutUrl(1)]
  {
    var warned := WarningEntries([UrlOnly(u1), UrlOnly(""), UrlOnly(u3)]);
    assert warned == [None, Some(SlideWithoutUrl(1)), None];
    assert warned[..2][..1] == [warned[0]] && warned[..2] == [warned[0], warned[1]];
    assert Compact([warned[0]]) == [];
    assert Compact(warned[..2]) == [SlideWithoutUrl(1)];
  }

  /** Three files whose middle url is empty: the outer two render, the middle one only warns. */
  lemma SliderSkipsMiddleOf(apiUrl: string, u1: string, u3: string)
    requires u1 != "" && u3 != ""
    ensures Dispatch(apiUrl, Block("shared.slider", "", None, None, FilesArray([UrlOnly(u1), UrlOnly(""), UrlOnly(u3)])))
         == Output(Some(Gallery([Picture(apiUrl + u1, "Slide " + NatToString(1), None),
                                 Picture(apiUrl + u3, "Slide " + NatToString(3), None)])),
                   [SlideWithoutUrl(1)])
  {
    SlidesSkipMiddle(apiUrl, u1, u3);
    WarningsSkipMiddle(u1, u3);
  }

  /** `/a.png`, an empty url, `/c.png`: "Slide 1" and "Slide 3" render, position 1 warns. */
  lemma SliderSkipsMiddle(apiUrl: string)
    ensures Dispatch(apiUrl, Block("shared.slider", "", None, None, FilesArray([UrlOnly("/a.png"), UrlOnly(""), UrlOnly("/c.png")])))
         == Output(Some(Gallery([Picture(apiUrl + "/a.png", "Slide 1", None), Picture(apiUrl + "/c.png", "Slide 3", None)])),
                   [SlideWithoutUrl(1)])
  {
    SliderSkipsMiddleOf(apiUrl, "/a.png", "/c.png");
    assert NatToString(1) == "1" && NatToString(3) == "3";
    assert "Slide " + "1" == "Slide 1" && "Slide " + "3" == "Slide 3";
  }
}
