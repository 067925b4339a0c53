/**
 * The inline formatter applied to each paragraph line: three global, lazy
 * regular-expression substitutions run one after the other,
 *   `\*\*(.*?)\*\*`       becomes  `<strong>$1</strong>`,
 *   `\*(.*?)\*`           becomes  `<em>$1</em>`,
 *   `\[(.*?)\]\((.*?)\)`  becomes  an anchor with href `$2` and text `$1`.
 * A global replace scans left to right; at each position it tries a match and,
 * when one exists, substitutes it and resumes after it, otherwise it keeps the
 * character and moves on. `(.*?)` is lazy: the shortest run of characters that
 * are not line terminators, so the first closing delimiter wins.
 */
module InlineFormat {
  import opened Wrappers
  import opened JsString

  /** `(.*?)` starting at `from` can end at `j` with `close` right after it. */
  ghost predicate LazyCloseAt(s: string, close: string, from: int, j: int) {
    && 0 <= from <= j
    && OccursAt(s, close, j)
    && forall k :: from <= k < j ==> !IsLineTerminator(s[k])
  }

  /** Where the shortest `(.*?)` run from `from` that `close` follows ends, if it exists. */
  function FindClose(s: string, close: string, from: nat): (r: Option<nat>)
    requires from <= |s|
    ensures r.Some? ==> from <= r.value && OccursAt(s, close, r.value)
    decreases |s| - from
  {
    if OccursAt(s, close, from) then Some(from)
    else if from == |s| || IsLineTerminator(s[from]) then None
    else FindClose(s, close, from + 1)
  }

  /** FindClose finds the shortest run: it ends where `close` first follows, before any line terminator. */
  lemma {:induction false} FindCloseShortest(s: string, close: string, from: nat)
    requires from <= |s|
    ensures var r := FindClose(s, close, from);
      && (r.Some? ==> LazyCloseAt(s, close, from, r.value))
      && (r.Some? ==> forall j :: from <= j < r.value ==> !LazyCloseAt(s, close, from, j))
      && (r.None? ==> forall j :: !LazyCloseAt(s, close, from, j))
    decreases |s| - from
  {
    if !OccursAt(s, close, from) && from < |s| && !IsLineTerminator(s[from]) {
      FindCloseShortest(s, close, from + 1);
      assert forall j :: from < j ==> (LazyCloseAt(s, close, from, j) <==> LazyCloseAt(s, close, from + 1, j));
    }
  }

  function Wrap(tag: string, x: string): string {
    "<" + tag + ">" + x + "</" + tag + ">"
  }

  /** `s.replace(/D(.*?)D/g, '<tag>$1</tag>')` where D is the literal delimiter `delim`. */
  function ReplaceEmphasis(s: string, delim: string, tag: string): string
    requires |delim| > 0
    decreases |s|
  {
    if |s| == 0 then ""
    else if OccursAt(s, delim, 0) then
      match FindClose(s, delim, |delim|)
      case Some(j) => Wrap(tag, s[|delim|..j]) + ReplaceEmphasis(s[j + |delim|..], delim, tag)
      case None => [s[0]] + ReplaceEmphasis(s[1..], delim, tag)
    else [s[0]] + ReplaceEmphasis(s[1..], delim, tag)
  }

  /** Where no delimiter opens, the first character is kept and the scan moves on. */
  lemma {:induction false} EmphasisKeep(s: string, delim: string, tag: string)
    requires |delim| > 0 && |s| > 0 && !OccursAt(s, delim, 0)
    ensures ReplaceEmphasis(s, delim, tag) == [s[0]] + ReplaceEmphasis(s[1..], delim, tag)
  {
  }

  /** Text holding no character of the delimiter's first letter is copied through unchanged. */
  lemma {:induction false} EmphasisSkip(a: string, rest: string, delim: string, tag: string)
    requires |delim| > 0
    requires delim[0] !in a
    ensures ReplaceEmphasis(a + rest, delim, tag) == a + ReplaceEmphasis(rest, delim, tag)
    decreases |a|
  {
    if |a| == 0 {
      assert a + rest == rest;
    } else {
      var s := a + rest;
      assert s[0] == a[0] && a[0] in a;
      if |delim| <= |s| {
        assert s[0..|delim|][0] != delim[0];
      }
      EmphasisKeep(s, delim, tag);
      assert s[1..] == a[1..] + rest;
      EmphasisSkip(a[1..], rest, delim, tag);
      assert a == [a[0]] + a[1..];
      Associative([a[0]], a[1..], ReplaceEmphasis(rest, delim, tag));
    }
  }

  /** A line without the delimiter's first letter is left as it is. */
  lemma {:induction false} EmphasisIdentity(s: string, delim: string, tag: string)
    requires |delim| > 0
    requires delim[0] !in s
    ensures ReplaceEmphasis(s, delim, tag) == s
  {
    EmphasisSkip(s, "", delim, tag);
    assert s + "" == s;
  }

  /** When no letter before `j` could start `close`, the shortest run ends at `j`. */
  lemma {:induction false} FindCloseAt(s: string, close: string, from: nat, j: nat)
    requires |close| > 0
    requires LazyCloseAt(s, close, from, j)
    requires forall m :: from <= m < j ==> s[m] != close[0]
    ensures FindClose(s, close, from) == Some(j)
  {
    FindCloseShortest(s, close, from);
    var r := FindClose(s, close, from);
    assert r.Some?;
    assert s[r.value] == close[0] by {
      assert s[r.value..r.value + |close|][0] == s[r.value];
    }
  }

  /**
   * The lazy match: a delimited run whose inner text holds neither the
   * delimiter's first letter nor a line terminator is wrapped whole, and the
   * scan resumes right after its closing delimiter.
   */
  lemma {:induction false} EmphasisShortest(x: string, rest: string, delim: string, tag: string)
    requires |delim| > 0
    requires forall m :: 0 <= m < |x| ==> x[m] != delim[0] && !IsLineTerminator(x[m])
    ensures ReplaceEmphasis(delim + x + delim + rest, delim, tag)
         == Wrap(tag, x) + ReplaceEmphasis(rest, delim, tag)
  {
    var s := delim + x + delim + rest;
    var d := |delim|;
    var j := d + |x|;
    assert s[..d] == delim;
    assert s[d..j] == x;
    assert s[j..j + d] == delim;
    assert s[j + d..] == rest;
    assert forall m :: d <= m < j ==> s[m] == x[m - d];
    assert OccursAt(s, delim, 0);
    assert LazyCloseAt(s, delim, d, j);
    FindCloseAt(s, delim, d, j);
  }

  /** `s` begins with a match of `\[(.*?)\]\((.*?)\)` whose `](` is at `j` and whose `)` is at `k`. */
  ghost predicate LinkMatch(s: string, j: int, k: int) {
    && |s| > 0 && s[0] == '['
    && LazyCloseAt(s, "](", 1, j)
    && LazyCloseAt(s, ")", j + 2, k)
  }

  /** Where a link's `](` (`mid`) and its closing `)` (`close`) are. */
  datatype LinkSpan = LinkSpan(mid: nat, close: nat)

  /** Where the link starting `s` has its `](` and its `)`, if `s` starts with one. */
  function FindLink(s: string): (r: Option<LinkSpan>)
    requires |s| > 0 && s[0] == '['
    ensures r.Some? ==> 1 <= r.value.mid && r.value.mid + 2 <= r.value.close < |s|
  {
    match FindClose(s, "](", 1)
    case None => None
    case Some(j) =>
      match FindClose(s, ")", j + 2)
      case None => None
      case Some(k) => Some(LinkSpan(j, k))
  }

  /** A `](` further right leaves the target only a shorter stretch in which to close. */
  lemma {:induction false} LaterMiddleClosesEarlier(s: string, j: nat, j': nat, k: nat)
    requires j <= j'
    requires LinkMatch(s, j', k)
    ensures LazyCloseAt(s, ")", j + 2, k)
  {
    assert s[j'..j' + 2] == "](";
    assert !IsLineTerminator(s[j']) && !IsLineTerminator(s[j' + 1]) by {
      assert s[j'] == s[j'..j' + 2][0] && s[j' + 1] == s[j'..j' + 2][1];
    }
  }

  /**
   * FindLink reports the match the regular-expression engine reports: it tries
   * ever longer link texts and, for each, ever longer targets, so the first
   * `(j, k)` in that order wins; and there is none when it reports none.
   */
  lemma {:induction false} FindLinkFirst(s: string)
    requires |s| > 0 && s[0] == '['
    ensures var r := FindLink(s);
      && (r.Some? ==> LinkMatch(s, r.value.mid, r.value.close))
      && (r.Some? ==> forall j, k :: LinkMatch(s, j, k) ==> r.value.mid < j || (r.value.mid == j && r.value.close <= k))
      && (r.None? ==> forall j, k :: !LinkMatch(s, j, k))
  {
    if FindLink(s).Some? {
      FoundLinkFirst(s);
    } else {
      NoLinkFound(s);
    }
  }

  /** A reported link is a match, and no match ends its text or its target earlier. */
  lemma {:induction false} FoundLinkFirst(s: string)
    requires |s| > 0 && s[0] == '[' && FindLink(s).Some?
    ensures var m := FindLink(s).value;
      && LinkMatch(s, m.mid, m.close)
      && forall j, k :: LinkMatch(s, j, k) ==> m.mid < j || (m.mid == j && m.close <= k)
  {
    var m := FindLink(s).value;
    assert FindClose(s, "](", 1) == Some(m.mid);
    assert FindClose(s, ")", m.mid + 2) == Some(m.close);
    FindCloseShortest(s, "](", 1);
    FindCloseShortest(s, ")", m.mid + 2);
  }

  /** When no link is reported, there is no match at all. */
  lemma {:induction false} NoLinkFound(s: string)
    requires |s| > 0 && s[0] == '[' && FindLink(s).None?
    ensures forall j, k :: !LinkMatch(s, j, k)
  {
    FindCloseShortest(s, "](", 1);
    var mid := FindClose(s, "](", 1);
    if mid.Some? {
      var j := mid.value;
      assert FindClose(s, ")", j + 2).None?;
      FindCloseShortest(s, ")", j + 2);
      forall j', k | LinkMatch(s, j', k)
        ensures LazyCloseAt(s, ")", j + 2, k)
      {
        LaterMiddleClosesEarlier(s, j, j', k);
      }
    }
  }

  /**
   * A replacement string of the form `before$2between$1after`: literal text
   * around the link's target (`$2`) and its text (`$1`).
   */
  datatype Template = Template(beforeHref: string, beforeText: string, after: string)

  /** The replacement a template gives for a link with text `text` and target `href`. */
  function Fill(t: Template, text: string, href: string): string {
    t.beforeHref + href + t.beforeText + text + t.after
  }

  const LinkClass := "text-blue-600 dark:text-blue-400 hover:underline"

  /** What the anchor's opening tag holds after its `href` value. */
  const AnchorAttributes := "\" class=\"" + LinkClass + "\" target=\"_blank\" rel=\"noopener noreferrer\">"

  /**
   * The anchor markup for a link: target `href`, visible text `text`, opened
   * in a new tab. It is the readable form of `AnchorTemplate`, which the link
   * pass is given; `AnchorFill` shows the two agree.
   */
  function Anchor(text: string, href: string): string {
    "<a href=\"" + href + AnchorAttributes + text + "</a>"
  }

  /** The link pass's replacement, `<a href="$2" class="..." target="_blank" rel="noopener noreferrer">$1</a>`. */
  const AnchorTemplate := Template("<a href=\"", AnchorAttributes, "</a>")

  /** The link pass's template puts the target in the `href` and the link text between the tags. */
  lemma {:induction false} AnchorFill(text: string, href: string)
    ensures Fill(AnchorTemplate, text, href) == Anchor(text, href)
  {
  }

  /**
   * `s.replace(/\[(.*?)\]\((.*?)\)/g, t)`: each link, found left to right, is
   * replaced by `t` filled with its text and its target.
   */
  function ReplaceLinks(s: string, t: Template): string
    decreases |s|
  {
    if |s| == 0 then ""
    else if s[0] == '[' then
      match FindLink(s)
      case Some(LinkSpan(j, k)) => Fill(t, s[1..j], s[j + 2..k]) + ReplaceLinks(s[k + 1..], t)
      case None => [s[0]] + ReplaceLinks(s[1..], t)
    else [s[0]] + ReplaceLinks(s[1..], t)
  }

  /** A character other than `[` is kept and the scan moves on. */
  lemma {:induction false} LinkKeep(s: string, t: Template)
    requires |s| > 0 && s[0] != '['
    ensures ReplaceLinks(s, t) == [s[0]] + ReplaceLinks(s[1..], t)
  {
  }

  /** Text without `[` is copied through the link pass unchanged. */
  lemma {:induction false} LinksSkip(a: string, rest: string, t: Template)
    requires '[' !in a
    ensures ReplaceLinks(a + rest, t) == a + ReplaceLinks(rest, t)
    decreases |a|
  {
    if |a| == 0 {
      assert a + rest == rest;
    } else {
      var s := a + rest;
      assert s[0] == a[0] && a[0] in a;
      LinkKeep(s, t);
      assert s[1..] == a[1..] + rest;
      LinksSkip(a[1..], rest, t);
      assert a == [a[0]] + a[1..];
      Associative([a[0]], a[1..], ReplaceLinks(rest, t));
    }
  }

  /** Where a link is found, it is replaced and the scan resumes after its `)`. */
  lemma {:induction false} LinkFound(s: string, m: LinkSpan, t: Template)
    requires |s| > 0 && s[0] == '[' && FindLink(s) == Some(m)
    ensures ReplaceLinks(s, t) == Fill(t, s[1..m.mid], s[m.mid + 2..m.close]) + ReplaceLinks(s[m.close + 1..], t)
  {
  }

  /** The first `](` after a `]`-free link text closes the text, the first `)` after it the target. */
  lemma {:induction false} FindLinkOfShortest(s: string, j: nat, k: nat)
    requires |s| > 0 && s[0] == '['
    requires LinkMatch(s, j, k)
    requires forall m :: 1 <= m < j ==> s[m] != ']'
    requires forall m :: j + 2 <= m < k ==> s[m] != ')'
    ensures FindLink(s) == Some(LinkSpan(j, k))
  {
    FindLinkFirst(s);
    var r := FindLink(s);
    assert r.Some?;
    var j', k' := r.value.mid, r.value.close;
    assert LinkMatch(s, j', k');
    assert s[j'] == ']' by {
      assert s[j'..j' + 2][0] == s[j'];
    }
    assert j' == j;
    assert s[k'] == ')' by {
      assert s[k'..k' + 1][0] == s[k'];
    }
    assert k' == k;
  }

  /** `[x](y)` with `x` free of `]` and `y` free of `)` and of line terminators becomes one replacement. */
  lemma {:induction false} LinkShortest(x: string, y: string, rest: string, t: Template)
    requires forall m :: 0 <= m < |x| ==> x[m] != ']' && !IsLineTerminator(x[m])
    requires forall m :: 0 <= m < |y| ==> y[m] != ')' && !IsLineTerminator(y[m])
    ensures ReplaceLinks("[" + x + "](" + y + ")" + rest, t)
         == Fill(t, x, y) + ReplaceLinks(rest, t)
  {
    var s := "[" + x + "](" + y + ")" + rest;
    var j := 1 + |x|;
    var k := j + 2 + |y|;
    assert FindLink(s) == Some(LinkSpan(j, k)) by {
      assert s[j..j + 2] == "](";
      assert s[k..k + 1] == ")";
      assert forall m :: 1 <= m < j ==> s[m] == x[m - 1];
      assert forall m :: j + 2 <= m < k ==> s[m] == y[m - j - 2];
      FindLinkOfShortest(s, j, k);
    }
    assert s[1..j] == x;
    assert s[j + 2..k] == y;
    assert s[k + 1..] == rest;
    LinkFound(s, LinkSpan(j, k), t);
  }

  /** The three passes in the order the renderer applies them to a paragraph line. */
  function Format(line: string): string {
    var bold := ReplaceEmphasis(line, "**", "strong");
    var italic := ReplaceEmphasis(bold, "*", "em");
    ReplaceLinks(italic, AnchorTemplate)
  }

  /** A line containing neither `*` nor `[` comes out of the formatter unchanged. */
  lemma {:induction false} FormatPlain(line: string)
    requires '*' !in line && '[' !in line
    ensures Format(line) == line
  {
    EmphasisIdentity(line, "**", "strong");
    EmphasisIdentity(line, "*", "em");
    LinksSkip(line, "", AnchorTemplate);
    assert line + "" == line;
  }

  /** Wrapping text that lacks a letter other than `<`, `>` and `/` in a tag that lacks it adds none. */
  lemma {:induction false} WrapLacks(c: char, tag: string, x: string)
    requires c != '<' && c != '>' && c != '/' && c !in tag && c !in x
    ensures c !in Wrap(tag, x)
  {
  }

  /** `**x**` as a whole line becomes one `strong` element when `x` is plain text. */
  lemma {:induction false} FormatBold(x: string)
    requires '*' !in x && '[' !in x
    requires forall m :: 0 <= m < |x| ==> !IsLineTerminator(x[m])
    ensures Format("**" + x + "**") == Wrap("strong", x)
  {
    var w := Wrap("strong", x);
    assert ReplaceEmphasis("**" + x + "**", "**", "strong") == w by {
      EmphasisShortest(x, "", "**", "strong");
      assert "**" + x + "**" + "" == "**" + x + "**";
      assert ReplaceEmphasis("", "**", "strong") == "";
      assert w + "" == w;
    }
    WrapLacks('*', "strong", x);
    WrapLacks('[', "strong", x);
    EmphasisIdentity(w, "*", "em");
    LinksSkip(w, "", AnchorTemplate);
    assert w + "" == w;
  }

  /** `[x](y)` as a whole line, with plain `x` and `y`, becomes the anchor with href `y` and text `x`. */
  lemma {:induction false} FormatLink(x: string, y: string)
    requires '*' !in x && '*' !in y
    requires forall m :: 0 <= m < |x| ==> x[m] != ']' && !IsLineTerminator(x[m])
    requires forall m :: 0 <= m < |y| ==> y[m] != ')' && !IsLineTerminator(y[m])
    ensures Format("[" + x + "](" + y + ")") == Anchor(x, y)
  {
    var line := "[" + x + "](" + y + ")";
    assert '*' !in line by {
      assert forall m :: 0 <= m < |line| ==>
        (line[m] in "[]()" || line[m] in x || line[m] in y);
    }
    EmphasisIdentity(line, "**", "strong");
    EmphasisIdentity(line, "*", "em");
    LinkShortest(x, y, "", AnchorTemplate);
    assert line + "" == line;
  }

  /** A line in which the delimiter never occurs is left unchanged by its pass. */
  lemma {:induction false} NoOccurrenceIdentity(s: string, delim: string, tag: string)
    requires |delim| > 0
    requires forall k :: !OccursAt(s, delim, k)
    ensures ReplaceEmphasis(s, delim, tag) == s
    decreases |s|
  {
    if |s| > 0 {
      EmphasisKeep(s, delim, tag);
      forall k | OccursAt(s[1..], delim, k)
        ensures OccursAt(s, delim, k + 1)
      {
        assert s[1..][k..k + |delim|] == s[k + 1..k + 1 + |delim|];
      }
      NoOccurrenceIdentity(s[1..], delim, tag);
    }
  }

  /** No two `*` side by side: the bold pass has nothing to match. */
  predicate NoDoubleStar(s: string) {
    forall k :: 0 <= k < |s| - 1 ==> s[k] != '*' || s[k + 1] != '*'
  }

  /** A line without two adjacent `*` passes through the bold pass unchanged. */
  lemma {:induction false} BoldIdentity(s: string)
    requires NoDoubleStar(s)
    ensures ReplaceEmphasis(s, "**", "strong") == s
  {
    forall k | 0 <= k && k + 2 <= |s|
      ensures !OccursAt(s, "**", k)
    {
      assert s[k..k + 2][0] == s[k] && s[k..k + 2][1] == s[k + 1];
    }
    NoOccurrenceIdentity(s, "**", "strong");
  }

  /** `*x*` as a whole line, with plain non-empty `x`, becomes one `em` element. */
  lemma {:induction false} FormatItalic(x: string)
    requires |x| > 0 && '*' !in x && '[' !in x
    requires forall m :: 0 <= m < |x| ==> !IsLineTerminator(x[m])
    ensures Format("*" + x + "*") == Wrap("em", x)
  {
    var line := "*" + x + "*";
    assert forall m :: 0 <= m < |line| && line[m] == '*' ==> m == 0 || m == |line| - 1;
    BoldIdentity(line);
    EmphasisShortest(x, "", "*", "em");
    assert line + "" == line;
    var w := Wrap("em", x);
    assert ReplaceEmphasis("", "*", "em") == "";
    assert w + "" == w;
    WrapLacks('[', "em", x);
    LinksSkip(w, "", AnchorTemplate);
  }

  /** No `*` and no line terminator: text the emphasis passes can wrap whole. */
  predicate PlainRun(x: string) {
    forall m :: 0 <= m < |x| ==> x[m] != '*' && !IsLineTerminator(x[m])
  }

  /** The bold pass on `**a**` followed by text with single stars only. */
  lemma {:induction false} BoldOfMixed(a: string, rest: string)
    requires PlainRun(a) && NoDoubleStar(rest)
    ensures ReplaceEmphasis("**" + a + "**" + rest, "**", "strong") == Wrap("strong", a) + rest
  {
    EmphasisShortest(a, rest, "**", "strong");
    BoldIdentity(rest);
  }

  /** The italic pass on star-free text, then `*c*`, then star-free text. */
  lemma {:induction false} ItalicOfMixed(p: string, c: string, q: string)
    requires '*' !in p && '*' !in q && PlainRun(c)
    ensures ReplaceEmphasis(p + ("*" + c + "*" + q), "*", "em") == p + (Wrap("em", c) + q)
  {
    EmphasisSkip(p, "*" + c + "*" + q, "*", "em");
    EmphasisShortest(c, q, "*", "em");
    EmphasisIdentity(q, "*", "em");
  }

  /** Concatenation is associative. */
  lemma {:induction false} Associative(u: string, v: string, t: string)
    ensures u + (v + t) == u + v + t
  {
  }

  /** A single star on each side of a non-empty plain run, and none elsewhere: no two stars touch. */
  lemma {:induction false} StarsApart(b: string, c: string, q: string)
    requires PlainRun(c) && |c| > 0 && '*' !in b && '*' !in q
    ensures NoDoubleStar(b + ("*" + c + "*" + q))
  {
    var rest := b + ("*" + c + "*" + q);
    forall k | 0 <= k < |rest| - 1
      ensures rest[k] != '*' || rest[k + 1] != '*'
    {
      if k < |b| {
        assert rest[k] == b[k];
      } else if k == |b| {
        assert rest[k + 1] == c[0];
      } else if k < |b| + 1 + |c| {
        assert rest[k] == c[k - |b| - 1];
      } else {
        assert rest[k + 1] == q[k - |b| - |c| - 1];
      }
    }
  }

  /** Both emphasis passes on `**a**`, plain text, `*c*`, then star-free text. */
  lemma {:induction false} EmphasisOfMixed(a: string, b: string, c: string, q: string)
    requires PlainRun(a) && PlainRun(c) && |c| > 0
    requires '*' !in b && '*' !in q
    ensures var bold := ReplaceEmphasis("**" + a + "**" + (b + ("*" + c + "*" + q)), "**", "strong");
      ReplaceEmphasis(bold, "*", "em") == Wrap("strong", a) + b + Wrap("em", c) + q
  {
    var rest := b + ("*" + c + "*" + q);
    StarsApart(b, c, q);
    BoldOfMixed(a, rest);
    var w := Wrap("strong", a);
    WrapLacks('*', "strong", a);
    Associative(w, b, "*" + c + "*" + q);
    ItalicOfMixed(w + b, c, q);
    Associative(w + b, Wrap("em", c), q);
  }

  /** `[x](y)` written out is the link text between its brackets and parentheses. */
  lemma {:induction false} MixedLayout(a: string, b: string, c: string, d: string, x: string, y: string)
    ensures "**" + a + "**" + b + "*" + c + "*" + d + "[" + x + "](" + y + ")"
         == "**" + a + "**" + (b + ("*" + c + "*" + (d + ("[" + x + "](" + y + ")"))))
  {
  }

  /**
   * A line with a bold span, an italic span and a link, separated by plain
   * text, comes out with each replaced by its markup.
   */
  lemma {:induction false} FormatMixed(a: string, b: string, c: string, d: string, x: string, y: string)
    requires PlainRun(a) && PlainRun(c) && |c| > 0
    requires '*' !in b && '*' !in d && '*' !in x && '*' !in y
    requires '[' !in a && '[' !in b && '[' !in c && '[' !in d
    requires forall m :: 0 <= m < |x| ==> x[m] != ']' && !IsLineTerminator(x[m])
    requires forall m :: 0 <= m < |y| ==> y[m] != ')' && !IsLineTerminator(y[m])
    ensures Format("**" + a + "**" + b + "*" + c + "*" + d + "[" + x + "](" + y + ")")
         == Wrap("strong", a) + b + Wrap("em", c) + d + Anchor(x, y)
  {
    var link := "[" + x + "](" + y + ")";
    assert '*' !in link by {
      assert forall m :: 0 <= m < |link| ==>
        (link[m] in "[]()" || link[m] in x || link[m] in y);
    }
    MixedLayout(a, b, c, d, x, y);
    EmphasisOfMixed(a, b, c, d + link);
    var p := Wrap("strong", a) + b + Wrap("em", c);
    WrapLacks('[', "strong", a);
    WrapLacks('[', "em", c);
    Associative(p, d, link);
    LinksSkip(p + d, link, AnchorTemplate);
    assert ReplaceLinks(link, AnchorTemplate) == Anchor(x, y) by {
      LinkShortest(x, y, "", AnchorTemplate);
      assert link + "" == link;
      assert ReplaceLinks("", AnchorTemplate) == "";
      assert Anchor(x, y) + "" == Anchor(x, y);
    }
  }
}
