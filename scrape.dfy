/** `scrapeArticle`: reduce a fetched news page to one text made of its
    headline, its longer sub-headings and its longer paragraphs. */
module Scrape {
  import opened Wrappers
  import opened JsStrings

  /** What the HTML parser selected from a page: the raw text of every `h1`,
      of every `h2` or `h3` (one selection, in document order) and of every
      `p`, before trimming. */
  datatype Page = Page(h1Texts: seq<string>, headingTexts: seq<string>, paragraphTexts: seq<string>)

  /** The HTTP GET followed by parsing: a page, or the error either threw. */
  datatype FetchOutcome = Loaded(page: Page) | Failed(message: string)

  /** A sub-heading is kept when its trimmed text is longer than this. */
  const HeadingMinLength: nat := 5
  /** A paragraph is kept when its trimmed text is longer than this. */
  const ParagraphMinLength: nat := 50

  /** The trimmed text of the first `h1`; a page without one gives "". */
  function Headline(page: Page): string {
    if |page.h1Texts| == 0 then "" else Trim(page.h1Texts[0])
  }

  /** The headline as a block when it is non-empty. */
  function HeadlineBlocks(page: Page): seq<string> {
    var h := Headline(page);
    if h != "" then [h] else []
  }

  /** The trimmed texts longer than `min` UTF-16 code units, in their order. */
  function KeepLonger(texts: seq<string>, min: nat): (kept: seq<string>)
    ensures |kept| <= |texts|
    decreases |texts|
  {
    if |texts| == 0 then []
    else KeepLonger(texts[..|texts| - 1], min) + KeepOne(texts[|texts| - 1], min)
  }

  /** The trimmed `text` as a block when it is longer than `min`. */
  function KeepOne(text: string, min: nat): seq<string> {
    var t := Trim(text);
    if Utf16Length(t) > min then [t] else []
  }

  /** Every kept text is longer than `min`, so none is empty. */
  lemma {:induction false} KeepLongerAllLong(texts: seq<string>, min: nat)
    ensures forall k :: 0 <= k < |KeepLonger(texts, min)| ==> Utf16Length(KeepLonger(texts, min)[k]) > min
    decreases |texts|
  {
    if |texts| > 0 {
      KeepLongerAllLong(texts[..|texts| - 1], min);
    }
  }

  /** The positions in `texts` whose trimmed text KeepLonger keeps. */
  function KeptIndices(texts: seq<string>, min: nat): seq<nat>
    decreases |texts|
  {
    if |texts| == 0 then []
    else
      var i := |texts| - 1;
      KeptIndices(texts[..i], min) + (if IsLong(texts[i], min) then [i] else [])
  }

  /** One more text extends the kept prefix by that text, trimmed, when it is
      long enough. */
  lemma KeepLongerStep(texts: seq<string>, i: nat, min: nat)
    requires i < |texts|
    ensures KeepLonger(texts[..i + 1], min) == KeepLonger(texts[..i], min) + KeepOne(texts[i], min)
  {
    assert texts[..i + 1][..i] == texts[..i];
  }

  /** The blocks of the extraction: headline, then every kept sub-heading,
      then every kept paragraph. */
  function KeptBlocks(page: Page): seq<string> {
    HeadlineBlocks(page)
      + KeepLonger(page.headingTexts, HeadingMinLength)
      + KeepLonger(page.paragraphTexts, ParagraphMinLength)
  }

  /** What `scrapeArticle` resolves to: `null` when fetching or parsing
      threw, otherwise the kept blocks joined by single spaces. */
  function Extraction(outcome: FetchOutcome): (r: Option<string>)
    ensures r.None? <==> outcome.Failed?
  {
    match outcome
    case Failed(_) => None
    case Loaded(page) => Some(Join(KeptBlocks(page), " "))
  }

  /** The extraction loop: push the headline, then each long enough
      sub-heading, then each long enough paragraph, and join. */
  method ScrapeArticle(outcome: FetchOutcome) returns (text: Option<string>)
    ensures text == Extraction(outcome)
  {
    if outcome.Failed? {
      return None;
    }
    var page := outcome.page;
    var content: seq<string> := [];

    var headline := if |page.h1Texts| == 0 then "" else Trim(page.h1Texts[0]);
    if headline != "" {
      content := content + [headline];
    }

    assert content == HeadlineBlocks(page);
    var headings := page.headingTexts;
    ghost var before := content;
    for i := 0 to |headings|
      invariant content == before + KeepLonger(headings[..i], HeadingMinLength)
    {
      KeepLongerStep(headings, i, HeadingMinLength);
      var t := Trim(headings[i]);
      ghost var step := KeepOne(headings[i], HeadingMinLength);
      if Utf16Length(t) > HeadingMinLength {
        assert step == [t];
        Associate(before, KeepLonger(headings[..i], HeadingMinLength), step);
        content := content + [t];
      } else {
        assert step == [];
        assert KeepLonger(headings[..i], HeadingMinLength) + step == KeepLonger(headings[..i], HeadingMinLength);
      }
    }
    assert headings[..|headings|] == headings;
    assert content == HeadlineBlocks(page) + KeepLonger(headings, HeadingMinLength);

    var paragraphs := page.paragraphTexts;
    before := content;
    for i := 0 to |paragraphs|
      invariant content == before + KeepLonger(paragraphs[..i], ParagraphMinLength)
    {
      KeepLongerStep(paragraphs, i, ParagraphMinLength);
      var t := Trim(paragraphs[i]);
      ghost var step := KeepOne(paragraphs[i], ParagraphMinLength);
      if t != "" && Utf16Length(t) > ParagraphMinLength {
        assert step == [t];
        Associate(before, KeepLonger(paragraphs[..i], ParagraphMinLength), step);
        content := content + [t];
      } else {
        assert step == [];
        assert KeepLonger(paragraphs[..i], ParagraphMinLength) + step == KeepLonger(paragraphs[..i], ParagraphMinLength);
      }
    }
    assert paragraphs[..|paragraphs|] == paragraphs;
    assert content == KeptBlocks(page);

    text := Some(Join(content, " "));
  }

  /** Concatenation regroups. */
  lemma Associate<T>(a: seq<T>, b: seq<T>, c: seq<T>)
    ensures (a + b) + c == a + (b + c)
  {
  }

  /** Whether the trimmed `text` is longer than `min` code units. */
  predicate IsLong(text: string, min: nat) {
    Utf16Length(Trim(text)) > min
  }

  /** The kept positions are increasing and each kept block is the trimmed
      text at its position. */
  lemma {:induction false} KeptIndicesMatch(texts: seq<string>, min: nat)
    ensures var kept, idx := KeepLonger(texts, min), KeptIndices(texts, min);
      && |idx| == |kept|
      && (forall k :: 0 <= k < |idx| ==> idx[k] < |texts| && kept[k] == Trim(texts[idx[k]]))
      && (forall k, l :: 0 <= k < l < |idx| ==> idx[k] < idx[l])
    decreases |texts|
  {
    if |texts| > 0 {
      var n := |texts| - 1;
      var front := texts[..n];
      KeptIndicesMatch(front, min);
      var kept0, idx0 := KeepLonger(front, min), KeptIndices(front, min);
      var kept, idx := KeepLonger(texts, min), KeptIndices(texts, min);
      var long := IsLong(texts[n], min);
      assert kept == kept0 + KeepOne(texts[n], min);
      assert KeepOne(texts[n], min) == if long then [Trim(texts[n])] else [];
      assert idx == idx0 + (if long then [n] else []);
      forall k | 0 <= k < |idx0| ensures idx[k] < |texts| && kept[k] == Trim(texts[idx[k]]) {
        assert idx[k] == idx0[k] && kept[k] == kept0[k];
        assert front[idx0[k]] == texts[idx0[k]];
      }
    }
  }

  /** A position is kept exactly when its trimmed text is long enough. */
  lemma {:induction false} KeptIndicesMembership(texts: seq<string>, min: nat)
    ensures forall i :: 0 <= i < |texts| ==> (i in KeptIndices(texts, min) <==> IsLong(texts[i], min))
    ensures forall i :: i in KeptIndices(texts, min) ==> i < |texts|
    decreases |texts|
  {
    if |texts| > 0 {
      var n := |texts| - 1;
      var front := texts[..n];
      KeptIndicesMembership(front, min);
      var idx0 := KeptIndices(front, min);
      var idx := KeptIndices(texts, min);
      assert idx == idx0 + (if IsLong(texts[n], min) then [n] else []);
      forall i | 0 <= i < n ensures i in idx <==> IsLong(texts[i], min) {
        assert front[i] == texts[i];
      }
    }
  }

  /** KeepLonger keeps exactly the texts whose trimmed length exceeds `min`,
      each trimmed, in increasing position order. */
  lemma KeepLongerExactly(texts: seq<string>, min: nat)
    ensures var kept, idx := KeepLonger(texts, min), KeptIndices(texts, min);
      && |idx| == |kept|
      && (forall k :: 0 <= k < |idx| ==> idx[k] < |texts| && kept[k] == Trim(texts[idx[k]]))
      && (forall k, l :: 0 <= k < l < |idx| ==> idx[k] < idx[l])
      && (forall i :: 0 <= i < |texts| ==> (i in idx <==> IsLong(texts[i], min)))
  {
    KeptIndicesMatch(texts, min);
    KeptIndicesMembership(texts, min);
  }

  /** Filtering distributes over concatenation, so relative order is kept. */
  lemma {:induction false} KeepLongerConcat(a: seq<string>, b: seq<string>, min: nat)
    ensures KeepLonger(a + b, min) == KeepLonger(a, min) + KeepLonger(b, min)
    decreases |b|
  {
    if |b| == 0 {
      assert a + b == a;
    } else {
      var n := |b| - 1;
      var ab := a + b;
      var last := KeepOne(b[n], min);
      assert KeepLonger(ab, min) == KeepLonger(a + b[..n], min) + last by {
        assert ab[..|ab| - 1] == a + b[..n];
        assert ab[|ab| - 1] == b[n];
      }
      assert KeepLonger(b, min) == KeepLonger(b[..n], min) + last;
      KeepLongerConcat(a, b[..n], min);
      Associate(KeepLonger(a, min), KeepLonger(b[..n], min), last);
    }
  }

  /** The headline is the first block exactly when it is non-empty: no kept
      sub-heading or paragraph is empty, so nothing else can stand in for it. */
  lemma HeadlineFirstIff(page: Page)
    ensures var blocks := KeptBlocks(page);
      (|blocks| > 0 && blocks[0] == Headline(page)) <==> Headline(page) != ""
  {
    var blocks := KeptBlocks(page);
    KeepLongerAllLong(page.headingTexts, HeadingMinLength);
    KeepLongerAllLong(page.paragraphTexts, ParagraphMinLength);
    if Headline(page) == "" && |blocks| > 0 {
      assert Utf16Length(blocks[0]) > 0;
    }
  }

  /** Only the first `h1` matters: pages that agree on it and on the other
      selections extract alike. */
  lemma OnlyFirstH1Counts(page: Page, other: Page)
    requires |page.h1Texts| > 0 <==> |other.h1Texts| > 0
    requires |page.h1Texts| > 0 ==> page.h1Texts[0] == other.h1Texts[0]
    requires page.headingTexts == other.headingTexts
    requires page.paragraphTexts == other.paragraphTexts
    ensures Extraction(Loaded(page)) == Extraction(Loaded(other))
  {
  }

  /** Every kept sub-heading precedes every kept paragraph: the blocks fall
      into three consecutive sections. */
  lemma KeptBlocksLayout(page: Page)
    ensures var blocks, h := KeptBlocks(page), |HeadlineBlocks(page)|;
      var s := |KeepLonger(page.headingTexts, HeadingMinLength)|;
      && blocks[..h]  == HeadlineBlocks(page)
      && blocks[h..h + s] == KeepLonger(page.headingTexts, HeadingMinLength)
      && blocks[h + s..] == KeepLonger(page.paragraphTexts, ParagraphMinLength)
  {
  }

  /** A page yields the empty string exactly when no block is kept. */
  lemma ExtractionEmptyIff(page: Page)
    ensures Extraction(Loaded(page)) == Some("") <==> KeptBlocks(page) == []
  {
    var blocks := KeptBlocks(page);
    KeepLongerAllLong(page.headingTexts, HeadingMinLength);
    KeepLongerAllLong(page.paragraphTexts, ParagraphMinLength);
    forall k | 0 <= k < |blocks| ensures blocks[k] != "" {
      assert Utf16Length(blocks[k]) > 0;
    }
    JoinEmptyIff(blocks, " ");
  }

  /** Of `h2`s of 3 and 20 code units only the second is kept. */
  lemma ExampleHeadings(short: string, long: string)
    requires IsTrimmed(short) && Utf16Length(short) == 3
    requires IsTrimmed(long) && Utf16Length(long) == 20
    ensures KeepLonger([short, long], HeadingMinLength) == [long]
  {
    var hs := [short, long];
    TrimUntouched(short);
    TrimUntouched(long);
    KeepLongerStep(hs, 0, HeadingMinLength);
    KeepLongerStep(hs, 1, HeadingMinLength);
    assert hs[..0] == [] && hs[..2] == hs;
  }

  /** Of `p`s of 10, 60 and 100 code units the last two are kept. */
  lemma ExampleParagraphs(p10: string, p60: string, p100: string)
    requires IsTrimmed(p10) && Utf16Length(p10) == 10
    requires IsTrimmed(p60) && Utf16Length(p60) == 60
    requires IsTrimmed(p100) && Utf16Length(p100) == 100
    ensures KeepLonger([p10, p60, p100], ParagraphMinLength) == [p60, p100]
  {
    var ps := [p10, p60, p100];
    var min := ParagraphMinLength;
    assert KeepOne(p10, min) == [] by { TrimUntouched(p10); }
    assert KeepOne(p60, min) == [p60] by { TrimUntouched(p60); }
    assert KeepOne(p100, min) == [p100] by { TrimUntouched(p100); }
    assert ps[..0] == [] && ps[..1] == [p10] && ps[..2] == [p10, p60] && ps[..3] == ps;
    calc {
      KeepLonger(ps, min);
      KeepLonger(ps[..3], min);
      { KeepLongerStep(ps, 2, min); }
      KeepLonger(ps[..2], min) + [p100];
      { KeepLongerStep(ps, 1, min); }
      KeepLonger(ps[..1], min) + [p60] + [p100];
      { KeepLongerStep(ps, 0, min); }
      KeepLonger(ps[..0], min) + [] + [p60] + [p100];
      [p60, p100];
    }
  }

  /** A page with one `h1`, `h2`s of 3 and 20 code units and `p`s of 10, 60
      and 100 code units (none with whitespace at its ends): the headline, the
      20-unit heading and the 60- and 100-unit paragraphs are kept, in that
      order. */
  lemma FilteringExample(title: string, short: string, long: string, p10: string, p60: string, p100: string)
    requires title != "" && IsTrimmed(title)
    requires IsTrimmed(short) && Utf16Length(short) == 3
    requires IsTrimmed(long) && Utf16Length(long) == 20
    requires IsTrimmed(p10) && Utf16Length(p10) == 10
    requires IsTrimmed(p60) && Utf16Length(p60) == 60
    requires IsTrimmed(p100) && Utf16Length(p100) == 100
    ensures KeptBlocks(Page([title], [short, long], [p10, p60, p100])) == [title, long, p60, p100]
  {
    var page := Page([title], [short, long], [p10, p60, p100]);
    assert HeadlineBlocks(page) == [title] by { TrimUntouched(title); }
    ExampleHeadings(short, long);
    ExampleParagraphs(p10, p60, p100);
    assert KeptBlocks(page) == [title] + [long] + [p60, p100];
  }
}
