/** Bringing a letter to the printer's colours and fonts. */
module Transformation {
  import opened Wrappers
  import opened Documents
  import opened Libraries
  import Fonts

  /** Python's `sub in s`. */
  predicate Contains(sub: string, s: string) {
    exists i :: 0 <= i <= |s| && sub <= s[i..]
  }

  predicate HasImageIn(space: string, page: Page) {
    page.images.Some? && exists k :: 0 <= k < |page.images.value| && Contains(space, page.images.value[k])
  }

  /** _does_pdf_contain_colorspace: the first image found ends the search; an unreadable page before it raises (None). */
  function ContainsColourSpace(space: string, pages: seq<Page>): Option<bool> {
    if pages == [] then Some(false)
    else if pages[0].images.None? then None
    else if HasImageIn(space, pages[0]) then Some(true)
    else ContainsColourSpace(space, pages[1..])
  }

  method DoesPdfContainColourSpace(space: string, document: Document) returns (r: Option<bool>)
    ensures r == ContainsColourSpace(space, document.pages)
  {
    var pages := document.pages;
    for i := 0 to |pages|
      invariant ContainsColourSpace(space, pages) == ContainsColourSpace(space, pages[i..])
    {
      assert pages[i..][1..] == pages[i + 1..];
      if pages[i].images.None? {
        return None;
      }
      var images := pages[i].images.value;
      for k := 0 to |images|
        invariant forall j :: 0 <= j < k ==> !Contains(space, images[j])
      {
        if Contains(space, images[k]) {
          return Some(true);
        }
      }
    }
    r := Some(false);
  }

  /** The first page that decides the search: one that cannot be read, or that has such an image. */
  ghost predicate Decides(space: string, pages: seq<Page>, i: int) {
    && 0 <= i < |pages|
    && (pages[i].images.None? || HasImageIn(space, pages[i]))
    && forall j :: 0 <= j < i ==> pages[j].images.Some? && !HasImageIn(space, pages[j])
  }

  lemma {:induction false} SearchIsDecided(space: string, pages: seq<Page>)
    ensures ContainsColourSpace(space, pages) == Some(false) <==> !exists i :: Decides(space, pages, i)
    ensures forall i :: Decides(space, pages, i) ==>
                          ContainsColourSpace(space, pages) == if pages[i].images.None? then None else Some(true)
  {
    if pages != [] {
      var rest := pages[1..];
      if pages[0].images.None? || HasImageIn(space, pages[0]) {
        assert Decides(space, pages, 0);
        assert forall i :: Decides(space, pages, i) ==> i == 0;
      } else {
        SearchIsDecided(space, rest);
        forall i | Decides(space, pages, i)
          ensures i > 0 && Decides(space, rest, i - 1)
        {
          assert forall j :: 0 <= j < i - 1 ==> rest[j] == pages[j + 1];
        }
        forall i | Decides(space, rest, i)
          ensures Decides(space, pages, i + 1)
        {
          assert forall j :: 0 < j < i + 1 ==> pages[j] == rest[j - 1];
        }
      }
    }
  }

  /** Whether colours are converted: there is no CMYK image, or there is an RGB one as well. */
  function InPrintColours(lib: Library, document: Document): Option<Document> {
    var cmyk := ContainsColourSpace("CMYK", document.pages);
    if cmyk.None? then None
    else if !cmyk.value then lib.toCmyk(document)
    else
      var rgb := ContainsColourSpace("RGB", document.pages);
      if rgb.None? then None else if rgb.value then lib.toCmyk(document) else Some(document)
  }

  /** Some image of the page has a colour space with that name in it. */
  ghost predicate ShowsSpace(space: string, page: Page) {
    page.images.Some? && exists k :: 0 <= k < |page.images.value| && Named(space, page.images.value[k])
  }

  ghost predicate Named(space: string, s: string) {
    exists before, after :: s == before + space + after
  }

  lemma ContainsIs(space: string, s: string)
    ensures Contains(space, s) <==> Named(space, s)
  {
    if Contains(space, s) {
      var i :| 0 <= i <= |s| && space <= s[i..];
      assert s == s[..i] + space + s[i + |space|..];
    }
    if Named(space, s) {
      var before, after :| s == before + space + after;
      assert s[|before|..] == space + after;
    }
  }

  lemma HasImageInIs(space: string, page: Page)
    ensures HasImageIn(space, page) <==> ShowsSpace(space, page)
  {
    if page.images.Some? {
      forall k | 0 <= k < |page.images.value|
        ensures Contains(space, page.images.value[k]) <==> Named(space, page.images.value[k])
      {
        ContainsIs(space, page.images.value[k]);
      }
    }
  }

  /** The first page on which the search ends: one that cannot be read, or that has such an image. */
  ghost predicate EndsSearch(space: string, pages: seq<Page>, i: int) {
    && 0 <= i < |pages|
    && (pages[i].images.None? || ShowsSpace(space, pages[i]))
    && forall j :: 0 <= j < i ==> pages[j].images.Some? && !ShowsSpace(space, pages[j])
  }

  lemma EndsSearchIs(space: string, pages: seq<Page>, i: int)
    ensures EndsSearch(space, pages, i) <==> Decides(space, pages, i)
  {
    forall j | 0 <= j < |pages|
      ensures HasImageIn(space, pages[j]) <==> ShowsSpace(space, pages[j])
    {
      HasImageInIs(space, pages[j]);
    }
  }

  lemma SearchEnds(space: string, pages: seq<Page>)
    ensures ContainsColourSpace(space, pages) == Some(false) <==> !exists i :: EndsSearch(space, pages, i)
    ensures forall i :: EndsSearch(space, pages, i) ==>
                          ContainsColourSpace(space, pages) == if pages[i].images.None? then None else Some(true)
  {
    forall i
      ensures EndsSearch(space, pages, i) <==> Decides(space, pages, i)
    {
      EndsSearchIs(space, pages, i);
    }
    SearchIsDecided(space, pages);
  }

  /**
   When colours are converted: unless the letter has a CMYK image and no RGB image. A page that cannot be read, and that
   one of the searches comes to, makes it fail.
   */
  lemma PrintColoursAre(lib: Library, document: Document)
    ensures (forall i :: !EndsSearch("CMYK", document.pages, i)) ==> InPrintColours(lib, document) == lib.toCmyk(document)
    ensures forall i :: EndsSearch("CMYK", document.pages, i) && document.pages[i].images.None? ==>
                          InPrintColours(lib, document) == None
    ensures (exists i :: EndsSearch("CMYK", document.pages, i) && document.pages[i].images.Some?) ==>
              && ((forall j :: !EndsSearch("RGB", document.pages, j)) ==> InPrintColours(lib, document) == Some(document))
              && (forall j :: EndsSearch("RGB", document.pages, j) ==>
                                InPrintColours(lib, document)
                                == if document.pages[j].images.None? then None else lib.toCmyk(document))
  {
    SearchEnds("CMYK", document.pages);
    SearchEnds("RGB", document.pages);
  }

  /** Of a letter all of whose pages can be read that is simply so. */
  lemma ConvertedUnlessCmykOnly(lib: Library, document: Document)
    requires forall i :: 0 <= i < |document.pages| ==> document.pages[i].images.Some?
    ensures InPrintColours(lib, document)
         == if && (exists i :: 0 <= i < |document.pages| && ShowsSpace("CMYK", document.pages[i]))
               && !(exists i :: 0 <= i < |document.pages| && ShowsSpace("RGB", document.pages[i]))
            then Some(document) else lib.toCmyk(document)
  {
    PrintColoursAre(lib, document);
    FirstEnds("CMYK", document.pages);
    FirstEnds("RGB", document.pages);
  }

  lemma {:induction false} FirstEnds(space: string, pages: seq<Page>)
    ensures (exists i :: EndsSearch(space, pages, i)) <==>
            exists i :: 0 <= i < |pages| && (pages[i].images.None? || ShowsSpace(space, pages[i]))
  {
    if pages != [] {
      var init := pages[..|pages| - 1];
      FirstEnds(space, init);
      if i :| EndsSearch(space, init, i) {
        assert EndsSearch(space, pages, i);
      } else {
        assert forall j :: 0 <= j < |init| ==> init[j] == pages[j];
        assert pages[|init|].images.None? || ShowsSpace(space, pages[|init|]) ==> EndsSearch(space, pages, |init|);
      }
    }
  }

  /** normalise_fonts_and_colours; None is an exception. */
  function Normalise(lib: Library, document: Document): Option<Document> {
    var converted := InPrintColours(lib, document);
    if converted.None? then None
    else
      var unembedded := Fonts.Unembedded(converted.value, lib.recursionLimit);
      if unembedded.None? then None
      else if unembedded.value != {} then lib.embedFonts(converted.value)
      else converted
  }

  /** Normalising keeps the letter: pages, sizes, words, and white paper. */
  lemma NormaliseKeepsLetter(lib: Library, document: Document)
    requires ConverterContract(lib) && Normalise(lib, document).Some?
    ensures SameLetter(document, Normalise(lib, document).value)
  {
    var converted := InPrintColours(lib, document).value;
    var normalised := Normalise(lib, document).value;
    assert ConvertersOk(lib, document) && ConvertersOk(lib, converted);
    forall i | 0 <= i < |document.pages|
      ensures SameLook(document.pages[i], normalised.pages[i])
    {
      assert SameLook(document.pages[i], converted.pages[i]);
      assert SameLook(converted.pages[i], normalised.pages[i]);
    }
  }

  /** Some page uses the font and no page embeds it. */
  ghost predicate Missing(document: Document, font: Obj) {
    && (exists i :: 0 <= i < |document.pages| && Fonts.PageSays(Fonts.Used, document, document.pages[i], font))
    && !(exists i :: 0 <= i < |document.pages| && Fonts.PageSays(Fonts.Embedded, document, document.pages[i], font))
  }

  /** What normalising gives: the letter in print colours, with fonts embedded exactly if one is missing. */
  lemma NormalisedIs(lib: Library, document: Document)
    requires InPrintColours(lib, document).Some?
    ensures var converted := InPrintColours(lib, document).value;
            Normalise(lib, document)
            == if !forall i :: 0 <= i < |converted.pages| ==> Fonts.PageReturns(converted, converted.pages[i], lib.recursionLimit)
               then None
               else if exists font :: Missing(converted, font) then lib.embedFonts(converted)
               else Some(converted)
  {
    var converted := InPrintColours(lib, document).value;
    var unembedded := Fonts.Unembedded(converted, lib.recursionLimit);
    if unembedded.Some? {
      forall font
        ensures font in unembedded.value <==> Missing(converted, font)
      {
        Fonts.UnembeddedIff(converted, lib.recursionLimit, font);
      }
      if unembedded.value != {} {
        var font :| font in unembedded.value;
        assert Missing(converted, font);
      }
    }
  }
}
