/** The checks a letter must pass: page size, ink outside the printable areas, NOTIFY tags on later pages. */
module Validation {
  import opened Wrappers
  import opened Geometry
  import opened Documents
  import opened Layout
  import opened Libraries
  import opened Overlays
  import opened Canvas
  import Extraction

  datatype Message =
    | LetterTooLong
    | NotA4PortraitOriented
    | ContentOutsidePrintableArea
    | NotifyTagFoundInContent
    | InvalidAddress(code: string)
    | UnableToReadTheFile

  // ---- Lists of page numbers ----

  /** The 1-based numbers of the pages flagged, in order. */
  function PageNumbers(flags: seq<bool>): seq<nat> {
    if flags == [] then []
    else PageNumbers(flags[..|flags| - 1]) + (if flags[|flags| - 1] then [|flags|] else [])
  }

  predicate StrictlyIncreasing(ns: seq<nat>) {
    forall i, j :: 0 <= i < j < |ns| ==> ns[i] < ns[j]
  }

  predicate Flagged(flags: seq<bool>, n: nat) {
    1 <= n <= |flags| && flags[n - 1]
  }

  lemma {:induction false} PageNumberIn(flags: seq<bool>, n: nat)
    ensures n in PageNumbers(flags) <==> Flagged(flags, n)
  {
    if flags != [] {
      PageNumberIn(flags[..|flags| - 1], n);
    }
  }

  lemma {:induction false} PageNumbersIncrease(flags: seq<bool>)
    ensures StrictlyIncreasing(PageNumbers(flags))
  {
    if flags != [] {
      var before := PageNumbers(flags[..|flags| - 1]);
      PageNumbersIncrease(flags[..|flags| - 1]);
      forall i | 0 <= i < |before|
        ensures before[i] < |flags|
      {
        PageNumberIn(flags[..|flags| - 1], before[i]);
      }
    }
  }

  lemma PageNumbersAre(flags: seq<bool>)
    ensures StrictlyIncreasing(PageNumbers(flags))
    ensures forall n :: n in PageNumbers(flags) <==> Flagged(flags, n)
  {
    PageNumbersIncrease(flags);
    forall n
      ensures n in PageNumbers(flags) <==> Flagged(flags, n)
    {
      PageNumberIn(flags, n);
    }
  }

  /** One more page. */
  lemma PageNumbersSnoc(flags: seq<bool>, n: nat)
    requires n < |flags|
    ensures PageNumbers(flags[..n + 1]) == PageNumbers(flags[..n]) + (if flags[n] then [n + 1] else [])
  {
    assert flags[..n + 1][..n] == flags[..n];
  }

  // ---- Page size ----

  /** Python's math.isclose with its default relative tolerance. */
  predicate IsClose(a: real, b: real, absTol: real) {
    Abs(a - b) <= Max(0.000000001 * Max(Abs(a), Abs(b)), absTol)
  }

  /** The relative tolerance never matters next to 2mm: a number is close to an A4 measurement iff it is within 2mm. */
  lemma IsCloseIsWithin(a: real, b: real)
    requires 0.0 <= b <= 297.0
    ensures IsClose(a, b, 2.0) <==> Abs(a - b) <= 2.0
  {
  }

  /** _is_page_A4_portrait; measurements in millimetres. */
  predicate IsPageA4Portrait(pageHeight: real, pageWidth: real, rotation: Option<int>) {
    if IsClose(pageHeight, A4_HEIGHT, 2.0) && IsClose(pageWidth, 210.0, 2.0) then
      rotation in {Some(0), Some(180), None}
    else if IsClose(pageWidth, A4_HEIGHT, 2.0) && IsClose(pageHeight, 210.0, 2.0) then
      rotation in {Some(90), Some(270)}
    else
      false
  }

  predicate QuarterTurned(rotation: Option<int>) {
    rotation in {Some(90), Some(270)}
  }

  /** A page is accepted exactly when, as displayed, it is within 2mm of A4 portrait and its rotation is a quarter turn count. */
  lemma A4PortraitAsDisplayed(h: real, w: real, rotation: Option<int>)
    ensures IsPageA4Portrait(h, w, rotation) <==>
            && rotation in {None, Some(0), Some(90), Some(180), Some(270)}
            && Abs((if QuarterTurned(rotation) then w else h) - 297.0) <= 2.0
            && Abs((if QuarterTurned(rotation) then h else w) - 210.0) <= 2.0
  {
    IsCloseIsWithin(h, 297.0);
    IsCloseIsWithin(w, 210.0);
    IsCloseIsWithin(w, 297.0);
    IsCloseIsWithin(h, 210.0);
  }

  predicate WrongSize(page: Page) {
    !IsPageA4Portrait(ToMm(page.height), ToMm(page.width), page.rotation)
  }

  function WrongSizeFlags(document: Document): seq<bool> {
    seq(|document.pages|, i requires 0 <= i < |document.pages| => WrongSize(document.pages[i]))
  }

  method GetPagesWithInvalidOrientationOrSize(document: Document) returns (invalidPages: seq<nat>)
    ensures invalidPages == PageNumbers(WrongSizeFlags(document))
  {
    invalidPages := [];
    ghost var flags := WrongSizeFlags(document);
    for pageNum := 0 to |document.pages|
      invariant invalidPages == PageNumbers(flags[..pageNum])
    {
      var page := document.pages[pageNum];
      var pageHeight := ToMm(page.height);
      var pageWidth := ToMm(page.width);
      PageNumbersSnoc(flags, pageNum);
      if !IsPageA4Portrait(pageHeight, pageWidth, page.rotation) {
        invalidPages := invalidPages + [pageNum + 1];
      }
    }
    assert flags[..|flags|] == flags;
  }

  // ---- Ink outside the printable areas ----

  const MAX_COLOURS: nat := 256

  /** The distinct colours of an image, in order of first appearance. */
  function Distinct(pixels: seq<Colour>): (colours: seq<Colour>)
    ensures forall c :: c in colours <==> c in pixels
    ensures forall i, j :: 0 <= i < j < |colours| ==> colours[i] != colours[j]
  {
    if pixels == [] then []
    else
      var rest := Distinct(pixels[..|pixels| - 1]);
      if pixels[|pixels| - 1] in rest then rest else rest + [pixels[|pixels| - 1]]
  }

  /** Pillow's getcolors(): the colours with their counts, or None when there are more than 256. */
  function GetColours(pixels: seq<Colour>): Option<seq<(nat, Colour)>> {
    var colours := Distinct(pixels);
    if |colours| > MAX_COLOURS then None
    else Some(seq(|colours|, i requires 0 <= i < |colours| => (multiset(pixels)[colours[i]], colours[i])))
  }

  predicate HasInk(pixels: seq<Colour>) {
    exists k :: 0 <= k < |pixels| && pixels[k] != WHITE
  }

  /** Too many colours to list means that at least one of them is not white. */
  lemma TooManyColours(pixels: seq<Colour>)
    requires GetColours(pixels).None?
    ensures HasInk(pixels)
  {
    var colours := Distinct(pixels);
    assert colours[0] != colours[1];
    var c := if colours[0] != WHITE then colours[0] else colours[1];
    assert c in pixels;
  }

  function InkFlags(images: seq<seq<Colour>>): seq<bool> {
    seq(|images|, i requires 0 <= i < |images| => HasInk(images[i]))
  }

  /** _get_out_of_bounds_pages: the images of the pages are looked through colour by colour. */
  method GetOutOfBoundsPages(images: seq<seq<Colour>>) returns (pages: seq<nat>)
    ensures pages == PageNumbers(InkFlags(images))
  {
    pages := [];
    ghost var flags := InkFlags(images);
    for i := 0 to |images|
      invariant pages == PageNumbers(flags[..i])
    {
      PageNumbersSnoc(flags, i);
      var colours := GetColours(images[i]);
      if colours.None? {
        TooManyColours(images[i]);
        pages := pages + [i + 1];
        continue;
      }
      ghost var before := pages;
      var k := 0;
      while k < |colours.value|
        invariant k <= |colours.value|
        invariant pages == before
        invariant forall j :: 0 <= j < k ==> colours.value[j].1 == WHITE
      {
        if colours.value[k].1 != WHITE {
          pages := pages + [i + 1];
          break;
        }
        k := k + 1;
      }
      ghost var distinct := Distinct(images[i]);
      if k < |colours.value| {
        assert distinct[k] in images[i];
      } else {
        assert forall j :: 0 <= j < |distinct| ==> distinct[j] == colours.value[j].1;
        forall p | 0 <= p < |images[i]|
          ensures images[i][p] == WHITE
        {
          assert images[i][p] in distinct;
        }
      }
    }
    assert flags[..|flags|] == flags;
  }

  /** The pixels poppler makes of a page. */
  function Image(lib: Library, page: Page): seq<Colour> {
    var points := lib.samples(page.width, page.height);
    seq(|points|, k requires 0 <= k < |points| => ColourAt(page.ops, points[k]))
  }

  function Images(lib: Library, document: Document): seq<seq<Colour>> {
    seq(|document.pages|, i requires 0 <= i < |document.pages| => Image(lib, document.pages[i]))
  }

  function OutOfBoundsPages(lib: Library, document: Document, isAnAttachment: bool): seq<nat> {
    PageNumbers(InkFlags(Images(lib, WithPrintableAreasWhite(document, isAnAttachment))))
  }

  /** Some sampled point further than 1mm from every printable area is not white. */
  ghost predicate HasInkOutOfBounds(lib: Library, page: Page, isFirstPage: bool) {
    exists k :: && 0 <= k < |lib.samples(page.width, page.height)|
                && ColourAt(page.ops, lib.samples(page.width, page.height)[k]) != WHITE
                && !NearPrintable(isFirstPage, FromTopLeft(lib.samples(page.width, page.height)[k]))
  }

  /** Exactness of the bounds check, page by page, for all ink. */
  lemma WhitenedHasInkIff(lib: Library, page: Page, isFirstPage: bool)
    ensures HasInk(Image(lib, Whitened(page, isFirstPage))) <==> HasInkOutOfBounds(lib, page, isFirstPage)
  {
    var points := lib.samples(page.width, page.height);
    var whitened := Whitened(page, isFirstPage);
    var image := Image(lib, whitened);
    assert |image| == |points|;
    forall k | 0 <= k < |points|
      ensures image[k] != WHITE <==>
              ColourAt(page.ops, points[k]) != WHITE && !NearPrintable(isFirstPage, FromTopLeft(points[k]))
    {
      WhitenedColour(page, isFirstPage, points[k]);
    }
  }

  /** A page is reported iff it has ink out of bounds for its kind of page. */
  lemma ReportedIffOutOfBounds(lib: Library, document: Document, isAnAttachment: bool, n: nat)
    ensures n in OutOfBoundsPages(lib, document, isAnAttachment) <==>
            && 1 <= n <= |document.pages|
            && HasInkOutOfBounds(lib, document.pages[n - 1], n == 1 && !isAnAttachment)
  {
    var overlaid := WithPrintableAreasWhite(document, isAnAttachment);
    var flags := InkFlags(Images(lib, overlaid));
    PageNumberIn(flags, n);
    if 1 <= n <= |document.pages| {
      WhitenedHasInkIff(lib, document.pages[n - 1], n == 1 && !isAnAttachment);
      assert flags[n - 1] == HasInk(Image(lib, Whitened(document.pages[n - 1], n == 1 && !isAnAttachment)));
    }
  }

  /** Point k of those sampled on the page is ink out of bounds. */
  ghost predicate Offends(lib: Library, page: Page, isFirstPage: bool, k: int) {
    && 0 <= k < |lib.samples(page.width, page.height)|
    && ColourAt(page.ops, lib.samples(page.width, page.height)[k]) != WHITE
    && !NearPrintable(isFirstPage, FromTopLeft(lib.samples(page.width, page.height)[k]))
  }

  /**
   Of a page reported, in a letter or an attachment, the red overlay for its kind of page shows some offending ink
   exactly when some of it is on the A4 sheet, and then it shows all that is on the sheet.
   */
  lemma ReportedInkIsShown(lib: Library, document: Document, isAnAttachment: bool, n: nat)
    requires n in OutOfBoundsPages(lib, document, isAnAttachment)
    ensures 1 <= n <= |document.pages|
    ensures var page, isFirstPage := document.pages[n - 1], n == 1 && !isAnAttachment;
            var points, tints := lib.samples(page.width, page.height), FillAreas(RedAreas(isFirstPage), RED_TINT);
            && (exists k :: Offends(lib, page, isFirstPage, k))
            && (forall k :: Offends(lib, page, isFirstPage, k) ==>
                              (CoveredBy(tints, points[k]) <==> SHEET.Contains(FromTopLeft(points[k]))))
            && ((exists k :: Offends(lib, page, isFirstPage, k) && CoveredBy(tints, points[k])) <==>
                (exists k :: Offends(lib, page, isFirstPage, k) && SHEET.Contains(FromTopLeft(points[k]))))
  {
    ReportedIffOutOfBounds(lib, document, isAnAttachment, n);
    var page, isFirstPage := document.pages[n - 1], n == 1 && !isAnAttachment;
    var points, tints := lib.samples(page.width, page.height), FillAreas(RedAreas(isFirstPage), RED_TINT);
    var k :| && 0 <= k < |points| && ColourAt(page.ops, points[k]) != WHITE
             && !NearPrintable(isFirstPage, FromTopLeft(points[k]));
    assert Offends(lib, page, isFirstPage, k);
    forall k | Offends(lib, page, isFirstPage, k)
      ensures CoveredBy(tints, points[k]) <==> SHEET.Contains(FromTopLeft(points[k]))
    {
      RejectedIsRedIff(isFirstPage, points[k]);
    }
  }

  /** What fails as an attachment fails as a letter. */
  lemma AttachmentBoundsAreLooser(lib: Library, document: Document, n: nat)
    requires n in OutOfBoundsPages(lib, document, true)
    ensures n in OutOfBoundsPages(lib, document, false)
  {
    ReportedIffOutOfBounds(lib, document, true, n);
    ReportedIffOutOfBounds(lib, document, false, n);
    var page := document.pages[n - 1];
    var points := lib.samples(page.width, page.height);
    var k :| && 0 <= k < |points| && ColourAt(page.ops, points[k]) != WHITE
             && !NearPrintable(false, FromTopLeft(points[k]));
    if NearPrintable(true, FromTopLeft(points[k])) {
      NearPrintableMonotone(FromTopLeft(points[k]));
    }
    assert !NearPrintable(n == 1, FromTopLeft(points[k]));
  }

  // ---- NOTIFY tags ----

  predicate TagReads(lib: Library, page: Page) {
    Extraction.ExtractText(lib.nfkd, page.words, NOTIFY_TAG_BOX) == NOTIFY_TAG_TEXT
  }

  function TagFlags(lib: Library, document: Document, isAnAttachment: bool): seq<bool> {
    seq(|document.pages|, i requires 0 <= i < |document.pages| =>
      i >= (if isAnAttachment then 0 else 1) && TagReads(lib, document.pages[i]))
  }

  method ReadsNotifyTag(lib: Library, page: Page) returns (tagged: bool)
    ensures tagged == TagReads(lib, page)
  {
    var text := Extraction.ExtractTextFromPage(lib.nfkd, page.words, NOTIFY_TAG_BOX);
    tagged := text == NOTIFY_TAG_TEXT;
  }

  /** _get_pages_with_notify_tag */
  method GetPagesWithNotifyTag(lib: Library, document: Document, isAnAttachment: bool) returns (invalidPages: seq<nat>)
    requires isAnAttachment || document.pages != []
    ensures invalidPages == PageNumbers(TagFlags(lib, document, isAnAttachment))
  {
    ghost var flags := TagFlags(lib, document, isAnAttachment);
    var startingPageIndex := 1;
    if isAnAttachment {
      startingPageIndex := 0;
    }
    invalidPages := [];
    if |document.pages| == startingPageIndex {
      NoPagesIff(flags);
      return;
    }
    NoPagesIff(flags[..startingPageIndex]);
    for i := startingPageIndex to |document.pages|
      invariant invalidPages == PageNumbers(flags[..i])
    {
      PageNumbersSnoc(flags, i);
      var tagged := ReadsNotifyTag(lib, document.pages[i]);
      if tagged {
        invalidPages := invalidPages + [i + 1];
      }
    }
    assert flags[..|flags|] == flags;
  }

  /** Tags found in a letter are found in the same document as an attachment, which may only add page 1. */
  lemma AttachmentTagsAreStricter(lib: Library, document: Document, n: nat)
    ensures n in PageNumbers(TagFlags(lib, document, false)) <==>
            n in PageNumbers(TagFlags(lib, document, true)) && n != 1
  {
    PageNumbersAre(TagFlags(lib, document, false));
    PageNumbersAre(TagFlags(lib, document, true));
  }

  // ---- All checks ----

  /** What checking a letter comes to; Crash is an exception no check expects. */
  datatype Verdict = Valid | Invalid(message: Message, pages: seq<nat>) | Crash

  /** get_invalid_pages_with_message */
  function Validate(lib: Library, document: Document, isAnAttachment: bool): Verdict {
    var wrongSize := PageNumbers(WrongSizeFlags(document));
    if |wrongSize| > 0 then Invalid(NotA4PortraitOriented, wrongSize)
    else if !isAnAttachment && |document.pages| == 0 then Crash
    else
      var overlaid := WithPrintableAreasWhite(document, isAnAttachment);
      var outOfBounds := PageNumbers(InkFlags(Images(lib, overlaid)));
      if |outOfBounds| > 0 then Invalid(ContentOutsidePrintableArea, outOfBounds)
      else
        var tagged := PageNumbers(TagFlags(lib, overlaid, isAnAttachment));
        if |tagged| > 0 then Invalid(NotifyTagFoundInContent, tagged) else Valid
  }

  /** Laying white over a page leaves its text alone. */
  lemma OverlayKeepsTags(lib: Library, document: Document, isAnAttachment: bool)
    ensures TagFlags(lib, WithPrintableAreasWhite(document, isAnAttachment), isAnAttachment)
         == TagFlags(lib, document, isAnAttachment)
  {
    var overlaid := WithPrintableAreasWhite(document, isAnAttachment);
    forall i | 0 <= i < |document.pages|
      ensures overlaid.pages[i].words == document.pages[i].words
    {
      assert document.pages[i].words + [] == document.pages[i].words;
    }
  }

  /** A document passes exactly when every page passes every check that applies to it. */
  ghost predicate PageIsValid(lib: Library, document: Document, isAnAttachment: bool, i: nat)
    requires i < |document.pages|
  {
    var page, isFirstPage := document.pages[i], i == 0 && !isAnAttachment;
    && !WrongSize(page)
    && !HasInkOutOfBounds(lib, page, isFirstPage)
    && (TagReads(lib, page) ==> isFirstPage)
  }

  lemma ValidMeans(lib: Library, document: Document, isAnAttachment: bool)
    ensures Validate(lib, document, isAnAttachment).Valid? <==>
            && (isAnAttachment || document.pages != [])
            && PageNumbers(WrongSizeFlags(document)) == []
            && OutOfBoundsPages(lib, document, isAnAttachment) == []
            && PageNumbers(TagFlags(lib, document, isAnAttachment)) == []
  {
    OverlayKeepsTags(lib, document, isAnAttachment);
  }

  lemma ValidIff(lib: Library, document: Document, isAnAttachment: bool)
    ensures Validate(lib, document, isAnAttachment).Valid? <==>
            && (isAnAttachment || document.pages != [])
            && forall i :: 0 <= i < |document.pages| ==> PageIsValid(lib, document, isAnAttachment, i)
  {
    var sizes, tags := WrongSizeFlags(document), TagFlags(lib, document, isAnAttachment);
    var ink := InkFlags(Images(lib, WithPrintableAreasWhite(document, isAnAttachment)));
    ValidMeans(lib, document, isAnAttachment);
    NoneFlaggedIff(sizes, ink, tags);
    forall i | 0 <= i < |document.pages|
      ensures PageIsValid(lib, document, isAnAttachment, i) <==> !sizes[i] && !ink[i] && !tags[i]
    {
      PageIsValidIff(lib, document, isAnAttachment, i);
    }
  }

  lemma NoneFlaggedIff(a: seq<bool>, b: seq<bool>, c: seq<bool>)
    requires |a| == |b| == |c|
    ensures PageNumbers(a) == [] && PageNumbers(b) == [] && PageNumbers(c) == [] <==>
            forall i :: 0 <= i < |a| ==> !a[i] && !b[i] && !c[i]
  {
    NoPagesIff(a);
    NoPagesIff(b);
    NoPagesIff(c);
  }

  /** Page n of the document has the wrong size; has ink out of bounds; is tagged, though it is not page 1 of a letter. */
  predicate SizeFault(document: Document, n: nat) {
    1 <= n <= |document.pages| && WrongSize(document.pages[n - 1])
  }

  ghost predicate InkFault(lib: Library, document: Document, isAnAttachment: bool, n: nat) {
    1 <= n <= |document.pages| && HasInkOutOfBounds(lib, document.pages[n - 1], n == 1 && !isAnAttachment)
  }

  predicate TagFault(lib: Library, document: Document, isAnAttachment: bool, n: nat) {
    1 <= n <= |document.pages| && TagReads(lib, document.pages[n - 1]) && (n == 1 ==> isAnAttachment)
  }

  /** A page is accepted exactly when, as displayed, it is within 2mm of A4 portrait. */
  lemma WrongSizeIs(page: Page)
    ensures !WrongSize(page) <==>
            && page.rotation in {None, Some(0), Some(90), Some(180), Some(270)}
            && var turned := page.rotation in {Some(90), Some(270)};
            && Abs((if turned then page.width else page.height) * 25.4 / 72.0 - 297.0) <= 2.0
            && Abs((if turned then page.height else page.width) * 25.4 / 72.0 - 210.0) <= 2.0
  {
    A4PortraitAsDisplayed(ToMm(page.height), ToMm(page.width), page.rotation);
  }

  /**
   What a letter is told, for every document: that pages have the wrong size, if any has; else that ink is out of
   bounds, if any is; else that there are tags, if any are; each time with exactly the pages at fault.
   */
  lemma VerdictIs(lib: Library, document: Document, isAnAttachment: bool)
    ensures var verdict := Validate(lib, document, isAnAttachment);
            if exists n :: SizeFault(document, n) then
              && verdict.Invalid? && verdict.message == NotA4PortraitOriented
              && forall n :: n in verdict.pages <==> SizeFault(document, n)
            else if document.pages == [] && !isAnAttachment then verdict.Crash?
            else if exists n :: InkFault(lib, document, isAnAttachment, n) then
              && verdict.Invalid? && verdict.message == ContentOutsidePrintableArea
              && forall n :: n in verdict.pages <==> InkFault(lib, document, isAnAttachment, n)
            else if exists n :: TagFault(lib, document, isAnAttachment, n) then
              && verdict.Invalid? && verdict.message == NotifyTagFoundInContent
              && forall n :: n in verdict.pages <==> TagFault(lib, document, isAnAttachment, n)
            else verdict.Valid?
  {
    SizeFaultsAre(document);
    InkFaultsAre(lib, document, isAnAttachment);
    TagFaultsAre(lib, document, isAnAttachment);
    OverlayKeepsTags(lib, document, isAnAttachment);
  }

  lemma SizeFaultsAre(document: Document)
    ensures var pages := PageNumbers(WrongSizeFlags(document));
            && (pages == [] <==> !exists n :: SizeFault(document, n))
            && forall n :: n in pages <==> SizeFault(document, n)
  {
    var flags := WrongSizeFlags(document);
    PageNumbersAre(flags);
    forall n: nat
      ensures Flagged(flags, n) <==> SizeFault(document, n)
    {
    }
    NoneListed(PageNumbers(flags));
  }

  lemma InkFaultsAre(lib: Library, document: Document, isAnAttachment: bool)
    ensures var pages := OutOfBoundsPages(lib, document, isAnAttachment);
            && (pages == [] <==> !exists n :: InkFault(lib, document, isAnAttachment, n))
            && forall n :: n in pages <==> InkFault(lib, document, isAnAttachment, n)
  {
    forall n
      ensures n in OutOfBoundsPages(lib, document, isAnAttachment) <==> InkFault(lib, document, isAnAttachment, n)
    {
      ReportedIffOutOfBounds(lib, document, isAnAttachment, n);
    }
    NoneListed(OutOfBoundsPages(lib, document, isAnAttachment));
  }

  lemma TagFaultsAre(lib: Library, document: Document, isAnAttachment: bool)
    ensures var pages := PageNumbers(TagFlags(lib, document, isAnAttachment));
            && (pages == [] <==> !exists n :: TagFault(lib, document, isAnAttachment, n))
            && forall n :: n in pages <==> TagFault(lib, document, isAnAttachment, n)
  {
    var flags := TagFlags(lib, document, isAnAttachment);
    PageNumbersAre(flags);
    forall n: nat
      ensures Flagged(flags, n) <==> TagFault(lib, document, isAnAttachment, n)
    {
    }
    NoneListed(PageNumbers(flags));
  }

  lemma NoneListed(pages: seq<nat>)
    ensures pages == [] <==> !exists n :: n in pages
  {
    if pages != [] {
      assert pages[0] in pages;
    }
  }

  lemma PageIsValidIff(lib: Library, document: Document, isAnAttachment: bool, i: nat)
    requires i < |document.pages|
    ensures PageIsValid(lib, document, isAnAttachment, i) <==>
            && !WrongSizeFlags(document)[i]
            && !InkFlags(Images(lib, WithPrintableAreasWhite(document, isAnAttachment)))[i]
            && !TagFlags(lib, document, isAnAttachment)[i]
  {
    WhitenedHasInkIff(lib, document.pages[i], i == 0 && !isAnAttachment);
  }

  lemma NoPagesIff(flags: seq<bool>)
    ensures PageNumbers(flags) == [] <==> forall i :: 0 <= i < |flags| ==> !flags[i]
  {
    PageNumbersAre(flags);
    var ns := PageNumbers(flags);
    if ns != [] {
      assert ns[0] in ns;
    } else {
      assert forall i :: 0 <= i < |flags| && flags[i] ==> i + 1 in ns;
    }
  }

  /** Some of so many pages, listed once and in order. */
  ghost predicate ListsPages(pages: seq<nat>, count: nat) {
    StrictlyIncreasing(pages) && forall n :: n in pages ==> 1 <= n <= count
  }

  lemma PageNumbersListPages(flags: seq<bool>)
    ensures ListsPages(PageNumbers(flags), |flags|)
  {
    PageNumbersAre(flags);
  }

  /** Pages reported, by whichever check, are some of the document's, listed once and in order. */
  lemma InvalidPagesAreWellFormed(lib: Library, document: Document, isAnAttachment: bool)
    requires Validate(lib, document, isAnAttachment).Invalid?
    ensures var pages := Validate(lib, document, isAnAttachment).pages;
            pages != [] && ListsPages(pages, |document.pages|)
  {
    var overlaid := WithPrintableAreasWhite(document, isAnAttachment);
    PageNumbersListPages(WrongSizeFlags(document));
    PageNumbersListPages(InkFlags(Images(lib, overlaid)));
    PageNumbersListPages(TagFlags(lib, overlaid, isAnAttachment));
  }
}
