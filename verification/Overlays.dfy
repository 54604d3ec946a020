/**
 The two overlays: white over what may be printed on (grown by 1mm), so that whatever is
 still not white is out of bounds; and red over what may not, for users to see.
 */
module Overlays {
  import opened Wrappers
  import opened Geometry
  import opened Documents
  import opened Layout
  import opened Canvas

  /** An open PDF whose pages are changed in place. */
  class PdfReader {
    var pages: seq<Page>
    const objects: map<nat, Obj>

    constructor (document: Document)
      ensures pages == document.pages && objects == document.objects
    {
      pages := document.pages;
      objects := document.objects;
    }

    /** page.merge_page: overlays what was drawn on a canvas. */
    method MergePage(index: nat, paints: seq<Paint>, words: seq<Word>)
      requires index < |pages|
      modifies this`pages
      ensures pages == old(pages)[index := Merge(old(pages)[index], paints, words)]
    {
      pages := pages[index := Merge(pages[index], paints, words)];
    }
  }

  // ---- White ----

  function WhiteAreas(isFirstPage: bool): seq<Rect> {
    if isFirstPage
    then [BODY.Grow(1.0), SERVICE_ADDRESS.Grow(1.0), LOGO.Grow(1.0), ADDRESS_WINDOW.Grow(1.0)]
    else [CONTINUATION.Grow(1.0)]
  }

  function Whitened(page: Page, isFirstPage: bool): Page {
    Merge(page, FillAreas(WhiteAreas(isFirstPage), WHITE), [])
  }

  function WithPrintableAreasWhite(document: Document, isAnAttachment: bool): Document {
    document.(pages := seq(|document.pages|, i requires 0 <= i < |document.pages| =>
                             Whitened(document.pages[i], i == 0 && !isAnAttachment)))
  }

  /** The overlay of every page; None where the letter has no first page to overlay. */
  method OverlayPrintableAreasWithWhite(document: Document, isAnAttachment: bool) returns (out: Option<Document>)
    ensures out.None? <==> !isAnAttachment && document.pages == []
    ensures out.Some? ==> out.value == WithPrintableAreasWhite(document, isAnAttachment)
  {
    var pdf := new PdfReader(document);
    var pageNumber := 0;
    if !isAnAttachment {
      if |pdf.pages| == 0 {
        return None;
      }
      OverlayPrintableAreasOfAddressBlockPageWithWhite(pdf);
      pageNumber := 1;
    }

    for i := pageNumber to |pdf.pages|
      invariant |pdf.pages| == |document.pages|
      invariant forall j :: 0 <= j < i ==> pdf.pages[j] == Whitened(document.pages[j], j == 0 && !isAnAttachment)
      invariant forall j :: i <= j < |pdf.pages| ==> pdf.pages[j] == document.pages[j]
    {
      var can := new NotifyCanvas(WHITE);
      can.Rectangle(Point(BORDER_LEFT - 1.0, BORDER_TOP - 1.0), Point(BORDER_RIGHT + 1.0, BORDER_BOTTOM + 1.0));
      assert can.paints == FillAreas(WhiteAreas(false), WHITE);
      pdf.MergePage(i, can.paints, []);
    }
    assert pdf.pages == WithPrintableAreasWhite(document, isAnAttachment).pages;
    out := Some(Document(pdf.pages, pdf.objects));
  }

  method OverlayPrintableAreasOfAddressBlockPageWithWhite(pdf: PdfReader)
    requires |pdf.pages| > 0
    modifies pdf`pages
    ensures pdf.pages == old(pdf.pages)[0 := Whitened(old(pdf.pages)[0], true)]
  {
    var can := new NotifyCanvas(WHITE);
    // Body
    can.Rectangle(Point(BORDER_LEFT - 1.0, BODY_TOP - 1.0), Point(BORDER_RIGHT + 1.0, BORDER_BOTTOM + 1.0));
    // Service address block
    can.Rectangle(Point(SERVICE_ADDRESS_LEFT - 1.0, BORDER_TOP - 1.0), Point(BORDER_RIGHT + 1.0, BODY_TOP + 1.0));
    // Logo
    can.Rectangle(Point(BORDER_LEFT - 1.0, BORDER_TOP - 1.0), Point(SERVICE_ADDRESS_LEFT + 1.0, LOGO_BOTTOM + 1.0));
    // Citizen address block
    can.Rectangle(Point(ADDRESS_LEFT - 1.0, ADDRESS_TOP - 1.0), Point(ADDRESS_RIGHT + 1.0, ADDRESS_BOTTOM + 1.0));
    assert can.paints == FillAreas(WhiteAreas(true), WHITE);
    pdf.MergePage(0, can.paints, []);
  }

  /** Within 1mm of some printable area. */
  ghost predicate NearPrintable(isFirstPage: bool, q: Point) {
    exists i :: 0 <= i < |PrintableAreas(isFirstPage)| && Near(PrintableAreas(isFirstPage)[i], 1.0, q)
  }

  /** The white overlay covers exactly the points within 1mm of a printable area. */
  lemma WhiteCoversNearPrintable(isFirstPage: bool, p: Point)
    ensures CoveredBy(FillAreas(WhiteAreas(isFirstPage), WHITE), p) <==> NearPrintable(isFirstPage, FromTopLeft(p))
  {
    var areas, white, q := PrintableAreas(isFirstPage), WhiteAreas(isFirstPage), FromTopLeft(p);
    var ops := FillAreas(white, WHITE);
    assert |areas| == |white| == |ops|;
    forall i | 0 <= i < |areas|
      ensures ops[i].Covers(p) <==> Near(areas[i], 1.0, q)
    {
      assert white[i] == areas[i].Grow(1.0);
      FillAreaCovers(white[i], WHITE, p);
      GrowIsNear(areas[i], 1.0, q);
    }
  }

  /** What is seen after the white overlay: the page itself away from the printable areas, white elsewhere. */
  lemma WhitenedColour(page: Page, isFirstPage: bool, p: Point)
    ensures ColourAt(Whitened(page, isFirstPage).ops, p)
         == if NearPrintable(isFirstPage, FromTopLeft(p)) then WHITE else ColourAt(page.ops, p)
  {
    var ops := FillAreas(WhiteAreas(isFirstPage), WHITE);
    ColourAtConcat(page.ops, ops, p);
    OneColour(WHITE, ops, p);
    WhiteCoversNearPrintable(isFirstPage, p);
  }

  /** Whatever is close enough to print on with an address is so without one. */
  lemma NearPrintableMonotone(q: Point)
    requires NearPrintable(true, q)
    ensures NearPrintable(false, q)
  {
    var i :| 0 <= i < |PrintableAreas(true)| && Near(PrintableAreas(true)[i], 1.0, q);
    var r :| PrintableAreas(true)[i].Contains(r) && Distance(q, r) <= 1.0;
    assert CONTINUATION.Contains(r);
    assert Near(PrintableAreas(false)[0], 1.0, q);
  }

  // ---- Red ----

  function RedAreas(isFirstPage: bool): seq<Rect> {
    var margins := [
      Rect(0.0, 0.0, 15.0, 297.0),
      Rect(15.0, 0.0, 195.0, 5.0),
      Rect(195.0, 0.0, 210.0, 297.0),
      Rect(15.0, 292.0, 195.0, 297.0)];
    if isFirstPage then
      margins + [
        Rect(15.0, 30.0, 24.6, 95.0),
        Rect(24.6, 30.0, 120.0, 39.5),
        Rect(120.0, 30.0, 125.0, 95.0),
        Rect(24.6, 66.3, 120.0, 95.0)]
    else margins
  }

  function Tinted(page: Page, isFirstPage: bool): Page {
    Merge(page, FillAreas(RedAreas(isFirstPage), RED_TINT), [])
  }

  /** Of the areas that one contains the point, and no other. */
  ghost predicate OnlyIn(areas: seq<Rect>, q: Point, i: nat) {
    i < |areas| && areas[i].Contains(q) && forall j :: 0 <= j < |areas| && j != i ==> !areas[j].Contains(q)
  }

  /** Exactly one of the areas contains the point. */
  ghost predicate ExactlyOne(areas: seq<Rect>, q: Point) {
    exists i :: OnlyIn(areas, q, i)
  }

  /** Printable and red areas tile the sheet: every point of it is in exactly one of them, on every kind of page. */
  lemma Tiling(isFirstPage: bool, q: Point)
    requires SHEET.Contains(q)
    ensures ExactlyOne(PrintableAreas(isFirstPage) + RedAreas(isFirstPage), q)
  {
    var areas := PrintableAreas(isFirstPage) + RedAreas(isFirstPage);
    var i :=
      if isFirstPage then
        (if q.x < 15.0 then 4 else if q.x >= 195.0 then 6 else if q.y < 5.0 then 5 else if q.y >= 292.0 then 7
        else if q.y >= 95.0 then 0 else if q.x >= 125.0 then 1 else if q.y < 30.0 then 2
        else if q.x < 24.6 then 8 else if q.x >= 120.0 then 10
        else if q.y < 39.5 then 9 else if q.y >= 66.3 then 11 else 3)
      else
        (if q.x < 15.0 then 1 else if q.x >= 195.0 then 3 else if q.y < 5.0 then 2 else if q.y >= 292.0 then 4 else 0);
    assert areas[i].Contains(q);
    assert OnlyIn(areas, q, i);
  }

  ghost predicate InSome(areas: seq<Rect>, q: Point) {
    exists i :: 0 <= i < |areas| && areas[i].Contains(q)
  }

  /** If exactly one of all areas contains the point, then one of the first and none of the others, or the other way round. */
  lemma OneOfEither(first: seq<Rect>, others: seq<Rect>, q: Point)
    requires ExactlyOne(first + others, q)
    ensures InSome(first, q) ==> !InSome(others, q)
    ensures !InSome(first, q) ==> ExactlyOne(others, q)
  {
    var areas, n := first + others, |first|;
    var k: nat :| OnlyIn(areas, q, k);
    forall i | 0 <= i < n
      ensures first[i].Contains(q) ==> i == k
    {
      assert areas[i] == first[i];
    }
    forall j | 0 <= j < |others|
      ensures others[j].Contains(q) ==> j == k - n
    {
      assert areas[n + j] == others[j];
    }
    if k >= n {
      assert others[k - n] == areas[k];
      assert OnlyIn(others, q, k - n);
    }
  }

  /** Users see each point of the sheet that may not be printed on tinted once, and no other point tinted. */
  lemma TintedOnce(isFirstPage: bool, p: Point)
    requires SHEET.Contains(FromTopLeft(p))
    ensures var ops := FillAreas(RedAreas(isFirstPage), RED_TINT);
            && (InSome(PrintableAreas(isFirstPage), FromTopLeft(p)) ==> !CoveredBy(ops, p))
            && (!InSome(PrintableAreas(isFirstPage), FromTopLeft(p)) ==> CoveredOnce(ops, p))
  {
    Tiling(isFirstPage, FromTopLeft(p));
    OneOfEither(PrintableAreas(isFirstPage), RedAreas(isFirstPage), FromTopLeft(p));
    FillsCover(RedAreas(isFirstPage), RED_TINT, p);
  }

  ghost predicate CoveredOnlyBy(ops: seq<Paint>, p: Point, i: nat) {
    i < |ops| && ops[i].Covers(p) && forall j :: 0 <= j < |ops| && j != i ==> !ops[j].Covers(p)
  }

  /** Exactly one of the operations covers the point. */
  ghost predicate CoveredOnce(ops: seq<Paint>, p: Point) {
    exists i :: CoveredOnlyBy(ops, p, i)
  }

  lemma FillsCover(areas: seq<Rect>, colour: Colour, p: Point)
    ensures CoveredBy(FillAreas(areas, colour), p) <==> InSome(areas, FromTopLeft(p))
    ensures ExactlyOne(areas, FromTopLeft(p)) ==> CoveredOnce(FillAreas(areas, colour), p)
  {
    var ops, q := FillAreas(areas, colour), FromTopLeft(p);
    forall i | 0 <= i < |areas|
      ensures ops[i].Covers(p) <==> areas[i].Contains(q)
    {
      FillAreaCovers(areas[i], colour, p);
    }
    if i: nat :| OnlyIn(areas, q, i) {
      assert CoveredOnlyBy(ops, p, i);
    }
  }

  lemma RedIsOnSheet(isFirstPage: bool, q: Point)
    ensures InSome(RedAreas(isFirstPage), q) ==> SHEET.Contains(q)
  {
  }

  /**
   A point at which the validator can find fault is tinted red exactly when it is on the A4 sheet:
   the strip by which a page may exceed A4 is checked, but not tinted.
   */
  lemma RejectedIsRedIff(isFirstPage: bool, p: Point)
    requires !NearPrintable(isFirstPage, FromTopLeft(p))
    ensures CoveredBy(FillAreas(RedAreas(isFirstPage), RED_TINT), p) <==> SHEET.Contains(FromTopLeft(p))
  {
    PrintableIsNear(isFirstPage, FromTopLeft(p));
    if SHEET.Contains(FromTopLeft(p)) {
      TintedOnce(isFirstPage, p);
    } else {
      RedIsOnSheet(isFirstPage, FromTopLeft(p));
      FillsCover(RedAreas(isFirstPage), RED_TINT, p);
    }
  }

  lemma PrintableIsNear(isFirstPage: bool, q: Point)
    ensures InSome(PrintableAreas(isFirstPage), q) ==> NearPrintable(isFirstPage, q)
  {
    forall i | 0 <= i < |PrintableAreas(isFirstPage)|
      ensures PrintableAreas(isFirstPage)[i].Contains(q) ==> Near(PrintableAreas(isFirstPage)[i], 1.0, q)
    {
      ContainedIsNear(PrintableAreas(isFirstPage)[i], q);
    }
  }

  lemma ContainedIsNear(area: Rect, q: Point)
    ensures area.Contains(q) ==> Near(area, 1.0, q)
  {
    assert Distance(q, q) <= 1.0;
  }

  // ---- The pages users see ----

  /** The point is on the sheet, and in none of the areas that may be printed in on that kind of page. */
  ghost predicate NoPrint(isFirstPage: bool, p: Point) {
    SHEET.Contains(FromTopLeft(p)) && !InSome(PrintableAreas(isFirstPage), FromTopLeft(p))
  }

  /** What has been added to a page covers a point where nothing may be printed exactly once, in red, and no other point. */
  ghost predicate TintsAt(before: Page, added: seq<Paint>, isFirstPage: bool, p: Point) {
    if NoPrint(isFirstPage, p) then
      && ColourAt(before.ops + added, p) == Rgb(255, 0, 0)
      && CoveredOnce(added, p)
    else
      && ColourAt(before.ops + added, p) == ColourAt(before.ops, p)
      && !CoveredBy(added, p)
  }

  /** The page shows users where they may not print, and is otherwise as before. */
  ghost predicate ShowsNoPrint(before: Page, after: Page, isFirstPage: bool) {
    && after == before.(ops := after.ops)
    && before.ops <= after.ops
    && forall p :: TintsAt(before, after.ops[|before.ops|..], isFirstPage, p)
  }

  lemma TintsAtEveryPoint(page: Page, isFirstPage: bool, p: Point)
    ensures TintsAt(page, FillAreas(RedAreas(isFirstPage), RED_TINT), isFirstPage, p)
  {
    var added := FillAreas(RedAreas(isFirstPage), RED_TINT);
    ColourAtConcat(page.ops, added, p);
    OneColour(RED_TINT, added, p);
    if SHEET.Contains(FromTopLeft(p)) {
      TintedOnce(isFirstPage, p);
    } else {
      RedIsOnSheet(isFirstPage, FromTopLeft(p));
      FillsCover(RedAreas(isFirstPage), RED_TINT, p);
    }
  }

  lemma TintedShowsNoPrint(page: Page, isFirstPage: bool)
    ensures ShowsNoPrint(page, Tinted(page, isFirstPage), isFirstPage)
  {
    var after := Tinted(page, isFirstPage);
    assert page.words + [] == page.words;
    assert after.ops[|page.ops|..] == FillAreas(RedAreas(isFirstPage), RED_TINT);
    forall p
      ensures TintsAt(page, after.ops[|page.ops|..], isFirstPage, p)
    {
      TintsAtEveryPoint(page, isFirstPage, p);
    }
  }

  /** _colour_no_print_areas_of_page_in_red */
  method ColourNoPrintAreasInRed(pdf: PdfReader, index: nat, isFirstPage: bool)
    requires index < |pdf.pages|
    modifies pdf`pages
    ensures pdf.pages == old(pdf.pages)[index := Tinted(old(pdf.pages)[index], isFirstPage)]
    ensures ShowsNoPrint(old(pdf.pages)[index], pdf.pages[index], isFirstPage)
  {
    TintedShowsNoPrint(pdf.pages[index], isFirstPage);
    var can := new NotifyCanvas(RED_TINT);
    // left margin
    can.Rectangle(Point(0.0, 0.0), Point(BORDER_LEFT, A4_HEIGHT));
    // top margin
    can.Rectangle(Point(BORDER_LEFT, 0.0), Point(BORDER_RIGHT, BORDER_TOP));
    // right margin
    can.Rectangle(Point(BORDER_RIGHT, 0.0), Point(A4_WIDTH, A4_HEIGHT));
    // bottom margin
    can.Rectangle(Point(BORDER_LEFT, BORDER_BOTTOM), Point(BORDER_RIGHT, A4_HEIGHT));
    assert can.paints == FillAreas(RedAreas(false), RED_TINT);
    if isFirstPage {
      // left of the address block
      can.Rectangle(Point(BORDER_LEFT, LOGO_BOTTOM), Point(ADDRESS_LEFT, BODY_TOP));
      // above the address block
      can.Rectangle(Point(ADDRESS_LEFT, LOGO_BOTTOM), Point(ADDRESS_RIGHT, ADDRESS_TOP));
      // right of the address block
      can.Rectangle(Point(ADDRESS_RIGHT, LOGO_BOTTOM), Point(SERVICE_ADDRESS_LEFT, BODY_TOP));
      // below the address block
      can.Rectangle(Point(ADDRESS_LEFT, ADDRESS_BOTTOM), Point(ADDRESS_RIGHT, BODY_TOP));
      assert can.paints == FillAreas(RedAreas(true), RED_TINT);
    }
    pdf.MergePage(index, can.paints, []);
  }

  /** overlay_template_pdf */
  method OverlayTemplatePdf(document: Document) returns (out: Document)
    ensures out.objects == document.objects && |out.pages| == |document.pages|
    ensures forall i :: 0 <= i < |out.pages| ==> out.pages[i] == Tinted(document.pages[i], i == 0)
    ensures forall i :: 0 <= i < |out.pages| ==> ShowsNoPrint(document.pages[i], out.pages[i], i == 0)
  {
    var pdf := new PdfReader(document);
    for i := 0 to |pdf.pages|
      invariant |pdf.pages| == |document.pages|
      invariant forall j :: 0 <= j < i ==> pdf.pages[j] == Tinted(document.pages[j], j == 0)
      invariant forall j :: i <= j < |pdf.pages| ==> pdf.pages[j] == document.pages[j]
    {
      ColourNoPrintAreasInRed(pdf, i, i == 0);
    }
    forall i | 0 <= i < |pdf.pages|
      ensures ShowsNoPrint(document.pages[i], pdf.pages[i], i == 0)
    {
      TintedShowsNoPrint(document.pages[i], i == 0);
    }
    out := Document(pdf.pages, pdf.objects);
  }
}
