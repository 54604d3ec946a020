/**
 Rewriting a letter: the address block is redacted, the normalised address is drawn
 in its window, and the NOTIFY tag is added unless the letter already has one.
 */
module Rewriting {
  import opened Wrappers
  import opened Geometry
  import opened Documents
  import opened Text
  import opened Layout
  import opened Libraries
  import opened Extraction
  import opened Canvas
  import opened Overlays
  import opened Validation

  // ---- What is drawn ----

  /** redact_precompiled_letter_address_block, on the first page: words meeting the box go, the box is painted white. */
  function Redacted(page: Page): Page {
    page.(ops := page.ops + [Fill(ADDRESS_BOX.x0, page.height - ADDRESS_BOX.y1,
                                  ADDRESS_BOX.x1 - ADDRESS_BOX.x0, ADDRESS_BOX.y1 - ADDRESS_BOX.y0, WHITE)],
          words := OutOfBox(page.words, ADDRESS_BOX))
  }

  /** The lines of an address, the last one standing on the bottom of the window. */
  function AddressLines(address: string): seq<TextLine> {
    var lines := Lines(address);
    var bottomLeftCornerY := A4HeightInPoints() - ToPoints(ADDRESS_BOTTOM);
    seq(|lines|, i requires 0 <= i < |lines| =>
      TextLine(
        ToPoints(ADDRESS_LEFT),
        bottomLeftCornerY + ADDRESS_LINE_HEIGHT * (|lines| - 1 - i) as real + ADDRESS_RISE,
        ADDRESS_FONT_SIZE,
        lines[i],
        BLACK))
  }

  function AddressWords(lib: Library, page: Page, address: string): seq<Word> {
    Flatten(lib.typeset(page, AddressLines(address)))
  }

  function AddressPaints(lib: Library, address: string): seq<Paint> {
    [FillArea(ADDRESS_WINDOW, WHITE)] + Marks(lib.ink, AddressLines(address))
  }

  function WithAddress(lib: Library, page: Page, address: string): Page {
    Merge(page, AddressPaints(lib, address), AddressWords(lib, page, address))
  }

  /** The tag, in white, its top and left 1.8mm from those of the page. */
  function TagLine(pageHeight: real): TextLine {
    TextLine(
      ToPoints(NOTIFY_TAG_MARGIN),
      pageHeight - ToPoints(NOTIFY_TAG_MARGIN + ToMm(NOTIFY_TAG_FONT_SIZE)),
      NOTIFY_TAG_FONT_SIZE,
      NOTIFY_TAG_TEXT,
      WHITE)
  }

  function TagWords(lib: Library, page: Page): seq<Word> {
    Flatten(lib.typeset(page, [TagLine(page.height)]))
  }

  function WithTag(lib: Library, page: Page): Page {
    Merge(page, Marks(lib.ink, [TagLine(page.height)]), TagWords(lib, page))
  }

  /**
   The lines of an address as they are drawn: in black, at 8pt, from the left edge of the window; the last one stands 2pt
   above its bottom, and each 8.5pt above the next.
   */
  lemma AddressLinesAre(address: string, i: nat)
    requires i < |Lines(address)|
    ensures |AddressLines(address)| == |Lines(address)|
    ensures var line := AddressLines(address)[i];
            && line.text == Lines(address)[i] && line.colour == Rgb(0, 0, 0) && line.size == 8.0
            && line.x == ToPoints(24.6)
            && line.baseline == if i == |Lines(address)| - 1 then ToPoints(297.0 - 66.3) + 2.0
                                else AddressLines(address)[i + 1].baseline + 8.5
  {
  }

  /** The tag is in white, at 6pt, its left edge and the top of its type 1.8mm from those of the page. */
  lemma TagLineIs(pageHeight: real)
    ensures var line := TagLine(pageHeight);
            && line.text == "NOTIFY" && line.colour == Rgb(255, 255, 255) && line.size == 6.0
            && line.x == ToPoints(1.8) && pageHeight - (line.baseline + line.size) == ToPoints(1.8)
  {
  }

  /** add_address_to_precompiled_letter */
  method AddAddress(lib: Library, pdf: PdfReader, address: string)
    requires pdf.pages != []
    modifies pdf`pages
    ensures pdf.pages == old(pdf.pages)[0 := WithAddress(lib, old(pdf.pages)[0], address)]
  {
    var can := new NotifyCanvas(WHITE);

    // coordinates are from the bottom left of the page
    var bottomLeftCornerX := ToPoints(ADDRESS_LEFT);
    var bottomLeftCornerY := A4HeightInPoints() - ToPoints(ADDRESS_BOTTOM);

    can.Rectangle(Point(ADDRESS_LEFT, ADDRESS_TOP), Point(ADDRESS_RIGHT, ADDRESS_BOTTOM));

    var lines := Lines(address);
    var linesAfterFirst := |lines| - 1;
    var baseline := bottomLeftCornerY + ADDRESS_LINE_HEIGHT * linesAfterFirst as real;
    var drawn: seq<TextLine> := [];
    for i := 0 to |lines|
      invariant baseline == bottomLeftCornerY + ADDRESS_LINE_HEIGHT * (linesAfterFirst - i) as real
      invariant drawn == AddressLines(address)[..i]
    {
      drawn := drawn + [TextLine(bottomLeftCornerX, baseline + ADDRESS_RISE, ADDRESS_FONT_SIZE, lines[i], BLACK)];
      baseline := baseline - ADDRESS_LINE_HEIGHT;
    }
    can.DrawText(lib.ink, drawn);
    assert can.paints == AddressPaints(lib, address);
    assert can.lines == AddressLines(address);
    pdf.MergePage(0, can.paints, Flatten(lib.typeset(pdf.pages[0], can.lines)));
  }

  /** add_notify_tag_to_letter */
  method AddNotifyTag(lib: Library, pdf: PdfReader)
    requires pdf.pages != []
    modifies pdf`pages
    ensures pdf.pages == old(pdf.pages)[0 := WithTag(lib, old(pdf.pages)[0])]
  {
    var page := pdf.pages[0];
    var can := new NotifyCanvas(WHITE);
    var x := ToPoints(NOTIFY_TAG_MARGIN);
    var y := page.height - ToPoints(NOTIFY_TAG_MARGIN + ToMm(NOTIFY_TAG_FONT_SIZE));
    can.DrawText(lib.ink, [TextLine(x, y, NOTIFY_TAG_FONT_SIZE, NOTIFY_TAG_TEXT, can.colour)]);
    assert can.lines == [TagLine(page.height)];
    assert can.paints == Marks(lib.ink, [TagLine(page.height)]);
    pdf.MergePage(0, can.paints, Flatten(lib.typeset(page, can.lines)));
  }

  // ---- Where the address lies ----

  /** No line is wider than the address window. */
  predicate FitsWindow(lib: Library, address: string) {
    forall i :: 0 <= i < |Lines(address)| ==>
                  lib.width(Lines(address)[i], ADDRESS_FONT_SIZE) <= ToPoints(ADDRESS_RIGHT - ADDRESS_LEFT)
  }

  /** No line reaches beyond the box from which the address is later read. */
  predicate FitsBox(lib: Library, address: string) {
    forall i :: 0 <= i < |Lines(address)| ==>
                  lib.width(Lines(address)[i], ADDRESS_FONT_SIZE) <= ToPoints(ADDRESS_RIGHT + 3.0 - ADDRESS_LEFT)
  }

  /** A page height the validator accepts on an upright page. */
  predicate AcceptedHeight(height: real) {
    Abs(ToMm(height) - 297.0) <= 2.0
  }

  function AddressLineBox(lib: Library, height: real, address: string, i: nat): Rect
    requires i < |Lines(address)|
  {
    LineBox(height, AddressLines(address)[i], lib.width(Lines(address)[i], ADDRESS_FONT_SIZE))
  }

  /**
   On every accepted height the lines of an address, up to eight, stay within the height of the box they
   are later read from, because its 3mm margin exceeds the 2mm by which a page may be off; and a line lies
   inside that box exactly when it is not too wide for it.
   */
  lemma AddressInsideBox(lib: Library, height: real, address: string, i: nat)
    requires AcceptedHeight(height) && |Lines(address)| <= 8 && i < |Lines(address)|
    ensures ADDRESS_BOX.y0 <= AddressLineBox(lib, height, address, i).y0
    ensures AddressLineBox(lib, height, address, i).y1 <= ADDRESS_BOX.y1
    ensures AddressLineBox(lib, height, address, i).Inside(ADDRESS_BOX) <==>
            lib.width(Lines(address)[i], ADDRESS_FONT_SIZE) <= ToPoints(ADDRESS_RIGHT + 3.0 - ADDRESS_LEFT)
  {
    var above := (|Lines(address)| - 1 - i) as real;
    assert 0.0 <= above <= 7.0;
    assert ADDRESS_BOX == Rect(ToPoints(21.6), ToPoints(36.5), ToPoints(123.0), ToPoints(69.3));
    assert AddressLines(address)[i].baseline == ToPoints(230.7) + 8.5 * above + 2.0;
    assert ToPoints(295.0) <= height <= ToPoints(299.0);
    assert AddressLines(address)[i].x == ToPoints(24.6);
  }

  /** On exact A4 all lines of an address lie within the height of the window exactly when there are at most eight. */
  lemma EightLinesFit(lib: Library, address: string)
    ensures |Lines(address)| <= 8 <==>
            forall i :: 0 <= i < |Lines(address)| ==>
                          && ADDRESS_WINDOW.InPoints().y0 <= AddressLineBox(lib, A4HeightInPoints(), address, i).y0
                          && AddressLineBox(lib, A4HeightInPoints(), address, i).y1 <= ADDRESS_WINDOW.InPoints().y1
  {
    var n := |Lines(address)|;
    forall i | 0 <= i < n
      ensures AddressLineBox(lib, A4HeightInPoints(), address, i).y1 <= ADDRESS_WINDOW.InPoints().y1
      ensures n <= 8 ==> ADDRESS_WINDOW.InPoints().y0 <= AddressLineBox(lib, A4HeightInPoints(), address, i).y0
    {
      assert 0.0 <= (n - 1 - i) as real;
      assert n <= 8 ==> (n - 1 - i) as real <= 7.0;
    }
    if n > 8 {
      assert (n - 1) as real >= 8.0;
      assert AddressLineBox(lib, A4HeightInPoints(), address, 0).y0 < ADDRESS_WINDOW.InPoints().y0;
    }
  }

  /** A word lying in one of the two boxes does not meet the other. */
  lemma BoxesAreApart(word: Rect)
    requires !word.IsEmpty()
    ensures word.Inside(ADDRESS_BOX) ==> word.Intersects(ADDRESS_BOX) && !word.Intersects(NOTIFY_TAG_BOX)
    ensures word.Inside(NOTIFY_TAG_BOX) ==> word.Intersects(NOTIFY_TAG_BOX) && !word.Intersects(ADDRESS_BOX)
  {
    assert ADDRESS_BOX == Rect(ToPoints(21.6), ToPoints(36.5), ToPoints(123.0), ToPoints(69.3));
    assert NOTIFY_TAG_BOX == Rect(0.0, 0.0, ToPoints(15.191), ToPoints(6.149));
    assert !ADDRESS_BOX.IsEmpty() && !NOTIFY_TAG_BOX.IsEmpty();
  }

  /** Every word of a drawn address lies in the box of one of its lines, right of the window's left edge. */
  lemma AddressWordIsInLine(lib: Library, page: Page, address: string, w: Word) returns (i: nat)
    requires TypeContract(lib) && page.Upright()
    requires w in AddressWords(lib, page, address)
    ensures i < |Lines(address)|
    ensures !w.box.IsEmpty() && w.box.Inside(AddressLineBox(lib, page.height, address, i))
    ensures w.box.x0 >= ToPoints(ADDRESS_LEFT)
  {
    var lines := AddressLines(address);
    var rows := lib.typeset(page, lines);
    assert TypesetOk(lib, page, lines);
    FlattenMember(rows, w);
    i :| 0 <= i < |rows| && w in rows[i];
  }

  /** The words of an address that fits the box all lie in it, on every accepted height. */
  lemma AddressWordsInBox(lib: Library, page: Page, address: string, w: Word)
    requires TypeContract(lib) && page.Upright() && AcceptedHeight(page.height)
    requires FitsBox(lib, address) && |Lines(address)| <= 8
    requires w in AddressWords(lib, page, address)
    ensures !w.box.IsEmpty() && w.box.Inside(ADDRESS_BOX)
  {
    var i := AddressWordIsInLine(lib, page, address, w);
    AddressInsideBox(lib, page.height, address, i);
  }

  /** No word of a drawn address meets the tag box, however wide or high it is drawn. */
  lemma AddressMissesTagBox(lib: Library, page: Page, address: string, w: Word)
    requires TypeContract(lib) && page.Upright()
    requires w in AddressWords(lib, page, address)
    ensures !w.box.Intersects(NOTIFY_TAG_BOX)
  {
    var _ := AddressWordIsInLine(lib, page, address, w);
    assert NOTIFY_TAG_BOX == Rect(0.0, 0.0, ToPoints(15.191), ToPoints(6.149));
  }

  /** The word of a drawn tag lies in the tag box and reads NOTIFY. */
  lemma TagWordInBox(lib: Library, page: Page)
    requires TypeContract(lib) && page.Upright()
    ensures |TagWords(lib, page)| == 1
    ensures TagWords(lib, page)[0].text == NOTIFY_TAG_TEXT
    ensures !TagWords(lib, page)[0].box.IsEmpty() && TagWords(lib, page)[0].box.Inside(NOTIFY_TAG_BOX)
  {
    var lines := [TagLine(page.height)];
    var rows := lib.typeset(page, lines);
    assert TypesetOk(lib, page, lines);
    assert Texts(rows[0]) == Words(NOTIFY_TAG_TEXT);
    NotifyIsOneWord();
    assert |rows[0]| == |Texts(rows[0])| == 1;
    assert rows == [rows[0]] && rows[..0] == [];
    assert TagWords(lib, page) == Flatten([]) + rows[0] == rows[0];
    assert rows[0][0].text == Texts(rows[0])[0];
    assert rows[0][0] in rows[0];
    var line := TagLine(page.height);
    assert LineBox(page.height, line, lib.width(line.text, line.size)).Inside(NOTIFY_TAG_BOX);
  }

  lemma NotifyIsOneWord()
    ensures Words(NOTIFY_TAG_TEXT) == [NOTIFY_TAG_TEXT]
  {
    SplitJoin(' ', [NOTIFY_TAG_TEXT]);
    assert TightLine(NOTIFY_TAG_TEXT);
    NonEmptyAll([NOTIFY_TAG_TEXT]);
  }
}
