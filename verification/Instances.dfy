/**
 The library contract can be met; and letters that show what goes wrong where the general results say that
 something does.
 */
module Instances {
  import opened Wrappers
  import opened Geometry
  import opened Documents
  import opened Text
  import opened Layout
  import opened Libraries
  import opened Extraction
  import opened Canvas
  import opened Overlays
  import opened Validation
  import opened Transformation
  import opened Rewriting
  import opened Reading
  import opened Sanitising
  import opened Stability
  import Fonts

  // ---- A plain library ----

  /** Type of a fixed pitch: at 8pt a character is 5 points wide. */
  function PlainWidth(text: string, size: real): real {
    |text| as real * (size * 0.625)
  }

  function PlainRow(height: real, line: TextLine, number: nat): seq<Word> {
    var words := Words(line.text);
    seq(|words|, j requires 0 <= j < |words| =>
      Word(LineBox(height, line, PlainWidth(line.text, line.size)), words[j], 0, number, j))
  }

  function PlainRows(height: real, lines: seq<TextLine>): seq<seq<Word>> {
    seq(|lines|, i requires 0 <= i < |lines| => PlainRow(height, lines[i], i))
  }

  /** Addresses of three to seven lines, properly spaced. */
  predicate PlainAddress(s: string) {
    s != "" && Tight(s) && 3 <= |Lines(s)| <= 7
  }

  predicate PlainInk(line: TextLine, p: Point) {
    && line.x <= p.x <= line.x + PlainWidth(line.text, line.size)
    && line.baseline - line.size / 4.0 <= p.y <= line.baseline + line.size
  }

  const RECURSION_LIMIT: nat := 1000

  /** Lines are solid blocks; pages are looked at in one place; nothing ever needs converting. */
  function PlainLibrary(sample: Point): Library {
    Library(
      s => s,
      (s, intl) => if PlainAddress(s) then None else Some("invalid"),
      s => s,
      (text, size) => PlainWidth(text, size),
      (page: Page, lines) => PlainRows(page.height, lines),
      (line: TextLine, p: Point) => PlainInk(line, p),
      (w, h) => [sample],
      d => Some(d),
      d => Some(d),
      RECURSION_LIMIT)
  }

  lemma WidthIsPositive(text: string, size: real)
    requires text != "" && size > 0.0
    ensures PlainWidth(text, size) > 0.0
  {
    assert |text| as real >= 1.0 && size * 0.625 > 0.0;
  }

  lemma PlainWordIs(height: real, line: TextLine, number: nat, w: Word)
    requires line.size > 0.0 && w in PlainRow(height, line, number)
    ensures w.block == 0 && w.line == number
    ensures w.box == LineBox(height, line, PlainWidth(line.text, line.size)) && !w.box.IsEmpty()
  {
    assert line.text != "" by {
      assert Split(' ', "") == [""] && NonEmpty([""]) == [];
    }
    WidthIsPositive(line.text, line.size);
  }

  /** A row of words, numbered, each in the box of its line. */
  ghost predicate IsRow(lib: Library, height: real, line: TextLine, number: nat, row: seq<Word>) {
    && Texts(row) == Words(line.text)
    && (forall a :: 0 <= a < |row| ==> row[a].block == 0 && row[a].line == number && row[a].word == a)
    && (forall w :: w in row ==> !w.box.IsEmpty() && w.box.Inside(LineBox(height, line, lib.width(line.text, line.size))))
  }

  lemma PlainRowIs(sample: Point, height: real, line: TextLine, number: nat)
    requires line.size > 0.0
    ensures IsRow(PlainLibrary(sample), height, line, number, PlainRow(height, line, number))
  {
    forall w | w in PlainRow(height, line, number)
      ensures !w.box.IsEmpty() && w.box == LineBox(height, line, PlainWidth(line.text, line.size))
    {
      PlainWordIs(height, line, number, w);
    }
  }

  lemma RowsAreTypeset(lib: Library, page: Page, lines: seq<TextLine>, rows: seq<seq<Word>>)
    requires |rows| == |lines|
    requires forall i :: 0 <= i < |rows| ==> IsRow(lib, page.height, lines[i], i, rows[i])
    ensures TypesetRows(lib, page, lines, rows)
  {
  }

  lemma PlainRowsAreTypeset(sample: Point, page: Page, lines: seq<TextLine>)
    requires Drawable(lines)
    ensures TypesetRows(PlainLibrary(sample), page, lines, PlainRows(page.height, lines))
  {
    var rows := PlainRows(page.height, lines);
    forall i | 0 <= i < |rows|
      ensures IsRow(PlainLibrary(sample), page.height, lines[i], i, rows[i])
    {
      PlainRowIs(sample, page.height, lines[i], i);
    }
    RowsAreTypeset(PlainLibrary(sample), page, lines, rows);
  }

  /** The contract is not empty: there are libraries that meet it, wherever pages are looked at. */
  lemma ContractCanBeMet(sample: Point)
    ensures Contract(PlainLibrary(sample))
  {
    var lib := PlainLibrary(sample);
    forall page: Page, lines | page.Upright() && Drawable(lines)
      ensures TypesetOk(lib, page, lines)
    {
      PlainRowsAreTypeset(sample, page, lines);
    }
    assert lib.width(NOTIFY_TAG_TEXT, NOTIFY_TAG_FONT_SIZE) == 22.5;
    assert TypeContract(lib);
  }

  // ---- A letter in small type ----

  /** An address as a service may set it, in 4pt type well inside the window. */
  function SmallLines(address: string): seq<TextLine> {
    var lines := Lines(address);
    seq(|lines|, i requires 0 <= i < |lines| =>
      TextLine(ToPoints(30.0), ToPoints(232.0) + 5.0 * (|lines| - 1 - i) as real, 4.0, lines[i], BLACK))
  }

  const BLANK := Page(ToPoints(210.0), ToPoints(297.0), None, [], [], Some([]), Some(Atom("")))

  function SmallWords(address: string): seq<Word> {
    Flatten(PlainRows(BLANK.height, SmallLines(address)))
  }

  function SmallInk(address: string): seq<Paint> {
    Marks((line: TextLine, p: Point) => PlainInk(line, p), SmallLines(address))
  }

  /** A letter of one page with that address, and further words. */
  function SmallPage(address: string, others: seq<Word>): Page {
    Merge(BLANK, SmallInk(address), SmallWords(address) + others)
  }

  function SmallLetter(address: string, others: seq<Word>): Document {
    Document([SmallPage(address, others)], map[])
  }

  lemma SmallWordMeetsBox(address: string, w: Word)
    requires PlainAddress(address) && w in SmallWords(address)
    ensures w.box.Intersects(ADDRESS_BOX)
  {
    var rows, lines := PlainRows(BLANK.height, SmallLines(address)), SmallLines(address);
    FlattenMember(rows, w);
    var i :| 0 <= i < |rows| && w in rows[i];
    PlainWordIs(BLANK.height, lines[i], i, w);
    var above := (|lines| - 1 - i) as real;
    assert 0.0 <= above <= 6.0;
    assert ADDRESS_BOX == Rect(ToPoints(21.6), ToPoints(36.5), ToPoints(123.0), ToPoints(69.3));
    assert lines[i].baseline == ToPoints(232.0) + 5.0 * above;
    assert w.box.x0 == ToPoints(30.0);
  }

  lemma InBoxOfTwo(words: seq<Word>, others: seq<Word>, box: Rect)
    requires AllMeet(words, box) && NoneMeets(others, box)
    ensures InBox(words + others, box) == words && OutOfBox(words + others, box) == others
  {
    AllMeetIsInBox(words, box);
    NoneInBox(others, box);
    InBoxConcat(words, others, box);
    OutOfBoxConcat(words, others, box);
  }

  lemma SmallWordsInBox(address: string, others: seq<Word>)
    requires PlainAddress(address) && NoneMeets(others, ADDRESS_BOX)
    ensures InBox(SmallPage(address, others).words, ADDRESS_BOX) == SmallWords(address)
    ensures OutOfBox(SmallPage(address, others).words, ADDRESS_BOX) == others
  {
    var words := SmallWords(address);
    forall w | w in words
      ensures w.box.Intersects(ADDRESS_BOX)
    {
      SmallWordMeetsBox(address, w);
    }
    InBoxOfTwo(words, others, ADDRESS_BOX);
    assert BLANK.words + (words + others) == words + others;
  }

  /** The address is read from the letter as it is. */
  lemma SmallLetterReads(sample: Point, address: string, others: seq<Word>)
    requires PlainAddress(address) && NoneMeets(others, ADDRESS_BOX)
    ensures TextInAddressBox(PlainLibrary(sample), SmallLetter(address, others)) == address
  {
    ContractCanBeMet(sample);
    SmallWordsInBox(address, others);
    DrawnLinesRead(PlainLibrary(sample), BLANK, SmallLines(address));
    assert TextsOf(SmallLines(address)) == Lines(address);
    RejoinIsIdentity(address);
  }

  lemma NoInkIsWhite(ink: (TextLine, Point) -> bool, lines: seq<TextLine>, p: Point)
    requires forall line :: line in lines ==> line.colour == BLACK && !ink(line, p)
    ensures ColourAt(Marks(ink, lines), p) == WHITE
  {
    MarksCover(ink, lines, p);
    OneColour(BLACK, Marks(ink, lines), p);
  }

  lemma SmallInkAt(address: string, p: Point)
    requires forall line :: line in SmallLines(address) ==> !PlainInk(line, p)
    ensures ColourAt(BLANK.ops + SmallInk(address), p) == WHITE
  {
    assert BLANK.ops + SmallInk(address) == SmallInk(address);
    NoInkIsWhite((line: TextLine, q: Point) => PlainInk(line, q), SmallLines(address), p);
  }

  /** Looked at where it has no ink, or where ink may be, the letter is valid. */
  lemma SmallLetterIsValid(sample: Point, address: string, others: seq<Word>)
    requires || (forall line :: line in SmallLines(address) ==> !PlainInk(line, sample))
             || NearPrintable(true, FromTopLeft(sample))
    ensures Validate(PlainLibrary(sample), SmallLetter(address, others), false).Valid?
  {
    var lib, letter := PlainLibrary(sample), SmallLetter(address, others);
    var page := letter.pages[0];
    ValidIff(lib, letter, false);
    A4PortraitAsDisplayed(ToMm(page.height), ToMm(page.width), page.rotation);
    if !NearPrintable(true, FromTopLeft(sample)) {
      SmallInkAt(address, sample);
    }
    assert PageIsValid(lib, letter, false, 0);
  }

  /** Nothing to convert and nothing to embed. */
  lemma PlainNormalise(sample: Point, document: Document)
    requires |document.pages| == 1
    requires document.pages[0].images == Some([]) && document.pages[0].resources == Some(Atom(""))
    ensures Normalise(PlainLibrary(sample), document) == Some(document)
  {
    PlainColours(sample, document);
    PlainFonts(document, PlainLibrary(sample).recursionLimit);
  }

  lemma PlainColours(sample: Point, document: Document)
    requires |document.pages| == 1 && document.pages[0].images == Some([])
    ensures InPrintColours(PlainLibrary(sample), document) == Some(document)
  {
    assert document.pages[1..] == [];
    assert ContainsColourSpace("CMYK", document.pages) == Some(false);
  }

  lemma PlainFonts(document: Document, limit: nat)
    requires |document.pages| == 1 && document.pages[0].resources == Some(Atom("")) && limit > 0
    ensures Fonts.Unembedded(document, limit) == Some({})
  {
    var page := document.pages[0];
    assert Fonts.Root(document, page) == Some(Atom(""));
    assert Fonts.PageReturns(document, page, limit);
    forall font
      ensures font !in Fonts.Unembedded(document, limit).value
    {
      Fonts.FontsOfPages(Fonts.Used, document, 1, limit, font);
      assert font !in Fonts.Found(Fonts.Used, document.objects, Atom(""), limit);
    }
    assert Fonts.Unembedded(document, limit).value == {};
  }

  /** The letter passes, with that address. */
  lemma SmallLetterPasses(sample: Point, address: string, others: seq<Word>)
    requires PlainAddress(address) && NoneMeets(others, ADDRESS_BOX)
    requires Validate(PlainLibrary(sample), SmallLetter(address, others), false).Valid?
    ensures var first := Sanitise(PlainLibrary(sample), Pdf(SmallLetter(address, others)), false, false);
            first.message.None? && first.file.Some? && first.recipientAddress == Some(address)
    ensures NewAddress(PlainLibrary(sample), SmallLetter(address, others)) == address
  {
    var lib, letter := PlainLibrary(sample), SmallLetter(address, others);
    ContractCanBeMet(sample);
    SmallLetterReads(sample, address, others);
    PlainNormalise(sample, Readdressed(lib, letter, address));
    ValidComesTo(lib, letter, false);
    CheckedComesTo(lib, letter, false);
    PassedComesTo(lib, letter, false);
  }

  // ---- An address too wide for its window ----

  /** A place between the address window and the service address, level with the last line but one of an address. */
  const MARGIN := Point(ToPoints(122.5), ToPoints(235.0))

  lemma MarginIsNotPrintable()
    ensures !NearPrintable(true, FromTopLeft(MARGIN))
  {
    var q := FromTopLeft(MARGIN);
    assert q == Point(122.5, 62.0);
    forall i | 0 <= i < 4
      ensures !Near(PrintableAreas(true)[i], 1.0, q)
    {
      GrowIsNear(PrintableAreas(true)[i], 1.0, q);
    }
  }

  /** The last line but one is so long that it reaches across the margin at 8pt, but not at 4pt. */
  predicate WideBeforeLast(address: string) {
    && PlainAddress(address)
    && 60 <= |Lines(address)[|Lines(address)| - 2]| <= 80
    && forall i :: 0 <= i < |Lines(address)| ==> |Lines(address)[i]| <= 80
  }

  lemma WideLetterIsValid(address: string)
    requires WideBeforeLast(address)
    ensures Validate(PlainLibrary(MARGIN), SmallLetter(address, []), false).Valid?
  {
    forall line | line in SmallLines(address)
      ensures !PlainInk(line, MARGIN)
    {
      assert line.x == ToPoints(30.0) && PlainWidth(line.text, line.size) == |line.text| as real * 2.5;
    }
    SmallLetterIsValid(MARGIN, address, []);
  }

  lemma WideAddressIsOutOfBounds(address: string, page: Page)
    requires WideBeforeLast(address)
    ensures AddressOutOfBounds(PlainLibrary(MARGIN), page, address)
  {
    var lib, n := PlainLibrary(MARGIN), |Lines(address)|;
    MarginIsNotPrintable();
    var line := AddressLines(address)[n - 2];
    assert line.x == ToPoints(24.6) && line.baseline == ToPoints(230.7) + 8.5 + 2.0;
    assert PlainWidth(line.text, line.size) == |line.text| as real * 5.0;
    assert lib.ink(line, MARGIN);
    assert lib.samples(page.width, page.height)[0] == MARGIN;
  }

  /**
   Every letter with such an address passes, because in small type the address lies inside its window. But it is
   drawn anew in 8pt, across the window's margin, and the sanitised letter is rejected.
   */
  lemma WideLetterIsNotStable(address: string)
    requires WideBeforeLast(address)
    ensures Contract(PlainLibrary(MARGIN))
    ensures var lib := PlainLibrary(MARGIN);
            var first := Sanitise(lib, Pdf(SmallLetter(address, [])), false, false);
            && first.message == None && first.file.Some?
            && Sanitise(lib, first.file.value, false, false).message == Some(ContentOutsidePrintableArea)
  {
    var lib, letter := PlainLibrary(MARGIN), SmallLetter(address, []);
    ContractCanBeMet(MARGIN);
    WideLetterIsValid(address);
    SmallLetterPasses(MARGIN, address, []);
    WideAddressIsOutOfBounds(address, letter.pages[0]);
    var first := Sanitise(lib, Pdf(letter), false, false);
    RejectedAgainIff(lib, letter, false, first, Sanitise(lib, first.file.value, false, false));
  }

  // ---- Addresses ----

  /** A text of lines of words is tight. */
  lemma TightOf(lines: seq<string>)
    requires lines != []
    requires forall i :: 0 <= i < |lines| ==> TightLine(lines[i]) && '\n' !in lines[i]
    ensures Lines(Join('\n', lines)) == lines && Tight(Join('\n', lines))
  {
    SplitJoin('\n', lines);
  }

  predicate PlainWord(s: string) {
    s != "" && ' ' !in s && '\n' !in s
  }

  predicate PlainLine(s: string) {
    TightLine(s) && '\n' !in s
  }

  lemma TwoWords(a: string, b: string)
    requires PlainWord(a) && PlainWord(b)
    ensures PlainLine(a + [' '] + b)
  {
    var words := [a, b];
    SplitJoin(' ', words);
    assert words[1..] == [b];
    assert Join(' ', words) == a + [' '] + b;
  }

  lemma Compound(a: string, b: string)
    requires PlainWord(a) && PlainWord(b)
    ensures PlainWord(a + b)
  {
  }

  /** The longest name of a place in Wales, in parts. */
  const LLANFAIR := "Llanfairpwll"
  const GWYN := "gwyngyll"
  const GOGERYCH := "gogerychwyrn"
  const DROBWLL := "drobwll"
  const LLANTYSILIO := "llantysilio"
  const GOGO := "gogogoch"

  lemma PartsArePlain()
    ensures PlainWord(LLANFAIR) && PlainWord(GWYN) && PlainWord(GOGERYCH)
    ensures PlainWord(DROBWLL) && PlainWord(LLANTYSILIO) && PlainWord(GOGO)
  {
  }

  const PLACE := LLANFAIR + GWYN + GOGERYCH + DROBWLL + LLANTYSILIO + GOGO

  const WIDE_LINE := PLACE + [' '] + "Anglesey"

  lemma WideLineIs()
    ensures PlainLine(WIDE_LINE) && |WIDE_LINE| == 67
  {
    PartsArePlain();
    Compound(LLANFAIR, GWYN);
    Compound(LLANFAIR + GWYN, GOGERYCH);
    Compound(LLANFAIR + GWYN + GOGERYCH, DROBWLL);
    Compound(LLANFAIR + GWYN + GOGERYCH + DROBWLL, LLANTYSILIO);
    Compound(LLANFAIR + GWYN + GOGERYCH + DROBWLL + LLANTYSILIO, GOGO);
    TwoWords(PLACE, "Anglesey");
  }

  const NAME_LINE := "Evan" + [' '] + "Jones"
  const STREET_LINE := "High" + [' '] + "Street"
  const POSTCODE_LINE := "LL61" + [' '] + "5UJ"

  lemma ShortLinesAre()
    ensures PlainLine(NAME_LINE) && PlainLine(STREET_LINE) && PlainLine(POSTCODE_LINE)
    ensures |NAME_LINE| <= 11 && |STREET_LINE| <= 11 && |POSTCODE_LINE| <= 11
  {
    TwoWords("Evan", "Jones");
    TwoWords("High", "Street");
    TwoWords("LL61", "5UJ");
  }

  const WIDE_LINES := [NAME_LINE, STREET_LINE, WIDE_LINE, POSTCODE_LINE]
  const SHORT_LINES := [NAME_LINE, STREET_LINE, POSTCODE_LINE]

  /** Such an address: Evan Jones, High Street, at the place with the longest name. */
  lemma WideAddressIs()
    ensures WideBeforeLast(Join('\n', WIDE_LINES))
  {
    ShortLinesAre();
    WideLineIs();
    TightOf(WIDE_LINES);
    JoinAtLeast('\n', WIDE_LINES);
  }

  /** One that fits its window. */
  lemma ShortAddressIs()
    ensures PlainAddress(Join('\n', SHORT_LINES)) && FitsWindow(PlainLibrary(MARGIN), Join('\n', SHORT_LINES))
  {
    ShortLinesAre();
    TightOf(SHORT_LINES);
    JoinAtLeast('\n', SHORT_LINES);
    forall i | 0 <= i < |SHORT_LINES|
      ensures PlainWidth(SHORT_LINES[i], ADDRESS_FONT_SIZE) <= 55.0
    {
      assert |SHORT_LINES[i]| <= 11;
    }
  }

  /** A letter that is accepted, and whose sanitised form is rejected. */
  lemma WideAddressIsNotStable()
    ensures Contract(PlainLibrary(MARGIN))
    ensures var lib := PlainLibrary(MARGIN);
            var first := Sanitise(lib, Pdf(SmallLetter(Join('\n', WIDE_LINES), [])), false, false);
            && first.message == None && first.file.Some?
            && Sanitise(lib, first.file.value, false, false).message == Some(ContentOutsidePrintableArea)
  {
    WideAddressIs();
    WideLetterIsNotStable(Join('\n', WIDE_LINES));
  }

  // ---- Ink on the strip beyond A4 ----

  /** A page 211mm wide with a mark at its right edge. */
  const STRIP := Fill(ToPoints(210.2), ToPoints(149.0), ToPoints(0.6), ToPoints(2.0), BLACK)
  const WIDER_PAGE := Page(ToPoints(211.0), ToPoints(297.0), None, [STRIP], [], Some([]), Some(Atom("")))
  const ON_STRIP := Point(ToPoints(210.5), ToPoints(150.0))

  lemma StripIsNotPrintable(isFirstPage: bool, p: Point)
    requires STRIP.Covers(p)
    ensures !NearPrintable(isFirstPage, FromTopLeft(p)) && !SHEET.Contains(FromTopLeft(p))
  {
    var q := FromTopLeft(p);
    assert q.x >= 210.2;
    forall i | 0 <= i < |PrintableAreas(isFirstPage)|
      ensures !Near(PrintableAreas(isFirstPage)[i], 1.0, q)
    {
      GrowIsNear(PrintableAreas(isFirstPage)[i], 1.0, q);
    }
  }

  /** The document has an accepted size and is rejected for the mark, no part of which any tint covers. */
  lemma StripIsRejectedButNotShown(isAnAttachment: bool)
    ensures !WrongSize(WIDER_PAGE)
    ensures Validate(PlainLibrary(ON_STRIP), Document([WIDER_PAGE], map[]), isAnAttachment)
         == Invalid(ContentOutsidePrintableArea, [1])
    ensures forall p, isFirstPage :: STRIP.Covers(p) ==> !CoveredBy(FillAreas(RedAreas(isFirstPage), RED_TINT), p)
  {
    var lib, document := PlainLibrary(ON_STRIP), Document([WIDER_PAGE], map[]);
    A4PortraitAsDisplayed(ToMm(WIDER_PAGE.height), ToMm(WIDER_PAGE.width), WIDER_PAGE.rotation);
    forall p, isFirstPage | STRIP.Covers(p)
      ensures !CoveredBy(FillAreas(RedAreas(isFirstPage), RED_TINT), p)
    {
      StripIsNotPrintable(isFirstPage, p);
      RejectedIsRedIff(isFirstPage, p);
    }
    StripIsNotPrintable(!isAnAttachment, ON_STRIP);
    assert WIDER_PAGE.ops[..0] == [] && ColourAt(WIDER_PAGE.ops, ON_STRIP) == BLACK;
    assert lib.samples(WIDER_PAGE.width, WIDER_PAGE.height)[0] == ON_STRIP;
    assert HasInkOutOfBounds(lib, WIDER_PAGE, !isAnAttachment);
    OnePageWithInk(lib, document, isAnAttachment);
  }

  lemma OnePageWithInk(lib: Library, document: Document, isAnAttachment: bool)
    requires |document.pages| == 1 && !WrongSize(document.pages[0])
    requires HasInkOutOfBounds(lib, document.pages[0], !isAnAttachment)
    ensures Validate(lib, document, isAnAttachment) == Invalid(ContentOutsidePrintableArea, [1])
  {
    NoPagesIff(WrongSizeFlags(document));
    ReportedIffOutOfBounds(lib, document, isAnAttachment, 1);
    OnlyFirstPage(InkFlags(Images(lib, WithPrintableAreasWhite(document, isAnAttachment))));
  }

  // ---- A word in the tag box ----

  const REFERENCE := Word(Rect(ToPoints(2.0), ToPoints(2.0), ToPoints(10.0), ToPoints(5.0)), "Ref", 1, 0, 0)

  lemma ReferenceIsInTagBox()
    ensures InBox([REFERENCE], NOTIFY_TAG_BOX) == [REFERENCE]
    ensures NoneMeets([REFERENCE], ADDRESS_BOX)
  {
    assert NOTIFY_TAG_BOX == Rect(0.0, 0.0, ToPoints(15.191), ToPoints(6.149));
    BoxesAreApart(REFERENCE.box);
    AllInBox([REFERENCE], NOTIFY_TAG_BOX);
  }

  lemma ReferenceReadsOtherwise(lib: Library)
    requires NfkdContract(lib)
    ensures !BoxReadsNotify(lib, [REFERENCE])
  {
    ReferenceIsInTagBox();
    NotifyIsRead(lib, [REFERENCE], NOTIFY_TAG_BOX);
    assert NfkdOk(lib, "Ref");
  }

  /** The rewritten letter has the reference and the tag in its tag box, and does not read NOTIFY. */
  lemma ReferenceHidesTag(lib: Library, letter: Document)
    requires Contract(lib) && letter.pages != [] && letter.pages[0].Upright()
    requires OutOfBox(letter.pages[0].words, ADDRESS_BOX) == [REFERENCE]
    requires RewritePdf(lib, letter, false).Rewritten?
    ensures RewritePdf(lib, letter, false).document.pages != []
    ensures var page := RewritePdf(lib, letter, false).document.pages[0];
            !TagReads(lib, page) && |InBox(page.words, NOTIFY_TAG_BOX)| == 2
  {
    ReferenceIsInTagBox();
    ReferenceReadsOtherwise(lib);
    var tag := BoxesOfRewritten(lib, letter, false);
    ResultTagReadsIff(lib, letter, false);
  }

  /** What does not change when a letter without images or fonts is rewritten. */
  lemma RewrittenStaysPlain(sample: Point, letter: Document, address: string)
    requires |letter.pages| == 1 && letter.pages[0].images == Some([]) && letter.pages[0].resources == Some(Atom(""))
    requires RewritePdf(PlainLibrary(sample), letter, false).Rewritten?
    requires NewAddress(PlainLibrary(sample), letter) == address
    ensures var out := RewritePdf(PlainLibrary(sample), letter, false).document;
            |out.pages| == 1 && out.pages[0].images == Some([]) && out.pages[0].resources == Some(Atom(""))
  {
    PlainNormalise(sample, Readdressed(PlainLibrary(sample), letter, address));
  }

  /** A letter with such a word that fits its window passes twice, and each time a tag is added. */
  lemma SecondTagIsAdded(address: string)
    requires PlainAddress(address) && FitsWindow(PlainLibrary(MARGIN), address)
    requires Validate(PlainLibrary(MARGIN), SmallLetter(address, [REFERENCE]), false).Valid?
    ensures var lib := PlainLibrary(MARGIN);
            var first := Sanitise(lib, Pdf(SmallLetter(address, [REFERENCE])), false, false);
            && first.message.None? && FirstPage(first).Some?
            && var second := Sanitise(lib, first.file.value, false, false);
            && second.message.None? && FirstPage(second).Some?
            && |InBox(FirstPage(first).value.words, NOTIFY_TAG_BOX)| == 2
            && |InBox(FirstPage(second).value.words, NOTIFY_TAG_BOX)| == 3
  {
    var lib, letter := PlainLibrary(MARGIN), SmallLetter(address, [REFERENCE]);
    var first := Sanitise(lib, Pdf(letter), false, false);
    ContractCanBeMet(MARGIN);
    ReferenceIsInTagBox();
    SmallWordsInBox(address, [REFERENCE]);
    SmallLetterPasses(MARGIN, address, [REFERENCE]);
    var second := Sanitise(lib, first.file.value, false, false);
    FirstIs(lib, letter, false, first, second);
    ReferenceHidesTag(lib, letter);
    RewrittenStaysPlain(MARGIN, letter, address);
    PassesASecondTime(letter, address, first, second);
    TagIsAddedIff(lib, letter, false, first, second);
  }

  lemma PassesASecondTime(letter: Document, address: string, first: SanitiseResult, second: SanitiseResult)
    requires Twice(PlainLibrary(MARGIN), letter, false, first, second)
    requires PlainAddress(address) && first.recipientAddress == Some(address) && FitsWindow(PlainLibrary(MARGIN), address)
    requires first.file.value.Pdf? && |first.file.value.document.pages| == 1
    requires first.file.value.document.pages[0].images == Some([])
    requires first.file.value.document.pages[0].resources == Some(Atom(""))
    ensures second.message.None? && second.recipientAddress == first.recipientAddress
  {
    var lib := PlainLibrary(MARGIN);
    FittingIsReadBack(lib, letter, false, first, second);
    FittingAddressIsInBounds(lib, letter.pages[0], address);
    PlainNormalise(MARGIN, Readdressed(lib, first.file.value.document, address));
    SecondResult(lib, letter, false, first, second);
  }

  lemma ShortLetterIsValid(others: seq<Word>)
    ensures Validate(PlainLibrary(MARGIN), SmallLetter(Join('\n', SHORT_LINES), others), false).Valid?
  {
    var address := Join('\n', SHORT_LINES);
    ShortLinesAre();
    TightOf(SHORT_LINES);
    forall line | line in SmallLines(address)
      ensures !PlainInk(line, MARGIN)
    {
      assert line.text in SHORT_LINES && |line.text| <= 11;
      assert line.x == ToPoints(30.0) && PlainWidth(line.text, line.size) == |line.text| as real * 2.5;
    }
    SmallLetterIsValid(MARGIN, address, others);
  }

  /** A letter to which sanitising adds a second tag. */
  lemma ReferencedLetterGetsTwoTags()
    ensures var lib := PlainLibrary(MARGIN);
            var first := Sanitise(lib, Pdf(SmallLetter(Join('\n', SHORT_LINES), [REFERENCE])), false, false);
            && first.message.None? && FirstPage(first).Some?
            && var second := Sanitise(lib, first.file.value, false, false);
            && second.message.None? && FirstPage(second).Some?
            && |InBox(FirstPage(first).value.words, NOTIFY_TAG_BOX)| == 2
            && |InBox(FirstPage(second).value.words, NOTIFY_TAG_BOX)| == 3
  {
    var address := Join('\n', SHORT_LINES);
    ShortAddressIs();
    ShortLetterIsValid([REFERENCE]);
    SecondTagIsAdded(address);
  }

  // ---- Cyclic resources ----

  /** The resources of a page, a form among them, and the form's resources, which are those of the page. */
  const PAGE_RESOURCES := Dictionary(map["/XObject" := Indirect(2)])
  const XOBJECTS := Dictionary(map["/Fm0" := Indirect(3)])
  const FORM := Dictionary(map["/Resources" := Indirect(1)])
  const CYCLIC := map[1 := PAGE_RESOURCES, 2 := XOBJECTS, 3 := FORM]

  /** The walk over them never returns. */
  lemma CyclicFormNeverReturns(limit: nat)
    ensures !Fonts.Returns(CYCLIC, PAGE_RESOURCES, limit)
  {
    var next := (o: Obj) => if o == PAGE_RESOURCES then XOBJECTS else if o == XOBJECTS then FORM else PAGE_RESOURCES;
    assert Fonts.Resolve(CYCLIC, PAGE_RESOURCES.entries["/XObject"]) == XOBJECTS;
    assert Fonts.Resolve(CYCLIC, XOBJECTS.entries["/Fm0"]) == FORM;
    assert Fonts.Resolve(CYCLIC, FORM.entries["/Resources"]) == PAGE_RESOURCES;
    Fonts.CycleNeverReturns(CYCLIC, PAGE_RESOURCES, limit, {PAGE_RESOURCES, XOBJECTS, FORM}, next);
  }

  function WithCyclicResources(letter: Document): Document
    requires letter.pages != []
  {
    letter.(pages := letter.pages[0 := letter.pages[0].(resources := Some(Indirect(1)))], objects := CYCLIC)
  }

  /** The checks do not look at resources. */
  lemma SameChecks(lib: Library, letter: Document)
    requires |letter.pages| == 1 && Validate(lib, letter, false).Valid?
    ensures Validate(lib, WithCyclicResources(letter), false).Valid?
  {
    var cyclic := WithCyclicResources(letter);
    ValidIff(lib, letter, false);
    ValidIff(lib, cyclic, false);
    assert PageIsValid(lib, letter, false, 0);
    SameLookIsValid(lib, letter, cyclic, false, 0);
  }

  lemma CyclicFontsFail(lib: Library, document: Document)
    requires |document.pages| == 1 && document.pages[0].resources == Some(Indirect(1)) && document.objects == CYCLIC
    ensures !FontsComeRight(lib, document)
  {
    CyclicFormNeverReturns(lib.recursionLimit);
    assert Fonts.Root(document, document.pages[0]) == Some(PAGE_RESOURCES);
    assert !Fonts.PageReturns(document, document.pages[0], lib.recursionLimit);
  }

  /** However deep Python may recurse, a letter without fault but for its resources is rejected as unreadable. */
  lemma CyclicIsRejected(lib: Library, letter: Document, allowInternational: bool)
    requires ConverterContract(lib)
    requires |letter.pages| == 1 && Validate(lib, letter, false).Valid?
    requires lib.errorCode(TextInAddressBox(lib, letter), allowInternational).None?
    requires var readdressed := Readdressed(lib, WithCyclicResources(letter), NewAddress(lib, letter));
             InPrintColours(lib, readdressed) == Some(readdressed)
    ensures Sanitise(lib, Pdf(WithCyclicResources(letter)), allowInternational, false).message == Some(UnableToReadTheFile)
  {
    SameChecks(lib, letter);
    CyclicFontsFail(lib, Readdressed(lib, WithCyclicResources(letter), NewAddress(lib, letter)));
    PassesIffWalkReturns(lib, WithCyclicResources(letter), allowInternational);
  }

  lemma ShortLetterIs()
    ensures var letter := SmallLetter(Join('\n', SHORT_LINES), []);
            && Validate(PlainLibrary(MARGIN), letter, false).Valid?
            && PlainAddress(TextInAddressBox(PlainLibrary(MARGIN), letter))
            && Sanitise(PlainLibrary(MARGIN), Pdf(letter), false, false).message == None
  {
    ShortAddressIs();
    ShortLetterIsValid([]);
    SmallLetterPasses(MARGIN, Join('\n', SHORT_LINES), []);
    SmallLetterReads(MARGIN, Join('\n', SHORT_LINES), []);
  }

  /** A letter that passes, and that is rejected as unreadable if its resources are cyclic. */
  lemma CyclicLetterIsRejected()
    ensures var letter := SmallLetter(Join('\n', SHORT_LINES), []);
            && Sanitise(PlainLibrary(MARGIN), Pdf(letter), false, false).message == None
            && Sanitise(PlainLibrary(MARGIN), Pdf(WithCyclicResources(letter)), false, false).message
               == Some(UnableToReadTheFile)
  {
    var lib, letter := PlainLibrary(MARGIN), SmallLetter(Join('\n', SHORT_LINES), []);
    ShortLetterIs();
    ContractCanBeMet(MARGIN);
    PlainColours(MARGIN, Readdressed(lib, WithCyclicResources(letter), NewAddress(lib, letter)));
    CyclicIsRejected(lib, letter, false);
  }

  // ---- A cycle that does not matter ----

  /** A page and its parent refer to each other, as in every PDF; the page's resources lead to a font only. */
  const FONT := Dictionary(map["/BaseFont" := Atom("/Arial")])
  const RESOURCES := Dictionary(map["/Font" := Indirect(6)])
  const PARENT := Dictionary(map["/Kids" := Indirect(5)])
  const KID := Dictionary(map["/Parent" := Indirect(4)])
  const PAGE_TREE := map[4 := PARENT, 5 := KID, 6 := FONT]

  lemma OnlyChild(objects: map<nat, Obj>, key: string, value: Obj)
    ensures Fonts.Children(objects, Dictionary(map[key := value])) == {Fonts.Resolve(objects, value)}
  {
    var entries := map[key := value];
    assert key in entries && entries[key] == value;
  }

  lemma ParentIsOnCycle()
    ensures Fonts.OnCycle(PAGE_TREE, PARENT)
  {
    OnlyChild(PAGE_TREE, "/Kids", Indirect(5));
    OnlyChild(PAGE_TREE, "/Parent", Indirect(4));
    Fonts.ReachableStep(PAGE_TREE, PARENT, PARENT);
    Fonts.ReachableFromChild(PAGE_TREE, KID, PARENT, PARENT);
  }

  lemma ResourcesReturn(limit: nat)
    requires limit >= 3
    ensures Fonts.Returns(PAGE_TREE, RESOURCES, limit)
  {
    OnlyChild(PAGE_TREE, "/BaseFont", Atom("/Arial"));
    OnlyChild(PAGE_TREE, "/Font", Indirect(6));
    assert Fonts.Returns(PAGE_TREE, Atom("/Arial"), limit - 2);
    assert Fonts.Returns(PAGE_TREE, FONT, limit - 1);
  }

  /** There is a cycle in the file, but not within reach of the walk, which returns. */
  lemma PageTreeIsNotWalked(limit: nat)
    requires limit >= 3
    ensures Fonts.OnCycle(PAGE_TREE, PARENT)
    ensures Fonts.Acyclic(PAGE_TREE, RESOURCES) && Fonts.Returns(PAGE_TREE, RESOURCES, limit)
  {
    ParentIsOnCycle();
    ResourcesReturn(limit);
    Fonts.ReturningIsAcyclic(PAGE_TREE, RESOURCES, limit);
  }
}
