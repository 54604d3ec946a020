/** Sanitising is stable: what has passed once passes again, with the same address and the same words. */
module Stability {
  import opened Wrappers
  import opened Geometry
  import opened Documents
  import opened Text
  import opened Layout
  import opened Libraries
  import opened Extraction
  import opened Canvas
  import opened Overlays
  import opened Validation
  import opened Transformation
  import opened Rewriting
  import opened Reading
  import opened Sanitising

  // ---- Ink ----

  /** Some line of the address puts ink on the point. */
  ghost predicate AddressInk(lib: Library, address: string, p: Point) {
    exists i :: 0 <= i < |AddressLines(address)| && lib.ink(AddressLines(address)[i], p)
  }

  /** The address as drawn runs into where nothing may be printed, at a point that will be looked at. */
  ghost predicate AddressOutOfBounds(lib: Library, page: Page, address: string) {
    exists k :: && 0 <= k < |lib.samples(page.width, page.height)|
                && AddressInk(lib, address, lib.samples(page.width, page.height)[k])
                && !NearPrintable(true, FromTopLeft(lib.samples(page.width, page.height)[k]))
  }

  /** An address that fits the window stays within 1mm of it, wherever the top of the page is. */
  lemma FittingAddressIsInBounds(lib: Library, page: Page, address: string)
    requires TypeContract(lib) && FitsWindow(lib, address) && |Lines(address)| <= 8
    ensures !AddressOutOfBounds(lib, page, address)
  {
    forall p | AddressInk(lib, address, p)
      ensures NearPrintable(true, FromTopLeft(p))
    {
      var i :| 0 <= i < |AddressLines(address)| && lib.ink(AddressLines(address)[i], p);
      var line, q := AddressLines(address)[i], FromTopLeft(p);
      AddressInkHeight(lib, address, i, p);
      assert line.x == ToPoints(24.6) && InkOk(lib, line, p);
      assert 24.6 <= q.x <= 120.0 && 39.5 <= q.y <= 66.3;
      GrowIsNear(ADDRESS_WINDOW, 1.0, q);
      assert Near(PrintableAreas(true)[3], 1.0, q);
    }
  }

  lemma AddressInkHeight(lib: Library, address: string, i: nat, p: Point)
    requires TypeContract(lib) && |Lines(address)| <= 8 && i < |Lines(address)|
    requires lib.ink(AddressLines(address)[i], p)
    ensures ToPoints(230.7) <= p.y <= ToPoints(230.7) + 69.5
  {
    var above := (|Lines(address)| - 1 - i) as real;
    assert 0.0 <= above <= 7.0;
    assert AddressLines(address)[i].baseline == ToPoints(230.7) + 8.5 * above + 2.0;
    assert InkOk(lib, AddressLines(address)[i], p);
  }

  /** The white laid over the address block: that of the redaction, and that of the window. */
  function Covers(page: Page): seq<Paint> {
    Redacted(page).ops[|page.ops|..] + [FillArea(ADDRESS_WINDOW, WHITE)]
  }

  lemma OpsOfAddressed(lib: Library, page: Page, address: string)
    ensures WithAddress(lib, Redacted(page), address).ops == page.ops + Covers(page) + Marks(lib.ink, AddressLines(address))
    ensures AllOf(WHITE, Covers(page))
  {
  }

  /** The marks of an address are its ink, and black. */
  lemma MarksAreInk(lib: Library, address: string, p: Point)
    ensures CoveredBy(Marks(lib.ink, AddressLines(address)), p) <==> AddressInk(lib, address, p)
    ensures AllOf(BLACK, Marks(lib.ink, AddressLines(address)))
  {
    MarksCover(lib.ink, AddressLines(address), p);
  }

  /** Within the box that is redacted, measured from the top of the page, or within the address window of the sheet. */
  predicate Cleared(page: Page, p: Point) {
    || (21.6 <= ToMm(p.x) < 123.0 && 36.5 <= ToMm(page.height - p.y) < 69.3)
    || ADDRESS_WINDOW.Contains(FromTopLeft(p))
  }

  lemma CoversAreCleared(page: Page, p: Point)
    ensures CoveredBy(Covers(page), p) <==> Cleared(page, p)
  {
    var covers := Covers(page);
    assert ADDRESS_BOX == Rect(ToPoints(21.6), ToPoints(36.5), ToPoints(123.0), ToPoints(69.3));
    FillAreaCovers(ADDRESS_WINDOW, WHITE, p);
    assert covers[1] == FillArea(ADDRESS_WINDOW, WHITE);
    assert covers[0].Covers(p) <==> 21.6 <= ToMm(p.x) < 123.0 && 36.5 <= ToMm(page.height - p.y) < 69.3;
  }

  /** Redacting and drawing: black where the address is; else white in what has been cleared; else what was there. */
  lemma ColourOfAddressed(lib: Library, page: Page, address: string, p: Point)
    ensures ColourAt(WithAddress(lib, Redacted(page), address).ops, p)
         == if AddressInk(lib, address, p) then BLACK
            else if Cleared(page, p) then WHITE
            else ColourAt(page.ops, p)
  {
    var marks := Marks(lib.ink, AddressLines(address));
    OpsOfAddressed(lib, page, address);
    MarksAreInk(lib, address, p);
    CoversAreCleared(page, p);
    ColourAtConcat(page.ops + Covers(page), marks, p);
    ColourAtConcat(page.ops, Covers(page), p);
    OneColour(WHITE, Covers(page), p);
    OneColour(BLACK, marks, p);
  }

  /** The white tag covers no ink of the address. */
  lemma TagClearOfAddress(lib: Library, height: real, address: string, p: Point)
    requires TypeContract(lib) && AcceptedHeight(height) && |Lines(address)| <= 8
    requires AddressInk(lib, address, p)
    ensures !lib.ink(TagLine(height), p)
  {
    var i :| 0 <= i < |AddressLines(address)| && lib.ink(AddressLines(address)[i], p);
    AddressInkHeight(lib, address, i, p);
    assert InkOk(lib, TagLine(height), p);
  }

  /**
   The ink of a rewritten first page: that of its address is there, what was in the cleared areas is gone, and elsewhere
   nothing is added, while black stays black but for where the white tag covers it.
   */
  lemma InkOfRewritten(lib: Library, document: Document, allowInternational: bool, p: Point)
    requires Contract(lib) && document.pages != []
    requires RewritePdf(lib, document, allowInternational).Rewritten?
    requires RewritePdf(lib, document, allowInternational).document.pages != []
    ensures var page, address := document.pages[0], NewAddress(lib, document);
            var was := ColourAt(page.ops, p);
            var colour := ColourAt(RewritePdf(lib, document, allowInternational).document.pages[0].ops, p);
            && (colour != WHITE ==> AddressInk(lib, address, p) || (was != WHITE && !Cleared(page, p)))
            && (AddressInk(lib, address, p) && AcceptedHeight(page.height) ==> colour == BLACK)
            && (was == BLACK && !Cleared(page, p) && !lib.ink(TagLine(page.height), p) ==> colour == BLACK)
  {
    RewritingKeepsLetter(lib, document, allowInternational);
    NewAddressIsShort(lib, document, allowInternational);
    var address := NewAddress(lib, document);
    var page := document.pages[0];
    var normalised := Normalise(lib, Readdressed(lib, document, address)).value;
    ColourOfAddressed(lib, page, address, p);
    assert normalised.pages[0].height == WithAddress(lib, Redacted(page), address).height == page.height;
    if !BoxReadsNotify(lib, AddressedWords(lib, page, address)) {
      TagIsWhite(lib, normalised.pages[0], p);
      if AddressInk(lib, address, p) && AcceptedHeight(page.height) {
        TagClearOfAddress(lib, page.height, address, p);
      }
    }
  }

  /** The tag is white, and hides nothing but what is under its letters. */
  lemma TagIsWhite(lib: Library, page: Page, p: Point)
    ensures ColourAt(WithTag(lib, page).ops, p) == if lib.ink(TagLine(page.height), p) then WHITE else ColourAt(page.ops, p)
  {
    var marks := Marks(lib.ink, [TagLine(page.height)]);
    ColourAtConcat(page.ops, marks, p);
    OneColour(WHITE, marks, p);
    MarksCover(lib.ink, [TagLine(page.height)], p);
    assert CoveredBy(marks, p) <==> lib.ink(TagLine(page.height), p) by {
      assert [TagLine(page.height)][0] == TagLine(page.height);
    }
  }

  // ---- Passing again ----

  lemma SameLookIsValid(lib: Library, before: Document, after: Document, isAnAttachment: bool, i: nat)
    requires i < |before.pages| && |before.pages| == |after.pages|
    requires SameLook(before.pages[i], after.pages[i])
    requires PageIsValid(lib, before, isAnAttachment, i)
    ensures PageIsValid(lib, after, isAnAttachment, i)
  {
  }

  lemma RewrittenFirstPageIsValidIff(lib: Library, document: Document, allowInternational: bool)
    requires Contract(lib) && document.pages != [] && AcceptedHeight(document.pages[0].height)
    requires PageIsValid(lib, document, false, 0)
    requires RewritePdf(lib, document, allowInternational).Rewritten?
    ensures RewritePdf(lib, document, allowInternational).document.pages != []
    ensures PageIsValid(lib, RewritePdf(lib, document, allowInternational).document, false, 0) <==>
            !AddressOutOfBounds(lib, document.pages[0], NewAddress(lib, document))
  {
    RewritingKeepsLetter(lib, document, allowInternational);
    var before, after := document.pages[0], RewritePdf(lib, document, allowInternational).document.pages[0];
    var points := lib.samples(before.width, before.height);
    forall k | 0 <= k < |points|
      ensures ColourAt(after.ops, points[k]) != WHITE && !NearPrintable(true, FromTopLeft(points[k])) <==>
              AddressInk(lib, NewAddress(lib, document), points[k]) && !NearPrintable(true, FromTopLeft(points[k]))
    {
      InkOfRewritten(lib, document, allowInternational, points[k]);
    }
  }

  /**
   A letter that passed the checks passes them again once rewritten exactly when its new address,
   as drawn, does not run into where nothing may be printed.
   */
  lemma RewrittenIsValidIff(lib: Library, document: Document, allowInternational: bool)
    requires Contract(lib) && document.pages != [] && AcceptedHeight(document.pages[0].height)
    requires Validate(lib, document, false).Valid?
    requires RewritePdf(lib, document, allowInternational).Rewritten?
    ensures Validate(lib, RewritePdf(lib, document, allowInternational).document, false).Valid? <==>
            !AddressOutOfBounds(lib, document.pages[0], NewAddress(lib, document))
  {
    var out := RewritePdf(lib, document, allowInternational).document;
    ValidIff(lib, document, false);
    ValidIff(lib, out, false);
    RewritingKeepsLetter(lib, document, allowInternational);
    RewrittenFirstPageIsValidIff(lib, document, allowInternational);
    forall i | 0 < i < |out.pages|
      ensures PageIsValid(lib, out, false, i)
    {
      SameLookIsValid(lib, document, out, false, i);
    }
  }

  /** An upright letter that passes the checks has a height its address can be drawn on. */
  lemma ValidLetterHasAcceptedHeight(lib: Library, document: Document)
    requires Validate(lib, document, false).Valid? && document.pages != [] && document.pages[0].Upright()
    ensures AcceptedHeight(document.pages[0].height)
  {
    ValidIff(lib, document, false);
    var page := document.pages[0];
    assert PageIsValid(lib, document, false, 0);
    A4PortraitAsDisplayed(ToMm(page.height), ToMm(page.width), page.rotation);
  }

  /** An upright letter has passed with the given result, and its file has been sanitised again. */
  ghost predicate Twice(lib: Library, document: Document, allowInternational: bool, first: SanitiseResult, second: SanitiseResult) {
    && Contract(lib)
    && document.pages != [] && document.pages[0].Upright()
    && first == Sanitise(lib, Pdf(document), allowInternational, false)
    && first.message.None? && first.recipientAddress.Some? && first.file.Some?
    && second == Sanitise(lib, first.file.value, allowInternational, false)
  }

  lemma FirstIs(lib: Library, document: Document, allowInternational: bool, first: SanitiseResult, second: SanitiseResult)
    requires Twice(lib, document, allowInternational, first, second)
    ensures RewritePdf(lib, document, allowInternational).Rewritten?
    ensures first == Passed(|document.pages|, Some(NewAddress(lib, document)), RewritePdf(lib, document, allowInternational).document)
    ensures Validate(lib, document, false).Valid? && |document.pages| <= LETTER_MAX_PAGE_COUNT
    ensures AcceptedHeight(document.pages[0].height)
    ensures |RewritePdf(lib, document, allowInternational).document.pages| == |document.pages|
  {
    PassedComesTo(lib, document, allowInternational);
    ValidLetterHasAcceptedHeight(lib, document);
    RewritingKeepsLetter(lib, document, allowInternational);
  }

  /** A verdict is about ink on page 1 if that is all that is wrong. */
  lemma OnlyFirstPageInk(lib: Library, document: Document)
    requires document.pages != [] && !Validate(lib, document, false).Valid?
    requires forall i :: 0 <= i < |document.pages| ==> !WrongSize(document.pages[i])
    requires forall i :: 0 < i < |document.pages| ==> PageIsValid(lib, document, false, i)
    ensures Validate(lib, document, false) == Invalid(ContentOutsidePrintableArea, [1])
  {
    var sizes, tags := WrongSizeFlags(document), TagFlags(lib, document, false);
    var ink := InkFlags(Images(lib, WithPrintableAreasWhite(document, false)));
    NoPagesIff(sizes);
    NoPagesIff(tags);
    OverlayKeepsTags(lib, document, false);
    forall i | 0 < i < |document.pages|
      ensures !ink[i] && !tags[i]
    {
      PageIsValidIff(lib, document, false, i);
    }
    NoPagesIff(ink);
    assert PageNumbers(ink) != [];
    OnlyFirstPage(ink);
  }

  lemma {:induction false} OnlyFirstPage(flags: seq<bool>)
    requires PageNumbers(flags) != [] && forall i :: 0 < i < |flags| ==> !flags[i]
    ensures PageNumbers(flags) == [1]
  {
    if |flags| > 1 {
      OnlyFirstPage(flags[..|flags| - 1]);
    } else {
      assert flags[..0] == [];
    }
  }

  /** What the checks say of a rewritten letter. */
  lemma RewrittenVerdict(lib: Library, document: Document, allowInternational: bool)
    requires Contract(lib) && document.pages != [] && AcceptedHeight(document.pages[0].height)
    requires Validate(lib, document, false).Valid?
    requires RewritePdf(lib, document, allowInternational).Rewritten?
    ensures Validate(lib, RewritePdf(lib, document, allowInternational).document, false)
         == if AddressOutOfBounds(lib, document.pages[0], NewAddress(lib, document))
            then Invalid(ContentOutsidePrintableArea, [1]) else Valid
  {
    var out := RewritePdf(lib, document, allowInternational).document;
    RewrittenIsValidIff(lib, document, allowInternational);
    RewritingKeepsLetter(lib, document, allowInternational);
    ValidIff(lib, document, false);
    forall i | 0 <= i < |out.pages|
      ensures !WrongSize(out.pages[i])
      ensures i > 0 ==> PageIsValid(lib, out, false, i)
    {
      assert PageIsValid(lib, document, false, i);
      if i > 0 {
        SameLookIsValid(lib, document, out, false, i);
      }
    }
    if !Validate(lib, out, false).Valid? {
      OnlyFirstPageInk(lib, out);
    }
  }

  /**
   What becomes of a letter that has passed when it is sanitised again, whatever its address. It is rejected for
   ink on page 1 if its new address, as drawn, runs out of bounds; then for its address, if what can be read of it
   is in error; it cannot be read if a converter fails; and otherwise it passes again, with the same number of
   pages and the address that was read back, normalised.
   */
  lemma SecondResult(lib: Library, document: Document, allowInternational: bool, first: SanitiseResult, second: SanitiseResult)
    requires Twice(lib, document, allowInternational, first, second)
    ensures first.file.value.Pdf? && first.file.value.document.pages != []
    ensures var readBack := lib.nfkd(ReadBack(lib, document));
            if AddressOutOfBounds(lib, document.pages[0], first.recipientAddress.value)
            then second == Failed(ContentOutsidePrintableArea, Some([1]), |document.pages|)
            else
              match lib.errorCode(readBack, allowInternational)
              case Some(code) => second == Failed(InvalidAddress(code), Some([1]), |document.pages|)
              case None =>
                if Normalise(lib, Readdressed(lib, first.file.value.document, lib.normalise(readBack))).Some?
                then second.message.None? && second.pageCount == first.pageCount
                     && second.recipientAddress == Some(lib.normalise(readBack))
                else second == UNREADABLE
  {
    FirstIs(lib, document, allowInternational, first, second);
    RewrittenVerdict(lib, document, allowInternational);
    RewrittenAddressReads(lib, document, allowInternational);
    CheckedComesTo(lib, first.file.value.document, allowInternational);
  }

  /**
   Stability, exactly: a letter that has passed passes again if and only if its new address, as drawn, puts no ink
   out of bounds, what can be read of it is a valid address, and the converters do not fail.
   */
  lemma PassesAgainIff(lib: Library, document: Document, allowInternational: bool, first: SanitiseResult, second: SanitiseResult)
    requires Twice(lib, document, allowInternational, first, second)
    ensures first.file.value.Pdf? && first.file.value.document.pages != []
    ensures var readBack := lib.nfkd(ReadBack(lib, document));
            second.message.None? <==>
            && !AddressOutOfBounds(lib, document.pages[0], first.recipientAddress.value)
            && lib.errorCode(readBack, allowInternational).None?
            && Normalise(lib, Readdressed(lib, first.file.value.document, lib.normalise(readBack))).Some?
    ensures second.message.None? ==>
              && second.pageCount == first.pageCount
              && second.recipientAddress == Some(lib.normalise(lib.nfkd(ReadBack(lib, document))))
  {
    SecondResult(lib, document, allowInternational, first, second);
  }

  /**
   Sanitised a second time, a letter that has passed is rejected, for ink on page 1, exactly when its new
   address as drawn runs out of bounds. Otherwise all checks are passed again.
   */
  lemma RejectedAgainIff(lib: Library, document: Document, allowInternational: bool, first: SanitiseResult, second: SanitiseResult)
    requires Twice(lib, document, allowInternational, first, second)
    ensures AddressOutOfBounds(lib, document.pages[0], first.recipientAddress.value) <==>
            second.message == Some(ContentOutsidePrintableArea)
    ensures second.message == Some(ContentOutsidePrintableArea) ==> second.invalidPages == Some([1])
    ensures second.message !in {Some(Message.LetterTooLong), Some(NotA4PortraitOriented), Some(NotifyTagFoundInContent)}
  {
    SecondResult(lib, document, allowInternational, first, second);
  }

  /** What can be read of an address that is not too wide for the box is the address. */
  lemma FittingIsReadBack(lib: Library, document: Document, allowInternational: bool, first: SanitiseResult, second: SanitiseResult)
    requires Twice(lib, document, allowInternational, first, second)
    requires FitsBox(lib, first.recipientAddress.value)
    ensures ReadBack(lib, document) == first.recipientAddress.value
    ensures AllMeet(DrawnAddress(lib, document), ADDRESS_BOX)
  {
    FirstIs(lib, document, allowInternational, first, second);
    FittingAddressIsReadBack(lib, document, allowInternational);
  }

  /**
   A letter that has passed, and whose address fits its window, passes again unless its address as read back is
   in error, which is then the message, or a converter fails; and when it passes, it has the same number of pages
   and the address that was read back, normalised.
   */
  lemma PassesAgain(lib: Library, document: Document, allowInternational: bool, first: SanitiseResult, second: SanitiseResult)
    requires Twice(lib, document, allowInternational, first, second)
    requires FitsWindow(lib, first.recipientAddress.value)
    ensures var readBack := lib.nfkd(first.recipientAddress.value);
            match lib.errorCode(readBack, allowInternational)
            case Some(code) => second.message == Some(InvalidAddress(code))
            case None =>
              if second.message.None?
              then second.pageCount == first.pageCount && second.recipientAddress == Some(lib.normalise(readBack))
              else second.message == Some(UnableToReadTheFile)
  {
    SecondResult(lib, document, allowInternational, first, second);
    FirstIs(lib, document, allowInternational, first, second);
    NewAddressIsShort(lib, document, allowInternational);
    FittingAddressIsInBounds(lib, document.pages[0], first.recipientAddress.value);
    FittingIsReadBack(lib, document, allowInternational, first, second);
  }

  /**
   An address already in NFKD form that fits the box stays the same, and only its ink or a failing converter can stop
   the letter.
   */
  lemma NormalFormIsStable(lib: Library, document: Document, allowInternational: bool,
                           first: SanitiseResult, second: SanitiseResult)
    requires Twice(lib, document, allowInternational, first, second)
    requires FitsBox(lib, first.recipientAddress.value)
    requires lib.nfkd(first.recipientAddress.value) == first.recipientAddress.value
    ensures if second.message.None?
            then second.pageCount == first.pageCount && second.recipientAddress == first.recipientAddress
            else second.message == Some(if AddressOutOfBounds(lib, document.pages[0], first.recipientAddress.value)
                                        then ContentOutsidePrintableArea else UnableToReadTheFile)
  {
    SecondResult(lib, document, allowInternational, first, second);
    FirstIs(lib, document, allowInternational, first, second);
    NewAddressIsShort(lib, document, allowInternational);
    FittingIsReadBack(lib, document, allowInternational, first, second);
  }

  /** So does an address in ASCII. */
  lemma AsciiLetterIsStable(lib: Library, document: Document, allowInternational: bool,
                            first: SanitiseResult, second: SanitiseResult)
    requires Twice(lib, document, allowInternational, first, second)
    requires FitsBox(lib, first.recipientAddress.value) && Ascii(first.recipientAddress.value)
    ensures if second.message.None?
            then second.pageCount == first.pageCount && second.recipientAddress == first.recipientAddress
            else second.message == Some(if AddressOutOfBounds(lib, document.pages[0], first.recipientAddress.value)
                                        then ContentOutsidePrintableArea else UnableToReadTheFile)
  {
    assert NfkdOk(lib, first.recipientAddress.value);
    NormalFormIsStable(lib, document, allowInternational, first, second);
  }

  /**
   Whatever compatibility characters an address has, reading it back once removes them for good: when what is read back
   is normalised already, a third sanitising leaves the address alone.
   */
  lemma ThirdKeepsAddress(lib: Library, document: Document, allowInternational: bool,
                          first: SanitiseResult, second: SanitiseResult, third: SanitiseResult)
    requires Twice(lib, document, allowInternational, first, second) && second.message.None?
    requires third == Sanitise(lib, second.file.value, allowInternational, false)
    requires FitsBox(lib, second.recipientAddress.value)
    requires second.recipientAddress == Some(lib.nfkd(ReadBack(lib, document)))
    ensures if third.message.None?
            then third.pageCount == first.pageCount && third.recipientAddress == second.recipientAddress
            else third.message == Some(if AddressOutOfBounds(lib, document.pages[0], second.recipientAddress.value)
                                       then ContentOutsidePrintableArea else UnableToReadTheFile)
  {
    SecondIsTwice(lib, document, allowInternational, first, second, third);
    assert NfkdOk(lib, ReadBack(lib, document));
    NormalFormIsStable(lib, first.file.value.document, allowInternational, second, third);
  }

  lemma SecondIsTwice(lib: Library, document: Document, allowInternational: bool,
                      first: SanitiseResult, second: SanitiseResult, third: SanitiseResult)
    requires Twice(lib, document, allowInternational, first, second) && second.message.None?
    requires third == Sanitise(lib, second.file.value, allowInternational, false)
    ensures first.file.value.Pdf? && first.file.value.document.pages != []
    ensures Twice(lib, first.file.value.document, allowInternational, second, third)
    ensures second.pageCount == first.pageCount
    ensures forall a :: AddressOutOfBounds(lib, first.file.value.document.pages[0], a) <==>
                        AddressOutOfBounds(lib, document.pages[0], a)
  {
    FirstIs(lib, document, allowInternational, first, second);
    RewritingKeepsLetter(lib, document, allowInternational);
    SecondIsRewritten(lib, document, allowInternational, first, second);
    SecondResult(lib, document, allowInternational, first, second);
  }

  // ---- The same words ----

  lemma PlacedConcat(a: seq<Word>, b: seq<Word>)
    ensures Placed(a + b) == Placed(a) + Placed(b)
  {
  }

  /** Of the words of an address drawn once and again, with what was kept between. */
  lemma PlacedWords(kept: seq<Word>, a1: seq<Word>, tag1: seq<Word>, left: seq<Word>, a2: seq<Word>, tag2: seq<Word>)
    requires Placed(a1) == Placed(a2)
    ensures multiset(Placed(kept + a1 + tag1)) == multiset(Placed(kept + left + tag1 + a2 + tag2)) <==> left == [] && tag2 == []
  {
    var k, l, a, t1, t2 := Placed(kept), Placed(left), Placed(a1), Placed(tag1), Placed(tag2);
    PlacedConcat(kept + a1, tag1);
    PlacedConcat(kept, a1);
    PlacedConcat(kept + left + tag1 + a2, tag2);
    PlacedConcat(kept + left + tag1, a2);
    PlacedConcat(kept + left, tag1);
    PlacedConcat(kept, left);
    assert |multiset(k + a + t1)| == |k| + |a| + |t1|;
    assert |multiset(k + l + t1 + a + t2)| == |k| + |l| + |t1| + |a| + |t2|;
  }

  /** Rewriting a rewritten letter adds a tag unless its tag box reads NOTIFY, whatever becomes of its address. */
  lemma TagsOfBoth(lib: Library, document: Document, allowInternational: bool, once: Document)
    requires Contract(lib) && document.pages != [] && document.pages[0].Upright()
    requires RewritePdf(lib, document, allowInternational) == Rewritten(once, NewAddress(lib, document))
    requires once.pages != [] && RewritePdf(lib, once, allowInternational).Rewritten?
    ensures once.pages[0].Upright() && RewritePdf(lib, once, allowInternational).document.pages != []
    ensures var before, after := once.pages[0], RewritePdf(lib, once, allowInternational).document.pages[0];
            && |InBox(after.words, NOTIFY_TAG_BOX)|
               == |InBox(before.words, NOTIFY_TAG_BOX)| + (if TagReads(lib, before) then 0 else 1)
            && (TagReads(lib, before) ==> |InBox(before.words, NOTIFY_TAG_BOX)| == 1)
  {
    RewritingKeepsLetter(lib, document, allowInternational);
    var _ := BoxesOfRewritten(lib, document, allowInternational);
    var _ := BoxesOfRewritten(lib, once, allowInternational);
    SameSelectionReadsSame(lib, Survivors(once), once.pages[0].words, NOTIFY_TAG_BOX);
    NotifyIsRead(lib, once.pages[0].words, NOTIFY_TAG_BOX);
  }

  /** Rewriting a rewritten letter, when its address comes out the same. */
  ghost predicate SameAddressAgain(lib: Library, document: Document, once: Document, allowInternational: bool) {
    && Contract(lib) && document.pages != [] && document.pages[0].Upright()
    && once.pages != []
    && RewritePdf(lib, document, allowInternational) == Rewritten(once, NewAddress(lib, document))
    && RewritePdf(lib, once, allowInternational).Rewritten? && NewAddress(lib, once) == NewAddress(lib, document)
  }

  /** The second time the words of the page are those that survived, the address again, and perhaps a tag again. */
  lemma PartsOfBoth(lib: Library, document: Document, once: Document, allowInternational: bool)
    returns (tag1: seq<Word>, tag2: seq<Word>)
    requires SameAddressAgain(lib, document, once, allowInternational)
    ensures once.pages[0].words == Survivors(document) + DrawnAddress(lib, document) + tag1
    ensures RewritePdf(lib, once, allowInternational).document.pages != []
    ensures RewritePdf(lib, once, allowInternational).document.pages[0].words
         == Survivors(document) + OutOfBox(DrawnAddress(lib, document), ADDRESS_BOX) + tag1 + DrawnAddress(lib, once) + tag2
    ensures tag2 == [] <==> TagReads(lib, once.pages[0])
    ensures Placed(DrawnAddress(lib, document)) == Placed(DrawnAddress(lib, once))
  {
    RewritingKeepsLetter(lib, document, allowInternational);
    tag1 := BoxesOfRewritten(lib, document, allowInternational);
    tag2 := BoxesOfRewritten(lib, once, allowInternational);
    assert PlacingOk(lib, Redacted(document.pages[0]), Redacted(once.pages[0]), AddressLines(NewAddress(lib, document)));
    SameSelectionReadsSame(lib, Survivors(once), once.pages[0].words, NOTIFY_TAG_BOX);
  }

  lemma WordsOfBoth(lib: Library, document: Document, once: Document, allowInternational: bool)
    requires SameAddressAgain(lib, document, once, allowInternational)
    ensures RewritePdf(lib, once, allowInternational).document.pages != []
    ensures var before, after := once.pages[0], RewritePdf(lib, once, allowInternational).document.pages[0];
            multiset(Placed(before.words)) == multiset(Placed(after.words)) <==>
            TagReads(lib, before) && AllMeet(DrawnAddress(lib, document), ADDRESS_BOX)
  {
    var tag1, tag2 := PartsOfBoth(lib, document, once, allowInternational);
    var drawn := DrawnAddress(lib, document);
    PlacedWords(Survivors(document), drawn, tag1, OutOfBox(drawn, ADDRESS_BOX), DrawnAddress(lib, once), tag2);
    NoneLeftIff(drawn, ADDRESS_BOX);
  }

  lemma NoneLeftIff(words: seq<Word>, box: Rect)
    ensures OutOfBox(words, box) == [] <==> AllMeet(words, box)
  {
    if AllMeet(words, box) {
      AllMeetIsInBox(words, box);
    } else {
      var w :| w in words && !w.box.Intersects(box);
      InBoxMember(words, box, w);
    }
  }

  /** The first page of a passed letter. */
  function FirstPage(r: SanitiseResult): Option<Page> {
    if r.file.Some? && r.file.value.Pdf? && r.file.value.document.pages != []
    then Some(r.file.value.document.pages[0]) else None
  }

  /**
   Sanitising again adds a tag exactly when the tag box does not read NOTIFY, whatever has become of the address. A box
   that reads NOTIFY holds that one word, before and after.
   */
  lemma TagIsAddedIff(lib: Library, document: Document, allowInternational: bool,
                      first: SanitiseResult, second: SanitiseResult)
    requires Twice(lib, document, allowInternational, first, second) && second.message.None?
    ensures FirstPage(first).Some? && FirstPage(second).Some?
    ensures var once, twice := FirstPage(first).value, FirstPage(second).value;
            && |InBox(twice.words, NOTIFY_TAG_BOX)|
               == |InBox(once.words, NOTIFY_TAG_BOX)| + (if TagReads(lib, once) then 0 else 1)
            && (TagReads(lib, once) ==> |InBox(once.words, NOTIFY_TAG_BOX)| == 1)
  {
    FirstIs(lib, document, allowInternational, first, second);
    SecondIsRewritten(lib, document, allowInternational, first, second);
    TagsOfBoth(lib, document, allowInternational, first.file.value.document);
  }

  /**
   When sanitising again gives the same address, it leaves the first page the same words in the same places
   exactly when its tag box reads NOTIFY and all of its address meets the box.
   */
  lemma SameWordsIffTagReads(lib: Library, document: Document, allowInternational: bool,
                             first: SanitiseResult, second: SanitiseResult)
    requires Twice(lib, document, allowInternational, first, second)
    requires second.message.None? && second.recipientAddress == first.recipientAddress
    ensures FirstPage(first).Some? && FirstPage(second).Some?
    ensures var once, twice := FirstPage(first).value, FirstPage(second).value;
            multiset(Placed(once.words)) == multiset(Placed(twice.words)) <==>
            TagReads(lib, once) && AllMeet(DrawnAddress(lib, document), ADDRESS_BOX)
  {
    FirstIs(lib, document, allowInternational, first, second);
    SecondIsRewritten(lib, document, allowInternational, first, second);
    WordsOfBoth(lib, document, first.file.value.document, allowInternational);
  }

  lemma SecondIsRewritten(lib: Library, document: Document, allowInternational: bool,
                          first: SanitiseResult, second: SanitiseResult)
    requires Twice(lib, document, allowInternational, first, second) && second.message.None?
    ensures first.file.value.Pdf? && first.file.value.document.pages != []
    ensures RewritePdf(lib, first.file.value.document, allowInternational).Rewritten?
    ensures second.recipientAddress == Some(NewAddress(lib, first.file.value.document))
    ensures second.file == Some(Pdf(RewritePdf(lib, first.file.value.document, allowInternational).document))
  {
    FirstIs(lib, document, allowInternational, first, second);
    PassedComesTo(lib, first.file.value.document, allowInternational);
  }

  // ---- Attachments ----

  lemma NormalisedAttachmentIsValid(lib: Library, document: Document)
    requires ConverterContract(lib) && Validate(lib, document, true).Valid? && Normalise(lib, document).Some?
    ensures Validate(lib, Normalise(lib, document).value, true).Valid?
  {
    var out := Normalise(lib, document).value;
    NormaliseKeepsLetter(lib, document);
    ValidIff(lib, document, true);
    ValidIff(lib, out, true);
    forall i | 0 <= i < |out.pages|
      ensures PageIsValid(lib, out, true, i)
    {
      SameLookIsValid(lib, document, out, true, i);
    }
  }

  /** An attachment that has passed passes again exactly when no converter fails, and else it cannot be read. */
  lemma AttachmentPassesAgain(lib: Library, document: Document, allowInternational: bool,
                              first: SanitiseResult, second: SanitiseResult)
    requires ConverterContract(lib)
    requires first == Sanitise(lib, Pdf(document), allowInternational, true) && first.message.None? && first.file.Some?
    requires second == Sanitise(lib, first.file.value, allowInternational, true)
    ensures first.file.value.Pdf?
    ensures second.message.None? <==> Normalise(lib, first.file.value.document).Some?
    ensures if second.message.None? then second.pageCount == first.pageCount && second.recipientAddress == None
            else second.message == Some(UnableToReadTheFile)
  {
    PassingKeepsPages(lib, Pdf(document), allowInternational, true);
    NormalisedAttachmentIsValid(lib, document);
  }
}
