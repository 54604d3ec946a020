/** Sanitising a letter or an attachment, as a function of the file, and what it keeps. */
module Sanitising {
  import opened Wrappers
  import opened Geometry
  import opened Documents
  import opened Text
  import opened Layout
  import opened Libraries
  import opened Extraction
  import opened Canvas
  import opened Overlays
  import opened Validation
  import opened Transformation
  import opened Rewriting
  import opened Reading
  import Fonts

  // ---- Rewriting a document ----

  datatype RewriteResult = Rewritten(document: Document, address: string) | BadAddress(code: string) | RewriteCrash

  function TextInAddressBox(lib: Library, document: Document): string
    requires document.pages != []
  {
    ExtractText(lib.nfkd, document.pages[0].words, ADDRESS_BOX)
  }

  function Readdressed(lib: Library, document: Document, address: string): Document
    requires document.pages != []
  {
    document.(pages := document.pages[0 := WithAddress(lib, Redacted(document.pages[0]), address)])
  }

  /** rewrite_pdf */
  function RewritePdf(lib: Library, document: Document, allowInternational: bool): RewriteResult
    requires document.pages != []
  {
    var text := TextInAddressBox(lib, document);
    var error := lib.errorCode(text, allowInternational);
    if error.Some? then BadAddress(error.value)
    else
      var address := lib.normalise(text);
      var normalised := Normalise(lib, Readdressed(lib, document, address));
      if normalised.None? || normalised.value.pages == [] then RewriteCrash
      else
        var d := normalised.value;
        if TagReads(lib, d.pages[0]) then Rewritten(d, address)
        else Rewritten(d.(pages := d.pages[0 := WithTag(lib, d.pages[0])]), address)
  }

  // ---- Sanitising a file ----

  datatype SanitiseResult = SanitiseResult(
    pageCount: Option<nat>,
    recipientAddress: Option<string>,
    message: Option<Message>,
    invalidPages: Option<seq<nat>>,
    file: Option<Blob>)

  function Passed(pageCount: nat, address: Option<string>, document: Document): SanitiseResult {
    SanitiseResult(Some(pageCount), address, None, None, Some(Pdf(document)))
  }

  function Failed(message: Message, invalidPages: Option<seq<nat>>, pageCount: nat): SanitiseResult {
    SanitiseResult(Some(pageCount), None, Some(message), invalidPages, None)
  }

  const UNREADABLE := SanitiseResult(None, None, Some(UnableToReadTheFile), None, None)

  /** What is done with a document once it has passed the checks. */
  function SanitiseChecked(lib: Library, document: Document, allowInternational: bool, isAnAttachment: bool): SanitiseResult
    requires isAnAttachment || document.pages != []
  {
    var pageCount := |document.pages|;
    if isAnAttachment then
      var normalised := Normalise(lib, document);
      if normalised.None? then UNREADABLE else Passed(pageCount, None, normalised.value)
    else
      match RewritePdf(lib, document, allowInternational)
      case RewriteCrash => UNREADABLE
      case BadAddress(code) => Failed(InvalidAddress(code), Some([1]), pageCount)
      case Rewritten(rewritten, address) => Passed(pageCount, Some(address), rewritten)
  }

  /** sanitise_file_contents */
  function Sanitise(lib: Library, file: Blob, allowInternational: bool, isAnAttachment: bool): SanitiseResult {
    if !file.Pdf? then UNREADABLE
    else
      var document := file.document;
      var pageCount := |document.pages|;
      if pageCount > LETTER_MAX_PAGE_COUNT then Failed(LetterTooLong, None, pageCount)
      else
        match Validate(lib, document, isAnAttachment)
        case Crash => UNREADABLE
        case Invalid(message, pages) => Failed(message, Some(pages), pageCount)
        case Valid => SanitiseChecked(lib, document, allowInternational, isAnAttachment)
  }

  /** A result is either a file or a message, and says no more than belongs to it. */
  ghost predicate WellFormed(r: SanitiseResult, isAnAttachment: bool) {
    && (r.file.Some? <==> r.message.None?)
    && (r.message.Some? ==> r.recipientAddress.None?)
    && (r.message.None? ==> r.recipientAddress.Some? == !isAnAttachment && r.invalidPages.None? && r.pageCount.Some?)
    && (r.invalidPages.Some? ==>
          && r.message.Some? && r.pageCount.Some?
          && r.invalidPages.value != [] && ListsPages(r.invalidPages.value, r.pageCount.value))
    && (r.pageCount.None? <==> r.message == Some(UnableToReadTheFile))
  }

  lemma CheckedIsWellFormed(lib: Library, document: Document, allowInternational: bool, isAnAttachment: bool)
    requires isAnAttachment || document.pages != []
    ensures WellFormed(SanitiseChecked(lib, document, allowInternational, isAnAttachment), isAnAttachment)
    ensures SanitiseChecked(lib, document, allowInternational, isAnAttachment).pageCount in {None, Some(|document.pages|)}
  {
    assert document.pages != [] ==> ListsPages([1], |document.pages|);
  }

  /** On every path a result is well-formed, and the pages it counts are those of the file. */
  lemma ResultIsWellFormed(lib: Library, file: Blob, allowInternational: bool, isAnAttachment: bool)
    ensures var r := Sanitise(lib, file, allowInternational, isAnAttachment);
            && WellFormed(r, isAnAttachment)
            && (r.pageCount.Some? ==> file.Pdf? && r.pageCount.value == |file.document.pages|)
  {
    if file.Pdf? && |file.document.pages| <= LETTER_MAX_PAGE_COUNT {
      match Validate(lib, file.document, isAnAttachment)
      case Invalid(message, pages) => InvalidPagesAreWellFormed(lib, file.document, isAnAttachment);
      case Valid =>
        ValidIff(lib, file.document, isAnAttachment);
        CheckedIsWellFormed(lib, file.document, allowInternational, isAnAttachment);
      case Crash =>
    }
  }

  /** A result has a file and a page count, or a message. */
  predicate FileOrMessage(r: SanitiseResult) {
    (r.file.Some? <==> r.message.None?) && (r.message.None? ==> r.pageCount.Some?)
  }

  lemma SanitiseGivesFileOrMessage(lib: Library, file: Blob, allowInternational: bool, isAnAttachment: bool)
    ensures FileOrMessage(Sanitise(lib, file, allowInternational, isAnAttachment))
  {
  }

  /** Only files within the limit that pass every check come out, with as many pages as went in. */
  lemma PassingKeepsPages(lib: Library, file: Blob, allowInternational: bool, isAnAttachment: bool)
    requires ConverterContract(lib)
    requires Sanitise(lib, file, allowInternational, isAnAttachment).message.None?
    ensures var r := Sanitise(lib, file, allowInternational, isAnAttachment);
            && file.Pdf? && Validate(lib, file.document, isAnAttachment).Valid?
            && r.file.value.Pdf?
            && |r.file.value.document.pages| == |file.document.pages| == r.pageCount.value <= LETTER_MAX_PAGE_COUNT
  {
    var document := file.document;
    if isAnAttachment {
      NormaliseKeepsLetter(lib, document);
    } else {
      RewritingKeepsLetter(lib, document, allowInternational);
    }
  }

  /**
   What the result of sanitising says of the checks, for every file: what is no PDF cannot be read; more than ten pages are
   too long; then come sizes, ink and tags, each with exactly the pages at fault; what passes them all is judged by its
   address and its fonts and colours only.
   */
  lemma ResultOfChecks(lib: Library, file: Blob, allowInternational: bool, isAnAttachment: bool)
    ensures var r := Sanitise(lib, file, allowInternational, isAnAttachment);
            if !file.Pdf? then r.message == Some(UnableToReadTheFile)
            else
              var document := file.document;
              if |document.pages| > 10 then r.message == Some(Message.LetterTooLong) && r.invalidPages == None
              else if exists n :: SizeFault(document, n) then
                && r.message == Some(NotA4PortraitOriented) && r.invalidPages.Some?
                && forall n :: n in r.invalidPages.value <==> SizeFault(document, n)
              else if document.pages == [] && !isAnAttachment then r.message == Some(UnableToReadTheFile)
              else if exists n :: InkFault(lib, document, isAnAttachment, n) then
                && r.message == Some(ContentOutsidePrintableArea) && r.invalidPages.Some?
                && forall n :: n in r.invalidPages.value <==> InkFault(lib, document, isAnAttachment, n)
              else if exists n :: TagFault(lib, document, isAnAttachment, n) then
                && r.message == Some(NotifyTagFoundInContent) && r.invalidPages.Some?
                && forall n :: n in r.invalidPages.value <==> TagFault(lib, document, isAnAttachment, n)
              else r == SanitiseChecked(lib, document, allowInternational, isAnAttachment)
  {
    if file.Pdf? {
      VerdictIs(lib, file.document, isAnAttachment);
    }
  }

  // ---- What rewriting keeps ----

  /** The address a rewritten letter carries. */
  function NewAddress(lib: Library, document: Document): string
    requires document.pages != []
  {
    lib.normalise(TextInAddressBox(lib, document))
  }

  predicate BoxReadsNotify(lib: Library, words: seq<Word>) {
    ExtractText(lib.nfkd, words, NOTIFY_TAG_BOX) == NOTIFY_TAG_TEXT
  }

  /**
   Later pages keep their words; the first keeps those outside the address box, in order, followed by
   the address and, unless the tag can be read already, by the tag. Page sizes stay.
   */
  lemma RewritingKeepsLetter(lib: Library, document: Document, allowInternational: bool)
    requires ConverterContract(lib) && document.pages != []
    requires RewritePdf(lib, document, allowInternational).Rewritten?
    ensures var out := RewritePdf(lib, document, allowInternational).document;
            var address := NewAddress(lib, document);
            var normalised := Normalise(lib, Readdressed(lib, document, address)).value;
            var words := AddressedWords(lib, document.pages[0], address);
            && RewritePdf(lib, document, allowInternational).address == address
            && |out.pages| == |document.pages| == |normalised.pages|
            && (forall i :: 0 <= i < |out.pages| ==>
                              && out.pages[i].width == document.pages[i].width
                              && out.pages[i].height == document.pages[i].height
                              && out.pages[i].rotation == document.pages[i].rotation)
            && (forall i :: 0 < i < |out.pages| ==> SameLook(document.pages[i], out.pages[i]))
            && SameLook(WithAddress(lib, Redacted(document.pages[0]), address), normalised.pages[0])
            && normalised.pages[0].words == words
            && (BoxReadsNotify(lib, words) ==> out == normalised)
            && (!BoxReadsNotify(lib, words) ==> out.pages[0] == WithTag(lib, normalised.pages[0]))
            && out.pages[0].words == words + (if BoxReadsNotify(lib, words) then [] else TagWords(lib, normalised.pages[0]))
  {
    var address := NewAddress(lib, document);
    var readdressed := Readdressed(lib, document, address);
    NormaliseKeepsLetter(lib, readdressed);
    var normalised := Normalise(lib, readdressed).value;
    forall i | 0 <= i < |document.pages|
      ensures SameLook(readdressed.pages[i], normalised.pages[i])
    {
    }
    assert forall i :: 0 < i < |document.pages| ==> readdressed.pages[i] == document.pages[i];
  }

  lemma NormalisedPageIsUpright(lib: Library, document: Document, allowInternational: bool)
    requires ConverterContract(lib) && document.pages != [] && document.pages[0].Upright()
    requires RewritePdf(lib, document, allowInternational).Rewritten?
    ensures Normalise(lib, Readdressed(lib, document, NewAddress(lib, document))).Some?
    ensures var normalised := Normalise(lib, Readdressed(lib, document, NewAddress(lib, document))).value;
            normalised.pages != [] && normalised.pages[0].Upright() && normalised.pages[0].height == document.pages[0].height
  {
    RewritingKeepsLetter(lib, document, allowInternational);
    var page := WithAddress(lib, Redacted(document.pages[0]), NewAddress(lib, document));
    assert page.rotation == document.pages[0].rotation && page.height == document.pages[0].height;
  }

  lemma NewAddressIsShort(lib: Library, document: Document, allowInternational: bool)
    requires AddressContract(lib) && document.pages != []
    requires RewritePdf(lib, document, allowInternational).Rewritten?
    ensures var a := NewAddress(lib, document);
            a != "" && Tight(a) && |Lines(a)| <= 8 && lib.errorCode(a, allowInternational).None? && lib.normalise(a) == a
  {
    assert AddressOk(lib, TextInAddressBox(lib, document), allowInternational);
  }

  /** A letter that passes has been checked and rewritten, and that is its file. */
  lemma PassedComesTo(lib: Library, document: Document, allowInternational: bool)
    requires Sanitise(lib, Pdf(document), allowInternational, false).message.None?
    ensures document.pages != [] && |document.pages| <= LETTER_MAX_PAGE_COUNT && Validate(lib, document, false).Valid?
    ensures RewritePdf(lib, document, allowInternational).Rewritten?
    ensures Sanitise(lib, Pdf(document), allowInternational, false)
         == Passed(|document.pages|, Some(NewAddress(lib, document)), RewritePdf(lib, document, allowInternational).document)
  {
  }

  /** What sanitising a letter comes down to once it has passed the checks. */
  lemma CheckedComesTo(lib: Library, document: Document, allowInternational: bool)
    requires ConverterContract(lib) && document.pages != []
    ensures var r := SanitiseChecked(lib, document, allowInternational, false);
            match lib.errorCode(TextInAddressBox(lib, document), allowInternational)
            case Some(code) => r == Failed(InvalidAddress(code), Some([1]), |document.pages|)
            case None =>
              if Normalise(lib, Readdressed(lib, document, NewAddress(lib, document))).Some?
              then r.message.None? && r.pageCount == Some(|document.pages|)
                   && r.recipientAddress == Some(NewAddress(lib, document))
              else r == UNREADABLE
  {
    var readdressed := Readdressed(lib, document, NewAddress(lib, document));
    if Normalise(lib, readdressed).Some? {
      NormaliseKeepsLetter(lib, readdressed);
    }
  }

  /** What becomes of a file that passes the checks, in full. */
  lemma ResultOfValid(lib: Library, document: Document, allowInternational: bool, isAnAttachment: bool)
    requires |document.pages| <= 10 && Validate(lib, document, isAnAttachment).Valid?
    requires ConverterContract(lib)
    ensures isAnAttachment || document.pages != []
    ensures var r, n := Sanitise(lib, Pdf(document), allowInternational, isAnAttachment), |document.pages|;
            if isAnAttachment then
              r == (match Normalise(lib, document)
                    case None => SanitiseResult(None, None, Some(UnableToReadTheFile), None, None)
                    case Some(normalised) => SanitiseResult(Some(n), None, None, None, Some(Pdf(normalised))))
            else
              match lib.errorCode(TextInAddressBox(lib, document), allowInternational)
              case Some(code) => r == SanitiseResult(Some(n), None, Some(InvalidAddress(code)), Some([1]), None)
              case None =>
                if Normalise(lib, Readdressed(lib, document, NewAddress(lib, document))).None?
                then r == SanitiseResult(None, None, Some(UnableToReadTheFile), None, None)
                else && RewritePdf(lib, document, allowInternational).Rewritten?
                     && r == SanitiseResult(Some(n), Some(NewAddress(lib, document)), None, None,
                                            Some(Pdf(RewritePdf(lib, document, allowInternational).document)))
  {
    ValidIff(lib, document, isAnAttachment);
    if !isAnAttachment {
      CheckedComesTo(lib, document, allowInternational);
    }
  }

  lemma ValidComesTo(lib: Library, document: Document, allowInternational: bool)
    requires document.pages != [] && |document.pages| <= LETTER_MAX_PAGE_COUNT && Validate(lib, document, false).Valid?
    ensures Sanitise(lib, Pdf(document), allowInternational, false) == SanitiseChecked(lib, document, allowInternational, false)
  {
  }

  /** When fonts come out right: the walk returns on every page, and what is missing can be embedded. */
  predicate FontsComeRight(lib: Library, document: Document) {
    && (forall i | 0 <= i < |document.pages| :: Fonts.PageReturns(document, document.pages[i], lib.recursionLimit))
    && (Fonts.Unembedded(document, lib.recursionLimit) == Some({}) || lib.embedFonts(document).Some?)
  }

  lemma NormaliseIff(lib: Library, document: Document)
    requires InPrintColours(lib, document).Some?
    ensures Normalise(lib, document).Some? <==> FontsComeRight(lib, InPrintColours(lib, document).value)
  {
  }

  /**
   A letter without fault in its pages and address, whose colours have been converted, passes exactly when the font
   walk returns on every page and fonts that are missing can be embedded. Otherwise it is rejected as unreadable.
   */
  lemma PassesIffWalkReturns(lib: Library, document: Document, allowInternational: bool)
    requires ConverterContract(lib)
    requires document.pages != [] && |document.pages| <= LETTER_MAX_PAGE_COUNT && Validate(lib, document, false).Valid?
    requires lib.errorCode(TextInAddressBox(lib, document), allowInternational).None?
    requires InPrintColours(lib, Readdressed(lib, document, NewAddress(lib, document))).Some?
    ensures Sanitise(lib, Pdf(document), allowInternational, false).message
         == if FontsComeRight(lib, InPrintColours(lib, Readdressed(lib, document, NewAddress(lib, document))).value)
            then None else Some(UnableToReadTheFile)
  {
    ValidComesTo(lib, document, allowInternational);
    CheckedComesTo(lib, document, allowInternational);
    NormaliseIff(lib, Readdressed(lib, document, NewAddress(lib, document)));
  }

  /**
   So with recursion enough for its objects such a letter passes exactly when the resources of all its pages are there
   and acyclic, and fonts that are missing can be embedded.
   */
  lemma PassesIffAcyclic(lib: Library, document: Document, allowInternational: bool)
    requires ConverterContract(lib)
    requires document.pages != [] && |document.pages| <= LETTER_MAX_PAGE_COUNT && Validate(lib, document, false).Valid?
    requires lib.errorCode(TextInAddressBox(lib, document), allowInternational).None?
    requires InPrintColours(lib, Readdressed(lib, document, NewAddress(lib, document))).Some?
    requires Fonts.RecursionSuffices(InPrintColours(lib, Readdressed(lib, document, NewAddress(lib, document))).value,
                                     lib.recursionLimit)
    ensures var converted := InPrintColours(lib, Readdressed(lib, document, NewAddress(lib, document))).value;
            Sanitise(lib, Pdf(document), allowInternational, false).message
            == if && Fonts.AllAcyclic(converted)
                  && (Fonts.Unembedded(converted, lib.recursionLimit) == Some({}) || lib.embedFonts(converted).Some?)
               then None else Some(UnableToReadTheFile)
  {
    var converted := InPrintColours(lib, Readdressed(lib, document, NewAddress(lib, document))).value;
    PassesIffWalkReturns(lib, document, allowInternational);
    Fonts.AnswersIffAcyclic(converted, lib.recursionLimit);
    AnswersIffReturns(lib, converted);
  }

  lemma AnswersIffReturns(lib: Library, document: Document)
    ensures Fonts.Unembedded(document, lib.recursionLimit).Some? <==>
            forall i :: 0 <= i < |document.pages| ==> Fonts.PageReturns(document, document.pages[i], lib.recursionLimit)
  {
  }

  /** Words outside the address box, as they stand before the address is drawn. */
  function Survivors(document: Document): seq<Word>
    requires document.pages != []
  {
    OutOfBox(document.pages[0].words, ADDRESS_BOX)
  }

  /** The words of the new address as they are drawn. */
  function DrawnAddress(lib: Library, document: Document): seq<Word>
    requires document.pages != []
  {
    AddressWords(lib, Redacted(document.pages[0]), NewAddress(lib, document))
  }

  /** What can be read of the new address, as it is drawn. */
  function ReadBack(lib: Library, document: Document): string
    requires document.pages != []
  {
    RawText(DrawnAddress(lib, document), ADDRESS_BOX)
  }

  /** A single word reading NOTIFY in the tag box. */
  ghost predicate IsTag(tag: seq<Word>) {
    |tag| == 1 && tag[0].text == NOTIFY_TAG_TEXT && !tag[0].box.IsEmpty() && tag[0].box.Inside(NOTIFY_TAG_BOX)
  }

  /** What a rewritten first page says: what survives, its address, and the tag unless it was there already. */
  lemma WordsOfRewritten(lib: Library, document: Document, allowInternational: bool) returns (tag: seq<Word>)
    requires Contract(lib) && document.pages != [] && document.pages[0].Upright()
    requires RewritePdf(lib, document, allowInternational).Rewritten?
    ensures var out := RewritePdf(lib, document, allowInternational).document;
            out.pages != [] && out.pages[0].words == Survivors(document) + DrawnAddress(lib, document) + tag
    ensures if BoxReadsNotify(lib, Survivors(document)) then tag == [] else IsTag(tag)
  {
    RewritingKeepsLetter(lib, document, allowInternational);
    NormalisedPageIsUpright(lib, document, allowInternational);
    var address := NewAddress(lib, document);
    AddressOutsideTagBox(lib, Redacted(document.pages[0]), address, Survivors(document));
    SameSelectionReadsSame(lib, AddressedWords(lib, document.pages[0], address), Survivors(document), NOTIFY_TAG_BOX);
    if BoxReadsNotify(lib, Survivors(document)) {
      tag := [];
    } else {
      var normalised := Normalise(lib, Readdressed(lib, document, address)).value;
      TagWordInBox(lib, normalised.pages[0]);
      tag := TagWords(lib, normalised.pages[0]);
    }
  }

  /** In the two boxes a rewritten page holds what survives there, what of its address meets the box, and its tag. */
  lemma BoxesOfRewritten(lib: Library, document: Document, allowInternational: bool) returns (tag: seq<Word>)
    requires Contract(lib) && document.pages != [] && document.pages[0].Upright()
    requires RewritePdf(lib, document, allowInternational).Rewritten?
    ensures var out := RewritePdf(lib, document, allowInternational).document;
            && out.pages != []
            && out.pages[0].words == Survivors(document) + DrawnAddress(lib, document) + tag
            && InBox(out.pages[0].words, ADDRESS_BOX) == InBox(DrawnAddress(lib, document), ADDRESS_BOX)
            && Survivors(out) == Survivors(document) + OutOfBox(DrawnAddress(lib, document), ADDRESS_BOX) + tag
            && InBox(out.pages[0].words, NOTIFY_TAG_BOX) == InBox(Survivors(out), NOTIFY_TAG_BOX)
               == InBox(Survivors(document), NOTIFY_TAG_BOX) + tag
    ensures if BoxReadsNotify(lib, Survivors(document)) then tag == [] else IsTag(tag)
  {
    tag := WordsOfRewritten(lib, document, allowInternational);
    RedactedMissesBox(document.pages[0]);
    NothingInTagBox(lib, Redacted(document.pages[0]), NewAddress(lib, document));
    InAddressBox(Survivors(document), DrawnAddress(lib, document), tag);
    InTagBox(Survivors(document), DrawnAddress(lib, document), tag);
    InTagBox(Survivors(document), OutOfBox(DrawnAddress(lib, document), ADDRESS_BOX), tag);
  }

  lemma InAddressBox(kept: seq<Word>, drawn: seq<Word>, tag: seq<Word>)
    requires NoneMeets(kept, ADDRESS_BOX) && (tag == [] || IsTag(tag))
    ensures InBox(kept + drawn + tag, ADDRESS_BOX) == InBox(drawn, ADDRESS_BOX)
    ensures OutOfBox(kept + drawn + tag, ADDRESS_BOX) == kept + OutOfBox(drawn, ADDRESS_BOX) + tag
  {
    BesideTheBox(kept, drawn, ADDRESS_BOX);
    if tag != [] {
      BoxesAreApart(tag[0].box);
    }
    NoneInBox(tag, ADDRESS_BOX);
    InBoxConcat(kept + drawn, tag, ADDRESS_BOX);
    OutOfBoxConcat(kept + drawn, tag, ADDRESS_BOX);
  }

  lemma InTagBox(kept: seq<Word>, between: seq<Word>, tag: seq<Word>)
    requires InBox(between, NOTIFY_TAG_BOX) == [] && (tag == [] || IsTag(tag))
    ensures InBox(kept + between + tag, NOTIFY_TAG_BOX) == InBox(kept, NOTIFY_TAG_BOX) + tag
  {
    if tag != [] {
      BoxesAreApart(tag[0].box);
    }
    AllInBox(tag, NOTIFY_TAG_BOX);
    InBoxConcat(kept, between, NOTIFY_TAG_BOX);
    InBoxConcat(kept + between, tag, NOTIFY_TAG_BOX);
  }

  /** Neither a drawn address nor what of it lies beyond its box meets the tag box. */
  lemma NothingInTagBox(lib: Library, page: Page, address: string)
    requires TypeContract(lib) && page.Upright()
    ensures InBox(AddressWords(lib, page, address), NOTIFY_TAG_BOX) == []
    ensures InBox(OutOfBox(AddressWords(lib, page, address), ADDRESS_BOX), NOTIFY_TAG_BOX) == []
  {
    var drawn := AddressWords(lib, page, address);
    AddressOutsideTagBox(lib, page, address, []);
    assert [] + drawn == drawn;
    SelectionsCommute(drawn, ADDRESS_BOX, NOTIFY_TAG_BOX);
  }

  /**
   The tag box of a rewritten letter reads NOTIFY exactly when nothing in it survived the redaction, or
   what survived reads NOTIFY already; the address makes no difference to it.
   */
  lemma ResultTagReadsIff(lib: Library, document: Document, allowInternational: bool)
    requires Contract(lib) && document.pages != [] && document.pages[0].Upright()
    requires RewritePdf(lib, document, allowInternational).Rewritten?
    ensures RewritePdf(lib, document, allowInternational).document.pages != []
    ensures TagReads(lib, RewritePdf(lib, document, allowInternational).document.pages[0]) <==>
            InBox(Survivors(document), NOTIFY_TAG_BOX) == [] || BoxReadsNotify(lib, Survivors(document))
  {
    var tag := BoxesOfRewritten(lib, document, allowInternational);
    var words := RewritePdf(lib, document, allowInternational).document.pages[0].words;
    if BoxReadsNotify(lib, Survivors(document)) {
      SameSelectionReadsSame(lib, words, Survivors(document), NOTIFY_TAG_BOX);
    } else {
      NotifyIsRead(lib, words, NOTIFY_TAG_BOX);
      NotifyIsAscii();
      assert NfkdOk(lib, NOTIFY_TAG_TEXT);
    }
  }

  /** If a box is empty or reads NOTIFY, so does it after redaction elsewhere. */
  lemma TagOrNothingSurvives(lib: Library, words: seq<Word>)
    requires NfkdContract(lib)
    requires InBox(words, NOTIFY_TAG_BOX) == [] || BoxReadsNotify(lib, words)
    ensures var kept := OutOfBox(words, ADDRESS_BOX);
            InBox(kept, NOTIFY_TAG_BOX) == [] || BoxReadsNotify(lib, kept)
  {
    var found := InBox(words, NOTIFY_TAG_BOX);
    SelectionsCommute(words, ADDRESS_BOX, NOTIFY_TAG_BOX);
    NotifyIsRead(lib, words, NOTIFY_TAG_BOX);
    if found != [] {
      assert found == [found[0]] && [found[0]][..0] == [];
      if !found[0].box.Intersects(ADDRESS_BOX) {
        SameSelectionReadsSame(lib, words, OutOfBox(words, ADDRESS_BOX), NOTIFY_TAG_BOX);
      }
    }
  }

  /** A letter whose tag box was empty, or read NOTIFY, leaves with exactly one readable tag. */
  lemma TagIsThere(lib: Library, document: Document, allowInternational: bool)
    requires Contract(lib) && document.pages != [] && document.pages[0].Upright()
    requires RewritePdf(lib, document, allowInternational).Rewritten?
    requires InBox(document.pages[0].words, NOTIFY_TAG_BOX) == [] || TagReads(lib, document.pages[0])
    ensures RewritePdf(lib, document, allowInternational).document.pages != []
    ensures TagReads(lib, RewritePdf(lib, document, allowInternational).document.pages[0])
    ensures |InBox(RewritePdf(lib, document, allowInternational).document.pages[0].words, NOTIFY_TAG_BOX)| == 1
  {
    TagOrNothingSurvives(lib, document.pages[0].words);
    ResultTagReadsIff(lib, document, allowInternational);
    NotifyIsRead(lib, RewritePdf(lib, document, allowInternational).document.pages[0].words, NOTIFY_TAG_BOX);
  }

  /** A word of the tag that lies wholly in its box survives redaction. */
  lemma TagSurvivesRedaction(page: Page, w: Word)
    requires w in page.words && !w.box.IsEmpty() && w.box.Inside(NOTIFY_TAG_BOX)
    ensures w in Redacted(page).words
  {
    BoxesAreApart(w.box);
    InBoxMember(page.words, ADDRESS_BOX, w);
  }

  /**
   Reading a rewritten letter gives, up to compatibility characters, what of its new address meets the box;
   that is the new address exactly when all of it does.
   */
  lemma RewrittenAddressReads(lib: Library, document: Document, allowInternational: bool)
    requires Contract(lib) && document.pages != [] && document.pages[0].Upright()
    requires RewritePdf(lib, document, allowInternational).Rewritten?
    ensures RewritePdf(lib, document, allowInternational).document.pages != []
    ensures TextInAddressBox(lib, RewritePdf(lib, document, allowInternational).document) == lib.nfkd(ReadBack(lib, document))
    ensures ReadBack(lib, document) == NewAddress(lib, document) <==> AllMeet(DrawnAddress(lib, document), ADDRESS_BOX)
  {
    var _ := BoxesOfRewritten(lib, document, allowInternational);
    NewAddressIsShort(lib, document, allowInternational);
    DrawnAddressIsReadIff(lib, Redacted(document.pages[0]), NewAddress(lib, document));
  }

  /** An address no line of which is too wide for the box is read back as it was written. */
  lemma FittingAddressIsReadBack(lib: Library, document: Document, allowInternational: bool)
    requires Contract(lib) && document.pages != [] && document.pages[0].Upright()
    requires AcceptedHeight(document.pages[0].height) && FitsBox(lib, NewAddress(lib, document))
    requires RewritePdf(lib, document, allowInternational).Rewritten?
    ensures ReadBack(lib, document) == NewAddress(lib, document)
    ensures AllMeet(DrawnAddress(lib, document), ADDRESS_BOX)
  {
    NewAddressIsShort(lib, document, allowInternational);
    FittingAddressMeetsBox(lib, Redacted(document.pages[0]), NewAddress(lib, document));
    DrawnAddressIsReadIff(lib, Redacted(document.pages[0]), NewAddress(lib, document));
  }
}
