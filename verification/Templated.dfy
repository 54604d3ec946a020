/** Letters made from templates: which parts, in which languages, in which order, and in which colours. */
module Templated {
  import opened Wrappers
  import opened Documents
  import opened Libraries
  import opened Streams
  import Pipeline

  datatype Language = English | Welsh

  datatype Purpose = Preview | Print

  datatype TemplateDetails = TemplateDetails(welshThenEnglish: bool, attachmentId: Option<string>)

  /** stitch_pdfs: the pages of the one after those of the other. The resource graph is not carried over. */
  function Stitched(first: Document, second: Document): Document {
    Document(first.pages + second.pages, map[])
  }

  method StitchPdfs(firstPdf: BytesIO, secondPdf: BytesIO) returns (out: Option<BytesIO>)
    modifies firstPdf`pos, secondPdf`pos
    ensures out.Some? <==> firstPdf.content.Pdf? && secondPdf.content.Pdf?
    ensures out.Some? ==>
              && fresh(out.value)
              && Pipeline.Holds(out.value, Stitched(firstPdf.content.document, secondPdf.content.document))
  {
    var first := firstPdf.Open();
    var second := secondPdf.Open();
    if first.None? || second.None? {
      return None;
    }
    var stream := new BytesIO(Pdf(Stitched(first.value, second.value)));
    out := Some(stream);
  }

  /** The letter itself: in Welsh then English, or in English; a page of an absent part is a failure to render. */
  function Letter(details: TemplateDetails, create: (Language, bool) -> Option<Document>): Option<Document> {
    if details.welshThenEnglish then
      if create(Welsh, true).None? || create(English, false).None? then None
      else Some(Stitched(create(Welsh, true).value, create(English, false).value))
    else create(English, true)
  }

  function InPurpose(lib: Library, purpose: Purpose, letter: Document): Option<Document> {
    if purpose == Print then lib.toCmyk(letter) else Some(letter)
  }

  /** generate_templated_pdf; None is an exception. Attachments have been sanitised, so they are added as they are. */
  function Generated(lib: Library, details: TemplateDetails, create: (Language, bool) -> Option<Document>,
                     attachment: Option<Blob>, purpose: Purpose): Option<Document> {
    var letter := Letter(details, create);
    if letter.None? then None
    else
      var pdf := InPurpose(lib, purpose, letter.value);
      if pdf.None? || details.attachmentId.None? then pdf
      else if attachment.None? || !attachment.value.Pdf? then None
      else Some(Stitched(pdf.value, attachment.value.document))
  }

  method GenerateTemplatedPdf(lib: Library, details: TemplateDetails, create: (Language, bool) -> Option<Document>,
                              attachment: Option<Blob>, purpose: Purpose) returns (out: Option<BytesIO>)
    ensures out.Some? <==> Generated(lib, details, create, attachment, purpose).Some?
    ensures out.Some? ==>
              && fresh(out.value)
              && Pipeline.Holds(out.value, Generated(lib, details, create, attachment, purpose).value)
  {
    var pdf: BytesIO;
    if details.welshThenEnglish {
      var welsh, english := create(Welsh, true), create(English, false);
      if welsh.None? || english.None? {
        return None;
      }
      var welshPdf := new BytesIO(Pdf(welsh.value));
      var englishPdf := new BytesIO(Pdf(english.value));
      var stitched := StitchPdfs(welshPdf, englishPdf);
      pdf := stitched.value;
    } else {
      var english := create(English, true);
      if english.None? {
        return None;
      }
      pdf := new BytesIO(Pdf(english.value));
    }

    if purpose == Print {
      var converted := Pipeline.ConvertStream(lib, pdf);
      if converted.None? {
        return None;
      }
      pdf := converted.value;
      pdf.Rewind();
    }

    if details.attachmentId.Some? {
      if attachment.None? {
        return None;
      }
      var attachmentPdf := new BytesIO(attachment.value);
      var stitched := StitchPdfs(pdf, attachmentPdf);
      return stitched;
    }
    out := Some(pdf);
  }

  function PageCount(document: Option<Document>): nat {
    if document.Some? then |document.value.pages| else 0
  }

  /** The pages of one document, in their order, are those of the other from some page on, looking the same. */
  ghost predicate Continues(whole: Document, from: nat, part: Document) {
    && from + |part.pages| <= |whole.pages|
    && forall i :: 0 <= i < |part.pages| ==> SameLook(part.pages[i], whole.pages[from + i])
  }

  function PagesOf(document: Option<Document>): seq<Page> {
    if document.Some? then document.value.pages else []
  }

  /** Its parts in order, and nothing else: Welsh, English, attachment; the attachment as it is. */
  ghost predicate InOrder(whole: Document, welsh: Option<Document>, english: Document, attached: Option<Document>) {
    && |whole.pages| == PageCount(welsh) + |english.pages| + PageCount(attached)
    && (welsh.Some? ==> Continues(whole, 0, welsh.value))
    && Continues(whole, PageCount(welsh), english)
    && (attached.Some? ==> whole.pages[PageCount(welsh) + |english.pages|..] == attached.value.pages)
  }

  lemma PartsInOrder(whole: Document, pdf: seq<Page>, welsh: Option<Document>, english: Document, attached: Option<Document>)
    requires |pdf| == PageCount(welsh) + |english.pages|
    requires forall i :: 0 <= i < |pdf| ==> SameLook((PagesOf(welsh) + english.pages)[i], pdf[i])
    requires whole.pages == pdf + PagesOf(attached)
    ensures InOrder(whole, welsh, english, attached)
  {
    var letter := PagesOf(welsh) + english.pages;
    forall i | 0 <= i < |english.pages|
      ensures SameLook(english.pages[i], whole.pages[PageCount(welsh) + i])
    {
      assert letter[PageCount(welsh) + i] == english.pages[i];
    }
    forall i | 0 <= i < PageCount(welsh)
      ensures SameLook(PagesOf(welsh)[i], whole.pages[i])
    {
      assert letter[i] == PagesOf(welsh)[i];
    }
  }

  lemma LetterIs(details: TemplateDetails, create: (Language, bool) -> Option<Document>)
    requires Letter(details, create).Some?
    ensures var welsh := if details.welshThenEnglish then create(Welsh, true) else None;
            var english := create(English, !details.welshThenEnglish);
            && english.Some? && (details.welshThenEnglish ==> welsh.Some?)
            && Letter(details, create).value.pages == PagesOf(welsh) + english.value.pages
  {
    if !details.welshThenEnglish {
      assert [] + create(English, true).value.pages == create(English, true).value.pages;
    }
  }

  lemma InPurposeLooksTheSame(lib: Library, purpose: Purpose, letter: Document)
    requires ConverterContract(lib) && InPurpose(lib, purpose, letter).Some?
    ensures SameLetter(letter, InPurpose(lib, purpose, letter).value)
  {
    assert ConvertersOk(lib, letter);
  }

  lemma GeneratedIs(lib: Library, details: TemplateDetails, create: (Language, bool) -> Option<Document>,
                    attachment: Option<Blob>, purpose: Purpose)
    requires Generated(lib, details, create, attachment, purpose).Some?
    ensures Letter(details, create).Some? && InPurpose(lib, purpose, Letter(details, create).value).Some?
    ensures details.attachmentId.Some? ==> attachment.Some? && attachment.value.Pdf?
    ensures Generated(lib, details, create, attachment, purpose).value.pages
         == InPurpose(lib, purpose, Letter(details, create).value).value.pages
            + (if details.attachmentId.Some? then attachment.value.document.pages else [])
  {
  }

  /** A printed letter is its parts in order, and nothing else: Welsh, English, attachment. */
  lemma GeneratedInOrder(lib: Library, details: TemplateDetails, create: (Language, bool) -> Option<Document>,
                         attachment: Option<Blob>, purpose: Purpose)
    requires ConverterContract(lib)
    requires Generated(lib, details, create, attachment, purpose).Some?
    ensures create(English, !details.welshThenEnglish).Some?
    ensures details.welshThenEnglish ==> create(Welsh, true).Some?
    ensures details.attachmentId.Some? ==> attachment.Some? && attachment.value.Pdf?
    ensures InOrder(Generated(lib, details, create, attachment, purpose).value,
                    if details.welshThenEnglish then create(Welsh, true) else None,
                    create(English, !details.welshThenEnglish).value,
                    if details.attachmentId.Some? then Some(attachment.value.document) else None)
  {
    GeneratedIs(lib, details, create, attachment, purpose);
    LetterIs(details, create);
    var letter := Letter(details, create).value;
    InPurposeLooksTheSame(lib, purpose, letter);
    PartsInOrder(Generated(lib, details, create, attachment, purpose).value, InPurpose(lib, purpose, letter).value.pages,
                 if details.welshThenEnglish then create(Welsh, true) else None,
                 create(English, !details.welshThenEnglish).value,
                 if details.attachmentId.Some? then Some(attachment.value.document) else None);
  }

  /** A preview has its pages as they were made; for print the letter is converted, but not its attachment. */
  lemma PurposeDecides(lib: Library, details: TemplateDetails, create: (Language, bool) -> Option<Document>,
                       attachment: Option<Blob>, purpose: Purpose)
    requires Generated(lib, details, create, attachment, purpose).Some?
    ensures create(English, !details.welshThenEnglish).Some?
    ensures details.welshThenEnglish ==> create(Welsh, true).Some?
    ensures details.attachmentId.Some? ==> attachment.Some? && attachment.value.Pdf?
    ensures var whole := Generated(lib, details, create, attachment, purpose).value;
            var made := (if details.welshThenEnglish then create(Welsh, true).value.pages else [])
                        + create(English, !details.welshThenEnglish).value.pages;
            var attached := if details.attachmentId.Some? then attachment.value.document.pages else [];
            if purpose == Preview then whole.pages == made + attached
            else exists letter: Document :: && letter.pages == made && lib.toCmyk(letter).Some?
                                            && whole.pages == lib.toCmyk(letter).value.pages + attached
  {
    GeneratedIs(lib, details, create, attachment, purpose);
    LetterIs(details, create);
    var letter := Letter(details, create).value;
    assert InPurpose(lib, purpose, letter) == if purpose == Preview then Some(letter) else lib.toCmyk(letter);
  }
}
