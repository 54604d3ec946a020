/**
 The pipeline as it runs: streams are opened by libraries that leave the cursor anywhere,
 rewound, and read raw by converters. Each stage is proved to compute the function that
 specifies it, which it could not if a raw read did not start at the beginning.
 */
module Pipeline {
  import opened Wrappers
  import opened Documents
  import opened Layout
  import opened Libraries
  import opened Overlays
  import opened Validation
  import opened Transformation
  import opened Rewriting
  import opened Sanitising
  import opened Streams
  import Extraction
  import Fonts

  /** A stream, rewound, holding the document. */
  ghost predicate Holds(s: BytesIO, document: Document)
    reads s
  {
    s.content == Pdf(document) && s.pos == 0
  }

  // ---- Validation ----

  /** convert_from_bytes: only a whole PDF can be made into images. */
  function ConvertFromBytes(lib: Library, data: Blob): Option<seq<seq<Colour>>> {
    if data.Pdf? then Some(Images(lib, data.document)) else None
  }

  method OverlayStream(srcPdf: BytesIO, isAnAttachment: bool) returns (out: Option<BytesIO>)
    requires srcPdf.content.Pdf?
    modifies srcPdf`pos
    ensures out.None? <==> !isAnAttachment && srcPdf.content.document.pages == []
    ensures out.Some? ==> srcPdf.pos == 0 && fresh(out.value)
    ensures out.Some? ==> Holds(out.value, WithPrintableAreasWhite(srcPdf.content.document, isAnAttachment))
  {
    var document := srcPdf.Open();
    var overlaid := OverlayPrintableAreasWithWhite(document.value, isAnAttachment);
    if overlaid.None? {
      return None;
    }
    var stream := new BytesIO(Pdf(overlaid.value));
    srcPdf.Rewind();
    out := Some(stream);
  }

  method GetInvalidPagesWithMessage(lib: Library, srcPdf: BytesIO, isAnAttachment: bool) returns (verdict: Verdict)
    requires srcPdf.content.Pdf?
    modifies srcPdf`pos
    ensures verdict == Validate(lib, srcPdf.content.document, isAnAttachment)
    ensures verdict.Valid? ==> srcPdf.pos == 0
  {
    var document := srcPdf.Open();
    var invalidPages := GetPagesWithInvalidOrientationOrSize(document.value);
    if |invalidPages| > 0 {
      return Invalid(NotA4PortraitOriented, invalidPages);
    }

    var pdfToValidate := OverlayStream(srcPdf, isAnAttachment);
    if pdfToValidate.None? {
      return Crash;
    }
    var data := pdfToValidate.value.Read();
    var images := ConvertFromBytes(lib, data);
    if images.None? {
      return Crash;
    }
    pdfToValidate.value.Rewind();
    invalidPages := GetOutOfBoundsPages(images.value);
    if |invalidPages| > 0 {
      return Invalid(ContentOutsidePrintableArea, invalidPages);
    }

    pdfToValidate.value.Rewind();
    var overlaid := pdfToValidate.value.Open();
    invalidPages := GetPagesWithNotifyTag(lib, overlaid.value, isAnAttachment);
    pdfToValidate.value.Rewind();
    if |invalidPages| > 0 {
      return Invalid(NotifyTagFoundInContent, invalidPages);
    }
    verdict := Valid;
  }

  // ---- Colours and fonts ----

  /** Ghostscript reads its input raw: anything but a whole PDF makes it fail. */
  function ConvertPdfToCmyk(lib: Library, data: Blob): Option<Document> {
    if data.Pdf? then lib.toCmyk(data.document) else None
  }

  function EmbedFonts(lib: Library, data: Blob): Option<Document> {
    if data.Pdf? then lib.embedFonts(data.document) else None
  }

  method ContainsColourSpaceIn(space: string, data: BytesIO) returns (r: Option<bool>)
    requires data.content.Pdf?
    modifies data`pos
    ensures r == ContainsColourSpace(space, data.content.document.pages)
    ensures r.Some? ==> data.pos == 0
  {
    var document := data.Open();
    r := DoesPdfContainColourSpace(space, document.value);
    if r.Some? {
      data.Rewind();
    }
  }

  method ConvertStream(lib: Library, data: BytesIO) returns (out: Option<BytesIO>)
    requires data.content.Pdf? && data.pos == 0
    modifies data`pos
    ensures out.Some? <==> lib.toCmyk(data.content.document).Some?
    ensures out.Some? ==> fresh(out.value) && Holds(out.value, lib.toCmyk(data.content.document).value)
  {
    var raw := data.Read();
    var converted := ConvertPdfToCmyk(lib, raw);
    if converted.None? {
      return None;
    }
    var stream := new BytesIO(Pdf(converted.value));
    out := Some(stream);
  }

  method NormaliseFontsAndColours(lib: Library, fileData: BytesIO) returns (out: Option<BytesIO>)
    requires fileData.content.Pdf? && fileData.pos == 0
    modifies fileData`pos
    ensures out.Some? <==> Normalise(lib, fileData.content.document).Some?
    ensures out.Some? ==> Holds(out.value, Normalise(lib, fileData.content.document).value)
    ensures out.Some? ==> out.value == fileData || fresh(out.value)
  {
    out := Some(fileData);
    var cmyk := ContainsColourSpaceIn("CMYK", fileData);
    if cmyk.None? {
      return None;
    }
    if !cmyk.value {
      out := ConvertStream(lib, fileData);
    } else {
      var rgb := ContainsColourSpaceIn("RGB", fileData);
      if rgb.None? {
        return None;
      }
      if rgb.value {
        out := ConvertStream(lib, fileData);
      }
    }
    if out.None? {
      return None;
    }

    var converted := out.value;
    assert Holds(converted, InPrintColours(lib, fileData.content.document).value);
    var document := converted.Open();
    var unembedded := Fonts.ContainsUnembeddedFonts(document.value, lib.recursionLimit);
    converted.Rewind();
    if unembedded.None? {
      return None;
    }
    if unembedded.value != {} {
      var raw := converted.Read();
      var embedded := EmbedFonts(lib, raw);
      if embedded.None? {
        return None;
      }
      var stream := new BytesIO(Pdf(embedded.value));
      out := Some(stream);
    }
  }

  // ---- Rewriting ----

  method ExtractTextFromFirstPage(lib: Library, pdf: BytesIO) returns (text: string)
    requires pdf.content.Pdf? && pdf.content.document.pages != []
    modifies pdf`pos
    ensures text == TextInAddressBox(lib, pdf.content.document)
    ensures pdf.pos == 0
  {
    pdf.Rewind();
    var document := pdf.Open();
    text := Extraction.ExtractTextFromPage(lib.nfkd, document.value.pages[0].words, ADDRESS_BOX);
    pdf.Rewind();
  }

  /** redact_precompiled_letter_address_block */
  method RedactAddressBlock(pdf: BytesIO) returns (out: BytesIO)
    requires pdf.content.Pdf? && pdf.content.document.pages != []
    modifies pdf`pos
    ensures fresh(out)
    ensures var document := pdf.content.document;
            Holds(out, document.(pages := document.pages[0 := Redacted(document.pages[0])]))
  {
    pdf.Rewind();
    var document := pdf.Open();
    var pages := document.value.pages;
    out := new BytesIO(Pdf(document.value.(pages := pages[0 := Redacted(pages[0])])));
  }

  method AddAddressTo(lib: Library, pdf: BytesIO, address: string) returns (out: BytesIO)
    requires pdf.content.Pdf? && pdf.content.document.pages != []
    modifies pdf`pos
    ensures fresh(out)
    ensures var document := pdf.content.document;
            Holds(out, document.(pages := document.pages[0 := WithAddress(lib, document.pages[0], address)]))
  {
    var document := pdf.Open();
    var reader := new PdfReader(document.value);
    AddAddress(lib, reader, address);
    out := new BytesIO(Pdf(Document(reader.pages, reader.objects)));
  }

  method AddNotifyTagTo(lib: Library, pdf: BytesIO) returns (out: BytesIO)
    requires pdf.content.Pdf? && pdf.content.document.pages != []
    modifies pdf`pos
    ensures fresh(out)
    ensures var document := pdf.content.document;
            Holds(out, document.(pages := document.pages[0 := WithTag(lib, document.pages[0])]))
  {
    var document := pdf.Open();
    var reader := new PdfReader(document.value);
    AddNotifyTag(lib, reader);
    out := new BytesIO(Pdf(Document(reader.pages, reader.objects)));
  }

  method RewriteAddressBlock(lib: Library, pdf: BytesIO, allowInternational: bool)
    returns (out: BytesIO, address: string, error: Option<string>)
    requires pdf.content.Pdf? && pdf.content.document.pages != []
    modifies pdf`pos
    ensures error == lib.errorCode(TextInAddressBox(lib, pdf.content.document), allowInternational)
    ensures error.None? ==>
              && address == NewAddress(lib, pdf.content.document)
              && Holds(out, Readdressed(lib, pdf.content.document, address)) && fresh(out)
  {
    var text := ExtractTextFromFirstPage(lib, pdf);
    error := lib.errorCode(text, allowInternational);
    if error.Some? {
      return pdf, "", error;
    }
    address := lib.normalise(text);
    var redacted := RedactAddressBlock(pdf);
    out := AddAddressTo(lib, redacted, address);
  }

  method RewriteStream(lib: Library, fileData: BytesIO, allowInternational: bool)
    returns (out: BytesIO, result: RewriteResult)
    requires fileData.content.Pdf? && fileData.content.document.pages != []
    modifies fileData`pos
    ensures result == RewritePdf(lib, fileData.content.document, allowInternational)
    ensures result.Rewritten? ==> Holds(out, result.document) && fresh(out)
  {
    // log_metadata_for_letter
    var _ := fileData.Open();

    var address, error;
    out, address, error := RewriteAddressBlock(lib, fileData, allowInternational);
    if error.Some? {
      return out, BadAddress(error.value);
    }

    var normalised := NormaliseFontsAndColours(lib, out);
    if normalised.None? {
      return out, RewriteCrash;
    }
    out := normalised.value;

    out.Rewind();
    var document := out.Open();
    if |document.value.pages| == 0 {
      return out, RewriteCrash;
    }
    var tagged := ReadsNotifyTag(lib, document.value.pages[0]);
    out.Rewind();
    if !tagged {
      out := AddNotifyTagTo(lib, out);
    }
    result := Rewritten(out.content.document, address);
  }

  // ---- Sanitising ----

  /** The part of sanitise_file_contents after the checks. */
  method SanitiseCheckedFile(lib: Library, file: BytesIO, allowInternational: bool, isAnAttachment: bool)
    returns (result: SanitiseResult)
    requires file.content.Pdf? && file.pos == 0
    requires isAnAttachment || file.content.document.pages != []
    modifies file`pos
    ensures result == SanitiseChecked(lib, file.content.document, allowInternational, isAnAttachment)
  {
    var fileData := file;
    var pageCount := |file.content.document.pages|;
    var recipientAddress: Option<string> := None;
    if isAnAttachment {
      var normalised := NormaliseFontsAndColours(lib, fileData);
      if normalised.None? {
        return UNREADABLE;
      }
      fileData := normalised.value;
    } else {
      var out, rewritten := RewriteStream(lib, fileData, allowInternational);
      match rewritten {
        case RewriteCrash => return UNREADABLE;
        case BadAddress(code) => return Failed(InvalidAddress(code), Some([1]), pageCount);
        case Rewritten(_, address) => recipientAddress := Some(address);
      }
      fileData := out;
    }

    var rawFile := fileData.Read();
    result := SanitiseResult(Some(pageCount), recipientAddress, None, None, Some(rawFile));
  }

  /** sanitise_file_contents, with its exceptions turned into results */
  method SanitiseFileContents(lib: Library, encoded: Blob, allowInternational: bool, isAnAttachment: bool)
    returns (result: SanitiseResult)
    ensures result == Sanitise(lib, encoded, allowInternational, isAnAttachment)
  {
    var fileData := new BytesIO(encoded);

    var document := fileData.Open();
    if document.None? {
      return UNREADABLE;
    }
    var pageCount := |document.value.pages|;
    if pageCount > LETTER_MAX_PAGE_COUNT {
      return Failed(LetterTooLong, None, pageCount);
    }

    var verdict := GetInvalidPagesWithMessage(lib, fileData, isAnAttachment);
    match verdict {
      case Crash => result := UNREADABLE;
      case Invalid(message, pages) => result := Failed(message, Some(pages), pageCount);
      case Valid => result := SanitiseCheckedFile(lib, fileData, allowInternational, isAnAttachment);
    }
  }
}
