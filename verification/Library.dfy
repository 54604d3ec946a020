/**
 What the program takes from libraries it calls: reportlab and pymupdf for type,
 Ghostscript for colours and fonts, poppler for pixels, notifications_utils for
 addresses. Each is a function of which only the contract below is assumed.
 */
module Libraries {
  import opened Wrappers
  import opened Geometry
  import opened Documents
  import opened Text
  import opened Layout
  import Extraction

  datatype Library = Library(
    // unicodedata.normalize("NFKD", _)
    nfkd: string -> string,
    // PrecompiledPostalAddress(_).error_code, given allow_international_letters
    errorCode: (string, bool) -> Option<string>,
    // PostalAddress(_).normalised
    normalise: string -> string,
    // the width in points of a text at a font size, in Arial
    width: (string, real) -> real,
    // the words pymupdf finds for lines drawn on a page, line by line
    typeset: (Page, seq<TextLine>) -> seq<seq<Word>>,
    // the points a drawn line puts ink on
    ink: (TextLine, Point) -> bool,
    // the points poppler samples on a page of the given size
    samples: (real, real) -> seq<Point>,
    // Ghostscript's colour conversion and font embedding; None is a failure of the process
    toCmyk: Document -> Option<Document>,
    embedFonts: Document -> Option<Document>,
    // how deep Python may still recurse
    recursionLimit: nat)

  /** NFKD (UAX #15) is idempotent, leaves ASCII alone and never removes a space or a line feed. */
  ghost predicate NfkdOk(lib: Library, s: string) {
    && lib.nfkd(lib.nfkd(s)) == lib.nfkd(s)
    && (Ascii(s) ==> lib.nfkd(s) == s)
    && (' ' in s ==> ' ' in lib.nfkd(s))
    && ('\n' in s ==> '\n' in lib.nfkd(s))
  }

  ghost predicate NfkdContract(lib: Library) {
    forall s :: NfkdOk(lib, s)
  }

  /** A valid address normalises to at most eight tight lines; normalising keeps validity and is idempotent. */
  ghost predicate AddressOk(lib: Library, s: string, intl: bool) {
    lib.errorCode(s, intl).None? ==>
      var a := lib.normalise(s);
      && a != "" && Tight(a) && |Lines(a)| <= 8
      && lib.errorCode(a, intl).None? && lib.normalise(a) == a
  }

  ghost predicate AddressContract(lib: Library) {
    forall s, intl :: AddressOk(lib, s, intl)
  }

  /** The box a drawn line stays in, in points from the top left of a page: ascent at most the size, descent a quarter. */
  function LineBox(height: real, line: TextLine, width: real): Rect {
    Rect(line.x, height - (line.baseline + line.size), line.x + width, height - (line.baseline - line.size / 4.0))
  }

  ghost predicate Drawable(lines: seq<TextLine>) {
    forall i :: 0 <= i < |lines| ==> lines[i].size > 0.0
  }

  /** One row of words per drawn line: its text, inside its box, numbered in reading order. */
  ghost predicate TypesetRows(lib: Library, page: Page, lines: seq<TextLine>, rows: seq<seq<Word>>) {
    && |rows| == |lines|
    && (forall i :: 0 <= i < |rows| ==> Extraction.Texts(rows[i]) == Words(lines[i].text))
    && (forall i, w :: 0 <= i < |rows| && w in rows[i] ==>
                         !w.box.IsEmpty() && w.box.Inside(LineBox(page.height, lines[i], lib.width(lines[i].text, lines[i].size))))
    && (forall i, j, w, v :: 0 <= i < j < |rows| && w in rows[i] && v in rows[j] ==>
                               Extraction.LineLt(Extraction.LineKey(w), Extraction.LineKey(v)))
    && (forall i, a, b :: 0 <= i < |rows| && 0 <= a < b < |rows[i]| ==>
                            && Extraction.LineKey(rows[i][a]) == Extraction.LineKey(rows[i][b])
                            && rows[i][a].word < rows[i][b].word)
  }

  /** Type drawn on an upright page comes back as drawn, whatever else is there. */
  ghost predicate TypesetOk(lib: Library, page: Page, lines: seq<TextLine>) {
    page.Upright() && Drawable(lines) ==> TypesetRows(lib, page, lines, lib.typeset(page, lines))
  }

  /** Where the words lie depends on nothing of the page but its height. */
  ghost predicate PlacingOk(lib: Library, page: Page, other: Page, lines: seq<TextLine>) {
    page.Upright() && other.Upright() && page.height == other.height ==>
      Placed(Extraction.Flatten(lib.typeset(page, lines))) == Placed(Extraction.Flatten(lib.typeset(other, lines)))
  }

  /** Ink stays in the line's box. */
  ghost predicate InkOk(lib: Library, line: TextLine, p: Point) {
    lib.ink(line, p) ==>
      && line.x <= p.x <= line.x + lib.width(line.text, line.size)
      && line.baseline - line.size / 4.0 <= p.y <= line.baseline + line.size
  }

  /** The contract for type; the tag is narrower than its box. */
  ghost predicate TypeContract(lib: Library) {
    && (forall page: Page, lines :: TypesetOk(lib, page, lines))
    && (forall page: Page, other: Page, lines :: PlacingOk(lib, page, other, lines))
    && (forall line, p :: InkOk(lib, line, p))
    && lib.width(NOTIFY_TAG_TEXT, NOTIFY_TAG_FONT_SIZE) <= ToPoints(15.191 - 1.8)
  }

  /** Conversion keeps a page's size, rotation and words, and leaves white what was white and black what was black. */
  ghost predicate SameLook(before: Page, after: Page) {
    && after.width == before.width
    && after.height == before.height
    && after.rotation == before.rotation
    && after.words == before.words
    && (forall p :: ColourAt(before.ops, p) == WHITE ==> ColourAt(after.ops, p) == WHITE)
    && (forall p :: ColourAt(before.ops, p) == BLACK ==> ColourAt(after.ops, p) == BLACK)
  }

  ghost predicate SameLetter(before: Document, after: Document) {
    && |after.pages| == |before.pages|
    && forall i :: 0 <= i < |before.pages| ==> SameLook(before.pages[i], after.pages[i])
  }

  /** Both converters, when they do not fail, keep a letter the same letter. */
  ghost predicate ConvertersOk(lib: Library, d: Document) {
    && (lib.toCmyk(d).Some? ==> SameLetter(d, lib.toCmyk(d).value))
    && (lib.embedFonts(d).Some? ==> SameLetter(d, lib.embedFonts(d).value))
  }

  ghost predicate ConverterContract(lib: Library) {
    forall d :: ConvertersOk(lib, d)
  }

  ghost predicate Contract(lib: Library) {
    NfkdContract(lib) && AddressContract(lib) && TypeContract(lib) && ConverterContract(lib)
  }
}
