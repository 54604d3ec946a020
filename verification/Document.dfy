/**
 A letter as the program sees it: pages with painted ink, positioned words, images
 and a resource graph, and the byte blobs in which letters travel.
 */
module Documents {
  import opened Wrappers
  import opened Geometry

  datatype Colour = Rgb(red: nat, green: nat, blue: nat)

  const WHITE := Rgb(255, 255, 255)
  const BLACK := Rgb(0, 0, 0)
  const RED_TINT := Rgb(255, 0, 0)

  /**
   One opaque paint operation, in PDF user space (points, y upwards): a filled
   rectangle, or a mark of any shape such as a glyph, a line or part of an image.
   */
  datatype Paint =
    | Fill(left: real, bottom: real, width: real, height: real, colour: Colour)
    | Mark(shape: Point -> bool, colour: Colour)
  {
    predicate Covers(p: Point) {
      match this
      case Fill(left, bottom, width, height, _) => left <= p.x < left + width && bottom < p.y <= bottom + height
      case Mark(shape, _) => shape(p)
    }
  }

  predicate CoveredBy(ops: seq<Paint>, p: Point) {
    exists i :: 0 <= i < |ops| && ops[i].Covers(p)
  }

  /** The colour seen at a point: that of the last operation covering it; paper is white. */
  function ColourAt(ops: seq<Paint>, p: Point): Colour {
    if ops == [] then WHITE
    else if ops[|ops| - 1].Covers(p) then ops[|ops| - 1].colour
    else ColourAt(ops[..|ops| - 1], p)
  }

  /** Painting more ops: the new ones hide the old exactly where they cover. */
  lemma {:induction false} ColourAtConcat(a: seq<Paint>, b: seq<Paint>, p: Point)
    ensures ColourAt(a + b, p) == if CoveredBy(b, p) then ColourAt(b, p) else ColourAt(a, p)
  {
    if b == [] {
      assert a + b == a;
    } else {
      var init := b[..|b| - 1];
      assert (a + b)[..|a + b| - 1] == a + init;
      ColourAtConcat(a, init, p);
      assert b == init + [b[|b| - 1]];
      if CoveredBy(init, p) {
        var i :| 0 <= i < |init| && init[i].Covers(p);
        assert b[i].Covers(p);
      }
    }
  }

  predicate AllOf(colour: Colour, ops: seq<Paint>) {
    forall i :: 0 <= i < |ops| ==> ops[i].colour == colour
  }

  /** Ink of one colour shows that colour wherever it covers. */
  lemma {:induction false} OneColour(colour: Colour, ops: seq<Paint>, p: Point)
    requires AllOf(colour, ops)
    ensures ColourAt(ops, p) == if CoveredBy(ops, p) then colour else WHITE
  {
    if ops != [] {
      var init, last := ops[..|ops| - 1], ops[|ops| - 1];
      OneColour(colour, init, p);
      if !last.Covers(p) && CoveredBy(ops, p) {
        var i :| 0 <= i < |ops| && ops[i].Covers(p);
        assert init[i].Covers(p);
      }
      if CoveredBy(init, p) {
        var i :| 0 <= i < |init| && init[i].Covers(p);
        assert ops[i].Covers(p);
      }
    }
  }

  /** A word as pymupdf reports it: its box in points from the top left of the page, and its place in the text. */
  datatype Word = Word(box: Rect, text: string, block: nat, line: nat, word: nat)

  /** A line of text as drawn: its baseline (rise included) in user space, font size and colour. */
  datatype TextLine = TextLine(x: real, baseline: real, size: real, text: string, colour: Colour)

  /** The objects of a PDF file. */
  datatype Obj =
    | Dictionary(entries: map<string, Obj>)
    | Array(items: seq<Obj>)
    | Indirect(id: nat)
    | Atom(text: string)

  /**
   A page: its media box size in points and rotation, what is painted on it, its words, the
   colour spaces of its images (None when they cannot be read) and its resources (None when missing).
   */
  datatype Page = Page(
    width: real,
    height: real,
    rotation: Option<int>,
    ops: seq<Paint>,
    words: seq<Word>,
    images: Option<seq<string>>,
    resources: Option<Obj>)
  {
    predicate Upright() {
      rotation == None || rotation == Some(0)
    }
  }

  datatype Document = Document(pages: seq<Page>, objects: map<nat, Obj>)

  /** The contents of a buffer or a stored object; Tail is what is left of one after the first few bytes. */
  datatype Blob = Pdf(document: Document) | NotPdf(text: string) | Tail(whole: Blob, from: nat)

  /** pypdf's merge_page and its like: new ink over the old, new words after the old. */
  function Merge(page: Page, ops: seq<Paint>, words: seq<Word>): Page {
    page.(ops := page.ops + ops, words := page.words + words)
  }

  /** The position and text of words, without pymupdf's numbering. */
  function Placed(words: seq<Word>): seq<(Rect, string)> {
    seq(|words|, i requires 0 <= i < |words| => (words[i].box, words[i].text))
  }
}
