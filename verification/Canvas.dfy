/** The drawing surface: white cover rectangles, red tints and text, on a page the size of A4. */
module Canvas {
  import opened Geometry
  import opened Documents
  import opened Layout

  /** The paint operation for an area given in millimetres from the top left. */
  function FillArea(area: Rect, colour: Colour): Paint {
    Fill(
      ToPoints(area.x0),
      A4HeightInPoints() - ToPoints(area.y1),
      ToPoints(area.x1) - ToPoints(area.x0),
      ToPoints(area.y1) - ToPoints(area.y0),
      colour)
  }

  function FillAreas(areas: seq<Rect>, colour: Colour): seq<Paint> {
    seq(|areas|, i requires 0 <= i < |areas| => FillArea(areas[i], colour))
  }

  /** The ink of lines of text. */
  function Marks(ink: (TextLine, Point) -> bool, lines: seq<TextLine>): seq<Paint> {
    seq(|lines|, i requires 0 <= i < |lines| => Mark(p => ink(lines[i], p), lines[i].colour))
  }

  /** Marks cover what some line puts ink on. */
  lemma MarksCover(ink: (TextLine, Point) -> bool, lines: seq<TextLine>, p: Point)
    ensures CoveredBy(Marks(ink, lines), p) <==> exists i :: 0 <= i < |lines| && ink(lines[i], p)
  {
    var marks := Marks(ink, lines);
    forall i | 0 <= i < |lines|
      ensures marks[i].Covers(p) <==> ink(lines[i], p)
    {
    }
  }

  class NotifyCanvas {
    const colour: Colour
    var paints: seq<Paint>
    var lines: seq<TextLine>

    constructor (colour: Colour)
      ensures this.colour == colour && paints == [] && lines == []
    {
      this.colour := colour;
      paints, lines := [], [];
    }

    /** Fills the rectangle with two given corners, in millimetres from the top left of the page. */
    method Rectangle(pt1: Point, pt2: Point)
      modifies this`paints
      ensures paints == old(paints) + [FillArea(Spanning(pt1, pt2), colour)]
    {
      var leftX := ToPoints(Min(pt1.x, pt2.x));
      var rightX := ToPoints(Max(pt1.x, pt2.x));
      var topY := ToPoints(Min(pt1.y, pt2.y));
      var bottomY := ToPoints(Max(pt1.y, pt2.y));

      var bottomYFromBottom := A4HeightInPoints() - bottomY;

      var width := rightX - leftX;
      var height := bottomY - topY;
      paints := paints + [Fill(leftX, bottomYFromBottom, width, height, colour)];
    }

    /** Draws lines of text: their ink on the paper and their text for readers of the file. */
    method DrawText(ink: (TextLine, Point) -> bool, drawn: seq<TextLine>)
      modifies this`paints, this`lines
      ensures paints == old(paints) + Marks(ink, drawn)
      ensures lines == old(lines) + drawn
    {
      paints := paints + Marks(ink, drawn);
      lines := lines + drawn;
    }
  }

  /**
   What a rectangle call paints, whichever two opposite corners it is given and in whichever order:
   exactly the points of the area, seen from the top left.
   */
  lemma RectangleCovers(area: Rect, pt1: Point, pt2: Point, colour: Colour, p: Point)
    requires area.x0 <= area.x1 && area.y0 <= area.y1
    requires {pt1.x, pt2.x} == {area.x0, area.x1} && {pt1.y, pt2.y} == {area.y0, area.y1}
    ensures FillArea(Spanning(pt1, pt2), colour).Covers(p) <==> area.Contains(FromTopLeft(p))
  {
    assert pt1.x in {area.x0, area.x1} && pt2.x in {area.x0, area.x1};
    assert area.x0 in {pt1.x, pt2.x} && area.x1 in {pt1.x, pt2.x};
    assert pt1.y in {area.y0, area.y1} && pt2.y in {area.y0, area.y1};
    assert area.y0 in {pt1.y, pt2.y} && area.y1 in {pt1.y, pt2.y};
    assert Spanning(pt1, pt2) == area;
  }

  lemma FillAreaCovers(area: Rect, colour: Colour, p: Point)
    ensures FillArea(area, colour).Covers(p) <==> area.Contains(FromTopLeft(p))
  {
  }
}
