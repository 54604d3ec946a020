/**
 The measurements of a letter: the published printable areas, the areas tinted
 red for users, and the two boxes from which text is extracted. All areas are in
 millimetres from the top left of an A4 sheet.
 */
module Layout {
  import opened Geometry

  const A4_WIDTH := 210.0
  const A4_HEIGHT := 297.0

  const BORDER_LEFT := 15.0
  const BORDER_RIGHT := 195.0
  const BORDER_TOP := 5.0
  const BORDER_BOTTOM := 292.0

  const BODY_TOP := 95.0

  const SERVICE_ADDRESS_LEFT := 125.0

  const ADDRESS_LEFT := 24.6
  const ADDRESS_RIGHT := 120.0
  const ADDRESS_TOP := 39.5
  const ADDRESS_BOTTOM := 66.3

  const LOGO_BOTTOM := 30.0

  const ADDRESS_FONT_SIZE := 8.0
  const ADDRESS_LINE_HEIGHT := 8.5
  const ADDRESS_RISE := 2.0

  const NOTIFY_TAG_MARGIN := 1.8
  const NOTIFY_TAG_FONT_SIZE := 6.0
  const NOTIFY_TAG_TEXT := "NOTIFY"

  const LETTER_MAX_PAGE_COUNT: nat := 10

  function A4HeightInPoints(): real { ToPoints(A4_HEIGHT) }

  const SHEET := Rect(0.0, 0.0, 210.0, 297.0)
  const BODY := Rect(15.0, 95.0, 195.0, 292.0)
  const SERVICE_ADDRESS := Rect(125.0, 5.0, 195.0, 95.0)
  const LOGO := Rect(15.0, 5.0, 125.0, 30.0)
  const ADDRESS_WINDOW := Rect(24.6, 39.5, 120.0, 66.3)
  const CONTINUATION := Rect(15.0, 5.0, 195.0, 292.0)

  /** Where text is looked for, in points from the top left of the page itself. */
  const ADDRESS_BOX := ADDRESS_WINDOW.Grow(3.0).InPoints()
  const NOTIFY_TAG_BOX := Rect(0.0, 0.0, 15.191, 6.149).InPoints()

  /** The areas a service may print in: the page with the address has four, every other page one. */
  function PrintableAreas(isFirstPage: bool): seq<Rect> {
    if isFirstPage then [BODY, SERVICE_ADDRESS, LOGO, ADDRESS_WINDOW] else [CONTINUATION]
  }

  /** A point of a page, in millimetres from the top left of the A4 sheet laid on the page's origin. */
  function FromTopLeft(p: Point): Point {
    Point(ToMm(p.x), ToMm(A4HeightInPoints() - p.y))
  }
}
