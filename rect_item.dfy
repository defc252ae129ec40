/** The resizable, subdivided rectangle that the import dialog lays over a
    page: its eight resize handles, its grid of rows x columns cells, the
    press/move/release resize protocol and the clamping of moves to the
    scene. Coordinates are exact reals. */
module RectItem {
  import opened Wrappers
  import opened Geometry

  // ---------------------------------------------------------------------
  // Handles and cursors
  // ---------------------------------------------------------------------

  datatype Handle =
    | TopLeft | TopMiddle | TopRight
    | MiddleLeft | MiddleRight
    | BottomLeft | BottomMiddle | BottomRight

  /** The Qt cursor shapes the item asks for. */
  datatype CursorShape = SizeFDiag | SizeBDiag | SizeVer | SizeHor | SizeAll | Arrow

  /** Constructor defaults of the item. */
  const DefaultHandleSize: real := 10.0
  const DefaultRows: int := 3
  const DefaultColumns: int := 2

  /** The order in which the handles are first inserted into the handle
      dictionary, which is the order handleAt tries them in. */
  const HandleOrder: seq<Handle> :=
    [TopLeft, TopMiddle, TopRight, MiddleLeft, MiddleRight, BottomLeft, BottomMiddle, BottomRight]

  /** The handles drawn when none is hovered. */
  const HandleCorners: seq<Handle> := [TopLeft, TopRight, BottomLeft, BottomRight]

  /** The numeric id of a handle (handleTopLeft = 1 ... handleBottomRight = 8);
      the ids count the insertion order. */
  function HandleId(h: Handle): (n: int)
    ensures 1 <= n <= |HandleOrder| && HandleOrder[n - 1] == h
  {
    match h
    case TopLeft => 1
    case TopMiddle => 2
    case TopRight => 3
    case MiddleLeft => 4
    case MiddleRight => 5
    case BottomLeft => 6
    case BottomMiddle => 7
    case BottomRight => 8
  }

  /** The handleCursors table. */
  function HandleCursor(h: Handle): CursorShape {
    match h
    case TopLeft => SizeFDiag
    case TopMiddle => SizeVer
    case TopRight => SizeBDiag
    case MiddleLeft => SizeHor
    case MiddleRight => SizeHor
    case BottomLeft => SizeBDiag
    case BottomMiddle => SizeVer
    case BottomRight => SizeFDiag
  }

  /** The edges that a drag of handle h sets from the press snapshot. */
  function MovedEdges(h: Handle): set<Edge> {
    match h
    case TopLeft => {LeftEdge, TopEdge}
    case TopMiddle => {TopEdge}
    case TopRight => {RightEdge, TopEdge}
    case MiddleLeft => {LeftEdge}
    case MiddleRight => {RightEdge}
    case BottomLeft => {LeftEdge, BottomEdge}
    case BottomMiddle => {BottomEdge}
    case BottomRight => {RightEdge, BottomEdge}
  }

  lemma HandleOrderIsIdOrder()
    ensures |HandleOrder| == 8
    ensures forall k :: 0 <= k < |HandleOrder| ==> HandleId(HandleOrder[k]) == k + 1
    ensures forall h: Handle :: h in HandleOrder
  {
    forall h: Handle ensures h in HandleOrder { assert HandleOrder[HandleId(h) - 1] == h; }
  }

  /** The cursor table agrees with the geometry of the handles: the corner
      handles are exactly those that move two edges and get a diagonal
      cursor; a vertical cursor goes with moving the top or the bottom edge
      alone, a horizontal one with moving the left or the right edge alone. */
  lemma CursorMatchesMovedEdges(h: Handle)
    ensures h in HandleCorners <==> |MovedEdges(h)| == 2
    ensures h in HandleCorners <==> HandleCursor(h) == SizeFDiag || HandleCursor(h) == SizeBDiag
    ensures HandleCursor(h) == SizeVer <==> MovedEdges(h) == {TopEdge} || MovedEdges(h) == {BottomEdge}
    ensures HandleCursor(h) == SizeHor <==> MovedEdges(h) == {LeftEdge} || MovedEdges(h) == {RightEdge}
  {
    match h
    case TopLeft => assert |{LeftEdge, TopEdge}| == 2;
    case TopRight => assert |{RightEdge, TopEdge}| == 2;
    case BottomLeft => assert |{LeftEdge, BottomEdge}| == 2;
    case BottomRight => assert |{RightEdge, BottomEdge}| == 2;
    case TopMiddle => assert TopEdge !in {BottomEdge};
    case BottomMiddle => assert BottomEdge !in {TopEdge};
    case MiddleLeft => assert LeftEdge !in {RightEdge};
    case MiddleRight => assert RightEdge !in {LeftEdge};
  }

  // ---------------------------------------------------------------------
  // Handle zones and handleAt
  // ---------------------------------------------------------------------

  /** The zone of handle h for the item rectangle b and handle size s, in
      item coordinates: s x s squares at the corners, strips of depth s in
      between along each edge. */
  function Zone(b: Rect, s: real, h: Handle): Rect {
    match h
    case TopLeft => Rect(b.left, b.top, b.left + s, b.top + s)
    case TopMiddle => Rect(b.left + s, b.top, b.right - s, b.top + s)
    case TopRight => Rect(b.right - s, b.top, b.right, b.top + s)
    case MiddleLeft => Rect(b.left, b.top + s, b.left + s, b.bottom - s)
    case MiddleRight => Rect(b.right - s, b.top + s, b.right, b.bottom - s)
    case BottomLeft => Rect(b.left, b.bottom - s, b.left + s, b.bottom)
    case BottomMiddle => Rect(b.left + s, b.bottom - s, b.right - s, b.bottom)
    case BottomRight => Rect(b.right - s, b.bottom - s, b.right, b.bottom)
  }

  /** The handle dictionary as updateHandlesPos leaves it. */
  function HandleZones(b: Rect, s: real): (m: map<Handle, Rect>)
    ensures forall h: Handle :: h in m
  {
    HandleOrderIsIdOrder();
    map h | h in HandleOrder :: Zone(b, s, h)
  }

  /** The first handle, trying HandleOrder from index k on, whose zone
      contains p. */
  function FirstZoneFrom(zones: map<Handle, Rect>, p: Point, k: nat): Option<Handle>
    requires forall h: Handle :: h in zones
    requires k <= |HandleOrder|
    decreases |HandleOrder| - k
  {
    if k == |HandleOrder| then None
    else if Contains(zones[HandleOrder[k]], p) then Some(HandleOrder[k])
    else FirstZoneFrom(zones, p, k + 1)
  }

  /** From index k on, FirstZoneFrom finds a handle whose zone contains p
      and no handle numbered between k and it does; it finds none exactly
      when no handle numbered above k contains p. */
  lemma {:induction false} FirstZoneFromIsFirstMatch(zones: map<Handle, Rect>, p: Point, k: nat)
    requires forall h: Handle :: h in zones
    requires k <= |HandleOrder|
    ensures var r := FirstZoneFrom(zones, p, k);
      r.Some? ==> (k < HandleId(r.value) && Contains(zones[r.value], p) &&
        forall h: Handle :: k < HandleId(h) < HandleId(r.value) ==> !Contains(zones[h], p))
    ensures FirstZoneFrom(zones, p, k).None? <==>
      forall h: Handle :: k < HandleId(h) ==> !Contains(zones[h], p)
    decreases |HandleOrder| - k
  {
    HandleOrderIsIdOrder();
    if k < |HandleOrder| {
      FirstZoneFromIsFirstMatch(zones, p, k + 1);
    }
  }

  /** What handleAt answers: the first handle in insertion order whose zone
      contains p, or None. */
  function HandleAtSpec(zones: map<Handle, Rect>, p: Point): Option<Handle>
    requires forall h: Handle :: h in zones
  {
    FirstZoneFrom(zones, p, 0)
  }

  /** handleAt answers the lowest-numbered handle whose zone contains p,
      and None exactly when no zone contains p. */
  lemma HandleAtIsFirstMatch(zones: map<Handle, Rect>, p: Point)
    requires forall h: Handle :: h in zones
    ensures var r := HandleAtSpec(zones, p);
      r.Some? ==> (Contains(zones[r.value], p) &&
        forall h: Handle :: HandleId(h) < HandleId(r.value) ==> !Contains(zones[h], p))
    ensures HandleAtSpec(zones, p).None? <==> forall h: Handle :: !Contains(zones[h], p)
  {
    FirstZoneFromIsFirstMatch(zones, p, 0);
  }

  /** For a handle size s > 0 and a rectangle more than 2s wide and high,
      every zone lies inside the rectangle. */
  lemma ZonesInside(b: Rect, s: real, h: Handle)
    requires 0.0 < s && 2.0 * s < Width(b) && 2.0 * s < Height(b)
    ensures Inside(Zone(b, s, h), b)
  {
  }

  /** Such a rectangle: a point lies in some zone exactly when it lies in
      the rectangle but not strictly inside its inner area. */
  lemma {:induction false} ZoneHit(b: Rect, s: real, p: Point)
    requires 0.0 < s && 2.0 * s < Width(b) && 2.0 * s < Height(b)
    ensures (exists h: Handle :: Contains(Zone(b, s, h), p)) <==>
      Contains(b, p) &&
      !(b.left + s < p.x < b.right - s && b.top + s < p.y < b.bottom - s)
  {
    var inner := b.left + s < p.x < b.right - s && b.top + s < p.y < b.bottom - s;
    if Contains(b, p) && !inner {
      var h: Handle;
      if p.y <= b.top + s {
        h := if p.x <= b.left + s then TopLeft else if p.x < b.right - s then TopMiddle else TopRight;
      } else if p.y < b.bottom - s {
        h := if p.x <= b.left + s then MiddleLeft else MiddleRight;
      } else {
        h := if p.x <= b.left + s then BottomLeft else if p.x < b.right - s then BottomMiddle else BottomRight;
      }
      assert Contains(Zone(b, s, h), p);
    } else {
      forall h: Handle ensures !Contains(Zone(b, s, h), p) {
        ZonesInside(b, s, h);
      }
    }
  }

  /** Hence a press hits no handle, and drags the whole item, exactly when
      it lies outside the rectangle or strictly inside its inner area. */
  lemma ZoneCoverage(b: Rect, s: real, p: Point)
    requires 0.0 < s && 2.0 * s < Width(b) && 2.0 * s < Height(b)
    ensures HandleAtSpec(HandleZones(b, s), p).None? <==>
      !Contains(b, p) ||
      (b.left + s < p.x < b.right - s && b.top + s < p.y < b.bottom - s)
  {
    HandleOrderIsIdOrder();
    var zones := HandleZones(b, s);
    HandleAtIsFirstMatch(zones, p);
    ZoneHit(b, s, p);
    assert forall h: Handle :: zones[h] == Zone(b, s, h);
  }

  // ---------------------------------------------------------------------
  // Grid lines and sections
  // ---------------------------------------------------------------------

  datatype Line = Line(p1: Point, p2: Point)

  /** k n-ths of the length d. */
  function Part(d: real, k: int, n: int): real
    requires n >= 1
  {
    (k as real) * d / (n as real)
  }

  /** Line k of the grid cache: keys 0 .. rows-2 are the horizontal lines
      (line i at height i/rows), keys rows-1 .. rows+columns-3 the vertical
      ones (line i at i/columns of the width). */
  function GridLine(b: Rect, rows: int, columns: int, k: int): Line
    requires rows >= 1 && columns >= 1 && 0 <= k < rows + columns - 2
  {
    if k < rows - 1 then
      var y := b.top + Part(Height(b), k + 1, rows);
      Line(Point(b.left, y), Point(b.right, y))
    else
      var x := b.left + Part(Width(b), k - rows + 2, columns);
      Line(Point(x, b.top), Point(x, b.bottom))
  }

  /** The first n entries of the line cache. */
  function SomeGridLines(b: Rect, rows: int, columns: int, n: int): map<int, Line>
    requires rows >= 1 && columns >= 1 && n <= rows + columns - 2
  {
    map k | 0 <= k < n :: GridLine(b, rows, columns, k)
  }

  /** The first n entries of the line cache have exactly the keys
      0 .. n-1. */
  lemma SomeGridLinesKeys(b: Rect, rows: int, columns: int, n: int)
    requires rows >= 1 && columns >= 1 && n <= rows + columns - 2
    ensures forall k :: k in SomeGridLines(b, rows, columns, n) <==> 0 <= k < n
  {
  }

  /** The line cache updateHandlesPos builds: rows-1 horizontal and
      columns-1 vertical lines, keyed 0 .. rows+columns-3. */
  function GridLines(b: Rect, rows: int, columns: int): (m: map<int, Line>)
    requires rows >= 1 && columns >= 1
    ensures forall k :: k in m <==> 0 <= k < rows + columns - 2
  {
    SomeGridLines(b, rows, columns, rows + columns - 2)
  }

  /** The k-th section boundary along one axis, as getSections computes
      it: start lo, plus k parts of size d/n, divided by the scene size. */
  function Section(lo: real, d: real, n: int, k: int, scale: real): real
    requires n >= 1 && scale != 0.0
  {
    (lo + (d / (n as real)) * (k as real)) / scale
  }

  /** Cell (row j, column i) of the grid over b (scene coordinates), as a
      fraction of the scene width sw and height sh. */
  function Cell(b: Rect, rows: int, columns: int, sw: real, sh: real, j: int, i: int): Rect
    requires rows >= 1 && columns >= 1 && sw != 0.0 && sh != 0.0
  {
    Rect(Section(b.left, Width(b), columns, i, sw), Section(b.top, Height(b), rows, j, sh),
         Section(b.left, Width(b), columns, i + 1, sw), Section(b.top, Height(b), rows, j + 1, sh))
  }

  /** s is the section list of the grid over b: rows lists of columns cells,
      top to bottom and left to right. */
  predicate IsSections(s: seq<seq<Rect>>, b: Rect, rows: int, columns: int, sw: real, sh: real)
    requires rows >= 1 && columns >= 1 && sw != 0.0 && sh != 0.0
  {
    |s| == rows &&
    (forall j :: 0 <= j < rows ==> |s[j]| == columns) &&
    (forall j, i :: 0 <= j < rows && 0 <= i < columns ==> s[j][i] == Cell(b, rows, columns, sw, sh, j, i))
  }

  /** Neighbouring cells share their common edge. */
  lemma CellNeighbours(b: Rect, rows: int, columns: int, sw: real, sh: real, j: int, i: int)
    requires rows >= 1 && columns >= 1 && sw != 0.0 && sh != 0.0
    requires 0 <= j < rows && 0 <= i < columns
    ensures i + 1 < columns ==>
      Cell(b, rows, columns, sw, sh, j, i).right == Cell(b, rows, columns, sw, sh, j, i + 1).left
    ensures j + 1 < rows ==>
      Cell(b, rows, columns, sw, sh, j, i).bottom == Cell(b, rows, columns, sw, sh, j + 1, i).top
  {
  }

  /** The first boundary is the start and the n-th the end of the extent. */
  lemma SectionEnds(lo: real, d: real, n: int, scale: real)
    requires n >= 1 && scale != 0.0
    ensures Section(lo, d, n, 0, scale) == lo / scale
    ensures Section(lo, d, n, n, scale) == (lo + d) / scale
  {
    assert (d / (n as real)) * (n as real) == d;
  }

  /** For a non-negative extent and a positive scene size, boundaries with a
      larger index lie further along. */
  lemma SectionMono(lo: real, d: real, n: int, scale: real, k: int, k': int)
    requires n >= 1 && 0.0 < scale && 0.0 <= d && k <= k'
    ensures Section(lo, d, n, k, scale) <= Section(lo, d, n, k', scale)
  {
    var w := d / (n as real);
    var a, c := lo + w * (k as real), lo + w * (k' as real);
    assert 0.0 <= w;
    assert c - a == w * ((k' - k) as real);
    assert 0.0 <= c - a;
    assert c / scale - a / scale == (c - a) / scale;
  }

  /** The outer cells reach exactly the rectangle's edges: the first column
      starts at left/sw, the last column ends at right/sw, and likewise for
      the first and last rows. */
  lemma CellOuterEdges(b: Rect, rows: int, columns: int, sw: real, sh: real, j: int, i: int)
    requires rows >= 1 && columns >= 1 && sw != 0.0 && sh != 0.0
    requires 0 <= j < rows && 0 <= i < columns
    ensures Cell(b, rows, columns, sw, sh, j, 0).left == b.left / sw
    ensures Cell(b, rows, columns, sw, sh, j, columns - 1).right == b.right / sw
    ensures Cell(b, rows, columns, sw, sh, 0, i).top == b.top / sh
    ensures Cell(b, rows, columns, sw, sh, rows - 1, i).bottom == b.bottom / sh
  {
    SectionEnds(b.left, Width(b), columns, sw);
    SectionEnds(b.top, Height(b), rows, sh);
  }

  /** For an ordered rectangle and a scene of positive size, every cell is
      ordered, lies within the rectangle's fraction of the scene, and cells
      further right (further down) start where or after earlier ones end:
      the cells do not overlap. */
  lemma {:induction false} CellsOrdered(b: Rect, rows: int, columns: int, sw: real, sh: real,
                                        j: int, i: int, j': int, i': int)
    requires rows >= 1 && columns >= 1 && 0.0 < sw && 0.0 < sh && IsNormal(b)
    requires 0 <= j < rows && 0 <= i < columns && 0 <= j' < rows && 0 <= i' < columns
    ensures IsNormal(Cell(b, rows, columns, sw, sh, j, i))
    ensures Inside(Cell(b, rows, columns, sw, sh, j, i), Rect(b.left / sw, b.top / sh, b.right / sw, b.bottom / sh))
    ensures i < i' ==> Cell(b, rows, columns, sw, sh, j, i).right <= Cell(b, rows, columns, sw, sh, j', i').left
    ensures j < j' ==> Cell(b, rows, columns, sw, sh, j, i).bottom <= Cell(b, rows, columns, sw, sh, j', i').top
  {
    SectionEnds(b.left, Width(b), columns, sw);
    SectionEnds(b.top, Height(b), rows, sh);
    SectionMono(b.left, Width(b), columns, sw, 0, i);
    SectionMono(b.left, Width(b), columns, sw, i, i + 1);
    SectionMono(b.left, Width(b), columns, sw, i + 1, columns);
    SectionMono(b.top, Height(b), rows, sh, 0, j);
    SectionMono(b.top, Height(b), rows, sh, j, j + 1);
    SectionMono(b.top, Height(b), rows, sh, j + 1, rows);
    if i < i' {
      SectionMono(b.left, Width(b), columns, sw, i + 1, i');
    }
    if j < j' {
      SectionMono(b.top, Height(b), rows, sh, j + 1, j');
    }
  }

  /** Searching down from band m: a value t between the first boundary and
      boundary m+1 lies in some band k <= m, edges included. */
  lemma {:induction false} BandBelow(lo: real, d: real, n: int, scale: real, t: real, m: int) returns (k: int)
    requires n >= 1 && scale != 0.0 && 0 <= m < n
    requires Section(lo, d, n, 0, scale) <= t <= Section(lo, d, n, m + 1, scale)
    ensures 0 <= k <= m
    ensures Section(lo, d, n, k, scale) <= t <= Section(lo, d, n, k + 1, scale)
    decreases m
  {
    if Section(lo, d, n, m, scale) <= t {
      k := m;
    } else {
      k := BandBelow(lo, d, n, scale, t, m - 1);
    }
  }

  /** The cells cover the rectangle: every point of the rectangle's fraction
      of the scene lies, edges included, in some cell. */
  lemma CellsCoverRect(b: Rect, rows: int, columns: int, sw: real, sh: real, p: Point)
    requires rows >= 1 && columns >= 1 && sw != 0.0 && sh != 0.0
    requires b.left / sw <= p.x <= b.right / sw && b.top / sh <= p.y <= b.bottom / sh
    ensures exists j, i :: 0 <= j < rows && 0 <= i < columns && ClosedContains(Cell(b, rows, columns, sw, sh, j, i), p)
  {
    SectionEnds(b.left, Width(b), columns, sw);
    SectionEnds(b.top, Height(b), rows, sh);
    assert b.left + Width(b) == b.right && b.top + Height(b) == b.bottom;
    var i := BandBelow(b.left, Width(b), columns, sw, p.x, columns - 1);
    var j := BandBelow(b.top, Height(b), rows, sh, p.y, rows - 1);
    assert ClosedContains(Cell(b, rows, columns, sw, sh, j, i), p);
  }

  /** A boundary at k n-ths of d, as updateHandlesPos computes it, shifted
      by the item position and scaled, is section boundary k. */
  lemma PartIsSection(lo: real, d: real, k: int, n: int, shift: real, scale: real)
    requires n >= 1 && scale != 0.0
    ensures (lo + Part(d, k, n) + shift) / scale == Section(lo + shift, d, n, k, scale)
  {
    var w := d / (n as real);
    assert d == w * (n as real);
    assert (k as real) * d == ((k as real) * w) * (n as real);
    assert Part(d, k, n) == w * (k as real);
  }

  /** The cached grid lines (item coordinates) are the inner cell boundaries
      of the sections: horizontal line j-1 runs along the top of section row
      j, vertical line rows+i-2 along the left of section column i, once the
      item position is added and the result scaled to the scene. */
  lemma GridLinesAreCellBoundaries(b: Rect, pos: Point, rows: int, columns: int,
                                   sw: real, sh: real, j: int, i: int)
    requires rows >= 1 && columns >= 1 && sw != 0.0 && sh != 0.0
    requires 0 <= j < rows && 0 <= i < columns
    ensures j >= 1 ==>
      var l := GridLines(b, rows, columns)[j - 1];
      l.p1.y == l.p2.y && l.p1.x == b.left && l.p2.x == b.right &&
      (l.p1.y + pos.y) / sh == Cell(Translated(b, pos), rows, columns, sw, sh, j, i).top
    ensures i >= 1 ==>
      var l := GridLines(b, rows, columns)[rows + i - 2];
      l.p1.x == l.p2.x && l.p1.y == b.top && l.p2.y == b.bottom &&
      (l.p1.x + pos.x) / sw == Cell(Translated(b, pos), rows, columns, sw, sh, j, i).left
  {
    var t := Translated(b, pos);
    assert Width(t) == Width(b) && Height(t) == Height(b);
    if j >= 1 {
      assert GridLines(b, rows, columns)[j - 1] == GridLine(b, rows, columns, j - 1);
      PartIsSection(b.top, Height(b), j, rows, pos.y, sh);
    }
    if i >= 1 {
      assert GridLines(b, rows, columns)[rows + i - 2] == GridLine(b, rows, columns, rows + i - 2);
      PartIsSection(b.left, Width(b), i, columns, pos.x, sw);
    }
  }

  /** Writing the eight zones into any handle dictionary, in insertion
      order, yields the handle dictionary for b and s. */
  lemma AllZonesWritten(m: map<Handle, Rect>, b: Rect, s: real)
    ensures m[TopLeft := Rect(b.left, b.top, b.left + s, b.top + s)]
             [TopMiddle := Rect(b.left + s, b.top, b.right - s, b.top + s)]
             [TopRight := Rect(b.right - s, b.top, b.right, b.top + s)]
             [MiddleLeft := Rect(b.left, b.top + s, b.left + s, b.bottom - s)]
             [MiddleRight := Rect(b.right - s, b.top + s, b.right, b.bottom - s)]
             [BottomLeft := Rect(b.left, b.bottom - s, b.left + s, b.bottom)]
             [BottomMiddle := Rect(b.left + s, b.bottom - s, b.right - s, b.bottom)]
             [BottomRight := Rect(b.right - s, b.bottom - s, b.right, b.bottom)]
           == HandleZones(b, s)
  {
    var w := m[TopLeft := Rect(b.left, b.top, b.left + s, b.top + s)]
             [TopMiddle := Rect(b.left + s, b.top, b.right - s, b.top + s)]
             [TopRight := Rect(b.right - s, b.top, b.right, b.top + s)]
             [MiddleLeft := Rect(b.left, b.top + s, b.left + s, b.bottom - s)]
             [MiddleRight := Rect(b.right - s, b.top + s, b.right, b.bottom - s)]
             [BottomLeft := Rect(b.left, b.bottom - s, b.left + s, b.bottom)]
             [BottomMiddle := Rect(b.left + s, b.bottom - s, b.right - s, b.bottom)]
             [BottomRight := Rect(b.right - s, b.bottom - s, b.right, b.bottom)];
    var z := HandleZones(b, s);
    forall h: Handle ensures h in w && w[h] == z[h] {
      match h
      case TopLeft =>
      case TopMiddle =>
      case TopRight =>
      case MiddleLeft =>
      case MiddleRight =>
      case BottomLeft =>
      case BottomMiddle =>
      case BottomRight =>
    }
    assert w.Keys == z.Keys;
  }

  lemma NoGridLinesYet(base: map<int, Line>, b: Rect, rows: int, columns: int)
    requires rows >= 1 && columns >= 1
    ensures base + SomeGridLines(b, rows, columns, 0) == base
  {
    assert (base + SomeGridLines(b, rows, columns, 0)).Keys == base.Keys;
  }

  /** Writing line n into a cache that holds lines 0 .. n-1 over some older
      entries gives the cache that holds lines 0 .. n. */
  lemma ExtendGridLines(base: map<int, Line>, b: Rect, rows: int, columns: int, n: int)
    requires rows >= 1 && columns >= 1 && 0 <= n < rows + columns - 2
    ensures (base + SomeGridLines(b, rows, columns, n))[n := GridLine(b, rows, columns, n)] ==
      base + SomeGridLines(b, rows, columns, n + 1)
  {
    var l := (base + SomeGridLines(b, rows, columns, n))[n := GridLine(b, rows, columns, n)];
    var r := base + SomeGridLines(b, rows, columns, n + 1);
    assert l.Keys == r.Keys;
  }

  /** One step of the vertical-line loop: writing vertical line i under
      key rows+i-2 extends the cache by that key. */
  lemma ExtendColumnLines(base: map<int, Line>, b: Rect, rows: int, columns: int, i: int)
    requires rows >= 1 && 1 <= i < columns
    ensures var x := b.left + Part(Width(b), i, columns);
      (base + SomeGridLines(b, rows, columns, rows + i - 2))[rows + i - 2 := Line(Point(x, b.top), Point(x, b.bottom))] ==
      base + SomeGridLines(b, rows, columns, rows + (i + 1) - 2)
  {
    ExtendGridLines(base, b, rows, columns, rows + i - 2);
    assert GridLine(b, rows, columns, rows + i - 2) == Line(Point(b.left + Part(Width(b), i, columns), b.top),
                                                            Point(b.left + Part(Width(b), i, columns), b.bottom));
  }

  /** Two caches over the same grid size have the same keys, so refreshing
      one with the other replaces it entirely. */
  lemma RefreshGridLines(b: Rect, b': Rect, rows: int, columns: int)
    requires rows >= 1 && columns >= 1
    ensures GridLines(b, rows, columns) + GridLines(b', rows, columns) == GridLines(b', rows, columns)
  {
    var m, m' := GridLines(b, rows, columns), GridLines(b', rows, columns);
    assert (m + m').Keys == m'.Keys;
  }

  // ---------------------------------------------------------------------
  // Resize and move geometry
  // ---------------------------------------------------------------------

  /** The edge assignments of interactiveResize: starting from the current
      rectangle, the edges that handle h names are set from the snapshot
      plus the pointer displacement d. */
  function MoveEdges(current: Rect, press: Rect, h: Handle, d: Point): Rect {
    match h
    case TopLeft => current.(left := press.left + d.x, top := press.top + d.y)
    case TopMiddle => current.(top := press.top + d.y)
    case TopRight => current.(right := press.right + d.x, top := press.top + d.y)
    case MiddleLeft => current.(left := press.left + d.x)
    case MiddleRight => current.(right := press.right + d.x)
    case BottomLeft => current.(left := press.left + d.x, bottom := press.bottom + d.y)
    case BottomMiddle => current.(bottom := press.bottom + d.y)
    case BottomRight => current.(right := press.right + d.x, bottom := press.bottom + d.y)
  }

  /** Each handle overwrites only its own edges: an edge in MovedEdges(h)
      becomes the snapshot's edge plus the matching component of d, every
      other edge keeps the current rectangle's value. */
  lemma MoveEdgesSetsHandleEdges(current: Rect, press: Rect, h: Handle, d: Point, e: Edge)
    ensures EdgeOf(MoveEdges(current, press, h, d), e) ==
      (if e in MovedEdges(h) then EdgeOf(press, e) + Component(d, e) else EdgeOf(current, e))
  {
  }

  /** The overflow checks of interactiveResize, run before normalization:
      per axis, a left (top) edge outside the scene is pinned to the scene
      edge, otherwise an overflowing right (bottom) edge is. */
  function ClampToScene(r: Rect, pos: Point, scene: Rect): Rect {
    var x :=
      if Translated(r, pos).left < scene.left then r.(left := scene.left - pos.x)
      else if Translated(r, pos).right > scene.right then r.(right := scene.right - pos.x)
      else r;
    if Translated(x, pos).top < scene.top then x.(top := scene.top - pos.y)
    else if Translated(x, pos).bottom > scene.bottom then x.(bottom := scene.bottom - pos.y)
    else x
  }

  /** At most one edge per axis changes; afterwards the left and top edges
      are never outside the scene, the right (bottom) edge is inside unless
      both edges of that axis were outside, and an axis that was inside is
      left alone. */
  lemma ClampToSceneBounds(r: Rect, pos: Point, scene: Rect)
    ensures var c := ClampToScene(r, pos, scene);
      (c.left == r.left || c.right == r.right) &&
      (c.top == r.top || c.bottom == r.bottom) &&
      scene.left <= c.left + pos.x && scene.top <= c.top + pos.y &&
      (!(r.left + pos.x < scene.left && r.right + pos.x > scene.right) ==> c.right + pos.x <= scene.right) &&
      (!(r.top + pos.y < scene.top && r.bottom + pos.y > scene.bottom) ==> c.bottom + pos.y <= scene.bottom) &&
      (scene.left <= r.left + pos.x && r.right + pos.x <= scene.right ==> c.left == r.left && c.right == r.right) &&
      (scene.top <= r.top + pos.y && r.bottom + pos.y <= scene.bottom ==> c.top == r.top && c.bottom == r.bottom)
  {
  }

  /** The rectangle one resize step produces; it is always ordered. */
  function Resized(current: Rect, press: Rect, h: Handle, d: Point, pos: Point, scene: Rect): (r: Rect)
    ensures IsNormal(r)
  {
    Normalized(ClampToScene(MoveEdges(current, press, h, d), pos, scene))
  }

  /** When the current rectangle, placed at the item position, lies inside
      the scene and the clamped rectangle is not inverted, normalization
      changes nothing and the result lies inside the scene as well, however
      far the handle was dragged: a handle moves at most one edge per axis,
      so the clamp always has an edge to pin. */
  lemma ResizeStaysInScene(current: Rect, press: Rect, h: Handle, d: Point, pos: Point, scene: Rect)
    requires Inside(Translated(current, pos), scene)
    requires IsNormal(ClampToScene(MoveEdges(current, press, h, d), pos, scene))
    ensures Resized(current, press, h, d, pos, scene) == ClampToScene(MoveEdges(current, press, h, d), pos, scene)
    ensures Inside(Translated(Resized(current, press, h, d, pos, scene), pos), scene)
  {
    ClampToSceneBounds(MoveEdges(current, press, h, d), pos, scene);
  }

  /** From a rectangle inside the scene, a step that does not invert it
      keeps every edge the handle does not move, even when the moved edge
      is pinned to the scene. */
  lemma UnmovedEdgesKept(current: Rect, press: Rect, h: Handle, d: Point, pos: Point, scene: Rect, e: Edge)
    requires Inside(Translated(current, pos), scene)
    requires IsNormal(ClampToScene(MoveEdges(current, press, h, d), pos, scene))
    requires e !in MovedEdges(h)
    ensures EdgeOf(Resized(current, press, h, d, pos, scene), e) == EdgeOf(current, e)
  {
    ResizeStaysInScene(current, press, h, d, pos, scene);
    ClampToSceneBounds(MoveEdges(current, press, h, d), pos, scene);
    MoveEdgesSetsHandleEdges(current, press, h, d, e);
  }

  /** The dialog's rectangle (87, 110)-(783, 990) in the 870 x 1100 scene,
      its left handle dragged 200 to the left: the left edge is pinned to
      the scene's left edge. */
  lemma ResizePastSceneEdgeExample()
    ensures var r0 := Rect(87.0, 110.0, 783.0, 990.0);
      Resized(r0, r0, MiddleLeft, Point(-200.0, 0.0), Point(0.0, 0.0), Rect(0.0, 0.0, 870.0, 1100.0))
        == Rect(0.0, 110.0, 783.0, 990.0)
  {
    var r0 := Rect(87.0, 110.0, 783.0, 990.0);
    var m := MoveEdges(r0, r0, MiddleLeft, Point(-200.0, 0.0));
    assert m == Rect(-113.0, 110.0, 783.0, 990.0);
    assert ClampToScene(m, Point(0.0, 0.0), Rect(0.0, 0.0, 870.0, 1100.0)) == r0.(left := 0.0);
  }

  /** A drag that stays inside the scene and does not invert the rectangle
      moves exactly the handle's edges, by the matching component of the
      displacement from the snapshot; every other edge keeps its current
      value. */
  lemma ResizeMovesOnlyHandleEdges(current: Rect, press: Rect, h: Handle, d: Point, pos: Point, scene: Rect, e: Edge)
    requires var m := MoveEdges(current, press, h, d);
      IsNormal(m) && Inside(Translated(m, pos), scene)
    ensures EdgeOf(Resized(current, press, h, d, pos, scene), e) ==
      (if e in MovedEdges(h) then EdgeOf(press, e) + Component(d, e) else EdgeOf(current, e))
  {
    var m := MoveEdges(current, press, h, d);
    ClampToSceneBounds(m, pos, scene);
    assert ClampToScene(m, pos, scene) == m;
    MoveEdgesSetsHandleEdges(current, press, h, d, e);
  }

  /** Example: dragging the bottom-right handle of a 200 x 200 rectangle at
      (100, 100) by (+50, +30) in a 680 x 459 scene gives 250 x 230 with the
      same top-left corner. */
  lemma ResizeBottomRightExample()
    ensures var r0 := Rect(0.0, 0.0, 200.0, 200.0);
      Resized(r0, r0, BottomRight, Point(50.0, 30.0), Point(100.0, 100.0), Rect(0.0, 0.0, 680.0, 459.0))
        == Rect(0.0, 0.0, 250.0, 230.0)
  {
    var r0 := Rect(0.0, 0.0, 200.0, 200.0);
    var m := MoveEdges(r0, r0, BottomRight, Point(50.0, 30.0));
    assert m == Rect(0.0, 0.0, 250.0, 230.0);
    assert ClampToScene(m, Point(100.0, 100.0), Rect(0.0, 0.0, 680.0, 459.0)) == m;
  }

  /** The overflow checks run before normalization: dragging the left edge
      120 units to the right across a 40-unit-wide rectangle leaves the left
      edge at 130 unclamped, and after the swap it is the right edge, outside
      a 100 x 100 scene. */
  lemma ResizeCanLeaveSceneWhenInverted()
    ensures var r0 := Rect(10.0, 10.0, 50.0, 50.0);
      var scene := Rect(0.0, 0.0, 100.0, 100.0);
      var r := Resized(r0, r0, MiddleLeft, Point(120.0, 0.0), Point(0.0, 0.0), scene);
      r == Rect(50.0, 10.0, 130.0, 50.0) && !Inside(r, scene)
  {
    var r0 := Rect(10.0, 10.0, 50.0, 50.0);
    var m := MoveEdges(r0, r0, MiddleLeft, Point(120.0, 0.0));
    assert m == Rect(130.0, 10.0, 50.0, 50.0);
    assert ClampToScene(m, Point(0.0, 0.0), Rect(0.0, 0.0, 100.0, 100.0)) == m;
  }

  /** Each step edits the current rectangle, not the snapshot: once a drag
      of the top edge has crossed the bottom edge, the next step keeps the
      previous pointer height as the other edge, and the original bottom
      edge (100) is lost. Applying the same displacement to the snapshot
      would keep it. */
  lemma ResizeEditsCurrentRect()
    ensures var r0 := Rect(0.0, 0.0, 100.0, 100.0);
      var scene := Rect(0.0, 0.0, 1000.0, 1000.0);
      var origin := Point(0.0, 0.0);
      var r1 := Resized(r0, r0, TopMiddle, Point(0.0, 150.0), origin, scene);
      r1 == Rect(0.0, 100.0, 100.0, 150.0) &&
      Resized(r1, r0, TopMiddle, Point(0.0, 160.0), origin, scene) == Rect(0.0, 150.0, 100.0, 160.0) &&
      Resized(r0, r0, TopMiddle, Point(0.0, 160.0), origin, scene) == Rect(0.0, 100.0, 100.0, 160.0)
  {
    var r0 := Rect(0.0, 0.0, 100.0, 100.0);
    var scene := Rect(0.0, 0.0, 1000.0, 1000.0);
    var origin := Point(0.0, 0.0);
    var m1 := MoveEdges(r0, r0, TopMiddle, Point(0.0, 150.0));
    assert m1 == Rect(0.0, 150.0, 100.0, 100.0);
    assert ClampToScene(m1, origin, scene) == m1;
    var r1 := Rect(0.0, 100.0, 100.0, 150.0);
    var m2 := MoveEdges(r1, r0, TopMiddle, Point(0.0, 160.0));
    assert m2 == Rect(0.0, 160.0, 100.0, 150.0);
    assert ClampToScene(m2, origin, scene) == m2;
    var m3 := MoveEdges(r0, r0, TopMiddle, Point(0.0, 160.0));
    assert m3 == Rect(0.0, 160.0, 100.0, 100.0);
    assert ClampToScene(m3, origin, scene) == m3;
  }

  /** itemChange for a position change: each axis of the proposed position
      value is clamped on its own, the left (top) bound taking precedence
      over the right (bottom) one. */
  function ClampedPosition(rect: Rect, scene: Rect, value: Point): Point {
    var x :=
      if Translated(rect, value).left < scene.left then scene.left - rect.left
      else if Translated(rect, value).right > scene.right then scene.right - rect.right
      else value.x;
    var y :=
      if Translated(rect, value).top < scene.top then scene.top - rect.top
      else if Translated(rect, value).bottom > scene.bottom then scene.bottom - rect.bottom
      else value.y;
    Point(x, y)
  }

  /** An item whose proposed position already fits is not moved; an
      overflowing left (top) edge is pinned to the scene bound, otherwise an
      overflowing right (bottom) edge is; and an ordered rectangle no larger
      than the scene always ends up entirely inside it. */
  lemma ClampedPositionKeepsItemInScene(rect: Rect, scene: Rect, value: Point)
    ensures var r := ClampedPosition(rect, scene, value);
      (scene.left <= rect.left + value.x && rect.right + value.x <= scene.right ==> r.x == value.x) &&
      (scene.top <= rect.top + value.y && rect.bottom + value.y <= scene.bottom ==> r.y == value.y) &&
      (rect.left + value.x < scene.left ==> rect.left + r.x == scene.left) &&
      (scene.left <= rect.left + value.x && rect.right + value.x > scene.right ==> rect.right + r.x == scene.right) &&
      (rect.top + value.y < scene.top ==> rect.top + r.y == scene.top) &&
      (scene.top <= rect.top + value.y && rect.bottom + value.y > scene.bottom ==> rect.bottom + r.y == scene.bottom)
    ensures IsNormal(rect) && Width(rect) <= Width(scene) && Height(rect) <= Height(scene) ==>
      Inside(Translated(rect, ClampedPosition(rect, scene, value)), scene)
  {
  }

  /** Example: a 200 x 200 rectangle at (100, 100) in a 680 x 459 scene, cut
      into 2 rows and 1 column, yields the cells (100/680, 100/459) to
      (300/680, 200/459) and (100/680, 200/459) to (300/680, 300/459). */
  lemma SectionsExample()
    ensures var b := Translated(Rect(0.0, 0.0, 200.0, 200.0), Point(100.0, 100.0));
      Cell(b, 2, 1, 680.0, 459.0, 0, 0) == Rect(100.0 / 680.0, 100.0 / 459.0, 300.0 / 680.0, 200.0 / 459.0) &&
      Cell(b, 2, 1, 680.0, 459.0, 1, 0) == Rect(100.0 / 680.0, 200.0 / 459.0, 300.0 / 680.0, 300.0 / 459.0)
  {
  }

  // ---------------------------------------------------------------------
  // The item
  // ---------------------------------------------------------------------

  /** The graphics item. rect is in item coordinates; pos is the item's
      position in the scene, so the rectangle in scene coordinates is
      Translated(rect, pos). scene is the rectangle of the scene the item
      belongs to. */
  class GraphicsRectItem {
    const handleSize: real
    const scene: Rect
    var rect: Rect
    var pos: Point
    var rows: int
    var columns: int
    var handles: map<Handle, Rect>
    var lines: map<int, Line>
    var handleSelected: Option<Handle>
    var handleHovered: Option<Handle>
    var mousePressPos: Option<Point>
    var mousePressRect: Option<Rect>

    /** The grid size is positive, both caches agree with the current
        rectangle and grid size, and a selected handle comes with the press
        point and the snapshot it was selected with. */
    ghost predicate Valid()
      reads this
    {
      rows >= 1 && columns >= 1 &&
      handles == HandleZones(rect, handleSize) &&
      lines == GridLines(rect, rows, columns) &&
      (handleSelected.Some? ==> mousePressPos.Some? && mousePressRect.Some?)
    }

    /** An item over the rectangle at (x, y) of size w x h, placed in the
        scene whose rectangle is scene. */
    constructor (x: real, y: real, w: real, h: real, scene: Rect,
                 handleSize: real := DefaultHandleSize, rows: int := DefaultRows, columns: int := DefaultColumns)
      requires rows >= 1 && columns >= 1
      ensures Valid()
      ensures this.rect == Rect(x, y, x + w, y + h) && this.pos == Point(0.0, 0.0)
      ensures this.scene == scene && this.handleSize == handleSize
      ensures this.rows == rows && this.columns == columns
      ensures handleSelected.None? && handleHovered.None? && mousePressPos.None? && mousePressRect.None?
    {
      this.handleSize := handleSize;
      this.scene := scene;
      this.rect := Rect(x, y, x + w, y + h);
      this.pos := Point(0.0, 0.0);
      this.rows := rows;
      this.columns := columns;
      this.handles := map[];
      this.lines := map[];
      this.handleSelected := None;
      this.handleHovered := None;
      this.mousePressPos := None;
      this.mousePressRect := None;
      new;
      UpdateHandlesPos();
    }

    /** The section list of the grid, as fractions of the scene size. */
    method GetSections() returns (sections: seq<seq<Rect>>)
      requires Valid() && Width(scene) != 0.0 && Height(scene) != 0.0
      ensures IsSections(sections, Translated(rect, pos), rows, columns, Width(scene), Height(scene))
    {
      sections := [];
      var b := Translated(rect, pos);
      var sw, sh := Width(scene), Height(scene);
      var sectionWidth := Width(b) / (columns as real);
      var sectionHeight := Height(b) / (rows as real);
      for j := 0 to rows
        invariant |sections| == j
        invariant forall jj :: 0 <= jj < j ==> |sections[jj]| == columns
        invariant forall jj, i :: 0 <= jj < j && 0 <= i < columns ==>
          sections[jj][i] == Cell(b, rows, columns, sw, sh, jj, i)
      {
        var column := [];
        for i := 0 to columns
          invariant |column| == i
          invariant forall ii :: 0 <= ii < i ==> column[ii] == Cell(b, rows, columns, sw, sh, j, ii)
        {
          var p1 := Point((b.left + sectionWidth * (i as real)) / sw, (b.top + sectionHeight * (j as real)) / sh);
          var p2 := Point((b.left + sectionWidth * ((i + 1) as real)) / sw, (b.top + sectionHeight * ((j + 1) as real)) / sh);
          column := column + [Rect(p1.x, p1.y, p2.x, p2.y)];
        }
        sections := sections + [column];
      }
    }

    /** Sets the row count; the rectangle is kept and the line cache is
        rebuilt from scratch for the new grid size. */
    method SetRows(rows: int)
      requires Valid() && rows >= 1
      modifies this`rows, this`lines, this`handles
      ensures Valid()
      ensures this.rows == rows && lines == GridLines(rect, rows, columns)
    {
      this.rows := rows;
      lines := map[];
      UpdateHandlesPos();
    }

    /** Sets the column count, like SetRows. */
    method SetColumns(columns: int)
      requires Valid() && columns >= 1
      modifies this`columns, this`lines, this`handles
      ensures Valid()
      ensures this.columns == columns && lines == GridLines(rect, rows, columns)
    {
      this.columns := columns;
      lines := map[];
      UpdateHandlesPos();
    }

    /** The resize handle under point p (item coordinates), trying the
        handles in insertion order. */
    method HandleAt(p: Point) returns (r: Option<Handle>)
      requires Valid()
      ensures r == HandleAtSpec(handles, p)
    {
      HandleOrderIsIdOrder();
      var k := 0;
      while k < |HandleOrder|
        invariant 0 <= k <= |HandleOrder|
        invariant HandleAtSpec(handles, p) == FirstZoneFrom(handles, p, k)
      {
        var h := HandleOrder[k];
        if Contains(handles[h], p) {
          return Some(h);
        }
        k := k + 1;
      }
      return None;
    }

    /** Pointer moves over the item without a button pressed: the hovered
        handle is recorded and the cursor chosen from the cursor table, the
        move cursor when no handle is under the pointer. */
    method HoverMoveEvent(p: Point) returns (cursor: CursorShape)
      requires Valid()
      modifies this`handleHovered
      ensures Valid()
      ensures handleHovered == HandleAtSpec(handles, p)
      ensures cursor == if handleHovered.None? then SizeAll else HandleCursor(handleHovered.value)
    {
      var handle := HandleAt(p);
      handleHovered := handle;
      cursor := if handle.None? then SizeAll else HandleCursor(handle.value);
    }

    /** Pointer leaves the item: no handle is hovered any more. */
    method HoverLeaveEvent() returns (cursor: CursorShape)
      requires Valid()
      modifies this`handleHovered
      ensures Valid()
      ensures handleHovered.None? && cursor == Arrow
    {
      handleHovered := None;
      cursor := Arrow;
    }

    /** Button pressed at p: the handle under p is selected; only when there
        is one are the press point and a snapshot of the rectangle kept. */
    method MousePressEvent(p: Point)
      requires Valid()
      modifies this`handleSelected, this`mousePressPos, this`mousePressRect
      ensures Valid()
      ensures handleSelected == HandleAtSpec(handles, p)
      ensures handleSelected.Some? ==> mousePressPos == Some(p) && mousePressRect == Some(rect)
      ensures handleSelected.None? ==>
        mousePressPos == old(mousePressPos) && mousePressRect == old(mousePressRect)
    {
      var handle := HandleAt(p);
      handleSelected := handle;
      if handle.Some? {
        mousePressPos := Some(p);
        mousePressRect := Some(rect);
      }
    }

    /** Pointer moves with the button held. With a handle selected, the
        rectangle is resized towards p; otherwise the host moves the whole
        item to the position it proposes, which goes through ItemChange. */
    method MouseMoveEvent(p: Point, proposed: Point)
      requires Valid()
      modifies this`rect, this`handles, this`lines, this`pos
      ensures Valid()
      ensures old(handleSelected).Some? ==>
        rect == Resized(old(rect), mousePressRect.value, handleSelected.value,
                        Sub(p, mousePressPos.value), pos, scene) &&
        pos == old(pos)
      ensures old(handleSelected).None? ==>
        rect == old(rect) && pos == ClampedPosition(rect, scene, proposed)
    {
      if handleSelected.Some? {
        InteractiveResize(p);
      } else {
        pos := ItemChange(proposed);
      }
    }

    /** Button released: the gesture state is cleared. */
    method MouseReleaseEvent()
      requires Valid()
      modifies this`handleSelected, this`mousePressPos, this`mousePressRect
      ensures Valid()
      ensures handleSelected.None? && mousePressPos.None? && mousePressRect.None?
    {
      handleSelected := None;
      mousePressPos := None;
      mousePressRect := None;
    }

    /** The position the item's move is allowed to reach when the host
        proposes value. */
    method ItemChange(value: Point) returns (r: Point)
      ensures r == ClampedPosition(rect, scene, value)
    {
      r := value;
      if Translated(rect, r).left < scene.left {
        r := r.(x := scene.left - rect.left);
      } else if Translated(rect, r).right > scene.right {
        r := r.(x := scene.right - rect.right);
      }
      if Translated(rect, r).top < scene.top {
        r := r.(y := scene.top - rect.top);
      } else if Translated(rect, r).bottom > scene.bottom {
        r := r.(y := scene.bottom - rect.bottom);
      }
    }

    /** Recomputes the handle zones, and writes the grid lines into the line
        cache (keys that are not grid line keys are left as they were). */
    method UpdateHandlesPos()
      requires rows >= 1 && columns >= 1
      modifies this`handles, this`lines
      ensures handles == HandleZones(rect, handleSize)
      ensures lines == old(lines) + GridLines(rect, rows, columns)
    {
      PlaceHandles();
      DrawGridLines();
    }

    /** The handle part of updateHandlesPos: the eight zones of size
        handleSize along the edges of the current rectangle. */
    method PlaceHandles()
      modifies this`handles
      ensures handles == HandleZones(rect, handleSize)
    {
      var s := handleSize;
      var b := rect;
      handles := handles[TopLeft := Rect(b.left, b.top, b.left + s, b.top + s)];
      handles := handles[TopMiddle := Rect(b.left + s, b.top, b.right - s, b.top + s)];
      handles := handles[TopRight := Rect(b.right - s, b.top, b.right, b.top + s)];
      handles := handles[MiddleLeft := Rect(b.left, b.top + s, b.left + s, b.bottom - s)];
      handles := handles[MiddleRight := Rect(b.right - s, b.top + s, b.right, b.bottom - s)];
      handles := handles[BottomLeft := Rect(b.left, b.bottom - s, b.left + s, b.bottom)];
      handles := handles[BottomMiddle := Rect(b.left + s, b.bottom - s, b.right - s, b.bottom)];
      handles := handles[BottomRight := Rect(b.right - s, b.bottom - s, b.right, b.bottom)];
      AllZonesWritten(old(handles), b, s);
    }

    /** The line part of updateHandlesPos: rows-1 horizontal lines, then
        columns-1 vertical ones, written under consecutive keys. */
    method DrawGridLines()
      requires rows >= 1 && columns >= 1
      modifies this`lines
      ensures lines == old(lines) + GridLines(rect, rows, columns)
    {
      NoGridLinesYet(lines, rect, rows, columns);
      DrawRowLines(old(lines));
      DrawColumnLines(old(lines));
    }

    /** The first loop of the line part: horizontal line i at i/rows of
        the height, under key i-1. */
    method DrawRowLines(ghost base: map<int, Line>)
      requires rows >= 1 && columns >= 1
      requires lines == base + SomeGridLines(rect, rows, columns, 0)
      modifies this`lines
      ensures lines == base + SomeGridLines(rect, rows, columns, rows - 1)
    {
      var b, r, c := rect, rows, columns;
      for i := 1 to r
        invariant lines == base + SomeGridLines(b, r, c, i - 1)
      {
        var y := b.top + Part(Height(b), i, r);
        ExtendGridLines(base, b, r, c, i - 1);
        assert Line(Point(b.left, y), Point(b.right, y)) == GridLine(b, r, c, i - 1);
        lines := lines[i - 1 := Line(Point(b.left, y), Point(b.right, y))];
      }
    }

    /** The second loop of the line part: vertical line i at i/columns of
        the width, under key rows+i-2 (kept in k). */
    method DrawColumnLines(ghost base: map<int, Line>)
      requires rows >= 1 && columns >= 1
      requires lines == base + SomeGridLines(rect, rows, columns, rows - 1)
      modifies this`lines
      ensures lines == base + SomeGridLines(rect, rows, columns, rows + columns - 2)
    {
      var b, r, c := rect, rows, columns;
      var k := r - 1;
      for i := 1 to c
        invariant k == r + i - 2
        invariant lines == base + SomeGridLines(b, r, c, k)
      {
        var x := b.left + Part(Width(b), i, c);
        ExtendColumnLines(base, b, r, c, i);
        lines := lines[k := Line(Point(x, b.top), Point(x, b.bottom))];
        k := k + 1;
      }
    }

    /** One resize step towards mousePos with the selected handle: the
        handle's edges are set from the snapshot plus the pointer
        displacement, an overflowing edge is pinned to the scene, the
        rectangle is normalized and the caches are refreshed. */
    method InteractiveResize(mousePos: Point)
      requires Valid() && handleSelected.Some?
      modifies this`rect, this`handles, this`lines
      ensures Valid()
      ensures rect == Resized(old(rect), mousePressRect.value, handleSelected.value,
                              Sub(mousePos, mousePressPos.value), pos, scene)
    {
      var r := rect;
      var diff := Sub(mousePos, mousePressPos.value);
      var press := mousePressRect.value;

      match handleSelected.value {
        case TopLeft => r := r.(left := press.left + diff.x, top := press.top + diff.y);
        case TopMiddle => r := r.(top := press.top + diff.y);
        case TopRight => r := r.(right := press.right + diff.x, top := press.top + diff.y);
        case MiddleLeft => r := r.(left := press.left + diff.x);
        case MiddleRight => r := r.(right := press.right + diff.x);
        case BottomLeft => r := r.(left := press.left + diff.x, bottom := press.bottom + diff.y);
        case BottomMiddle => r := r.(bottom := press.bottom + diff.y);
        case BottomRight => r := r.(right := press.right + diff.x, bottom := press.bottom + diff.y);
      }
      assert r == MoveEdges(rect, press, handleSelected.value, diff);
      ghost var moved := r;

      if Translated(r, pos).left < scene.left {
        r := r.(left := scene.left - pos.x);
      } else if Translated(r, pos).right > scene.right {
        r := r.(right := scene.right - pos.x);
      }
      if Translated(r, pos).top < scene.top {
        r := r.(top := scene.top - pos.y);
      } else if Translated(r, pos).bottom > scene.bottom {
        r := r.(bottom := scene.bottom - pos.y);
      }

      assert r == ClampToScene(moved, pos, scene);
      r := Normalized(r);
      ghost var oldRect := rect;
      rect := r;
      UpdateHandlesPos();
      RefreshGridLines(oldRect, rect, rows, columns);
    }
  }
}
