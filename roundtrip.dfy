/** Round trips between `decode` and `encode` for an OLC library that
    behaves as an idealised uniform grid at one code length
    (`Olc.UniformGrid`).  Along each axis a cell is `origin + K * size` to
    `origin + (K + 1) * size` for a whole number `K`. */
module RoundTrip {
  import opened Wrappers
  import opened Numerals
  import opened Grammar
  import opened BuildingId
  import opened Properties
  import Olc

  /** The index of the grid cell holding `x`. */
  function Index(x: real, origin: real, size: real): int
    requires size > 0.0
  {
    ((x - origin) / size).Floor
  }

  lemma Distribute(size: real, i: int, j: int)
    ensures (i + j) as real * size == i as real * size + j as real * size
  {
  }

  lemma Distribute2(size: real, x: real, y: real)
    ensures (x + y) * size == x * size + y * size
  {
  }

  /** A point half a cell past the edge of cell `j` lies in cell `j`. */
  lemma MidCell(origin: real, size: real, j: int)
    requires size > 0.0
    ensures Olc.Snap(origin + j as real * size + size / 2.0, origin, size) == origin + j as real * size
  {
    var a := j as real + 0.5;
    var x := origin + j as real * size + size / 2.0;
    Distribute2(size, j as real, 0.5);
    assert x == origin + a * size;
    Olc.SnapCell(origin, size, a, j);
    assert Olc.Snap(x, origin, size) == origin + j as real * size;
  }

  /** A point on the lower edge of cell `j` lies in cell `j`. */
  lemma OnEdge(origin: real, size: real, j: int)
    requires size > 0.0
    ensures Olc.Snap(origin + j as real * size, origin, size) == origin + j as real * size
  {
    Olc.SnapCell(origin, size, j as real, j);
  }

  lemma Scale(n: real, a: real, b: real)
    requires a == b
    ensures n * a == n * b
  {
  }

  lemma Quotient(a: real, b: real, s: real, t: real)
    requires a == b && s == t && t != 0.0
    ensures a / s == b / t
  {
  }

  /** Rounding the distance, in cells, between the upper edges of cells `j`
      and `i`, or between their lower edges, gives `i - j`. */
  lemma RoundedSteps(origin: real, size: real, i: int, j: int)
    requires size > 0.0
    ensures Round(((origin + i as real * size + size) - (origin + j as real * size + size)) / size) == i - j
    ensures Round(((origin + i as real * size) - (origin + j as real * size)) / size) == i - j
  {
    var d := ((origin + i as real * size + size) - (origin + j as real * size + size)) / size;
    var e := ((origin + i as real * size) - (origin + j as real * size)) / size;
    Distribute(size, i - j, j);
    Olc.CancelScale(0.0, size, (i - j) as real);
    assert d == (i - j) as real && e == (i - j) as real;
    RoundUnique((i - j) as real, i - j);
  }

  /** The upper edge of a box `up` cells above grid cell `K` (from `lo` to
      `hi`), moved half a cell down, lies in the middle of cell `K + up`:
      the rounded distance from cell `K` is `up` again. */
  lemma UpperResized(origin: real, size: real, K: int, up: nat, lo: real, hi: real, edge: real, cornerHi: real)
    requires size > 0.0 && lo == origin + K as real * size && hi == lo + size
    requires edge == hi + up as real * (hi - lo) - (hi - lo) / 2.0
    requires cornerHi == Olc.Snap(edge, origin, size) + size
    ensures Round((cornerHi - hi) / (hi - lo)) == up
  {
    var j := K + up;
    var x := edge;
    Scale(up as real, hi - lo, size);
    Distribute(size, K, up);
    assert x == origin + j as real * size + size / 2.0;
    MidCell(origin, size, j);
    var upper := Olc.Snap(x, origin, size);
    assert upper == origin + j as real * size;
    RoundedSteps(origin, size, j, K);
    Quotient(cornerHi - hi, (origin + j as real * size + size) - (origin + K as real * size + size), hi - lo, size);
  }

  /** The lower edge of a box `down` cells below grid cell `K`, moved half
      a cell up, lies in the middle of cell `K - down`. */
  lemma LowerResized(origin: real, size: real, K: int, down: nat, lo: real, hi: real, edge: real, cornerLo: real)
    requires size > 0.0 && lo == origin + K as real * size && hi == lo + size
    requires edge == lo - down as real * (hi - lo) + (hi - lo) / 2.0
    requires cornerLo == Olc.Snap(edge, origin, size)
    ensures Round((lo - cornerLo) / (hi - lo)) == down
  {
    var j := K - down;
    var x := edge;
    Scale(down as real, hi - lo, size);
    Distribute(size, K, -(down as int));
    assert x == origin + j as real * size + size / 2.0;
    MidCell(origin, size, j);
    var lower := Olc.Snap(x, origin, size);
    assert lower == origin + j as real * size;
    RoundedSteps(origin, size, K, j);
    Quotient(lo - cornerLo, (origin + K as real * size) - (origin + j as real * size), hi - lo, size);
  }

  /** Without that move the upper edge is the lower edge of cell
      `K + up + 1`, one cell too far. */
  lemma UpperUnresized(origin: real, size: real, K: int, up: nat, lo: real, hi: real, edge: real, cornerHi: real)
    requires size > 0.0 && lo == origin + K as real * size && hi == lo + size
    requires edge == hi + up as real * (hi - lo)
    requires cornerHi == Olc.Snap(edge, origin, size) + size
    ensures Round((cornerHi - hi) / (hi - lo)) == up + 1
  {
    var j := K + up + 1;
    var x := edge;
    Scale(up as real, hi - lo, size);
    Distribute(size, K, up + 1);
    assert x == origin + j as real * size;
    OnEdge(origin, size, j);
    var upper := Olc.Snap(x, origin, size);
    assert upper == origin + j as real * size;
    RoundedSteps(origin, size, j, K);
    Quotient(cornerHi - hi, (origin + j as real * size + size) - (origin + K as real * size + size), hi - lo, size);
  }

  /** Nor does the lower edge move: it is the lower edge of cell
      `K - down`. */
  lemma LowerUnresized(origin: real, size: real, K: int, down: nat, lo: real, hi: real, edge: real, cornerLo: real)
    requires size > 0.0 && lo == origin + K as real * size && hi == lo + size
    requires edge == lo - down as real * (hi - lo)
    requires cornerLo == Olc.Snap(edge, origin, size)
    ensures Round((lo - cornerLo) / (hi - lo)) == down
  {
    var j := K - down;
    var x := edge;
    Scale(down as real, hi - lo, size);
    Distribute(size, K, -(down as int));
    assert x == origin + j as real * size;
    OnEdge(origin, size, j);
    var lower := Olc.Snap(x, origin, size);
    assert lower == origin + j as real * size;
    RoundedSteps(origin, size, K, j);
    Quotient(lo - cornerLo, (origin + K as real * size) - (origin + j as real * size), hi - lo, size);
  }

  /** A cell of the grid, given by its own centre. */
  predicate OnGrid(c: Olc.Cell, codeLength: int, h: real, w: real) {
    h > 0.0 && w > 0.0 && c == Olc.GridCell(c.latitudeCenter, c.longitudeCenter, codeLength, h, w)
  }

  /** The edges of a grid cell, as whole multiples of the cell size from
      the origin. */
  lemma GridIndex(c: Olc.Cell, codeLength: int, h: real, w: real)
    requires OnGrid(c, codeLength, h, w)
    ensures AtIndex(c, h, w, Index(c.latitudeCenter, Olc.LatitudeOrigin, h), Index(c.longitudeCenter, Olc.LongitudeOrigin, w))
  {
    Olc.SnapAt(c.latitudeCenter, Olc.LatitudeOrigin, h, Index(c.latitudeCenter, Olc.LatitudeOrigin, h));
    Olc.SnapAt(c.longitudeCenter, Olc.LongitudeOrigin, w, Index(c.longitudeCenter, Olc.LongitudeOrigin, w));
  }

  /** The edges of the box around a cell after resizing. */
  lemma ResizeEdges(c: Olc.Cell, p: ParsedCode)
    ensures var r := Resize(Extend(c, p));
            var h := c.latitudeHi - c.latitudeLo;
            var w := c.longitudeHi - c.longitudeLo;
            && r.latitudeHi == c.latitudeHi + p.north as real * h - h / 2.0
            && r.longitudeHi == c.longitudeHi + p.east as real * w - w / 2.0
            && r.latitudeLo == c.latitudeLo - p.south as real * h + h / 2.0
            && r.longitudeLo == c.longitudeLo - p.west as real * w + w / 2.0
  {
  }

  /** The edges of the grid cell holding a point. */
  lemma GridEdges(latitude: real, longitude: real, codeLength: int, h: real, w: real)
    requires h > 0.0 && w > 0.0
    ensures var g := Olc.GridCell(latitude, longitude, codeLength, h, w);
            && g.latitudeLo == Olc.Snap(latitude, Olc.LatitudeOrigin, h)
            && g.longitudeLo == Olc.Snap(longitude, Olc.LongitudeOrigin, w)
            && g.latitudeHi == g.latitudeLo + h
            && g.longitudeHi == g.longitudeLo + w
  {
  }

  /** The grid cells of the corners of the resized box around a cell, one
      edge at a time. */
  lemma CornerNorth(c: Olc.Cell, p: ParsedCode, codeLength: int, h: real, w: real)
    requires h > 0.0 && w > 0.0
    ensures var r := Resize(Extend(c, p));
            var ne := Olc.GridCell(r.latitudeHi, r.longitudeHi, codeLength, h, w);
            var height := c.latitudeHi - c.latitudeLo;
            ne.latitudeHi == Olc.Snap(c.latitudeHi + p.north as real * height - height / 2.0, Olc.LatitudeOrigin, h) + h
  {
    var r := Resize(Extend(c, p));
    ResizeEdges(c, p);
    GridEdges(r.latitudeHi, r.longitudeHi, codeLength, h, w);
  }

  lemma CornerEast(c: Olc.Cell, p: ParsedCode, codeLength: int, h: real, w: real)
    requires h > 0.0 && w > 0.0
    ensures var r := Resize(Extend(c, p));
            var ne := Olc.GridCell(r.latitudeHi, r.longitudeHi, codeLength, h, w);
            var width := c.longitudeHi - c.longitudeLo;
            ne.longitudeHi == Olc.Snap(c.longitudeHi + p.east as real * width - width / 2.0, Olc.LongitudeOrigin, w) + w
  {
    var r := Resize(Extend(c, p));
    ResizeEdges(c, p);
    GridEdges(r.latitudeHi, r.longitudeHi, codeLength, h, w);
  }

  lemma CornerSouth(c: Olc.Cell, p: ParsedCode, codeLength: int, h: real, w: real)
    requires h > 0.0 && w > 0.0
    ensures var r := Resize(Extend(c, p));
            var sw := Olc.GridCell(r.latitudeLo, r.longitudeLo, codeLength, h, w);
            var height := c.latitudeHi - c.latitudeLo;
            sw.latitudeLo == Olc.Snap(c.latitudeLo - p.south as real * height + height / 2.0, Olc.LatitudeOrigin, h)
  {
    var r := Resize(Extend(c, p));
    ResizeEdges(c, p);
    GridEdges(r.latitudeLo, r.longitudeLo, codeLength, h, w);
  }

  lemma CornerWest(c: Olc.Cell, p: ParsedCode, codeLength: int, h: real, w: real)
    requires h > 0.0 && w > 0.0
    ensures var r := Resize(Extend(c, p));
            var sw := Olc.GridCell(r.latitudeLo, r.longitudeLo, codeLength, h, w);
            var width := c.longitudeHi - c.longitudeLo;
            sw.longitudeLo == Olc.Snap(c.longitudeLo - p.west as real * width + width / 2.0, Olc.LongitudeOrigin, w)
  {
    var r := Resize(Extend(c, p));
    ResizeEdges(c, p);
    GridEdges(r.latitudeLo, r.longitudeLo, codeLength, h, w);
  }

  /** `Distances`, given the rounded value of each of its four ratios. */
  lemma DistancesFrom(ne: Olc.Cell, sw: Olc.Cell, c: Olc.Cell, d: Offsets)
    requires Round((ne.latitudeHi - c.latitudeHi) / (c.latitudeHi - c.latitudeLo)) == d.north
    requires Round((ne.longitudeHi - c.longitudeHi) / (c.longitudeHi - c.longitudeLo)) == d.east
    requires Round((c.latitudeLo - sw.latitudeLo) / (c.latitudeHi - c.latitudeLo)) == d.south
    requires Round((c.longitudeLo - sw.longitudeLo) / (c.longitudeHi - c.longitudeLo)) == d.west
    ensures Distances(ne, sw, c) == d
  {
  }

  /** The grid cell with index `K` along the latitude axis and `L` along
      the longitude axis. */
  predicate AtIndex(c: Olc.Cell, h: real, w: real, K: int, L: int) {
    && h > 0.0 && w > 0.0
    && c.latitudeLo == Olc.LatitudeOrigin + K as real * h && c.latitudeHi == c.latitudeLo + h
    && c.longitudeLo == Olc.LongitudeOrigin + L as real * w && c.longitudeHi == c.longitudeLo + w
  }

  lemma NorthAt(c: Olc.Cell, p: ParsedCode, codeLength: int, h: real, w: real, K: int, L: int)
    requires AtIndex(c, h, w, K, L)
    ensures var r := Resize(Extend(c, p));
            var ne := Olc.GridCell(r.latitudeHi, r.longitudeHi, codeLength, h, w);
            Round((ne.latitudeHi - c.latitudeHi) / (c.latitudeHi - c.latitudeLo)) == p.north
  {
    CornerNorth(c, p, codeLength, h, w);
    UpperResized(Olc.LatitudeOrigin, h, K, p.north, c.latitudeLo, c.latitudeHi,
                 c.latitudeHi + p.north as real * (c.latitudeHi - c.latitudeLo) - (c.latitudeHi - c.latitudeLo) / 2.0,
                 Olc.GridCell(Resize(Extend(c, p)).latitudeHi, Resize(Extend(c, p)).longitudeHi,
                              codeLength, h, w).latitudeHi);
  }

  lemma EastAt(c: Olc.Cell, p: ParsedCode, codeLength: int, h: real, w: real, K: int, L: int)
    requires AtIndex(c, h, w, K, L)
    ensures var r := Resize(Extend(c, p));
            var ne := Olc.GridCell(r.latitudeHi, r.longitudeHi, codeLength, h, w);
            Round((ne.longitudeHi - c.longitudeHi) / (c.longitudeHi - c.longitudeLo)) == p.east
  {
    CornerEast(c, p, codeLength, h, w);
    UpperResized(Olc.LongitudeOrigin, w, L, p.east, c.longitudeLo, c.longitudeHi,
                 c.longitudeHi + p.east as real * (c.longitudeHi - c.longitudeLo) - (c.longitudeHi - c.longitudeLo) / 2.0,
                 Olc.GridCell(Resize(Extend(c, p)).latitudeHi, Resize(Extend(c, p)).longitudeHi,
                              codeLength, h, w).longitudeHi);
  }

  lemma SouthAt(c: Olc.Cell, p: ParsedCode, codeLength: int, h: real, w: real, K: int, L: int)
    requires AtIndex(c, h, w, K, L)
    ensures var r := Resize(Extend(c, p));
            var sw := Olc.GridCell(r.latitudeLo, r.longitudeLo, codeLength, h, w);
            Round((c.latitudeLo - sw.latitudeLo) / (c.latitudeHi - c.latitudeLo)) == p.south
  {
    CornerSouth(c, p, codeLength, h, w);
    LowerResized(Olc.LatitudeOrigin, h, K, p.south, c.latitudeLo, c.latitudeHi,
                 c.latitudeLo - p.south as real * (c.latitudeHi - c.latitudeLo) + (c.latitudeHi - c.latitudeLo) / 2.0,
                 Olc.GridCell(Resize(Extend(c, p)).latitudeLo, Resize(Extend(c, p)).longitudeLo,
                              codeLength, h, w).latitudeLo);
  }

  lemma WestAt(c: Olc.Cell, p: ParsedCode, codeLength: int, h: real, w: real, K: int, L: int)
    requires AtIndex(c, h, w, K, L)
    ensures var r := Resize(Extend(c, p));
            var sw := Olc.GridCell(r.latitudeLo, r.longitudeLo, codeLength, h, w);
            Round((c.longitudeLo - sw.longitudeLo) / (c.longitudeHi - c.longitudeLo)) == p.west
  {
    CornerWest(c, p, codeLength, h, w);
    LowerResized(Olc.LongitudeOrigin, w, L, p.west, c.longitudeLo, c.longitudeHi,
                 c.longitudeLo - p.west as real * (c.longitudeHi - c.longitudeLo) + (c.longitudeHi - c.longitudeLo) / 2.0,
                 Olc.GridCell(Resize(Extend(c, p)).latitudeLo, Resize(Extend(c, p)).longitudeLo,
                              codeLength, h, w).longitudeLo);
  }

  lemma ResizedDistancesAt(c: Olc.Cell, p: ParsedCode, codeLength: int, h: real, w: real, K: int, L: int)
    requires AtIndex(c, h, w, K, L)
    ensures var r := Resize(Extend(c, p));
            Distances(Olc.GridCell(r.latitudeHi, r.longitudeHi, codeLength, h, w),
                      Olc.GridCell(r.latitudeLo, r.longitudeLo, codeLength, h, w), c)
              == Offsets(p.north, p.east, p.south, p.west)
  {
    var r := Resize(Extend(c, p));
    NorthAt(c, p, codeLength, h, w, K, L);
    EastAt(c, p, codeLength, h, w, K, L);
    SouthAt(c, p, codeLength, h, w, K, L);
    WestAt(c, p, codeLength, h, w, K, L);
    DistancesFrom(Olc.GridCell(r.latitudeHi, r.longitudeHi, codeLength, h, w),
                  Olc.GridCell(r.latitudeLo, r.longitudeLo, codeLength, h, w), c,
                  Offsets(p.north, p.east, p.south, p.west));
  }

  /** The grid cells of the corners of the box around a cell, not
      resized. */
  lemma RawNorth(c: Olc.Cell, p: ParsedCode, codeLength: int, h: real, w: real)
    requires h > 0.0 && w > 0.0
    ensures var a := Extend(c, p);
            var ne := Olc.GridCell(a.latitudeHi, a.longitudeHi, codeLength, h, w);
            var height := c.latitudeHi - c.latitudeLo;
            ne.latitudeHi == Olc.Snap(c.latitudeHi + p.north as real * height, Olc.LatitudeOrigin, h) + h
  {
    ExtendEdges(c, p);
    GridEdges(Extend(c, p).latitudeHi, Extend(c, p).longitudeHi, codeLength, h, w);
  }

  lemma RawEast(c: Olc.Cell, p: ParsedCode, codeLength: int, h: real, w: real)
    requires h > 0.0 && w > 0.0
    ensures var a := Extend(c, p);
            var ne := Olc.GridCell(a.latitudeHi, a.longitudeHi, codeLength, h, w);
            var width := c.longitudeHi - c.longitudeLo;
            ne.longitudeHi == Olc.Snap(c.longitudeHi + p.east as real * width, Olc.LongitudeOrigin, w) + w
  {
    ExtendEdges(c, p);
    GridEdges(Extend(c, p).latitudeHi, Extend(c, p).longitudeHi, codeLength, h, w);
  }

  lemma RawSouth(c: Olc.Cell, p: ParsedCode, codeLength: int, h: real, w: real)
    requires h > 0.0 && w > 0.0
    ensures var a := Extend(c, p);
            var sw := Olc.GridCell(a.latitudeLo, a.longitudeLo, codeLength, h, w);
            var height := c.latitudeHi - c.latitudeLo;
            sw.latitudeLo == Olc.Snap(c.latitudeLo - p.south as real * height, Olc.LatitudeOrigin, h)
  {
    ExtendEdges(c, p);
    GridEdges(Extend(c, p).latitudeLo, Extend(c, p).longitudeLo, codeLength, h, w);
  }

  lemma RawWest(c: Olc.Cell, p: ParsedCode, codeLength: int, h: real, w: real)
    requires h > 0.0 && w > 0.0
    ensures var a := Extend(c, p);
            var sw := Olc.GridCell(a.latitudeLo, a.longitudeLo, codeLength, h, w);
            var width := c.longitudeHi - c.longitudeLo;
            sw.longitudeLo == Olc.Snap(c.longitudeLo - p.west as real * width, Olc.LongitudeOrigin, w)
  {
    ExtendEdges(c, p);
    GridEdges(Extend(c, p).latitudeLo, Extend(c, p).longitudeLo, codeLength, h, w);
  }

  lemma RawNorthAt(c: Olc.Cell, p: ParsedCode, codeLength: int, h: real, w: real, K: int, L: int)
    requires AtIndex(c, h, w, K, L)
    ensures var a := Extend(c, p);
            var ne := Olc.GridCell(a.latitudeHi, a.longitudeHi, codeLength, h, w);
            Round((ne.latitudeHi - c.latitudeHi) / (c.latitudeHi - c.latitudeLo)) == p.north + 1
  {
    RawNorth(c, p, codeLength, h, w);
    UpperUnresized(Olc.LatitudeOrigin, h, K, p.north, c.latitudeLo, c.latitudeHi,
      c.latitudeHi + p.north as real * (c.latitudeHi - c.latitudeLo),
      Olc.GridCell(Extend(c, p).latitudeHi, Extend(c, p).longitudeHi,
                   codeLength, h, w).latitudeHi);
  }

  lemma RawEastAt(c: Olc.Cell, p: ParsedCode, codeLength: int, h: real, w: real, K: int, L: int)
    requires AtIndex(c, h, w, K, L)
    ensures var a := Extend(c, p);
            var ne := Olc.GridCell(a.latitudeHi, a.longitudeHi, codeLength, h, w);
            Round((ne.longitudeHi - c.longitudeHi) / (c.longitudeHi - c.longitudeLo)) == p.east + 1
  {
    RawEast(c, p, codeLength, h, w);
    UpperUnresized(Olc.LongitudeOrigin, w, L, p.east, c.longitudeLo, c.longitudeHi,
      c.longitudeHi + p.east as real * (c.longitudeHi - c.longitudeLo),
      Olc.GridCell(Extend(c, p).latitudeHi, Extend(c, p).longitudeHi,
                   codeLength, h, w).longitudeHi);
  }

  lemma RawSouthAt(c: Olc.Cell, p: ParsedCode, codeLength: int, h: real, w: real, K: int, L: int)
    requires AtIndex(c, h, w, K, L)
    ensures var a := Extend(c, p);
            var sw := Olc.GridCell(a.latitudeLo, a.longitudeLo, codeLength, h, w);
            Round((c.latitudeLo - sw.latitudeLo) / (c.latitudeHi - c.latitudeLo)) == p.south
  {
    RawSouth(c, p, codeLength, h, w);
    LowerUnresized(Olc.LatitudeOrigin, h, K, p.south, c.latitudeLo, c.latitudeHi,
      c.latitudeLo - p.south as real * (c.latitudeHi - c.latitudeLo),
      Olc.GridCell(Extend(c, p).latitudeLo, Extend(c, p).longitudeLo,
                   codeLength, h, w).latitudeLo);
  }

  lemma RawWestAt(c: Olc.Cell, p: ParsedCode, codeLength: int, h: real, w: real, K: int, L: int)
    requires AtIndex(c, h, w, K, L)
    ensures var a := Extend(c, p);
            var sw := Olc.GridCell(a.latitudeLo, a.longitudeLo, codeLength, h, w);
            Round((c.longitudeLo - sw.longitudeLo) / (c.longitudeHi - c.longitudeLo)) == p.west
  {
    RawWest(c, p, codeLength, h, w);
    LowerUnresized(Olc.LongitudeOrigin, w, L, p.west, c.longitudeLo, c.longitudeHi,
      c.longitudeLo - p.west as real * (c.longitudeHi - c.longitudeLo),
      Olc.GridCell(Extend(c, p).latitudeLo, Extend(c, p).longitudeLo,
                   codeLength, h, w).longitudeLo);
  }

  lemma UnresizedDistancesAt(c: Olc.Cell, p: ParsedCode, codeLength: int, h: real, w: real, K: int, L: int)
    requires AtIndex(c, h, w, K, L)
    ensures var a := Extend(c, p);
            Distances(Olc.GridCell(a.latitudeHi, a.longitudeHi, codeLength, h, w),
                      Olc.GridCell(a.latitudeLo, a.longitudeLo, codeLength, h, w), c)
              == Offsets(p.north + 1, p.east + 1, p.south, p.west)
  {
    RawNorthAt(c, p, codeLength, h, w, K, L);
    RawEastAt(c, p, codeLength, h, w, K, L);
    RawSouthAt(c, p, codeLength, h, w, K, L);
    RawWestAt(c, p, codeLength, h, w, K, L);
    DistancesFrom(Olc.GridCell(Extend(c, p).latitudeHi, Extend(c, p).longitudeHi, codeLength, h, w),
                  Olc.GridCell(Extend(c, p).latitudeLo, Extend(c, p).longitudeLo, codeLength, h, w), c,
                  Offsets(p.north + 1, p.east + 1, p.south, p.west));
  }

  /** On a uniform grid, a decoded cell of the grid's code length is the
      grid cell of its own centre, and encoding that centre gives the code
      back. */
  lemma GridCode(lib: Olc.Library, codeLength: int, h: real, w: real, olc: string)
    requires Olc.UniformGrid(lib, codeLength, h, w)
    requires lib.decode(olc).Success? && lib.decode(olc).value.codeLength == codeLength
    ensures var c := lib.decode(olc).value;
            && lib.encode(c.latitudeCenter, c.longitudeCenter, codeLength) == Success(olc)
            && OnGrid(c, codeLength, h, w)
  {
    var c := lib.decode(olc).value;
    assert lib.decode(lib.encode(c.latitudeCenter, c.longitudeCenter, codeLength).value)
      == Success(Olc.GridCell(c.latitudeCenter, c.longitudeCenter, codeLength, h, w));
  }

  /** On a uniform grid `encode` never fails: it writes the centroid's code
      and the rounded distances between the grid cells of the centroid and
      of the two corners. */
  lemma EncodeOnGrid(lib: Olc.Library, codeLength: int, h: real, w: real,
                     latitudeLo: real, longitudeLo: real, latitudeHi: real, longitudeHi: real,
                     latitudeCenter: real, longitudeCenter: real)
    requires Olc.UniformGrid(lib, codeLength, h, w)
    ensures Encode(lib, latitudeLo, longitudeLo, latitudeHi, longitudeHi, latitudeCenter, longitudeCenter, codeLength)
      == Success(UbidText(lib.encode(latitudeCenter, longitudeCenter, codeLength).value,
                          Distances(Olc.GridCell(latitudeHi, longitudeHi, codeLength, h, w),
                                    Olc.GridCell(latitudeLo, longitudeLo, codeLength, h, w),
                                    Olc.GridCell(latitudeCenter, longitudeCenter, codeLength, h, w))))
  {
    assert SnapPoint(lib, latitudeHi, longitudeHi, codeLength) == Success(Olc.GridCell(latitudeHi, longitudeHi, codeLength, h, w));
    assert SnapPoint(lib, latitudeLo, longitudeLo, codeLength) == Success(Olc.GridCell(latitudeLo, longitudeLo, codeLength, h, w));
    assert SnapPoint(lib, latitudeCenter, longitudeCenter, codeLength)
      == Success(Olc.GridCell(latitudeCenter, longitudeCenter, codeLength, h, w));
  }

  /** The text of a code with non-negative offsets is its printed form. */
  lemma UbidTextPrint(p: ParsedCode)
    ensures UbidText(p.olc, Offsets(p.north, p.east, p.south, p.west)) == Print(p)
  {
    assert Fields(Groups(p.olc, FormatNat(p.north), FormatNat(p.east), FormatNat(p.south), FormatNat(p.west)))
      == [p.olc, FormatInt(p.north), FormatInt(p.east), FormatInt(p.south), FormatInt(p.west)];
  }

  /** The round trip the format is built for: on a uniform grid, decoding a
      UBID, resizing the area and encoding it again at the same code length
      gives back the UBID, character for character. */
  lemma ReEncodeResized(lib: Olc.Library, codeLength: int, h: real, w: real, s: string)
    requires Olc.UniformGrid(lib, codeLength, h, w)
    requires Decode(lib, Text(s)).Success? && Decode(lib, Text(s)).value.centerOfMass.codeLength == codeLength
    ensures EncodeCodeArea(lib, AreaArgument(Resize(Decode(lib, Text(s)).value))) == Success(s)
  {
    DecodeIsExtend(lib, s);
    var p := Parse(s).value;
    var c := lib.decode(p.olc).value;
    GridCode(lib, codeLength, h, w, p.olc);
    GridIndex(c, codeLength, h, w);
    var r := Resize(Extend(c, p));
    EncodeOnGrid(lib, codeLength, h, w, r.latitudeLo, r.longitudeLo, r.latitudeHi, r.longitudeHi,
                 c.latitudeCenter, c.longitudeCenter);
    ResizedDistancesAt(c, p, codeLength, h, w,
                       Index(c.latitudeCenter, Olc.LatitudeOrigin, h), Index(c.longitudeCenter, Olc.LongitudeOrigin, w));
    UbidTextPrint(p);
  }

  /** Without the resize the round trip does not close: on a uniform grid,
      encoding a decoded area again reports one more cell to the north and
      to the east, so the text differs from the UBID it came from. */
  lemma ReEncodeUnresized(lib: Olc.Library, codeLength: int, h: real, w: real, s: string)
    requires Olc.UniformGrid(lib, codeLength, h, w)
    requires Decode(lib, Text(s)).Success? && Decode(lib, Text(s)).value.centerOfMass.codeLength == codeLength
    ensures Parse(s).Some?
    ensures var p := Parse(s).value;
            EncodeCodeArea(lib, AreaArgument(Decode(lib, Text(s)).value))
              == Success(Print(ParsedCode(p.olc, p.north + 1, p.east + 1, p.south, p.west)))
    ensures EncodeCodeArea(lib, AreaArgument(Decode(lib, Text(s)).value)) != Success(s)
  {
    DecodeIsExtend(lib, s);
    var p := Parse(s).value;
    var c := lib.decode(p.olc).value;
    var q := ParsedCode(p.olc, p.north + 1, p.east + 1, p.south, p.west);
    GridCode(lib, codeLength, h, w, p.olc);
    GridIndex(c, codeLength, h, w);
    var a := Extend(c, p);
    EncodeOnGrid(lib, codeLength, h, w, a.latitudeLo, a.longitudeLo, a.latitudeHi, a.longitudeHi,
                 c.latitudeCenter, c.longitudeCenter);
    UnresizedDistancesAt(c, p, codeLength, h, w,
                         Index(c.latitudeCenter, Olc.LatitudeOrigin, h), Index(c.longitudeCenter, Olc.LongitudeOrigin, w));
    UbidTextPrint(q);
    ParsePrint(q);
  }

  /** Measured from grid cell `K`, the upper edge of the grid cell holding
      `x` lies `Index(x) - K` cells up. */
  lemma UpperSteps(origin: real, size: real, x: real, K: int, lo: real, hi: real, cornerHi: real)
    requires size > 0.0 && lo == origin + K as real * size && hi == lo + size
    requires cornerHi == Olc.Snap(x, origin, size) + size
    ensures Round((cornerHi - hi) / (hi - lo)) == Index(x, origin, size) - K
  {
    var i := Index(x, origin, size);
    Olc.SnapAt(x, origin, size, i);
    RoundedSteps(origin, size, i, K);
    Quotient(cornerHi - hi, (origin + i as real * size + size) - (origin + K as real * size + size), hi - lo, size);
  }

  /** Measured from grid cell `K`, the lower edge of the grid cell holding
      `x` lies `K - Index(x)` cells down. */
  lemma LowerSteps(origin: real, size: real, x: real, K: int, lo: real, hi: real, cornerLo: real)
    requires size > 0.0 && lo == origin + K as real * size && hi == lo + size
    requires cornerLo == Olc.Snap(x, origin, size)
    ensures Round((lo - cornerLo) / (hi - lo)) == K - Index(x, origin, size)
  {
    var i := Index(x, origin, size);
    Olc.SnapAt(x, origin, size, i);
    RoundedSteps(origin, size, K, i);
    Quotient(lo - cornerLo, (origin + K as real * size) - (origin + i as real * size), hi - lo, size);
  }

  /** The upper edge of cell `K` pushed up `Index(x) - K` cells and then
      moved down half a cell is the middle of the cell holding `x`, so it
      is within half a cell of `x`. */
  lemma UpperRecovered(origin: real, size: real, x: real, K: int, lo: real, hi: real, up: int, edge: real)
    requires size > 0.0 && lo == origin + K as real * size && hi == lo + size
    requires up == Index(x, origin, size) - K
    requires edge == hi + up as real * (hi - lo) - (hi - lo) / 2.0
    ensures edge - size / 2.0 <= x < edge + size / 2.0
  {
    var i := Index(x, origin, size);
    Olc.SnapAt(x, origin, size, i);
    Scale(up as real, hi - lo, size);
    Distribute(size, K, up);
    assert edge == origin + i as real * size + size / 2.0;
  }

  /** The lower edge of cell `K` pushed down `K - Index(x)` cells and then
      moved up half a cell is the middle of the cell holding `x`. */
  lemma LowerRecovered(origin: real, size: real, x: real, K: int, lo: real, hi: real, down: int, edge: real)
    requires size > 0.0 && lo == origin + K as real * size && hi == lo + size
    requires down == K - Index(x, origin, size)
    requires edge == lo - down as real * (hi - lo) + (hi - lo) / 2.0
    ensures edge - size / 2.0 <= x < edge + size / 2.0
  {
    var i := Index(x, origin, size);
    Olc.SnapAt(x, origin, size, i);
    Scale(down as real, hi - lo, size);
    Distribute(size, K, -down);
    assert edge == origin + i as real * size + size / 2.0;
  }

  /** A point no lower than another lies in a cell of no lower index. */
  lemma IndexMonotonic(x: real, y: real, origin: real, size: real)
    requires size > 0.0 && x <= y
    ensures Index(x, origin, size) <= Index(y, origin, size)
  {
    assert (y - origin) / size - (x - origin) / size == (y - x) / size;
  }

  /** The rounded distances `encode` measures from grid cell (`K`, `L`) to
      the grid cells of the corners are differences of cell indices. */
  lemma NorthSteps(c: Olc.Cell, codeLength: int, h: real, w: real, K: int, L: int, latitude: real, longitude: real)
    requires AtIndex(c, h, w, K, L)
    ensures Round((Olc.GridCell(latitude, longitude, codeLength, h, w).latitudeHi - c.latitudeHi) / (c.latitudeHi - c.latitudeLo))
      == Index(latitude, Olc.LatitudeOrigin, h) - K
  {
    GridEdges(latitude, longitude, codeLength, h, w);
    UpperSteps(Olc.LatitudeOrigin, h, latitude, K, c.latitudeLo, c.latitudeHi,
               Olc.GridCell(latitude, longitude, codeLength, h, w).latitudeHi);
  }

  lemma EastSteps(c: Olc.Cell, codeLength: int, h: real, w: real, K: int, L: int, latitude: real, longitude: real)
    requires AtIndex(c, h, w, K, L)
    ensures Round((Olc.GridCell(latitude, longitude, codeLength, h, w).longitudeHi - c.longitudeHi) / (c.longitudeHi - c.longitudeLo))
      == Index(longitude, Olc.LongitudeOrigin, w) - L
  {
    GridEdges(latitude, longitude, codeLength, h, w);
    UpperSteps(Olc.LongitudeOrigin, w, longitude, L, c.longitudeLo, c.longitudeHi,
               Olc.GridCell(latitude, longitude, codeLength, h, w).longitudeHi);
  }

  lemma SouthSteps(c: Olc.Cell, codeLength: int, h: real, w: real, K: int, L: int, latitude: real, longitude: real)
    requires AtIndex(c, h, w, K, L)
    ensures Round((c.latitudeLo - Olc.GridCell(latitude, longitude, codeLength, h, w).latitudeLo) / (c.latitudeHi - c.latitudeLo))
      == K - Index(latitude, Olc.LatitudeOrigin, h)
  {
    GridEdges(latitude, longitude, codeLength, h, w);
    LowerSteps(Olc.LatitudeOrigin, h, latitude, K, c.latitudeLo, c.latitudeHi,
               Olc.GridCell(latitude, longitude, codeLength, h, w).latitudeLo);
  }

  lemma WestSteps(c: Olc.Cell, codeLength: int, h: real, w: real, K: int, L: int, latitude: real, longitude: real)
    requires AtIndex(c, h, w, K, L)
    ensures Round((c.longitudeLo - Olc.GridCell(latitude, longitude, codeLength, h, w).longitudeLo) / (c.longitudeHi - c.longitudeLo))
      == L - Index(longitude, Olc.LongitudeOrigin, w)
  {
    GridEdges(latitude, longitude, codeLength, h, w);
    LowerSteps(Olc.LongitudeOrigin, w, longitude, L, c.longitudeLo, c.longitudeHi,
               Olc.GridCell(latitude, longitude, codeLength, h, w).longitudeLo);
  }

  /** Extending grid cell (`K`, `L`) by those differences and resizing puts
      each edge within half a cell of the coordinate it was measured from. */
  lemma NorthRecovered(c: Olc.Cell, p: ParsedCode, h: real, w: real, K: int, L: int, latitude: real)
    requires AtIndex(c, h, w, K, L)
    requires p.north == Index(latitude, Olc.LatitudeOrigin, h) - K
    ensures Resize(Extend(c, p)).latitudeHi - h / 2.0 <= latitude < Resize(Extend(c, p)).latitudeHi + h / 2.0
  {
    ResizeEdges(c, p);
    UpperRecovered(Olc.LatitudeOrigin, h, latitude, K, c.latitudeLo, c.latitudeHi, p.north, Resize(Extend(c, p)).latitudeHi);
  }

  lemma EastRecovered(c: Olc.Cell, p: ParsedCode, h: real, w: real, K: int, L: int, longitude: real)
    requires AtIndex(c, h, w, K, L)
    requires p.east == Index(longitude, Olc.LongitudeOrigin, w) - L
    ensures Resize(Extend(c, p)).longitudeHi - w / 2.0 <= longitude < Resize(Extend(c, p)).longitudeHi + w / 2.0
  {
    ResizeEdges(c, p);
    UpperRecovered(Olc.LongitudeOrigin, w, longitude, L, c.longitudeLo, c.longitudeHi, p.east, Resize(Extend(c, p)).longitudeHi);
  }

  lemma SouthRecovered(c: Olc.Cell, p: ParsedCode, h: real, w: real, K: int, L: int, latitude: real)
    requires AtIndex(c, h, w, K, L)
    requires p.south == K - Index(latitude, Olc.LatitudeOrigin, h)
    ensures Resize(Extend(c, p)).latitudeLo - h / 2.0 <= latitude < Resize(Extend(c, p)).latitudeLo + h / 2.0
  {
    ResizeEdges(c, p);
    LowerRecovered(Olc.LatitudeOrigin, h, latitude, K, c.latitudeLo, c.latitudeHi, p.south, Resize(Extend(c, p)).latitudeLo);
  }

  lemma WestRecovered(c: Olc.Cell, p: ParsedCode, h: real, w: real, K: int, L: int, longitude: real)
    requires AtIndex(c, h, w, K, L)
    requires p.west == L - Index(longitude, Olc.LongitudeOrigin, w)
    ensures Resize(Extend(c, p)).longitudeLo - w / 2.0 <= longitude < Resize(Extend(c, p)).longitudeLo + w / 2.0
  {
    ResizeEdges(c, p);
    LowerRecovered(Olc.LongitudeOrigin, w, longitude, L, c.longitudeLo, c.longitudeHi, p.west, Resize(Extend(c, p)).longitudeLo);
  }

  /** The grid cell holding a point is the cell at that point's indices. */
  lemma GridCellAt(latitude: real, longitude: real, codeLength: int, h: real, w: real)
    requires h > 0.0 && w > 0.0
    ensures AtIndex(Olc.GridCell(latitude, longitude, codeLength, h, w), h, w,
                    Index(latitude, Olc.LatitudeOrigin, h), Index(longitude, Olc.LongitudeOrigin, w))
  {
    GridEdges(latitude, longitude, codeLength, h, w);
    Olc.SnapAt(latitude, Olc.LatitudeOrigin, h, Index(latitude, Olc.LatitudeOrigin, h));
    Olc.SnapAt(longitude, Olc.LongitudeOrigin, w, Index(longitude, Olc.LongitudeOrigin, w));
  }

  /** Measured from grid cell (`K`, `L`), the rounded distances to the grid
      cells of two corners are differences of cell indices. */
  lemma DistancesAtIndices(c: Olc.Cell, codeLength: int, h: real, w: real, K: int, L: int,
                           latitudeLo: real, longitudeLo: real, latitudeHi: real, longitudeHi: real)
    requires AtIndex(c, h, w, K, L)
    ensures Distances(Olc.GridCell(latitudeHi, longitudeHi, codeLength, h, w),
                      Olc.GridCell(latitudeLo, longitudeLo, codeLength, h, w), c)
      == Offsets(Index(latitudeHi, Olc.LatitudeOrigin, h) - K, Index(longitudeHi, Olc.LongitudeOrigin, w) - L,
                 K - Index(latitudeLo, Olc.LatitudeOrigin, h), L - Index(longitudeLo, Olc.LongitudeOrigin, w))
  {
    NorthSteps(c, codeLength, h, w, K, L, latitudeHi, longitudeHi);
    EastSteps(c, codeLength, h, w, K, L, latitudeHi, longitudeHi);
    SouthSteps(c, codeLength, h, w, K, L, latitudeLo, longitudeLo);
    WestSteps(c, codeLength, h, w, K, L, latitudeLo, longitudeLo);
    DistancesFrom(Olc.GridCell(latitudeHi, longitudeHi, codeLength, h, w),
                  Olc.GridCell(latitudeLo, longitudeLo, codeLength, h, w), c,
                  Offsets(Index(latitudeHi, Olc.LatitudeOrigin, h) - K, Index(longitudeHi, Olc.LongitudeOrigin, w) - L,
                          K - Index(latitudeLo, Olc.LatitudeOrigin, h), L - Index(longitudeLo, Olc.LongitudeOrigin, w)));
  }

  /** On a uniform grid, `encode` writes the differences between the cell
      indices of the corners and of the centroid. */
  lemma EncodedIndices(lib: Olc.Library, codeLength: int, h: real, w: real,
                       latitudeLo: real, longitudeLo: real, latitudeHi: real, longitudeHi: real,
                       latitudeCenter: real, longitudeCenter: real, K: int, L: int)
    requires Olc.UniformGrid(lib, codeLength, h, w)
    requires K == Index(latitudeCenter, Olc.LatitudeOrigin, h) && L == Index(longitudeCenter, Olc.LongitudeOrigin, w)
    ensures Encode(lib, latitudeLo, longitudeLo, latitudeHi, longitudeHi, latitudeCenter, longitudeCenter, codeLength)
      == Success(UbidText(lib.encode(latitudeCenter, longitudeCenter, codeLength).value,
                          Offsets(Index(latitudeHi, Olc.LatitudeOrigin, h) - K, Index(longitudeHi, Olc.LongitudeOrigin, w) - L,
                                  K - Index(latitudeLo, Olc.LatitudeOrigin, h), L - Index(longitudeLo, Olc.LongitudeOrigin, w))))
  {
    EncodeOnGrid(lib, codeLength, h, w, latitudeLo, longitudeLo, latitudeHi, longitudeHi, latitudeCenter, longitudeCenter);
    GridCellAt(latitudeCenter, longitudeCenter, codeLength, h, w);
    DistancesAtIndices(Olc.GridCell(latitudeCenter, longitudeCenter, codeLength, h, w), codeLength, h, w, K, L,
                       latitudeLo, longitudeLo, latitudeHi, longitudeHi);
  }

  /** The text `encode` writes for an OLC group and non-negative offsets
      decodes to the library's cell for that code, extended by those
      offsets. */
  lemma DecodeUbidText(lib: Olc.Library, p: ParsedCode)
    requires IsOlcGroup(p.olc) && lib.decode(p.olc).Success?
    ensures Decode(lib, Text(UbidText(p.olc, Offsets(p.north, p.east, p.south, p.west))))
      == Success(Extend(lib.decode(p.olc).value, p))
  {
    UbidTextPrint(p);
    ParsePrint(p);
  }

  /** On a uniform grid, the UBID `encode` writes decodes to the grid cell
      of the centroid extended by the differences of cell indices. */
  lemma EncodeDecodeAt(lib: Olc.Library, codeLength: int, h: real, w: real,
                       latitudeLo: real, longitudeLo: real, latitudeHi: real, longitudeHi: real,
                       latitudeCenter: real, longitudeCenter: real, K: int, L: int, p: ParsedCode)
    requires Olc.UniformGrid(lib, codeLength, h, w)
    requires K == Index(latitudeCenter, Olc.LatitudeOrigin, h) && L == Index(longitudeCenter, Olc.LongitudeOrigin, w)
    requires p.olc == lib.encode(latitudeCenter, longitudeCenter, codeLength).value && IsOlcGroup(p.olc)
    requires p.north == Index(latitudeHi, Olc.LatitudeOrigin, h) - K && p.east == Index(longitudeHi, Olc.LongitudeOrigin, w) - L
    requires p.south == K - Index(latitudeLo, Olc.LatitudeOrigin, h) && p.west == L - Index(longitudeLo, Olc.LongitudeOrigin, w)
    ensures Encode(lib, latitudeLo, longitudeLo, latitudeHi, longitudeHi, latitudeCenter, longitudeCenter, codeLength)
      == Success(UbidText(p.olc, Offsets(p.north, p.east, p.south, p.west)))
    ensures Decode(lib, Text(UbidText(p.olc, Offsets(p.north, p.east, p.south, p.west))))
      == Success(Extend(Olc.GridCell(latitudeCenter, longitudeCenter, codeLength, h, w), p))
  {
    assert Offsets(p.north, p.east, p.south, p.west)
      == Offsets(Index(latitudeHi, Olc.LatitudeOrigin, h) - K, Index(longitudeHi, Olc.LongitudeOrigin, w) - L,
                 K - Index(latitudeLo, Olc.LatitudeOrigin, h), L - Index(longitudeLo, Olc.LongitudeOrigin, w));
    EncodedIndices(lib, codeLength, h, w, latitudeLo, longitudeLo, latitudeHi, longitudeHi, latitudeCenter, longitudeCenter, K, L);
    CentroidCode(lib, codeLength, h, w, latitudeCenter, longitudeCenter);
    DecodeUbidText(lib, p);
  }

  /** On a uniform grid, the code written for a point decodes to the grid
      cell holding it. */
  lemma CentroidCode(lib: Olc.Library, codeLength: int, h: real, w: real, latitude: real, longitude: real)
    requires Olc.UniformGrid(lib, codeLength, h, w)
    ensures lib.encode(latitude, longitude, codeLength).Success?
    ensures lib.decode(lib.encode(latitude, longitude, codeLength).value)
      == Success(Olc.GridCell(latitude, longitude, codeLength, h, w))
  {
  }

  /** The other direction of the round trip: on a uniform grid, a box that
      holds its centroid encodes to a UBID (provided the library writes the
      centroid's code in the pattern's alphabet), and decoding and resizing
      that UBID gives back a box each of whose edges is within half a cell
      of the original edge, around the grid cell of the centroid. */
  lemma EncodeDecodeResize(lib: Olc.Library, codeLength: int, h: real, w: real,
                           latitudeLo: real, longitudeLo: real, latitudeHi: real, longitudeHi: real,
                           latitudeCenter: real, longitudeCenter: real)
    requires Olc.UniformGrid(lib, codeLength, h, w)
    requires latitudeLo <= latitudeCenter <= latitudeHi && longitudeLo <= longitudeCenter <= longitudeHi
    requires IsOlcGroup(lib.encode(latitudeCenter, longitudeCenter, codeLength).value)
    ensures Encode(lib, latitudeLo, longitudeLo, latitudeHi, longitudeHi, latitudeCenter, longitudeCenter, codeLength).Success?
    ensures Decode(lib, Text(Encode(lib, latitudeLo, longitudeLo, latitudeHi, longitudeHi,
                                    latitudeCenter, longitudeCenter, codeLength).value)).Success?
    ensures var r := Resize(Decode(lib, Text(Encode(lib, latitudeLo, longitudeLo, latitudeHi, longitudeHi,
                                                    latitudeCenter, longitudeCenter, codeLength).value)).value);
            && r.latitudeHi - h / 2.0 <= latitudeHi < r.latitudeHi + h / 2.0
            && r.longitudeHi - w / 2.0 <= longitudeHi < r.longitudeHi + w / 2.0
            && r.latitudeLo - h / 2.0 <= latitudeLo < r.latitudeLo + h / 2.0
            && r.longitudeLo - w / 2.0 <= longitudeLo < r.longitudeLo + w / 2.0
            && r.centerOfMass == Olc.GridCell(latitudeCenter, longitudeCenter, codeLength, h, w)
  {
    var K := Index(latitudeCenter, Olc.LatitudeOrigin, h);
    var L := Index(longitudeCenter, Olc.LongitudeOrigin, w);
    IndexMonotonic(latitudeCenter, latitudeHi, Olc.LatitudeOrigin, h);
    IndexMonotonic(longitudeCenter, longitudeHi, Olc.LongitudeOrigin, w);
    IndexMonotonic(latitudeLo, latitudeCenter, Olc.LatitudeOrigin, h);
    IndexMonotonic(longitudeLo, longitudeCenter, Olc.LongitudeOrigin, w);
    var p := ParsedCode(lib.encode(latitudeCenter, longitudeCenter, codeLength).value,
                        Index(latitudeHi, Olc.LatitudeOrigin, h) - K, Index(longitudeHi, Olc.LongitudeOrigin, w) - L,
                        K - Index(latitudeLo, Olc.LatitudeOrigin, h), L - Index(longitudeLo, Olc.LongitudeOrigin, w));
    EncodeDecodeAt(lib, codeLength, h, w, latitudeLo, longitudeLo, latitudeHi, longitudeHi, latitudeCenter, longitudeCenter, K, L, p);
    GridCellAt(latitudeCenter, longitudeCenter, codeLength, h, w);
    NorthRecovered(Olc.GridCell(latitudeCenter, longitudeCenter, codeLength, h, w), p, h, w, K, L, latitudeHi);
    EastRecovered(Olc.GridCell(latitudeCenter, longitudeCenter, codeLength, h, w), p, h, w, K, L, longitudeHi);
    SouthRecovered(Olc.GridCell(latitudeCenter, longitudeCenter, codeLength, h, w), p, h, w, K, L, latitudeLo);
    WestRecovered(Olc.GridCell(latitudeCenter, longitudeCenter, codeLength, h, w), p, h, w, K, L, longitudeLo);
  }
}
