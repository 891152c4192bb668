/** The Open Location Code (OLC) library the UBID codec is built on, as an
    injected dependency: it encodes a point to a code of a given length,
    decodes a code to its grid cell, and checks a code's validity.  Its
    internals are not modelled; what the codec relies on is stated here. */
module Olc {
  import opened Wrappers

  /** `OpenLocationCode.CodeArea`: the bounds of a grid cell, its centre and
      the length of the code that names it. */
  datatype CodeArea = CodeArea(
    latitudeLo: real, longitudeLo: real,
    latitudeHi: real, longitudeHi: real,
    latitudeCenter: real, longitudeCenter: real,
    codeLength: int)

  function Height(c: CodeArea): real {
    c.latitudeHi - c.latitudeLo
  }

  function Width(c: CodeArea): real {
    c.longitudeHi - c.longitudeLo
  }

  /** A cell of positive height and width: the property of decoded cells
      the codec relies on. */
  type Cell = c: CodeArea | c.latitudeLo < c.latitudeHi && c.longitudeLo < c.longitudeHi
    witness CodeArea(0.0, 0.0, 1.0, 1.0, 0.5, 0.5, 10)

  /** The library's three entry points; each failure carries the library's
      own message. */
  datatype Library = Library(
    encode: (real, real, int) -> Result<string, string>,
    decode: string -> Result<Cell, string>,
    isValid: string -> bool)

  /** Scaling the bounds of a quotient by its (positive) divisor. */
  lemma ScaleBounds(d: real, size: real, a: real, b: real)
    requires size > 0.0 && a <= d / size < b
    ensures a * size <= d < b * size
  {
    assert (d / size) * size == d;
  }

  /** The lower edge of the cell of a grid with the given origin and cell
      size that holds `x`. */
  function Snap(x: real, origin: real, size: real): (lo: real)
    requires size > 0.0
    ensures lo <= x < lo + size
  {
    var n := ((x - origin) / size).Floor;
    ScaleBounds(x - origin, size, n as real, (n + 1) as real);
    assert (n + 1) as real * size == n as real * size + size;
    origin + n as real * size
  }

  lemma CancelScale(origin: real, size: real, a: real)
    requires size > 0.0
    ensures ((origin + a * size) - origin) / size == a
  {
  }

  lemma SnapAt(x: real, origin: real, size: real, j: int)
    requires size > 0.0 && ((x - origin) / size).Floor == j
    ensures Snap(x, origin, size) == origin + j as real * size
  {
  }

  /** A point whose offset from the origin is `a` cells lies in the cell
      `a.Floor` steps from the origin. */
  lemma SnapCell(origin: real, size: real, a: real, j: int)
    requires size > 0.0 && a.Floor == j
    ensures Snap(origin + a * size, origin, size) == origin + j as real * size
  {
    CancelScale(origin, size, a);
    SnapAt(origin + a * size, origin, size, j);
  }

  const LatitudeOrigin: real := -90.0
  const LongitudeOrigin: real := -180.0

  /** The cell of height `h` and width `w` that holds the point, on a grid
      anchored at the south-west corner of the map. */
  function GridCell(latitude: real, longitude: real, codeLength: int, h: real, w: real): (c: Cell)
    requires h > 0.0 && w > 0.0
    ensures c.latitudeLo <= latitude < c.latitudeHi && c.longitudeLo <= longitude < c.longitudeHi
    ensures Height(c) == h && Width(c) == w
  {
    var latitudeLo := Snap(latitude, LatitudeOrigin, h);
    var longitudeLo := Snap(longitude, LongitudeOrigin, w);
    CodeArea(latitudeLo, longitudeLo, latitudeLo + h, longitudeLo + w,
             latitudeLo + h / 2.0, longitudeLo + w / 2.0, codeLength)
  }

  /** An idealised behaviour of the library at one code length: codes of
      that length name the cells of a uniform grid of cells `h` high and
      `w` wide, encoding a point gives the code of the cell that holds it,
      and encoding a cell's centre gives back that cell's code. */
  ghost predicate UniformGrid(lib: Library, codeLength: int, h: real, w: real) {
    && h > 0.0 && w > 0.0
    && (forall latitude, longitude ::
          lib.encode(latitude, longitude, codeLength).Success? &&
          lib.decode(lib.encode(latitude, longitude, codeLength).value)
            == Success(GridCell(latitude, longitude, codeLength, h, w)))
    && (forall code ::
          lib.decode(code).Success? && lib.decode(code).value.codeLength == codeLength ==>
          lib.encode(lib.decode(code).value.latitudeCenter, lib.decode(code).value.longitudeCenter, codeLength)
            == Success(code))
  }
}
