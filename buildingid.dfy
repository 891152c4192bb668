/** Unique Building Identifiers (UBID), code version 3: a UBID names the
    bounding box of a building footprint as the OLC of the grid cell of the
    footprint's centroid plus the number of whole cells the box extends to
    the north, east, south and west of that cell.  Decoding turns the text
    into a `CodeArea`; encoding measures a box against the grid. */
module BuildingId {
  import opened Wrappers
  import opened Numerals
  import opened Separated
  import opened Grammar
  import Olc

  /** A JavaScript argument: one of the two absent values, or a string. */
  datatype JsValue = Null | Undefined | Text(s: string)

  /** `String(v)`. */
  function ToString(v: JsValue): string {
    match v
    case Null => "null"
    case Undefined => "undefined"
    case Text(s) => s
  }

  /** The errors the codec raises: its own two, and those of the OLC
      library, passed on unchanged. */
  datatype Error = InvalidUbid | InvalidCodeArea | OlcError(message: string)

  /** The version tag of the codes this module reads and writes. */
  const CodeVersion: int := 3

  /** The decoded form of a UBID: the bounding box of the footprint, the OLC
      grid cell of its centroid, and the code version. */
  datatype CodeArea = CodeArea(
    latitudeLo: real, longitudeLo: real,
    latitudeHi: real, longitudeHi: real,
    centerOfMass: Olc.CodeArea,
    codeVersion: int)

  /** The area with each edge of its box moved inwards by half the height
      or width of its centroid cell: the box keeps its centre and loses one
      cell height and one cell width, and nothing else changes. */
  function Resize(area: CodeArea): (r: CodeArea)
    ensures r.centerOfMass == area.centerOfMass && r.codeVersion == area.codeVersion
    ensures r.latitudeLo + r.latitudeHi == area.latitudeLo + area.latitudeHi
    ensures r.longitudeLo + r.longitudeHi == area.longitudeLo + area.longitudeHi
    ensures r.latitudeHi - r.latitudeLo == area.latitudeHi - area.latitudeLo - Olc.Height(area.centerOfMass)
    ensures r.longitudeHi - r.longitudeLo == area.longitudeHi - area.longitudeLo - Olc.Width(area.centerOfMass)
  {
    var halfHeight := (area.centerOfMass.latitudeHi - area.centerOfMass.latitudeLo) / 2.0;
    var halfWidth := (area.centerOfMass.longitudeHi - area.centerOfMass.longitudeLo) / 2.0;
    CodeArea(area.latitudeLo + halfHeight, area.longitudeLo + halfWidth,
             area.latitudeHi - halfHeight, area.longitudeHi - halfWidth,
             area.centerOfMass, area.codeVersion)
  }

  /** The box `decode` builds around the centroid cell: each edge pushed
      out by the parsed number of cell heights or widths. */
  function Extend(centerOfMass: Olc.Cell, p: ParsedCode): (a: CodeArea)
    ensures a.centerOfMass == centerOfMass && a.codeVersion == CodeVersion
  {
    var height := centerOfMass.latitudeHi - centerOfMass.latitudeLo;
    var width := centerOfMass.longitudeHi - centerOfMass.longitudeLo;
    var latitudeHi := centerOfMass.latitudeHi + p.north as real * height;
    var longitudeHi := centerOfMass.longitudeHi + p.east as real * width;
    var latitudeLo := centerOfMass.latitudeLo - p.south as real * height;
    var longitudeLo := centerOfMass.longitudeLo - p.west as real * width;
    CodeArea(latitudeLo, longitudeLo, latitudeHi, longitudeHi, centerOfMass, CodeVersion)
  }

  /** `v3.decode`.  Absent input and text the pattern rejects raise
      `InvalidUbid`; a code the OLC library cannot decode raises the
      library's error; otherwise the result is the decoded cell extended by
      the parsed offsets. */
  function Decode(lib: Olc.Library, code: JsValue): (r: Result<CodeArea, Error>)
    ensures !code.Text? ==> r == Failure(InvalidUbid)
    ensures code.Text? && !Matches(code.s) ==> r == Failure(InvalidUbid)
    ensures code.Text? && Matches(code.s) ==>
      var p := Parse(code.s).value;
      match lib.decode(p.olc)
      case Failure(e) => r == Failure(OlcError(e))
      case Success(cell) => r == Success(Extend(cell, p))
  {
    if code.Null? || code.Undefined? then
      Failure(InvalidUbid)
    else
      match Parse(ToString(code))
      case None => Failure(InvalidUbid)
      case Some(p) =>
        match lib.decode(p.olc)
        case Failure(e) => Failure(OlcError(e))
        case Success(centerOfMass) => Success(Extend(centerOfMass, p))
  }

  /** The four offsets of an encoded box, in whole cells; negative when a
      corner lies on the wrong side of the centroid. */
  datatype Offsets = Offsets(north: int, east: int, south: int, west: int)

  /** The Chebyshev distances from the centroid's cell to the cells of the
      north-east and south-west corners, in cell heights and widths, each
      rounded to the nearest whole number of cells. */
  function Distances(northeast: Olc.Cell, southwest: Olc.Cell, centroid: Olc.Cell): (d: Offsets)
    ensures var h := Olc.Height(centroid);
      && d.north as real - 0.5 <= (northeast.latitudeHi - centroid.latitudeHi) / h < d.north as real + 0.5
      && d.south as real - 0.5 <= (centroid.latitudeLo - southwest.latitudeLo) / h < d.south as real + 0.5
    ensures var w := Olc.Width(centroid);
      && d.east as real - 0.5 <= (northeast.longitudeHi - centroid.longitudeHi) / w < d.east as real + 0.5
      && d.west as real - 0.5 <= (centroid.longitudeLo - southwest.longitudeLo) / w < d.west as real + 0.5
  {
    var height := centroid.latitudeHi - centroid.latitudeLo;
    var width := centroid.longitudeHi - centroid.longitudeLo;
    Offsets(
      Round((northeast.latitudeHi - centroid.latitudeHi) / height),
      Round((northeast.longitudeHi - centroid.longitudeHi) / width),
      Round((centroid.latitudeLo - southwest.latitudeLo) / height),
      Round((centroid.longitudeLo - southwest.longitudeLo) / width))
  }

  /** The UBID text for a centroid code and offsets: the code and the
      `String` of each offset, joined by `-`.  It starts with the code and
      a `-`; when neither the code nor any offset holds a `-` (no offset is
      negative), cutting it at every `-` gives back the five fields. */
  function UbidText(olc: string, d: Offsets): (r: string)
    ensures |olc| < |r| && r[..|olc| + 1] == olc + [Separator]
    ensures Separator !in olc && d.north >= 0 && d.east >= 0 && d.south >= 0 && d.west >= 0 ==>
      Split(r, Separator) == [olc, FormatInt(d.north), FormatInt(d.east), FormatInt(d.south), FormatInt(d.west)]
  {
    var parts := [olc, FormatInt(d.north), FormatInt(d.east), FormatInt(d.south), FormatInt(d.west)];
    JoinHead(parts, Separator);
    if Separator !in olc && d.north >= 0 && d.east >= 0 && d.south >= 0 && d.west >= 0 then
      FormatIntCanonical(d.north);
      FormatIntCanonical(d.east);
      FormatIntCanonical(d.south);
      FormatIntCanonical(d.west);
      assert SeparatorFree(parts, Separator);
      SplitJoin(parts, Separator);
      Join(parts, Separator)
    else
      Join(parts, Separator)
  }

  /** `OpenLocationCode.encode`, its error raised as the codec's own. */
  function OlcEncode(lib: Olc.Library, latitude: real, longitude: real, codeLength: int): Result<string, Error> {
    match lib.encode(latitude, longitude, codeLength)
    case Success(code) => Success(code)
    case Failure(e) => Failure(OlcError(e))
  }

  /** `OpenLocationCode.decode`, its error raised as the codec's own. */
  function OlcDecode(lib: Olc.Library, code: string): Result<Olc.Cell, Error> {
    match lib.decode(code)
    case Success(cell) => Success(cell)
    case Failure(e) => Failure(OlcError(e))
  }

  /** The cell of a point at a code length: encode, then decode. */
  function SnapPoint(lib: Olc.Library, latitude: real, longitude: real, codeLength: int): Result<Olc.Cell, Error> {
    var code :- OlcEncode(lib, latitude, longitude, codeLength);
    OlcDecode(lib, code)
  }

  /** `v3.encode`.  It fails only with an error of the OLC library, the
      first one met in the order north-east, south-west, centroid (encoding
      all three before decoding any); otherwise it yields the centroid's
      code followed by the rounded distances to the cells of the two
      corners. */
  function Encode(lib: Olc.Library, latitudeLo: real, longitudeLo: real, latitudeHi: real, longitudeHi: real,
                  latitudeCenter: real, longitudeCenter: real, codeLength: int): (r: Result<string, Error>)
    ensures r.Failure? ==> r.error.OlcError?
    ensures lib.encode(latitudeHi, longitudeHi, codeLength).Failure? ==>
      r == Failure(OlcError(lib.encode(latitudeHi, longitudeHi, codeLength).error))
    ensures r.Success? <==>
      && SnapPoint(lib, latitudeHi, longitudeHi, codeLength).Success?
      && SnapPoint(lib, latitudeLo, longitudeLo, codeLength).Success?
      && SnapPoint(lib, latitudeCenter, longitudeCenter, codeLength).Success?
    ensures r.Success? ==>
      r.value == UbidText(lib.encode(latitudeCenter, longitudeCenter, codeLength).value,
                          Distances(SnapPoint(lib, latitudeHi, longitudeHi, codeLength).value,
                                    SnapPoint(lib, latitudeLo, longitudeLo, codeLength).value,
                                    SnapPoint(lib, latitudeCenter, longitudeCenter, codeLength).value))
  {
    var northeast :- OlcEncode(lib, latitudeHi, longitudeHi, codeLength);
    var southwest :- OlcEncode(lib, latitudeLo, longitudeLo, codeLength);
    var centroid :- OlcEncode(lib, latitudeCenter, longitudeCenter, codeLength);
    var northeastArea :- OlcDecode(lib, northeast);
    var southwestArea :- OlcDecode(lib, southwest);
    var centroidArea :- OlcDecode(lib, centroid);
    Success(UbidText(centroid, Distances(northeastArea, southwestArea, centroidArea)))
  }

  /** The argument of `v3.encodeCodeArea`: a `CodeArea`, or anything else. */
  datatype Argument = AreaArgument(area: CodeArea) | OtherArgument

  /** `v3.encodeCodeArea`: anything but a `CodeArea` raises
      `InvalidCodeArea`; a `CodeArea` is encoded from its box and the centre
      and code length of its centroid cell. */
  function EncodeCodeArea(lib: Olc.Library, arg: Argument): (r: Result<string, Error>)
    ensures arg.OtherArgument? ==> r == Failure(InvalidCodeArea)
    ensures arg.AreaArgument? ==>
      var a := arg.area;
      r == Encode(lib, a.latitudeLo, a.longitudeLo, a.latitudeHi, a.longitudeHi,
                  a.centerOfMass.latitudeCenter, a.centerOfMass.longitudeCenter, a.centerOfMass.codeLength)
  {
    match arg
    case OtherArgument => Failure(InvalidCodeArea)
    case AreaArgument(a) =>
      Encode(lib, a.latitudeLo, a.longitudeLo, a.latitudeHi, a.longitudeHi,
             a.centerOfMass.latitudeCenter, a.centerOfMass.longitudeCenter, a.centerOfMass.codeLength)
  }

  /** `v3.isValid`: the pattern matches `String(code)` and the OLC library
      accepts the matched code. */
  function IsValid(lib: Olc.Library, code: JsValue): (r: bool)
    ensures r <==> Matches(ToString(code)) && lib.isValid(Parse(ToString(code)).value.olc)
  {
    match Scan(ToString(code))
    case None => false
    case Some(g) => lib.isValid(g.olc)
  }
}
