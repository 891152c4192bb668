/** What decoding, resizing, encoding and validation promise, for any OLC
    library whose decoded cells have positive height and width. */
module Properties {
  import opened Wrappers
  import opened Numerals
  import opened Separated
  import opened Grammar
  import opened BuildingId
  import Olc

  /** The box of a decoded UBID is its centroid cell extended by the
      parsed offsets. */
  lemma DecodeIsExtend(lib: Olc.Library, s: string)
    requires Decode(lib, Text(s)).Success?
    ensures Parse(s).Some? && lib.decode(Parse(s).value.olc).Success?
    ensures Decode(lib, Text(s)).value == Extend(lib.decode(Parse(s).value.olc).value, Parse(s).value)
  {
  }

  /** The edges of the box around a cell. */
  lemma ExtendEdges(c: Olc.Cell, p: ParsedCode)
    ensures var a := Extend(c, p);
            && a.latitudeHi == c.latitudeHi + p.north as real * (c.latitudeHi - c.latitudeLo)
            && a.longitudeHi == c.longitudeHi + p.east as real * (c.longitudeHi - c.longitudeLo)
            && a.latitudeLo == c.latitudeLo - p.south as real * (c.latitudeHi - c.latitudeLo)
            && a.longitudeLo == c.longitudeLo - p.west as real * (c.longitudeHi - c.longitudeLo)
  {
  }

  /** Read back in grid units, the edges of the box lie exactly the parsed
      number of cells beyond the centroid cell: measuring the box recovers
      the offsets it was built from. */
  lemma ExtendOffsetsInCells(c: Olc.Cell, p: ParsedCode)
    ensures var a := Extend(c, p);
            && (a.latitudeHi - c.latitudeHi) / Olc.Height(c) == p.north as real
            && (a.longitudeHi - c.longitudeHi) / Olc.Width(c) == p.east as real
            && (c.latitudeLo - a.latitudeLo) / Olc.Height(c) == p.south as real
            && (c.longitudeLo - a.longitudeLo) / Olc.Width(c) == p.west as real
  {
    var a := Extend(c, p);
    ExtendEdges(c, p);
    Olc.CancelScale(c.latitudeHi, Olc.Height(c), p.north as real);
    Olc.CancelScale(c.longitudeHi, Olc.Width(c), p.east as real);
    Olc.CancelScale(a.latitudeLo, Olc.Height(c), p.south as real);
    Olc.CancelScale(a.longitudeLo, Olc.Width(c), p.west as real);
  }

  lemma Beyond(base: real, size: real, n: nat, edge: real)
    requires size > 0.0 && edge == base + n as real * size
    ensures base <= edge && (edge == base <==> n == 0)
  {
  }

  lemma Below(base: real, size: real, n: nat, edge: real)
    requires size > 0.0 && edge == base - n as real * size
    ensures edge <= base && (edge == base <==> n == 0)
  {
  }

  /** The box contains the centroid cell, so it is never inverted and never
      empty. */
  lemma ExtendContainsCell(c: Olc.Cell, p: ParsedCode)
    ensures var a := Extend(c, p);
            && a.latitudeLo <= c.latitudeLo < c.latitudeHi <= a.latitudeHi
            && a.longitudeLo <= c.longitudeLo < c.longitudeHi <= a.longitudeHi
  {
    ExtendEdges(c, p);
    var a := Extend(c, p);
    Beyond(c.latitudeHi, Olc.Height(c), p.north, a.latitudeHi);
    Beyond(c.longitudeHi, Olc.Width(c), p.east, a.longitudeHi);
    Below(c.latitudeLo, Olc.Height(c), p.south, a.latitudeLo);
    Below(c.longitudeLo, Olc.Width(c), p.west, a.longitudeLo);
  }

  /** The box is the centroid cell itself exactly when all four offsets
      are zero. */
  lemma ExtendIsCell(c: Olc.Cell, p: ParsedCode)
    ensures var a := Extend(c, p);
            (a.latitudeLo == c.latitudeLo && a.latitudeHi == c.latitudeHi &&
             a.longitudeLo == c.longitudeLo && a.longitudeHi == c.longitudeHi)
            <==> (p.north == 0 && p.east == 0 && p.south == 0 && p.west == 0)
  {
    ExtendEdges(c, p);
    var a := Extend(c, p);
    Beyond(c.latitudeHi, Olc.Height(c), p.north, a.latitudeHi);
    Beyond(c.longitudeHi, Olc.Width(c), p.east, a.longitudeHi);
    Below(c.latitudeLo, Olc.Height(c), p.south, a.latitudeLo);
    Below(c.longitudeLo, Olc.Width(c), p.west, a.longitudeLo);
    assert (a.latitudeHi == c.latitudeHi) == (p.north == 0);
    assert (a.longitudeHi == c.longitudeHi) == (p.east == 0);
    assert (a.latitudeLo == c.latitudeLo) == (p.south == 0);
    assert (a.longitudeLo == c.longitudeLo) == (p.west == 0);
  }

  lemma Shrunk(lo: real, hi: real, up: nat, down: nat, outerLo: real, outerHi: real)
    requires lo < hi
    requires outerHi == hi + up as real * (hi - lo) && outerLo == lo - down as real * (hi - lo)
    ensures outerHi - outerLo - (hi - lo) == (up + down) as real * (hi - lo)
    ensures 0.0 <= (up + down) as real * (hi - lo)
  {
    var d := hi - lo;
    assert (up + down) as real * d == up as real * d + down as real * d;
    assert 0.0 <= up as real * d && 0.0 <= down as real * d;
  }

  /** Resizing the box removes half a cell on every side: what is left is
      `north + south` cells high and `east + west` cells wide, never
      inverted, with the same centroid cell and version. */
  lemma ResizeExtended(c: Olc.Cell, p: ParsedCode)
    ensures var r := Resize(Extend(c, p));
            && r.latitudeHi - r.latitudeLo == (p.north + p.south) as real * Olc.Height(c)
            && r.longitudeHi - r.longitudeLo == (p.east + p.west) as real * Olc.Width(c)
            && r.latitudeLo <= r.latitudeHi && r.longitudeLo <= r.longitudeHi
            && r.centerOfMass == c && r.codeVersion == CodeVersion
  {
    var a := Extend(c, p);
    ExtendEdges(c, p);
    Shrunk(c.latitudeLo, c.latitudeHi, p.north, p.south, a.latitudeLo, a.latitudeHi);
    Shrunk(c.longitudeLo, c.longitudeHi, p.east, p.west, a.longitudeLo, a.longitudeHi);
  }

  /** A decoded area contains its centroid cell, and is exactly that cell
      when its four offsets are zero. */
  lemma DecodeContainsCell(lib: Olc.Library, s: string)
    requires Decode(lib, Text(s)).Success?
    ensures Parse(s).Some?
    ensures var a := Decode(lib, Text(s)).value;
            var c := a.centerOfMass;
            && a.latitudeLo <= c.latitudeLo < c.latitudeHi <= a.latitudeHi
            && a.longitudeLo <= c.longitudeLo < c.longitudeHi <= a.longitudeHi
            && ((a.latitudeLo == c.latitudeLo && a.latitudeHi == c.latitudeHi &&
                 a.longitudeLo == c.longitudeLo && a.longitudeHi == c.longitudeHi)
                <==> Parse(s).value.north == Parse(s).value.east == Parse(s).value.south == Parse(s).value.west == 0)
  {
    DecodeIsExtend(lib, s);
    ExtendContainsCell(lib.decode(Parse(s).value.olc).value, Parse(s).value);
    ExtendIsCell(lib.decode(Parse(s).value.olc).value, Parse(s).value);
  }

  /** Resizing a decoded area never inverts it, and keeps its centroid cell
      and version 3. */
  lemma ResizeDecoded(lib: Olc.Library, s: string)
    requires Decode(lib, Text(s)).Success?
    ensures var a := Decode(lib, Text(s)).value;
            var r := Resize(a);
            && r.latitudeLo <= r.latitudeHi && r.longitudeLo <= r.longitudeHi
            && r.centerOfMass == a.centerOfMass && r.codeVersion == CodeVersion
  {
    DecodeIsExtend(lib, s);
    ResizeExtended(lib.decode(Parse(s).value.olc).value, Parse(s).value);
  }

  lemma ExampleBox(c: Olc.Cell)
    ensures var h := Olc.Height(c);
            var w := Olc.Width(c);
            Extend(c, ParsedCode("7FG49QCJ+2V", 5, 3, 2, 4))
              == CodeArea(c.latitudeLo - 2.0 * h, c.longitudeLo - 4.0 * w,
                          c.latitudeHi + 5.0 * h, c.longitudeHi + 3.0 * w, c, 3)
  {
    ExtendEdges(c, ParsedCode("7FG49QCJ+2V", 5, 3, 2, 4));
  }

  /** An example: `7FG49QCJ+2V-5-3-2-4` is the cell of
      `7FG49QCJ+2V` extended five cells north, three east, two south and
      four west. */
  lemma DecodeExample(lib: Olc.Library, c: Olc.Cell)
    requires lib.decode("7FG49QCJ+2V") == Success(c)
    ensures var h := Olc.Height(c);
            var w := Olc.Width(c);
            Decode(lib, Text("7FG49QCJ+2V-5-3-2-4"))
              == Success(CodeArea(c.latitudeLo - 2.0 * h, c.longitudeLo - 4.0 * w,
                                  c.latitudeHi + 5.0 * h, c.longitudeHi + 3.0 * w, c, 3))
  {
    ParseExample();
    ExampleBox(c);
  }

  /** The text `encode` builds is a UBID exactly when the centroid's code
      has the shape of an OLC group and no offset is negative (a negative
      one is written with a `-`); it then parses back to that code and
      those offsets. */
  lemma {:induction false} UbidTextParse(olc: string, d: Offsets)
    ensures Parse(UbidText(olc, d)) ==
      if IsOlcGroup(olc) && d.north >= 0 && d.east >= 0 && d.south >= 0 && d.west >= 0
      then Some(ParsedCode(olc, d.north, d.east, d.south, d.west))
      else None
  {
    var parts := [olc, FormatInt(d.north), FormatInt(d.east), FormatInt(d.south), FormatInt(d.west)];
    FormatIntCanonical(d.north);
    FormatIntCanonical(d.east);
    FormatIntCanonical(d.south);
    FormatIntCanonical(d.west);
    ScanJoin(parts);
    if IsOlcGroup(olc) && d.north >= 0 && d.east >= 0 && d.south >= 0 && d.west >= 0 {
      var p := ParsedCode(olc, d.north, d.east, d.south, d.west);
      assert Fields(Groups(p.olc, FormatNat(p.north), FormatNat(p.east), FormatNat(p.south), FormatNat(p.west))) == parts;
      ParsePrint(p);
    }
  }

  /** What `encode` returns decodes, as far as the grammar goes, to the
      centroid's code and the rounded distances, provided that code has the
      shape of an OLC group and the corners lie on or beyond the centroid's
      cell; otherwise the pattern rejects it. */
  lemma EncodeParse(lib: Olc.Library, latitudeLo: real, longitudeLo: real, latitudeHi: real, longitudeHi: real,
                    latitudeCenter: real, longitudeCenter: real, codeLength: int)
    requires Encode(lib, latitudeLo, longitudeLo, latitudeHi, longitudeHi, latitudeCenter, longitudeCenter, codeLength).Success?
    ensures var s := Encode(lib, latitudeLo, longitudeLo, latitudeHi, longitudeHi, latitudeCenter, longitudeCenter, codeLength).value;
            var olc := lib.encode(latitudeCenter, longitudeCenter, codeLength).value;
            var d := Distances(SnapPoint(lib, latitudeHi, longitudeHi, codeLength).value,
                               SnapPoint(lib, latitudeLo, longitudeLo, codeLength).value,
                               SnapPoint(lib, latitudeCenter, longitudeCenter, codeLength).value);
            Parse(s) ==
              if IsOlcGroup(olc) && d.north >= 0 && d.east >= 0 && d.south >= 0 && d.west >= 0
              then Some(ParsedCode(olc, d.north, d.east, d.south, d.west))
              else None
  {
    var olc := lib.encode(latitudeCenter, longitudeCenter, codeLength).value;
    var d := Distances(SnapPoint(lib, latitudeHi, longitudeHi, codeLength).value,
                       SnapPoint(lib, latitudeLo, longitudeLo, codeLength).value,
                       SnapPoint(lib, latitudeCenter, longitudeCenter, codeLength).value);
    UbidTextParse(olc, d);
  }

  /** `isValid` is false for `null`, `undefined` and the empty string. */
  lemma IsValidAbsent(lib: Olc.Library)
    ensures !IsValid(lib, Null) && !IsValid(lib, Undefined) && !IsValid(lib, Text(""))
  {
    NoMatchForAbsentValues();
    assert ToString(Null) == "null" && ToString(Undefined) == "undefined" && ToString(Text("")) == "";
  }

  /** A code `isValid` accepts is a string that gets past the grammar check
      of `decode`: decoding it either succeeds or fails in the OLC library. */
  lemma IsValidPassesGrammar(lib: Olc.Library, code: JsValue)
    requires IsValid(lib, code)
    ensures code.Text? && Matches(code.s)
    ensures Decode(lib, code).Success? || Decode(lib, code).error.OlcError?
  {
    match code
    case Null =>
      NoMatchForAbsentValues();
      assert false;
    case Undefined =>
      NoMatchForAbsentValues();
      assert false;
    case Text(s) =>
  }

  /** When the OLC library decodes every code it calls valid, every UBID
      `isValid` accepts decodes, to a box that is not inverted. */
  lemma IsValidDecodes(lib: Olc.Library, code: JsValue)
    requires forall olc :: lib.isValid(olc) ==> lib.decode(olc).Success?
    requires IsValid(lib, code)
    ensures Decode(lib, code).Success?
    ensures var a := Decode(lib, code).value;
            a.latitudeLo < a.latitudeHi && a.longitudeLo < a.longitudeHi
  {
    IsValidPassesGrammar(lib, code);
    DecodeIsExtend(lib, code.s);
    var p := Parse(code.s).value;
    ExtendContainsCell(lib.decode(p.olc).value, p);
  }
}
