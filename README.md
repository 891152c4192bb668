# UBID v3 codec, in Dafny

A model of `pnnl-buildingid.js`, the JavaScript codec for Unique Building
Identifiers (UBID), code version 3. A UBID such as `7FG49QCJ+2V-5-3-2-4` names
the bounding box of a building footprint in two parts:

- the Open Location Code (OLC) of the grid cell that holds the footprint's
  centroid;
- four whole numbers of cells, giving how far the box reaches north, east,
  south and west of that cell.

The model covers:

- the `CodeArea` record and its `resize`;
- the `v3` pattern, written as a predicate, a scanner and a parser;
- `v3.decode`, `v3.encode`, `v3.encodeCodeArea` and `v3.isValid`.

The OLC library (`OpenLocationCode.encode`, `decode` and `isValid`) is a
dependency the codec calls and does not define. It is passed in as a
`Library` value of three functions (`olc.dfy`). The only property assumed of
it everywhere is that a decoded cell has positive height and width (the
`Olc.Cell` subtype).

The round-trip theorems also assume `Olc.UniformGrid`. This states that, at
one code length, codes name the cells of a uniform grid with its origin at
(-90, -180). Encoding a point gives the code of the cell that holds it, and
every code the library decodes at that length is the
code that encoding the cell's centre gives back.

Coordinates are `real`, and offsets and rounded deltas are unbounded
integers. Errors are values of a `Result` type. `InvalidUbid` stands for
"Invalid UBID", `InvalidCodeArea` for "Invalid UBID code area", and
`OlcError(m)` for an exception of the OLC library, passed through unchanged.

Files:

- `wrappers.dfy`: `Option` and `Result`.
- `numerals.dfy`: `String(n)`, `parseInt` and `Math.round`.
- `separated.dfy`: splitting and joining on a separator.
- `grammar.dfy`: the UBID pattern.
- `olc.dfy`: the OLC library interface and the uniform grid.
- `buildingid.dfy`: the codec itself.
- `properties.dfy`: what decode, resize, encode and isValid promise for any library.
- `roundtrip.dfy`: the round-trip theorems on a uniform grid, in both directions.

Three behaviours of the code that differ from what one might expect:

- **`Math.round` on ties.** `Math.round` is `floor(x + 1/2)`, so a tie goes towards +infinity, not away from zero. This is `Numerals.Round`, with `Numerals.RoundTies`.
- **OLC decode errors.** When the OLC library cannot decode the centroid code, `decode` raises the library's own exception, not "Invalid UBID". This is the `OlcError` branch of `BuildingId.Decode`.
- **Re-encoding without `resize`.** Encoding a decoded area again does not give back the UBID unless the area is first `resize`d. This is `RoundTrip.ReEncodeUnresized`, which states what comes out instead. The documented purpose of `resize` is `RoundTrip.ReEncodeResized` and `RoundTrip.EncodeDecodeResize`.

## Model

| member | source | states |
|---|---|---|
| Grammar.Scan | pnnl-buildingid.js:100-116 | a match found by the scanner has an OLC group of 4 to 8 alphabet symbols, `+` and more symbols, and four fields each `0` or digits with no leading zero; the five groups joined by `-` are the whole input |
| Grammar.ScanMatches | pnnl-buildingid.js:100-116 | the scanner finds a match exactly when the anchored pattern matches, in both directions |
| Grammar.ScanJoin | pnnl-buildingid.js:100-116 | five fields joined by `-` match exactly when each field has its group's shape, and the match returns those fields |
| Grammar.Parse | pnnl-buildingid.js:177-200 | the match plus `parseInt` of the four offset groups succeeds exactly on the strings the pattern matches; its OLC is a well-formed group and printing the result gives back the input |
| Grammar.ParsePrint | pnnl-buildingid.js:197-200 | parsing the printed form of any code with a well-formed OLC group gives that code back |
| Grammar.ParseExample | pnnl-buildingid.js:100-116 | `7FG49QCJ+2V-5-3-2-4` parses to OLC `7FG49QCJ+2V` with offsets 5, 3, 2, 4 |
| Grammar.ParseLeadingZero | pnnl-buildingid.js:108-114 | a bare `0` offset is accepted; an offset `05` with a leading zero is rejected |
| Grammar.NoPlusNoMatch | pnnl-buildingid.js:104-106 | a string without `+` never matches |
| Grammar.NoMatchForAbsentValues | pnnl-buildingid.js:177 | `"null"`, `"undefined"` and `""` never match |
| Grammar.Matches | pnnl-buildingid.js:100-116 | the anchored pattern matches only strings holding a `+` and exactly four `-` |
| Grammar.RenderShape | pnnl-buildingid.js:100-116 | every string the pattern describes holds a `+` and exactly four `-` |
| Numerals.ParseDigits | pnnl-buildingid.js:197-200 | `parseInt` of a digit string is below 10^(length), and at least 10^(length - 1) when the string does not start with `0` |
| Numerals.FormatNat | pnnl-buildingid.js:259-262 | `String(n)` for n >= 0 is in the field grammar `0\|[1-9][0-9]*`, and starts with `0` only when n is 0 |
| Numerals.FormatInt | pnnl-buildingid.js:259-262 | `String(i)` starts with `-` iff i < 0; the digits after any sign are canonical and read back as the magnitude of i |
| Numerals.ParseFormat | pnnl-buildingid.js:259-262 | `parseInt(String(n)) == n` for every n >= 0 |
| Numerals.FormatParse | pnnl-buildingid.js:197-200 | every string in the field grammar is `String` of the number `parseInt` reads from it |
| Numerals.FormatIntCanonical | pnnl-buildingid.js:259-262 | `String(i)` passes the field grammar iff i >= 0, and holds a `-` iff i < 0 |
| Numerals.Round | pnnl-buildingid.js:259-262 | `Math.round(x)` is the integer k with k - 1/2 <= x < k + 1/2 |
| Numerals.RoundUnique | pnnl-buildingid.js:259-262 | that k is unique, so rounding a whole number gives it back |
| Numerals.RoundTies | pnnl-buildingid.js:259-262 | ties round up: -0.5 to 0, 0.5 to 1, -1.5 to -1, 2.5 to 3 |
| BuildingId.Resize | pnnl-buildingid.js:70-77 | a new area with the same centre of the box, the same centroid cell and version, and the box's height and width each smaller by one cell height and width |
| BuildingId.Extend | pnnl-buildingid.js:192-203 | the box keeps the centroid cell unchanged and has code version 3 |
| BuildingId.Decode | pnnl-buildingid.js:171-204 | null, undefined or a non-matching string give InvalidUbid; an OLC the library rejects gives that library error; otherwise the cell extended by the parsed offsets |
| BuildingId.Distances | pnnl-buildingid.js:244-262 | each offset is within half a unit of the corner cell's edge minus the centroid cell's edge, divided by the centroid cell's height or width |
| BuildingId.UbidText | pnnl-buildingid.js:257-263 | the joined text starts with the centroid's code and a `-`; when the code holds no `-` and no offset is negative, cutting it at every `-` gives back the code and the four `String`s |
| BuildingId.Encode | pnnl-buildingid.js:227-264 | it fails only with an OLC library error, the north-east encode's error first; it succeeds iff all three points encode and decode; the result is the centroid OLC and the four rounded distances joined by `-` |
| BuildingId.EncodeCodeArea | pnnl-buildingid.js:275-281 | a non-CodeArea argument gives InvalidCodeArea; a CodeArea is encoded from its box and its centroid cell's centre and code length |
| BuildingId.IsValid | pnnl-buildingid.js:290-294 | true iff the pattern matches `String(code)` and the OLC library accepts the OLC group |
| Properties.DecodeIsExtend | pnnl-buildingid.js:185-203 | a successful decode parsed its input, decoded the OLC group, and returned that cell extended by the parsed offsets |
| Properties.ExtendOffsetsInCells | pnnl-buildingid.js:192-200 | the box edges lie exactly N, E, S and W cell heights or widths beyond the centroid cell |
| Properties.ExtendContainsCell | pnnl-buildingid.js:192-200 | the box contains the centroid cell, so lo < hi on both axes |
| Properties.ExtendIsCell | pnnl-buildingid.js:192-200 | the box equals the centroid cell iff all four offsets are 0 |
| Properties.ResizeExtended | pnnl-buildingid.js:70-77 | resizing a decoded box leaves a box (N+S) cells high and (E+W) cells wide, never inverted, with the same centroid cell and version 3 |
| Properties.DecodeContainsCell | pnnl-buildingid.js:171-204 | a decoded area contains its centroid cell, and equals that cell iff all four offsets are 0 |
| Properties.ResizeDecoded | pnnl-buildingid.js:70-77 | resizing a decode result never inverts the box, and keeps the centroid cell and version 3 |
| Properties.DecodeExample | pnnl-buildingid.js:171-204 | `7FG49QCJ+2V-5-3-2-4` decodes to its cell extended 5 cells north, 3 east, 2 south and 4 west |
| Properties.UbidTextParse | pnnl-buildingid.js:257-263 | the text encode joins is a UBID iff the OLC has the group shape and all four offsets are >= 0; it then parses back to that OLC and those offsets |
| Properties.EncodeParse | pnnl-buildingid.js:227-264 | encode's output matches the pattern iff the centroid OLC has the group shape and every rounded distance is >= 0; it then parses back to that OLC and those distances |
| Properties.IsValidAbsent | pnnl-buildingid.js:290-294 | isValid is false for null, undefined and the empty string |
| Properties.IsValidPassesGrammar | pnnl-buildingid.js:290-294 | a code isValid accepts is a string that passes decode's grammar check, so decode either succeeds or fails with an OLC error |
| Properties.IsValidDecodes | pnnl-buildingid.js:290-294 | if the OLC library decodes every code it calls valid, every code isValid accepts decodes to a box with lo < hi |
| RoundTrip.GridCode | pnnl-buildingid.js:188 | on a uniform grid, a decoded cell of the grid's code length is the grid cell of its own centre, and that centre encodes to the same code |
| RoundTrip.EncodeOnGrid | pnnl-buildingid.js:227-264 | on a uniform grid, encode never fails and returns the centroid OLC and the rounded distances between the grid cells of the centroid and of the two corners |
| RoundTrip.ResizedDistancesAt | pnnl-buildingid.js:244-262 | the distances encode measures for a resized decoded box are exactly its offsets N, E, S, W |
| RoundTrip.UnresizedDistancesAt | pnnl-buildingid.js:244-262 | for a box that was not resized, encode measures N+1, E+1, S, W |
| RoundTrip.EncodedIndices | pnnl-buildingid.js:244-262 | on a uniform grid, each offset encode writes is the difference between the grid index of a corner and that of the centroid |
| RoundTrip.EncodeDecodeAt | pnnl-buildingid.js:227-264 | on a uniform grid, encoding a box whose north and east edges lie in cells at or past the centre's cell and whose south and west edges lie in cells at or before it writes the centroid's code and the index differences, and decoding that text gives the centre's cell extended by them |
| RoundTrip.DecodeUbidText | pnnl-buildingid.js:171-204 | the text encode joins for an OLC group and non-negative offsets decodes to the library's cell for that code, extended by those offsets |
| RoundTrip.EncodeDecodeResize | pnnl-buildingid.js:65-66 | on a uniform grid, a box that holds its centroid encodes to a UBID, and decoding and resizing it gives a box whose every edge is within half a cell of the original edge, around the centroid's grid cell |
| RoundTrip.ReEncodeResized | pnnl-buildingid.js:65-66 | on a uniform grid, decoding a UBID, resizing it and encoding the area at the same code length gives back the same UBID |
| RoundTrip.ReEncodeUnresized | pnnl-buildingid.js:275-281 | on a uniform grid, encoding a decoded area without resizing gives the UBID with north and east increased by one, never the input |

## Left out

- The module-loader wrapper (lines 11-27) is not modelled. It only decides how the module is exported.
- The internals of the OLC library are not modelled. It is a separate package, taken as three opaque functions. `Olc.UniformGrid` is an idealisation of it: it has no latitude clipping and no longitude wrapping, and it assumes that every code the library decodes at the grid's code length is exactly the code `encode` writes for that cell's centre. A library that accepts several spellings of one cell (lower case, or digits past its precision limit, say) breaks that assumption, and for such codes `RoundTrip.ReEncodeResized` gives no guarantee. The assumption is used only by the round-trip theorems.
- IEEE-754 doubles are not modelled. Coordinates are exact reals and offsets are unbounded integers. So rounding error, overflow to Infinity for huge offsets and the precision loss of `parseInt` on long digit strings are not captured.
- `escapeRegExp` (lines 96-98) and the regular-expression engine are not modelled. The pattern is a predicate with a scanner proved equivalent to it.
- JavaScript coercion is modelled only for `null`, `undefined` and strings. `String(obj)` on other values is not modelled.
- `instanceof CodeArea` is modelled as a tag on the argument of `BuildingId.EncodeCodeArea`.
- RoundTrip.EncodeDecodeResize: proved only for boxes that hold their centroid (a corner far enough on the wrong side gives a negative offset, which the pattern rejects) and for libraries that write the centroid's code as an OLC group the pattern accepts, since the OLC library is abstract here.
- `BuildingId.IsValid` takes the OLC library's `isValid` as given. Codes that the library accepts but `decode` rejects (short codes, say) are therefore not ruled out. `Properties.IsValidDecodes` states the assumption under which isValid implies a successful decode.
- The codec does no I/O and keeps no state, so nothing else was replaced by parameters.
