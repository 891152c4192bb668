/** The v3 UBID text format
      `^([A]{4,8}\+[A]*)-(0|[1-9][0-9]*)-(0|[1-9][0-9]*)-(0|[1-9][0-9]*)-(0|[1-9][0-9]*)$`
    with `A` the Open Location Code alphabet `23456789CFGHJMPQRVWX`: the
    pattern as a predicate, a scanner that recovers its five capture groups,
    and a parser that also reads the four offsets as numbers. */
module Grammar {
  import opened Wrappers
  import opened Numerals
  import opened Separated

  const Alphabet: string := "23456789CFGHJMPQRVWX"

  /** The field separator of a UBID. */
  const Separator: char := '-'

  predicate IsCodeChar(c: char) {
    c in Alphabet
  }

  /** Capture group 1: four to eight alphabet symbols, a literal `+`, then
      any number of alphabet symbols. */
  predicate IsOlcGroup(s: string) {
    exists k :: 4 <= k <= 8 && k < |s| && s[k] == '+' &&
      forall i :: 0 <= i < |s| && i != k ==> IsCodeChar(s[i])
  }

  /** The five capture groups of a match, as strings. */
  datatype Groups = Groups(olc: string, north: string, east: string, south: string, west: string)

  function Fields(g: Groups): seq<string> {
    [g.olc, g.north, g.east, g.south, g.west]
  }

  predicate WellFormed(g: Groups) {
    && IsOlcGroup(g.olc)
    && IsCanonical(g.north)
    && IsCanonical(g.east)
    && IsCanonical(g.south)
    && IsCanonical(g.west)
  }

  /** The groups written out with the separator between them. */
  function Render(g: Groups): string {
    Join(Fields(g), Separator)
  }

  /** The anchored pattern matches `s`: from its first character to its last,
      `s` is five well-formed groups separated by `-`.  A matching string
      holds a `+` and exactly four `-`. */
  ghost predicate Matches(s: string)
    ensures Matches(s) ==> '+' in s && Count(s, Separator) == 4
  {
    RenderShapes();
    exists g :: WellFormed(g) && Render(g) == s
  }

  /** Well-formed groups render to a string with a `+` (in the OLC group)
      and exactly the four `-` placed between the groups. */
  lemma RenderShape(g: Groups)
    requires WellFormed(g)
    ensures '+' in Render(g) && Count(Render(g), Separator) == 4
  {
    var k :| 4 <= k <= 8 && k < |g.olc| && g.olc[k] == '+' &&
      forall i :: 0 <= i < |g.olc| && i != k ==> IsCodeChar(g.olc[i]);
    JoinPrefix(Fields(g), Separator);
    assert Render(g)[k] == Render(g)[..|g.olc|][k] == g.olc[k];
    WellFormedSeparatorFree(g);
    JoinCount(Fields(g), Separator);
  }

  lemma RenderShapes()
    ensures forall g :: WellFormed(g) ==> '+' in Render(g) && Count(Render(g), Separator) == 4
  {
    forall g | WellFormed(g)
      ensures '+' in Render(g) && Count(Render(g), Separator) == 4
    {
      RenderShape(g);
    }
  }

  lemma OlcGroupSeparatorFree(s: string)
    requires IsOlcGroup(s)
    ensures Separator !in s
  {
    assert !IsCodeChar(Separator);
    var k :| 4 <= k <= 8 && k < |s| && s[k] == '+' &&
      forall i :: 0 <= i < |s| && i != k ==> IsCodeChar(s[i]);
    forall i | 0 <= i < |s|
      ensures s[i] != Separator
    {
      if i != k {
        assert IsCodeChar(s[i]);
      }
    }
  }

  /** No well-formed group holds the separator, so the groups of a match are
      exactly the pieces between separators. */
  lemma WellFormedSeparatorFree(g: Groups)
    requires WellFormed(g)
    ensures SeparatorFree(Fields(g), Separator)
  {
    OlcGroupSeparatorFree(g.olc);
    assert AllDigits(g.north) && AllDigits(g.east) && AllDigits(g.south) && AllDigits(g.west);
  }

  /** The match of the anchored pattern, if there is one: the pattern's
      groups never hold `-`, so a match cuts `s` at every `-` into exactly
      five pieces, each of the right shape. */
  function Scan(s: string): (r: Option<Groups>)
    ensures r.Some? ==> WellFormed(r.value) && Render(r.value) == s
  {
    var parts := Split(s, Separator);
    if |parts| == 5 && WellFormed(Groups(parts[0], parts[1], parts[2], parts[3], parts[4])) then
      var g := Groups(parts[0], parts[1], parts[2], parts[3], parts[4]);
      assert Fields(g) == parts;
      JoinSplit(s, Separator);
      Some(g)
    else
      None
  }

  /** Scanning the rendering of separator-free groups finds those very
      groups when they are well formed, and no match otherwise. */
  lemma ScanRender(g: Groups)
    requires SeparatorFree(Fields(g), Separator)
    ensures Scan(Render(g)) == if WellFormed(g) then Some(g) else None
  {
    SplitJoin(Fields(g), Separator);
  }

  /** The scanner finds a match exactly when the pattern matches. */
  lemma ScanMatches(s: string)
    ensures Scan(s).Some? <==> Matches(s)
  {
    if Matches(s) {
      var g :| WellFormed(g) && Render(g) == s;
      WellFormedSeparatorFree(g);
      ScanRender(g);
    }
  }

  /** Five fields joined by `-` match exactly when each field has the shape
      of its group; a field holding a `-` is never part of a match. */
  lemma {:induction false} ScanJoin(parts: seq<string>)
    requires |parts| == 5
    ensures var g := Groups(parts[0], parts[1], parts[2], parts[3], parts[4]);
            Scan(Join(parts, Separator)) == if WellFormed(g) then Some(g) else None
  {
    var g := Groups(parts[0], parts[1], parts[2], parts[3], parts[4]);
    assert Fields(g) == parts;
    var s := Join(parts, Separator);
    JoinCount(parts, Separator);
    if SeparatorFree(parts, Separator) {
      ScanRender(g);
    } else {
      assert SumCount(parts, Separator) > 0;
      assert |Split(s, Separator)| > 5;
      if WellFormed(g) {
        WellFormedSeparatorFree(g);
        assert false;
      }
    }
  }

  /** Every match holds a `+`. */
  lemma ScanPlus(s: string)
    requires Scan(s).Some?
    ensures '+' in s
  {
    RenderShape(Scan(s).value);
  }

  /** A UBID's content: the OLC of the centroid's grid cell and the four
      offsets, in grid cells, of the northern, eastern, southern and western
      edges of the bounding box. */
  datatype ParsedCode = ParsedCode(olc: string, north: nat, east: nat, south: nat, west: nat)

  /** The UBID text of a parsed code: the `String` of each offset after the
      OLC, joined by `-`. */
  function Print(p: ParsedCode): string {
    Render(Groups(p.olc, FormatNat(p.north), FormatNat(p.east), FormatNat(p.south), FormatNat(p.west)))
  }

  /** The match followed by `parseInt` of each offset group.  It succeeds
      exactly on the strings the pattern matches, and printing its result
      gives the string back. */
  function Parse(s: string): (r: Option<ParsedCode>)
    ensures r.Some? <==> Matches(s)
    ensures r.Some? ==> IsOlcGroup(r.value.olc) && Print(r.value) == s
  {
    ScanMatches(s);
    match Scan(s)
    case None => None
    case Some(g) =>
      FormatParse(g.north);
      FormatParse(g.east);
      FormatParse(g.south);
      FormatParse(g.west);
      Some(ParsedCode(g.olc, ParseDigits(g.north), ParseDigits(g.east), ParseDigits(g.south), ParseDigits(g.west)))
  }

  /** Parsing the printed form of a code with a well-formed OLC group gives
      the code back: `parseInt(String(n)) == n` inside a whole UBID. */
  lemma ParsePrint(p: ParsedCode)
    requires IsOlcGroup(p.olc)
    ensures Parse(Print(p)) == Some(p)
  {
    var g := Groups(p.olc, FormatNat(p.north), FormatNat(p.east), FormatNat(p.south), FormatNat(p.west));
    WellFormedSeparatorFree(g);
    ScanRender(g);
    ParseFormat(p.north);
    ParseFormat(p.east);
    ParseFormat(p.south);
    ParseFormat(p.west);
  }

  lemma ExampleOlcGroup()
    ensures IsOlcGroup("7FG49QCJ+2V")
  {
    var s := "7FG49QCJ+2V";
    assert s[8] == '+';
  }

  /** An example code: four offsets after an eleven-character OLC. */
  lemma ParseExample()
    ensures Parse("7FG49QCJ+2V-5-3-2-4") == Some(ParsedCode("7FG49QCJ+2V", 5, 3, 2, 4))
  {
    var p := ParsedCode("7FG49QCJ+2V", 5, 3, 2, 4);
    ExampleOlcGroup();
    ParsePrint(p);
    PrintExample();
  }

  lemma PrintExample()
    ensures Print(ParsedCode("7FG49QCJ+2V", 5, 3, 2, 4)) == "7FG49QCJ+2V-5-3-2-4"
  {
    assert FormatNat(5) == "5" && FormatNat(3) == "3" && FormatNat(2) == "2" && FormatNat(4) == "4";
    var parts := ["7FG49QCJ+2V", "5", "3", "2", "4"];
    assert Fields(Groups("7FG49QCJ+2V", FormatNat(5), FormatNat(3), FormatNat(2), FormatNat(4))) == parts;
    assert parts[1..][1..][1..][1..] == ["4"];
    assert Join(parts[1..][1..][1..], Separator) == "2-4";
    assert Join(parts[1..][1..], Separator) == "3-2-4";
    assert Join(parts[1..], Separator) == "5-3-2-4";
  }

  /** A bare `0` is an offset, but an offset with a leading zero is not. */
  lemma ParseLeadingZero()
    ensures Parse("7FG49QCJ+2V-0-0-0-0") == Some(ParsedCode("7FG49QCJ+2V", 0, 0, 0, 0))
    ensures Parse("7FG49QCJ+2V-05-3-2-4") == None
  {
    ExampleOlcGroup();
    ParsePrint(ParsedCode("7FG49QCJ+2V", 0, 0, 0, 0));
    PrintZeroExample();
    var g := Groups("7FG49QCJ+2V", "05", "3", "2", "4");
    LeadingZeroSeparatorFree();
    ScanRender(g);
    RenderLeadingZeroExample();
  }

  lemma PrintZeroExample()
    ensures Print(ParsedCode("7FG49QCJ+2V", 0, 0, 0, 0)) == "7FG49QCJ+2V-0-0-0-0"
  {
    assert FormatNat(0) == "0";
    var parts := ["7FG49QCJ+2V", "0", "0", "0", "0"];
    assert Fields(Groups("7FG49QCJ+2V", FormatNat(0), FormatNat(0), FormatNat(0), FormatNat(0))) == parts;
    assert parts[1..][1..][1..][1..] == ["0"];
    assert Join(parts[1..][1..][1..], Separator) == "0-0";
    assert Join(parts[1..][1..], Separator) == "0-0-0";
    assert Join(parts[1..], Separator) == "0-0-0-0";
  }

  lemma LeadingZeroSeparatorFree()
    ensures var g := Groups("7FG49QCJ+2V", "05", "3", "2", "4");
            SeparatorFree(Fields(g), Separator) && !WellFormed(g)
  {
    ExampleOlcGroup();
    OlcGroupSeparatorFree("7FG49QCJ+2V");
    assert AllDigits("05") && AllDigits("3") && AllDigits("2") && AllDigits("4");
  }

  lemma RenderLeadingZeroExample()
    ensures Render(Groups("7FG49QCJ+2V", "05", "3", "2", "4")) == "7FG49QCJ+2V-05-3-2-4"
  {
    var parts := ["7FG49QCJ+2V", "05", "3", "2", "4"];
    assert parts[1..][1..][1..][1..] == ["4"];
    assert Join(parts[1..][1..][1..], Separator) == "2-4";
    assert Join(parts[1..][1..], Separator) == "3-2-4";
    assert Join(parts[1..], Separator) == "05-3-2-4";
  }

  /** A string without a `+` never matches. */
  lemma NoPlusNoMatch(s: string)
    requires '+' !in s
    ensures !Matches(s)
  {
    ScanMatches(s);
    if Scan(s).Some? {
      ScanPlus(s);
    }
  }

  /** The strings `String(null)`, `String(undefined)` and the empty string
      hold no `+`, so the pattern matches none of them. */
  lemma NoMatchForAbsentValues()
    ensures !Matches("null") && !Matches("undefined") && !Matches("")
  {
    NoPlusNoMatch("null");
    NoPlusNoMatch("undefined");
    NoPlusNoMatch("");
  }
}
