/** The APRS coordinate formatter (`APRSBeacon.format_coordinate`).

    A coordinate is held in fixed point: a signed count of hundredths of
    an arc-minute, so one degree is 6000 units.  Latitudes render as
    `DDMM.mmH` and longitudes as `DDDMM.mmH`, where `H` is the hemisphere
    letter chosen by the sign alone. */
module Coordinates {
  import opened Text

  datatype Axis = Latitude | Longitude

  /** Hundredths of an arc-minute in one degree. */
  const UnitsPerDegree: nat := 6000

  /** Width of the zero-padded degree field: `{degrees:02d}` / `{degrees:03d}`. */
  function DegreeWidth(axis: Axis): nat {
    if axis == Latitude then 2 else 3
  }

  function Magnitude(c: int): nat {
    if c >= 0 then c else -c
  }

  /** Whole degrees of the absolute value (`int(abs(coord))`). */
  function Degrees(c: int): nat {
    Magnitude(c) / UnitsPerDegree
  }

  /** Hundredths of a minute left after the whole degrees; always below 60.00'. */
  function MinuteHundredths(c: int): (h: nat)
    ensures h < 6000
  {
    Magnitude(c) % UnitsPerDegree
  }

  function Hemisphere(c: int, axis: Axis): char {
    if axis == Latitude then (if c >= 0 then 'N' else 'S')
    else (if c >= 0 then 'E' else 'W')
  }

  /** The degrees of `c` fit the fixed-width field of `axis`: below 100 for
      a latitude, below 1000 for a longitude. */
  predicate Fits(c: int, axis: Axis) {
    Degrees(c) < Pow10(DegreeWidth(axis))
  }

  /** `{minutes:05.2f}` for minutes held as hundredths below 60.00. */
  function MinutesText(h: nat): (s: string)
    requires h < 6000
    ensures |s| == 5 && s[2] == '.'
    ensures AllDigits(s[..2]) && AllDigits(s[3..])
  {
    DigitsFit(h / 100, 2);
    DigitsFit(h % 100, 2);
    var s := ZeroPad(h / 100, 2) + "." + ZeroPad(h % 100, 2);
    assert s[..2] == ZeroPad(h / 100, 2) && s[3..] == ZeroPad(h % 100, 2);
    s
  }

  /** A field: the degrees zero-padded to `width`, the minutes, the letter. */
  function Field(degrees: nat, width: nat, h: nat, letter: char): (r: string)
    requires h < 6000
    ensures |r| == 6 + (if |Digits(degrees)| < width then width else |Digits(degrees)|)
    ensures r[|r| - 1] == letter && r[|r| - 4] == '.'
  {
    ZeroPad(degrees, width) + MinutesText(h) + [letter]
  }

  function FormatCoordinate(c: int, axis: Axis): (r: string)
    ensures |r| >= 8
    ensures |r| == 6 + (if |Digits(Degrees(c))| < DegreeWidth(axis) then DegreeWidth(axis) else |Digits(Degrees(c))|)
    // the hemisphere letter depends on the axis and the sign only
    ensures r[|r| - 1] == 'N' <==> axis == Latitude && c >= 0
    ensures r[|r| - 1] == 'S' <==> axis == Latitude && c < 0
    ensures r[|r| - 1] == 'E' <==> axis == Longitude && c >= 0
    ensures r[|r| - 1] == 'W' <==> axis == Longitude && c < 0
    ensures r[|r| - 4] == '.'
  {
    Field(Degrees(c), DegreeWidth(axis), MinuteHundredths(c), Hemisphere(c, axis))
  }

  /** The magnitude, in hundredths of a minute, of degrees, minutes and hundredths. */
  function Assemble(degrees: nat, minutes: nat, hundredths: nat): nat {
    degrees * UnitsPerDegree + minutes * 100 + hundredths
  }

  /** Reads a fixed-width coordinate field back; `None` for anything that
      is not `D..DMM.mmH` with the axis's width, minutes below 60 and a
      hemisphere letter of the axis. */
  function ParseCoordinate(s: string, axis: Axis): Option<int> {
    var w := DegreeWidth(axis);
    if |s| != w + 6 || s[w + 2] != '.' || !AllDigits(s[..w + 2]) || !AllDigits(s[w + 3..w + 5]) then None
    else
      var positive := if axis == Latitude then 'N' else 'E';
      var negative := if axis == Latitude then 'S' else 'W';
      var degrees := DigitsValue(s[..w]);
      var minutes := DigitsValue(s[w..w + 2]);
      var hundredths := DigitsValue(s[w + 3..w + 5]);
      var m: int := Assemble(degrees, minutes, hundredths);
      if minutes >= 60 then None
      else if s[w + 5] == positive then Some(m)
      else if s[w + 5] == negative then Some(-m)
      else None
  }

  /** A field in its four parts. */
  lemma FieldPieces(degrees: nat, w: nat, h: nat, letter: char)
    requires h < 6000
    ensures Field(degrees, w, h, letter)
      == ZeroPad(degrees, w) + ZeroPad(h / 100, 2) + "." + ZeroPad(h % 100, 2) + [letter]
  {
    var d, mm, hh := ZeroPad(degrees, w), ZeroPad(h / 100, 2), ZeroPad(h % 100, 2);
    assert MinutesText(h) == mm + "." + hh;
    assert d + (mm + "." + hh) + [letter] == d + mm + "." + hh + [letter];
  }

  /** The layout of a field assembled from digit strings. */
  lemma PiecesLayout(d: string, mm: string, hh: string, letter: char)
    requires |mm| == 2 && |hh| == 2 && AllDigits(d) && AllDigits(mm) && AllDigits(hh)
    ensures var s := d + mm + "." + hh + [letter];
      var w := |d|;
      && |s| == w + 6 && s[w + 2] == '.' && s[w + 5] == letter
      && AllDigits(s[..w + 2]) && AllDigits(s[w + 3..w + 5])
      && DigitsValue(s[..w]) == DigitsValue(d) && DigitsValue(s[w..w + 2]) == DigitsValue(mm)
      && DigitsValue(s[w + 3..w + 5]) == DigitsValue(hh)
  {
    AssembledSlices(d, mm, hh, letter);
    AllDigitsConcat(d, mm);
  }

  /** A field whose degrees fit its width: fixed length, digits where
      digits belong, and numbers that read back as the parts. */
  lemma FieldLayout(degrees: nat, w: nat, h: nat, letter: char)
    requires 1 <= w && degrees < Pow10(w) && h < 6000
    ensures var r := Field(degrees, w, h, letter);
      && |r| == w + 6 && r[w + 2] == '.' && r[w + 5] == letter
      && AllDigits(r[..w + 2]) && AllDigits(r[w + 3..w + 5])
      && DigitsValue(r[..w]) == degrees && DigitsValue(r[w..w + 2]) == h / 100
      && DigitsValue(r[w + 3..w + 5]) == h % 100
  {
    DigitsFit(degrees, w);
    DigitsFit(h / 100, 2);
    DigitsFit(h % 100, 2);
    FieldPieces(degrees, w, h, letter);
    PiecesLayout(ZeroPad(degrees, w), ZeroPad(h / 100, 2), ZeroPad(h % 100, 2), letter);
    ZeroPadValue(degrees, w);
    ZeroPadValue(h / 100, 2);
    ZeroPadValue(h % 100, 2);
  }

  /** When the degrees fit, the field has the fixed shape `D..DMM.mmH`:
      8 characters for a latitude, 9 for a longitude, digits everywhere
      except the point and the hemisphere letter. */
  lemma FormatShape(c: int, axis: Axis)
    requires Fits(c, axis)
    ensures var r := FormatCoordinate(c, axis);
      var w := DegreeWidth(axis);
      && |r| == w + 6
      && AllDigits(r[..w + 2]) && r[w + 2] == '.' && AllDigits(r[w + 3..w + 5])
      && r[w + 5] == Hemisphere(c, axis)
  {
    FieldLayout(Degrees(c), DegreeWidth(axis), MinuteHundredths(c), Hemisphere(c, axis));
  }

  /** The parser on a field of the right shape with minutes below 60: the
      hemisphere letter alone decides the sign. */
  lemma ParseWellFormed(s: string, axis: Axis)
    requires var w := DegreeWidth(axis);
      && |s| == w + 6 && s[w + 2] == '.' && AllDigits(s[..w + 2]) && AllDigits(s[w + 3..w + 5])
      && DigitsValue(s[w..w + 2]) < 60
    ensures var w := DegreeWidth(axis);
      var m: int := Assemble(DigitsValue(s[..w]), DigitsValue(s[w..w + 2]), DigitsValue(s[w + 3..w + 5]));
      ParseCoordinate(s, axis)
        == if s[w + 5] == Hemisphere(0, axis) then Some(m)
           else if s[w + 5] == Hemisphere(-1, axis) then Some(-m)
           else None
  {
  }

  /** The slices of a field assembled from its parts. */
  lemma AssembledSlices(d: string, mm: string, hh: string, h: char)
    requires |mm| == 2 && |hh| == 2
    ensures var s := d + mm + "." + hh + [h];
      var w := |d|;
      && |s| == w + 6 && s[..w + 2] == d + mm && s[..w] == d && s[w..w + 2] == mm
      && s[w + 2] == '.' && s[w + 3..w + 5] == hh && s[w + 5] == h
  {
    var s := d + mm + "." + hh + [h];
    var w := |d|;
    assert s[..w + 2] == d + mm;
    assert s[w..w + 2] == mm;
    assert s[w + 3..w + 5] == hh;
  }

  lemma AllDigitsConcat(a: string, b: string)
    requires AllDigits(a) && AllDigits(b)
    ensures AllDigits(a + b)
  {
    forall i | 0 <= i < |a + b| ensures IsDigit((a + b)[i]) {
      if i < |a| { assert (a + b)[i] == a[i]; } else { assert (a + b)[i] == b[i - |a|]; }
    }
  }

  /** `s` has the shape the parser expects for `axis`, its letter is the
      hemisphere of `c`, and its three numbers make up the magnitude of `c`. */
  predicate ReadsAs(s: string, axis: Axis, c: int) {
    var w := DegreeWidth(axis);
    && |s| == w + 6 && s[w + 2] == '.' && AllDigits(s[..w + 2]) && AllDigits(s[w + 3..w + 5])
    && DigitsValue(s[w..w + 2]) < 60 && s[w + 5] == Hemisphere(c, axis)
    && Assemble(DigitsValue(s[..w]), DigitsValue(s[w..w + 2]), DigitsValue(s[w + 3..w + 5])) == Magnitude(c)
  }

  /** The parser reads such a field as `c`. */
  lemma ParseReadsAs(s: string, axis: Axis, c: int)
    requires ReadsAs(s, axis, c)
    ensures ParseCoordinate(s, axis) == Some(c)
  {
    ParseWellFormed(s, axis);
  }

  lemma SplitMagnitude(c: int)
    ensures Assemble(Degrees(c), MinuteHundredths(c) / 100, MinuteHundredths(c) % 100) == Magnitude(c)
  {
  }

  /** The formatted field has the shape the parser expects, and its three
      numbers make up the magnitude of `c`. */
  lemma FormattedFields(c: int, axis: Axis)
    requires Fits(c, axis)
    ensures ReadsAs(FormatCoordinate(c, axis), axis, c)
  {
    FieldLayout(Degrees(c), DegreeWidth(axis), MinuteHundredths(c), Hemisphere(c, axis));
    SplitMagnitude(c);
  }

  /** Formatting loses nothing: a coordinate whose degrees fit reads back
      as itself. */
  lemma CoordinateRoundTrip(c: int, axis: Axis)
    requires Fits(c, axis)
    ensures ParseCoordinate(FormatCoordinate(c, axis), axis) == Some(c)
  {
    FormattedFields(c, axis);
    ParseReadsAs(FormatCoordinate(c, axis), axis, c);
  }

  /** `{minutes:05.2f}`, character by character. */
  lemma MinutesCharacters(h: nat)
    requires h < 6000
    ensures var m, f := h / 100, h % 100;
      MinutesText(h) == [DigitChar(m / 10), DigitChar(m % 10), '.', DigitChar(f / 10), DigitChar(f % 10)]
  {
    ZeroPadTwo(h / 100);
    ZeroPadTwo(h % 100);
  }

  lemma LatitudeFixtureParts()
    ensures FormatCoordinate(18834, Latitude) == ZeroPad(3, 2) + MinutesText(834) + ['N']
  {
    assert Degrees(18834) == 3 && MinuteHundredths(18834) == 834;
  }

  lemma LatitudeDegreesText()
    ensures ZeroPad(3, 2) == "03"
  {
    ZeroPadTwo(3);
  }

  lemma LatitudeMinutesText()
    ensures MinutesText(834) == "08.34"
  {
    MinutesCharacters(834);
  }

  lemma LatitudeFixtureText()
    ensures ZeroPad(3, 2) + MinutesText(834) + ['N'] == "0308.34N"
  {
    calc {
      ZeroPad(3, 2) + MinutesText(834) + ['N'];
      == { LatitudeDegreesText(); LatitudeMinutesText(); }
      "03" + "08.34" + "N";
      ==
      "0308.34N";
    }
  }

  lemma LongitudeFixtureParts()
    ensures FormatCoordinate(610121, Longitude) == ZeroPad(101, 3) + MinutesText(4121) + ['E']
  {
    assert Degrees(610121) == 101 && MinuteHundredths(610121) == 4121;
  }

  lemma LongitudeDegreesText()
    ensures ZeroPad(101, 3) == "101"
  {
    ZeroPadThree(101);
  }

  lemma LongitudeMinutesText()
    ensures MinutesText(4121) == "41.21"
  {
    MinutesCharacters(4121);
  }

  lemma LongitudeFixtureText()
    ensures ZeroPad(101, 3) + MinutesText(4121) + ['E'] == "10141.21E"
  {
    calc {
      ZeroPad(101, 3) + MinutesText(4121) + ['E'];
      == { LongitudeDegreesText(); LongitudeMinutesText(); }
      "101" + "41.21" + "E";
      ==
      "10141.21E";
    }
  }

  /** Worked example: 3.1390 N is 3 degrees 8.34 minutes, 18834 units. */
  lemma FixtureLatitude()
    ensures FormatCoordinate(18834, Latitude) == "0308.34N"
  {
    calc {
      FormatCoordinate(18834, Latitude);
      == { LatitudeFixtureParts(); }
      ZeroPad(3, 2) + MinutesText(834) + ['N'];
      == { LatitudeFixtureText(); }
      "0308.34N";
    }
  }

  /** Worked example: 101.6869 E is 101 degrees 41.21 minutes, 610121 units. */
  lemma FixtureLongitude()
    ensures FormatCoordinate(610121, Longitude) == "10141.21E"
  {
    calc {
      FormatCoordinate(610121, Longitude);
      == { LongitudeFixtureParts(); }
      ZeroPad(101, 3) + MinutesText(4121) + ['E'];
      == { LongitudeFixtureText(); }
      "10141.21E";
    }
  }
}
