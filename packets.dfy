/** The APRS packet encoder (`APRSBeacon.create_position_packet` and
    `APRSBeacon.create_object_packet`), and a decoder for the two formats
    it produces, used to state that the encoding loses nothing.

    A position report is `CALL>APRS,TCPIP*:=` followed by the latitude,
    the symbol table, the longitude, the symbol and the comment.  An object
    report is `CALL>APRS,TCPIP*:;` followed by a 9-character name, the
    fixed time stamp `*111111z` and the same fields. */
module Packets {
  import opened Text
  import opened Coordinates

  /** Destination `APRS`, path `TCPIP*`, then the end of the address. */
  const Header: string := ">APRS,TCPIP*:"

  /** The object report's live marker and time stamp: always `111111z`,
      a placeholder rather than the time of sending. */
  const ObjectStamp: string := "*111111z"

  /** `f"{name:<9}"[:9]`: the name left-aligned in exactly 9 characters,
      cut after the ninth or padded with spaces. */
  function ObjectName(name: string): (r: string)
    ensures |r| == 9
    ensures forall i :: 0 <= i < 9 ==> r[i] == if i < |name| then name[i] else ' '
  {
    var padded := if |name| < 9 then name + Repeat(' ', 9 - |name|) else name;
    padded[..9]
  }

  /** The part both reports share: latitude, table, longitude, symbol, comment. */
  function Body(lat: int, table: string, lon: int, symbol: string, comment: string): string {
    FormatCoordinate(lat, Latitude) + table + FormatCoordinate(lon, Longitude) + symbol + comment
  }

  /** A position report without time stamp: its address is the callsign,
      ended by the report's first `>`, and its data type identifier is `=`. */
  function PositionPacket(callsign: string, lat: int, lon: int, table: string, symbol: string, comment: string): (p: string)
    ensures |p| > |callsign| + |Header| && p[..|callsign|] == callsign
    ensures p[|callsign|..|callsign| + |Header|] == Header && p[|callsign| + |Header|] == '='
    ensures '>' !in callsign ==> FirstIndex(p, '>') == Some(|callsign|)
  {
    var b := Body(lat, table, lon, symbol, comment);
    PositionAfterHeader(callsign, b);
    callsign + Header + "=" + b
  }

  /** An object report: addressed like a position report, with data type
      identifier `;`, then the 9-character name field and the time stamp. */
  function ObjectPacket(callsign: string, name: string, lat: int, lon: int, table: string, symbol: string, comment: string): (p: string)
    ensures |p| >= |callsign| + |Header| + 18 && p[..|callsign|] == callsign
    ensures p[|callsign|..|callsign| + |Header|] == Header && p[|callsign| + |Header|] == ';'
    ensures p[|callsign| + |Header| + 1..|callsign| + |Header| + 10] == ObjectName(name)
    ensures p[|callsign| + |Header| + 10..|callsign| + |Header| + 18] == ObjectStamp
    ensures '>' !in callsign ==> FirstIndex(p, '>') == Some(|callsign|)
  {
    var b := Body(lat, table, lon, symbol, comment);
    var n := ObjectName(name);
    ObjectAfterHeader(callsign, n, b);
    callsign + Header + ";" + n + ObjectStamp + b
  }

  // ---------------------------------------------------------------------
  // Decoding

  datatype Fields = Fields(lat: int, table: char, lon: int, symbol: char, comment: string)

  datatype Report =
    | PositionReport(callsign: string, fields: Fields)
    | ObjectReport(callsign: string, name: string, fields: Fields)

  /** The index of the first `c` in `s`. */
  function FirstIndex(s: string, c: char): (r: Option<nat>)
    ensures r.Some? ==> r.value < |s| && s[r.value] == c && c !in s[..r.value]
    ensures r.None? ==> c !in s
  {
    if s == [] then None
    else if s[0] == c then Some(0)
    else match FirstIndex(s[1..], c)
      case None => None
      case Some(i) => assert s[..i + 1] == [s[0]] + s[1..][..i]; Some(i + 1)
  }

  function DecodeBody(b: string): Option<Fields> {
    if |b| < 19 then None
    else match (ParseCoordinate(b[..8], Latitude), ParseCoordinate(b[9..18], Longitude))
      case (Some(lat), Some(lon)) => Some(Fields(lat, b[8], lon, b[18], b[19..]))
      case _ => None
  }

  /** Reads a packet of either kind back; `None` for anything else. */
  function Decode(p: string): Option<Report> {
    match FirstIndex(p, '>')
    case None => None
    case Some(i) =>
      var callsign := p[..i];
      var rest := p[i..];
      if |rest| < |Header| + 1 || rest[..|Header|] != Header then None
      else
        var b := rest[|Header| + 1..];
        if rest[|Header|] == '=' then
          match DecodeBody(b)
          case None => None
          case Some(f) => Some(PositionReport(callsign, f))
        else if rest[|Header|] == ';' && |b| >= 17 && b[9..17] == ObjectStamp then
          match DecodeBody(b[17..])
          case None => None
          case Some(f) => Some(ObjectReport(callsign, b[..9], f))
        else None
  }

  /** Which arguments the decoder can give back: a one-character table and
      symbol, and coordinates whose degrees fit their fields. */
  predicate Decodable(lat: int, lon: int, table: string, symbol: string) {
    |table| == 1 && |symbol| == 1 && Fits(lat, Latitude) && Fits(lon, Longitude)
  }

  /** The decoder on a body made of fields of the right widths. */
  lemma DecodeBodyPieces(la: string, table: string, lo: string, symbol: string, comment: string, lat: int, lon: int)
    requires |la| == 8 && |lo| == 9 && |table| == 1 && |symbol| == 1
    requires ParseCoordinate(la, Latitude) == Some(lat) && ParseCoordinate(lo, Longitude) == Some(lon)
    ensures DecodeBody(la + table + lo + symbol + comment) == Some(Fields(lat, table[0], lon, symbol[0], comment))
  {
    var b := la + table + lo + symbol + comment;
    assert b[..8] == la;
    assert b[9..18] == lo;
    assert b[8] == table[0] && b[18] == symbol[0];
    assert b[19..] == comment;
  }

  lemma BodyRoundTrip(lat: int, lon: int, table: string, symbol: string, comment: string)
    requires Decodable(lat, lon, table, symbol)
    ensures DecodeBody(Body(lat, table, lon, symbol, comment)) == Some(Fields(lat, table[0], lon, symbol[0], comment))
  {
    var la := FormatCoordinate(lat, Latitude);
    var lo := FormatCoordinate(lon, Longitude);
    FormatShape(lat, Latitude);
    FormatShape(lon, Longitude);
    CoordinateRoundTrip(lat, Latitude);
    CoordinateRoundTrip(lon, Longitude);
    DecodeBodyPieces(la, table, lo, symbol, comment, lat, lon);
  }

  lemma SplitAtHeader(callsign: string, kind: char, tail: string)
    ensures var p := callsign + Header + [kind] + tail;
      && ('>' !in callsign ==> FirstIndex(p, '>') == Some(|callsign|))
      && p[..|callsign|] == callsign
      && p[|callsign|..][..|Header|] == Header
      && p[|callsign|..][|Header|] == kind
      && p[|callsign|..][|Header| + 1..] == tail
  {
    var p := callsign + Header + [kind] + tail;
    assert p[..|callsign|] == callsign;
    assert p[|callsign|] == '>';
    assert p[..|callsign| + 1] == callsign + ">";
    assert p[|callsign|..] == Header + [kind] + tail;
  }

  /** Where the address and the data type identifier sit in a position
      report. */
  lemma PositionAfterHeader(callsign: string, b: string)
    ensures var p := callsign + Header + "=" + b;
      && |p| > |callsign| + |Header| && p[..|callsign|] == callsign
      && p[|callsign|..|callsign| + |Header|] == Header && p[|callsign| + |Header|] == '='
      && ('>' !in callsign ==> FirstIndex(p, '>') == Some(|callsign|))
  {
    SplitAtHeader(callsign, '=', b);
  }

  /** The decoder on a position report around any body it can read. */
  lemma DecodePositionFields(callsign: string, b: string, f: Fields)
    requires '>' !in callsign
    requires DecodeBody(b) == Some(f)
    ensures Decode(callsign + Header + "=" + b) == Some(PositionReport(callsign, f))
  {
    SplitAtHeader(callsign, '=', b);
  }

  /** A position report reads back as the fields it was built from. */
  lemma PositionRoundTrip(callsign: string, lat: int, lon: int, table: string, symbol: string, comment: string)
    requires '>' !in callsign
    requires Decodable(lat, lon, table, symbol)
    ensures Decode(PositionPacket(callsign, lat, lon, table, symbol, comment))
      == Some(PositionReport(callsign, Fields(lat, table[0], lon, symbol[0], comment)))
  {
    BodyRoundTrip(lat, lon, table, symbol, comment);
    DecodePositionFields(callsign, Body(lat, table, lon, symbol, comment), Fields(lat, table[0], lon, symbol[0], comment));
  }

  /** Where the name, the stamp and the body sit after the `;`. */
  lemma ObjectLayout(callsign: string, name9: string, b: string)
    requires |name9| == 9
    ensures var tail := name9 + ObjectStamp + b;
      && callsign + Header + ";" + name9 + ObjectStamp + b == callsign + Header + [';'] + tail
      && |tail| >= 17 && tail[..9] == name9 && tail[9..17] == ObjectStamp && tail[17..] == b
  {
    var tail := name9 + ObjectStamp + b;
    assert callsign + Header + ";" + name9 + ObjectStamp + b == callsign + Header + [';'] + tail;
    assert tail[..9] == name9;
    assert tail[9..17] == ObjectStamp;
    assert tail[17..] == b;
  }

  /** Where the address, the data type identifier, the name field and the
      stamp sit in an object report. */
  lemma ObjectAfterHeader(callsign: string, name9: string, b: string)
    requires |name9| == 9
    ensures var p := callsign + Header + ";" + name9 + ObjectStamp + b;
      var c := |callsign| + |Header|;
      && |p| >= c + 18 && p[..|callsign|] == callsign
      && p[|callsign|..c] == Header && p[c] == ';'
      && p[c + 1..c + 10] == name9
      && p[c + 10..c + 18] == ObjectStamp
      && ('>' !in callsign ==> FirstIndex(p, '>') == Some(|callsign|))
  {
    var p := callsign + Header + ";" + name9 + ObjectStamp + b;
    var c := |callsign| + |Header|;
    ObjectLayout(callsign, name9, b);
    SplitAtHeader(callsign, ';', name9 + ObjectStamp + b);
    assert p == (callsign + Header + ";") + name9 + ObjectStamp + b;
    assert |callsign + Header + ";"| == c + 1;
  }

  /** The decoder takes any 9 characters after `;` as the object name. */
  lemma DecodeObjectFields(callsign: string, name9: string, b: string, f: Fields)
    requires '>' !in callsign && |name9| == 9
    requires DecodeBody(b) == Some(f)
    ensures Decode(callsign + Header + ";" + name9 + ObjectStamp + b) == Some(ObjectReport(callsign, name9, f))
  {
    ObjectLayout(callsign, name9, b);
    SplitAtHeader(callsign, ';', name9 + ObjectStamp + b);
  }

  /** An object report reads back as the fields it was built from, with
      the name cut or padded to 9 characters. */
  lemma ObjectRoundTrip(callsign: string, name: string, lat: int, lon: int, table: string, symbol: string, comment: string)
    requires '>' !in callsign
    requires Decodable(lat, lon, table, symbol)
    ensures Decode(ObjectPacket(callsign, name, lat, lon, table, symbol, comment))
      == Some(ObjectReport(callsign, ObjectName(name), Fields(lat, table[0], lon, symbol[0], comment)))
  {
    BodyRoundTrip(lat, lon, table, symbol, comment);
    DecodeObjectFields(callsign, ObjectName(name), Body(lat, table, lon, symbol, comment),
      Fields(lat, table[0], lon, symbol[0], comment));
  }

  /** A name that is already a 9-character field is left as it is. */
  lemma {:induction false} ObjectNameIdempotent(name: string)
    ensures ObjectName(ObjectName(name)) == ObjectName(name)
  {
    var n := ObjectName(name);
    assert ObjectName(n) == n by {
      forall i | 0 <= i < 9 ensures ObjectName(n)[i] == n[i] { }
    }
  }

  /** The worked example: station 9M2PJU at 3.1390 N 101.6869 E with the
      car symbol `/r` and comment `test`; the comment follows the symbol
      directly, so the packet ends in `...10141.21Ertest`. */
  lemma FixturePosition()
    ensures PositionPacket("9M2PJU", 18834, 610121, "/", "r", "test")
      == "9M2PJU" + ">APRS,TCPIP*:" + "=" + ("0308.34N" + "/" + "10141.21E" + "r" + "test")
  {
    calc {
      PositionPacket("9M2PJU", 18834, 610121, "/", "r", "test");
      ==
      "9M2PJU" + Header + "=" + Body(18834, "/", 610121, "r", "test");
      == { FixtureLatitude(); FixtureLongitude(); }
      "9M2PJU" + Header + "=" + ("0308.34N" + "/" + "10141.21E" + "r" + "test");
    }
  }

  lemma FixtureName()
    ensures ObjectName("KL") == "KL       "
  {
    forall i | 0 <= i < 9 ensures ObjectName("KL")[i] == "KL       "[i] { }
  }

  /** The same place as an object named `KL`: the name is padded to 9. */
  lemma FixtureObject()
    ensures ObjectPacket("9M2PJU", "KL", 18834, 610121, "/", "r", "test")
      == "9M2PJU" + ">APRS,TCPIP*:" + ";" + "KL       " + "*111111z" + ("0308.34N" + "/" + "10141.21E" + "r" + "test")
  {
    calc {
      ObjectPacket("9M2PJU", "KL", 18834, 610121, "/", "r", "test");
      ==
      "9M2PJU" + Header + ";" + ObjectName("KL") + ObjectStamp + Body(18834, "/", 610121, "r", "test");
      == { FixtureLatitude(); FixtureLongitude(); FixtureName(); }
      "9M2PJU" + Header + ";" + "KL       " + ObjectStamp + ("0308.34N" + "/" + "10141.21E" + "r" + "test");
    }
  }
}
