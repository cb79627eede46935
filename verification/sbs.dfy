/**
 * Decoding of one line of the BaseStation (SBS-1) text feed into a partial
 * aircraft update (sbs/sbs.go). A line is a comma-separated list of fields;
 * field 0 is "MSG", field 1 the transmission type, field 4 the ICAO address.
 */
module Sbs {
  import opened Wrappers

  /**
   * The state of one aircraft, keyed by its ICAO address. In an update, an
   * empty callsign and zero numbers mean "not carried by this message".
   */
  datatype Aircraft = Aircraft(icao: string, callsign: string, lat: real, lon: real, speed: real, track: real)

  /** A line shorter than this many fields is ignored. */
  const MinFields: nat := 11

  /** A position report (type 3) carries latitude and longitude only with this many fields. */
  const PositionFields: nat := 16

  /** A velocity report (type 4) carries speed and track only with this many fields. */
  const VelocityFields: nat := 14

  /** No field of a split line contains the separator. */
  predicate NoSeparator(fields: seq<string>)
  {
    forall i :: 0 <= i < |fields| ==> ',' !in fields[i]
  }

  /**
   * Go's strings.Split(s, ","): the maximal comma-free pieces, empty ones
   * included. Text is a sequence of Unicode characters, so a line is taken to
   * be valid UTF-8.
   */
  function Split(s: string): (r: seq<string>)
    ensures |r| >= 1 && NoSeparator(r)
    decreases |s|
  {
    if |s| == 0 then [""]
    else
      var rest := Split(s[1..]);
      if s[0] == ',' then [""] + rest
      else [[s[0]] + rest[0]] + rest[1..]
  }

  /** Go's strings.Join(parts, ","): the inverse of Split. */
  function Join(parts: seq<string>): string
    requires |parts| >= 1
  {
    if |parts| == 1 then parts[0] else parts[0] + "," + Join(parts[1..])
  }

  /** Joining the pieces of a split gives the line back. */
  lemma {:induction false} JoinSplit(s: string)
    ensures Join(Split(s)) == s
    decreases |s|
  {
    if |s| > 0 {
      var rest := Split(s[1..]);
      JoinSplit(s[1..]);
      if s[0] == ',' {
        assert Split(s) == [""] + rest;
        assert Split(s)[1..] == rest;
        assert s == [s[0]] + s[1..];
      } else {
        var r := Split(s);
        assert r == [[s[0]] + rest[0]] + rest[1..];
        if |rest| == 1 {
          assert s == [s[0]] + rest[0];
        } else {
          assert r[1..] == rest[1..];
          assert Join(rest) == rest[0] + "," + Join(rest[1..]);
          assert s == [s[0]] + s[1..];
        }
      }
    }
  }

  /** Splitting a comma-free prefix glued to a suffix extends the suffix's first piece. */
  lemma {:induction false} SplitPrefix(a: string, t: string)
    requires ',' !in a
    ensures Split(a + t) == [a + Split(t)[0]] + Split(t)[1..]
    decreases |a|
  {
    if |a| > 0 {
      var st := Split(t);
      assert (a + t)[0] == a[0] != ',';
      assert (a + t)[1..] == a[1..] + t;
      SplitPrefix(a[1..], t);
      var rest := Split(a[1..] + t);
      assert rest == [a[1..] + st[0]] + st[1..];
      assert rest[0] == a[1..] + st[0] && rest[1..] == st[1..];
      assert Split(a + t) == [[a[0]] + rest[0]] + rest[1..];
      assert [a[0]] + (a[1..] + st[0]) == a + st[0];
    } else {
      assert a + t == t;
      var r := Split(t);
      assert a + r[0] == r[0];
      assert r == [r[0]] + r[1..];
    }
  }

  /** Splitting a join of comma-free pieces gives the pieces back. */
  lemma {:induction false} SplitJoin(parts: seq<string>)
    requires |parts| >= 1 && NoSeparator(parts)
    ensures Split(Join(parts)) == parts
    decreases |parts|
  {
    if |parts| == 1 {
      SplitPrefix(parts[0], "");
      assert Split("") == [""];
      assert parts[0] + "" == parts[0];
      assert Join(parts) == parts[0];
    } else {
      var t := "," + Join(parts[1..]);
      SplitJoin(parts[1..]);
      assert t[0] == ',' && t[1..] == Join(parts[1..]);
      assert Split(t) == [""] + Split(t[1..]);
      assert Split(t)[0] == "" && Split(t)[1..] == parts[1..];
      SplitPrefix(parts[0], t);
      assert parts[0] + t == Join(parts);
      assert parts[0] + "" == parts[0];
      assert [parts[0]] + parts[1..] == parts;
    }
  }

  /** Go's unicode.IsSpace: the Latin-1 spaces and the Unicode White_Space property. */
  predicate IsSpace(c: char)
  {
    || c == '\t' || c == '\n' || c == '\U{B}' || c == '\U{C}' || c == '\r' || c == ' '
    || c == '\U{85}' || c == '\U{A0}' || c == '\U{1680}'
    || ('\U{2000}' <= c <= '\U{200A}')
    || c == '\U{2028}' || c == '\U{2029}' || c == '\U{202F}' || c == '\U{205F}' || c == '\U{3000}'
  }

  /** Drops leading spaces. */
  function TrimLeft(s: string): (r: string)
    ensures |r| <= |s| && r == s[|s| - |r|..]
    ensures |r| == 0 || !IsSpace(r[0])
    ensures forall i :: 0 <= i < |s| - |r| ==> IsSpace(s[i])
    decreases |s|
  {
    if |s| > 0 && IsSpace(s[0]) then TrimLeft(s[1..]) else s
  }

  /** Drops trailing spaces. */
  function TrimRight(s: string): (r: string)
    ensures |r| <= |s| && r == s[..|r|]
    ensures |r| == 0 || !IsSpace(r[|r| - 1])
    ensures forall i :: |r| <= i < |s| ==> IsSpace(s[i])
    decreases |s|
  {
    if |s| > 0 && IsSpace(s[|s| - 1]) then TrimRight(s[..|s| - 1]) else s
  }

  /** Every character is a space. */
  predicate AllSpace(t: string)
  {
    forall k :: 0 <= k < |t| ==> IsSpace(t[k])
  }

  /** `r` is `s` with the spaces before index `i` and after `r` cut off. */
  predicate TrimmedAt(s: string, r: string, i: int)
  {
    0 <= i <= |s| - |r| && r == s[i..i + |r|] && AllSpace(s[..i]) && AllSpace(s[i + |r|..])
  }

  /**
   * Go's strings.TrimSpace over Unicode text: the result is a slice of the
   * input with only spaces cut off either end, and it neither starts nor
   * ends with a space.
   */
  function TrimSpace(s: string): (r: string)
    ensures |r| == 0 || (!IsSpace(r[0]) && !IsSpace(r[|r| - 1]))
    ensures exists i :: TrimmedAt(s, r, i)
  {
    var l := TrimLeft(s);
    var r := TrimRight(l);
    var i := |s| - |l|;
    assert TrimmedAt(s, r, i);
    r
  }

  /** Trimming an already trimmed string changes nothing. */
  lemma TrimSpaceIdempotent(s: string)
    ensures TrimSpace(TrimSpace(s)) == TrimSpace(s)
  {
    var t := TrimSpace(s);
    if |t| > 0 {
      assert TrimLeft(t) == t;
      assert TrimRight(t) == t;
    }
  }

  /** A number parsed from a field, or 0 when it does not parse (Go's ParseFloat error path). */
  function FloatOr0(parse: string -> Option<real>, field: string): real
  {
    parse(field).GetOr(0.0)
  }

  /** The record is worth returning: it carries a callsign, a latitude or a speed. */
  predicate Useful(a: Aircraft)
  {
    a.callsign != "" || a.lat != 0.0 || a.speed != 0.0
  }

  /**
   * Decodes the fields of one line. `parse` stands for Go's
   * strconv.ParseFloat (None for a parse error). A line is kept only when it
   * has at least MinFields fields, starts with "MSG", names an aircraft and
   * is of type 1 (callsign), 3 (position) or 4 (velocity); the update then
   * carries only the fields of its own type, and is returned only if it is
   * Useful.
   */
  function ParseFields(fields: seq<string>, parse: string -> Option<real>): (r: Option<Aircraft>)
    ensures r.Some? ==> |fields| >= MinFields && fields[0] == "MSG" && fields[4] != ""
    ensures r.Some? ==> r.value.icao == fields[4] && Useful(r.value)
    ensures r.Some? ==> fields[1] == "1" || fields[1] == "3" || fields[1] == "4"
    ensures r.Some? && fields[1] == "1" ==>
      r.value == Aircraft(fields[4], TrimSpace(fields[10]), 0.0, 0.0, 0.0, 0.0)
    ensures r.Some? && fields[1] == "3" ==>
      && |fields| >= PositionFields
      && r.value == Aircraft(fields[4], "", FloatOr0(parse, fields[14]), FloatOr0(parse, fields[15]), 0.0, 0.0)
    ensures r.Some? && fields[1] == "4" ==>
      && |fields| >= VelocityFields
      && r.value == Aircraft(fields[4], "", 0.0, 0.0, FloatOr0(parse, fields[11]), FloatOr0(parse, fields[12]))
    ensures |fields| >= MinFields && fields[0] == "MSG" && fields[4] != "" ==>
      && (fields[1] == "1" && TrimSpace(fields[10]) != "" ==> r.Some?)
      && (fields[1] == "3" && |fields| >= PositionFields && FloatOr0(parse, fields[14]) != 0.0 ==> r.Some?)
      && (fields[1] == "4" && |fields| >= VelocityFields && FloatOr0(parse, fields[11]) != 0.0 ==> r.Some?)
  {
    if |fields| < MinFields || fields[0] != "MSG" then None
    else
      var msgType := fields[1];
      var icao := fields[4];
      if icao == "" then None
      else
        var empty := Aircraft(icao, "", 0.0, 0.0, 0.0, 0.0);
        var update :=
          if msgType == "1" then
            Some(if |fields| >= MinFields then empty.(callsign := TrimSpace(fields[10])) else empty)
          else if msgType == "3" then
            Some(if |fields| >= PositionFields
                 then empty.(lat := FloatOr0(parse, fields[14]), lon := FloatOr0(parse, fields[15]))
                 else empty)
          else if msgType == "4" then
            Some(if |fields| >= VelocityFields
                 then empty.(speed := FloatOr0(parse, fields[11]), track := FloatOr0(parse, fields[12]))
                 else empty)
          else None;
        if update.Some? && Useful(update.value) then update else None
  }

  /** Go's parseSbsLine: split the line on commas, then decode the fields. */
  function ParseSbsLine(line: string, parse: string -> Option<real>): (r: Option<Aircraft>)
    ensures var fields := Split(line);
      r.Some? ==> |fields| >= MinFields && fields[0] == "MSG" && r.value.icao == fields[4] != ""
  {
    ParseFields(Split(line), parse)
  }

  /** Decoding a line assembled from comma-free fields decodes exactly those fields. */
  lemma ParseJoinedLine(fields: seq<string>, parse: string -> Option<real>)
    requires |fields| >= 1 && NoSeparator(fields)
    ensures ParseSbsLine(Join(fields), parse) == ParseFields(fields, parse)
  {
    SplitJoin(fields);
  }

  /**
   * A position report whose latitude is exactly 0 (an aircraft on the
   * equator) is dropped, whatever its longitude: the usefulness test looks
   * at the latitude only.
   */
  lemma EquatorPositionDropped(fields: seq<string>, parse: string -> Option<real>)
    requires |fields| >= PositionFields && fields[1] == "3"
    requires FloatOr0(parse, fields[14]) == 0.0
    ensures ParseFields(fields, parse) == None
  {
  }
}
