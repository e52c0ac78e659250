/** W3C Trace Context: the traceparent header of section 3.2, rendered and parsed. */
module TraceParents {
  import opened Wrappers
  import opened Text

  const TRACE_ID_LEN: nat := 32
  const SPAN_ID_LEN: nat := 16

  datatype TraceParent = TraceParent(traceId: string, spanId: string, flags: nat)

  predicate IsLowerHexDigit(c: char) {
    '0' <= c <= '9' || 'a' <= c <= 'f'
  }

  predicate IsLowerHex(s: string) {
    forall i :: 0 <= i < |s| ==> IsLowerHexDigit(s[i])
  }

  /** Exactly n lowercase hexadecimal digits, not all zero. */
  predicate IsHexId(s: string, n: nat) {
    |s| == n && IsLowerHex(s) && exists i :: 0 <= i < |s| && s[i] != '0'
  }

  /** validHexID: length, alphabet and the all-zero rule in one pass. */
  method ValidHexId(s: string, n: nat) returns (ok: bool)
    ensures ok <==> IsHexId(s, n)
  {
    if |s| != n { return false; }
    var nonZero := false;
    for i := 0 to n
      invariant forall j :: 0 <= j < i ==> IsLowerHexDigit(s[j])
      invariant nonZero <==> exists j :: 0 <= j < i && s[j] != '0'
    {
      var c := s[i];
      if c == '0' {
      } else if '0' < c <= '9' || 'a' <= c <= 'f' {
        nonZero := true;
      } else {
        return false;
      }
    }
    return nonZero;
  }

  method CheckLowerHex(s: string) returns (ok: bool)
    ensures ok <==> IsLowerHex(s)
  {
    for i := 0 to |s|
      invariant forall j :: 0 <= j < i ==> IsLowerHexDigit(s[j])
    {
      if !('0' <= s[i] <= '9' || 'a' <= s[i] <= 'f') { return false; }
    }
    return true;
  }

  predicate Valid(p: TraceParent) {
    IsHexId(p.traceId, TRACE_ID_LEN) && IsHexId(p.spanId, SPAN_ID_LEN)
  }

  // ----- flags -----

  function HexDigit(d: nat): (c: char)
    requires d < 16
    ensures IsLowerHexDigit(c)
  {
    if d < 10 then ('0' as int + d) as char else ('a' as int + (d - 10)) as char
  }

  function HexValue(c: char): (d: nat)
    requires IsLowerHexDigit(c)
    ensures d < 16 && HexDigit(d) == c
  {
    if c <= '9' then c as int - '0' as int else c as int - 'a' as int + 10
  }

  function FormatFlags(f: nat): string
    requires f < 256
  {
    [HexDigit(f / 16), HexDigit(f % 16)]
  }

  function ParseFlags(s: string): Option<nat> {
    if |s| != 2 || !IsLowerHex(s) then None else Some(HexValue(s[0]) * 16 + HexValue(s[1]))
  }

  lemma FlagsRoundTrip(f: nat)
    requires f < 256
    ensures ParseFlags(FormatFlags(f)) == Some(f)
  {
    assert HexValue(HexDigit(f / 16)) == f / 16 && HexValue(HexDigit(f % 16)) == f % 16;
  }

  lemma FlagsText(s: string)
    requires ParseFlags(s).Some?
    ensures ParseFlags(s).value < 256 && FormatFlags(ParseFlags(s).value) == s
  {
    var a, b := HexValue(s[0]), HexValue(s[1]);
    assert (a * 16 + b) / 16 == a && (a * 16 + b) % 16 == b;
    assert s == [s[0], s[1]];
  }

  // ----- the header -----

  /** A version-00 traceparent, or nothing at all when an identifier is not usable. */
  function Render(p: TraceParent): string
    requires p.flags < 256
  {
    if Valid(p) then Join(["00", p.traceId, p.spanId, FormatFlags(p.flags)], '-') else ""
  }

  function Parse(header: string): Option<TraceParent> {
    var parts := Split(Trim(header), '-');
    if |parts| < 4 then None
    else
      var version := parts[0];
      if |version| != 2 || !IsLowerHex(version) || version == "ff" then None
      else if version == "00" && |parts| != 4 then None
      else
        match ParseFlags(parts[3])
        case None => None
        case Some(flags) =>
          var p := TraceParent(parts[1], parts[2], flags);
          if Valid(p) then Some(p) else None
  }

  /** ParseTraceParent on the loops that check its parts. */
  method ParseHeader(header: string) returns (p: Option<TraceParent>)
    ensures p == Parse(header)
  {
    var parts := Split(Trim(header), '-');
    if |parts| < 4 { return None; }
    var version := parts[0];
    var hex := CheckLowerHex(version);
    if |version| != 2 || !hex || version == "ff" { return None; }
    if version == "00" && |parts| != 4 { return None; }
    var flagsHex := CheckLowerHex(parts[3]);
    if |parts[3]| != 2 || !flagsHex { return None; }
    var traceOk := ValidHexId(parts[1], TRACE_ID_LEN);
    var spanOk := ValidHexId(parts[2], SPAN_ID_LEN);
    if !traceOk || !spanOk { return None; }
    return Some(TraceParent(parts[1], parts[2], ParseFlags(parts[3]).value));
  }

  lemma LowerHexHasNoDash(s: string)
    requires IsLowerHex(s)
    ensures '-' !in s
  {
  }

  lemma {:induction false} JoinKeeps(parts: seq<string>)
    requires parts != [] && forall i :: 0 <= i < |parts| ==> IsLowerHex(parts[i]) && parts[i] != ""
    ensures Join(parts, '-') != ""
    ensures var s := Join(parts, '-'); IsLowerHexDigit(s[0]) && IsLowerHexDigit(s[|s| - 1])
  {
    if |parts| > 1 { JoinKeeps(parts[1..]); }
  }

  lemma TrimNothing(s: string)
    requires s != "" && IsLowerHexDigit(s[0]) && IsLowerHexDigit(s[|s| - 1])
    ensures Trim(s) == s
  {
  }

  /** The rendering of a valid value: its four parts, untouched by trimming and splitting. */
  lemma RenderedParts(p: TraceParent)
    requires Valid(p) && p.flags < 256
    ensures Split(Trim(Render(p)), '-') == ["00", p.traceId, p.spanId, FormatFlags(p.flags)]
  {
    var parts := ["00", p.traceId, p.spanId, FormatFlags(p.flags)];
    forall i | 0 <= i < |parts| ensures IsLowerHex(parts[i]) && parts[i] != "" {}
    JoinKeeps(parts);
    TrimNothing(Render(p));
    forall x | x in parts ensures '-' !in x { LowerHexHasNoDash(x); }
    SplitJoin(parts, '-');
  }

  /** Parsing a rendering gives the value back, all eight flag bits included. */
  lemma ParseRendered(p: TraceParent)
    requires Valid(p) && p.flags < 256
    ensures Parse(Render(p)) == Some(p)
  {
    RenderedParts(p);
    FlagsRoundTrip(p.flags);
  }

  /** An invalid value renders as the empty string, which parses as no trace rather than a forbidden one. */
  lemma InvalidRendersEmpty(p: TraceParent)
    requires !Valid(p) && p.flags < 256
    ensures Render(p) == "" && Parse(Render(p)) == None
  {
    assert Split(Trim(""), '-') == [""];
  }

  /**
   Whatever is accepted is valid and renders as a valid version-00 header; an accepted version-00 header
   is, trimmed, exactly the rendering of what it parsed to.
   */
  lemma RenderParsed(header: string)
    requires Parse(header).Some?
    ensures var p := Parse(header).value; Valid(p) && p.flags < 256 && Parse(Render(p)) == Some(p)
    ensures Split(Trim(header), '-')[0] == "00" ==> Render(Parse(header).value) == Trim(header)
  {
    var t := Trim(header);
    var parts := Split(t, '-');
    var p := Parse(header).value;
    FlagsText(parts[3]);
    ParseRendered(p);
    if parts[0] == "00" {
      assert parts == ["00", p.traceId, p.spanId, FormatFlags(p.flags)];
      JoinSplit(t, '-');
    }
  }

  // ----- spelled out -----

  lemma FlagsSpelled()
    ensures FormatFlags(0) == "00" && FormatFlags(1) == "01" && FormatFlags(255) == "ff" && FormatFlags(16) == "10"
    ensures ParseFlags("01") == Some(1) && ParseFlags("10") == Some(16) && ParseFlags("0A").None? && ParseFlags("1").None?
  {
    assert !IsLowerHexDigit("0A"[1]);
  }

  /** A header is the version, the trace, the parent and the flags, in that order, dashes between them. */
  lemma RenderedText(p: TraceParent)
    requires Valid(p) && p.flags < 256
    ensures Render(p) == "00" + "-" + (p.traceId + "-" + (p.spanId + "-" + FormatFlags(p.flags)))
  {
    var flags := FormatFlags(p.flags);
    JoinTwo(p.spanId, flags, '-');
    JoinMore(p.traceId, [p.spanId, flags], '-');
    JoinMore("00", [p.traceId, p.spanId, flags], '-');
    assert [p.traceId] + [p.spanId, flags] == [p.traceId, p.spanId, flags];
    assert ["00"] + [p.traceId, p.spanId, flags] == ["00", p.traceId, p.spanId, flags];
  }

  /**
   What is refused: too few parts, a version that is not two lowercase hexadecimal digits or is ff, a version 00 with more
   than four parts, and an identifier of the wrong length, not in lowercase hexadecimal, or all zero.
   */
  lemma Refused(header: string, parts: seq<string>)
    requires parts == Split(Trim(header), '-')
    ensures |parts| < 4 ==> Parse(header).None?
    ensures |parts| >= 4 && (parts[0] == "ff" || |parts[0]| != 2 || !IsLowerHex(parts[0])) ==> Parse(header).None?
    ensures |parts| > 4 && parts[0] == "00" ==> Parse(header).None?
    ensures |parts| >= 4 && (|parts[1]| != 32 || |parts[2]| != 16 || |parts[3]| != 2) ==> Parse(header).None?
    ensures |parts| >= 4 && !(IsLowerHex(parts[1]) && IsLowerHex(parts[2]) && IsLowerHex(parts[3])) ==> Parse(header).None?
    ensures |parts| >= 4 && (forall i :: 0 <= i < |parts[1]| ==> parts[1][i] == '0') ==> Parse(header).None?
    ensures |parts| >= 4 && (forall i :: 0 <= i < |parts[2]| ==> parts[2][i] == '0') ==> Parse(header).None?
    ensures Parse(header).Some? ==> |parts| >= 4 && Parse(header).value.traceId == parts[1] && Parse(header).value.spanId == parts[2]
  {
  }
}
