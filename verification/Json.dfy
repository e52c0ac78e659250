/**
 encoding/json on a list of strings, character by character: what json.Marshal writes for a []string and
 what json.Unmarshal reads back into one. Text is a sequence of Unicode scalar values.
 */
module Json {
  import opened Wrappers

  // ----- hexadecimal escapes -----

  function HexChar(d: nat): char
    requires d < 16
  {
    if d < 10 then ('0' as int + d) as char else ('a' as int + (d - 10)) as char
  }

  function HexValue(c: char): (v: Option<nat>)
    ensures v.Some? ==> v.value < 16
  {
    if '0' <= c <= '9' then Some(c as int - '0' as int)
    else if 'a' <= c <= 'f' then Some(c as int - 'a' as int + 10)
    else if 'A' <= c <= 'F' then Some(c as int - 'A' as int + 10)
    else None
  }

  /** The value of four hexadecimal digits at the head of s. */
  function Hex4(s: string): (v: Option<nat>)
    ensures v.Some? ==> |s| >= 4 && v.value < 0x10000
  {
    if |s| < 4 then None
    else
      var (a, b, c, d) := (HexValue(s[0]), HexValue(s[1]), HexValue(s[2]), HexValue(s[3]));
      if a.None? || b.None? || c.None? || d.None? then None
      else Some(a.value * 4096 + b.value * 256 + c.value * 16 + d.value)
  }

  function HexDigits(v: nat): string
    requires v < 0x10000
  {
    [HexChar(v / 4096), HexChar(v / 256 % 16), HexChar(v / 16 % 16), HexChar(v % 16)]
  }

  lemma HexCharValue(d: nat)
    requires d < 16
    ensures HexValue(HexChar(d)) == Some(d)
  {
  }

  lemma HexSum(v: nat)
    requires v < 0x10000
    ensures v / 4096 * 4096 + v / 256 % 16 * 256 + v / 16 % 16 * 16 + v % 16 == v
  {
    assert v / 16 / 16 == v / 256 && v / 256 / 16 == v / 4096;
  }

  lemma Hex4OfValues(s: string, a: nat, b: nat, c: nat, d: nat)
    requires |s| >= 4 && HexValue(s[0]) == Some(a) && HexValue(s[1]) == Some(b)
    requires HexValue(s[2]) == Some(c) && HexValue(s[3]) == Some(d)
    ensures Hex4(s) == Some(a * 4096 + b * 256 + c * 16 + d)
  {
  }

  lemma Hex4OfDigits(v: nat, rest: string)
    requires v < 0x10000
    ensures Hex4(HexDigits(v) + rest) == Some(v)
  {
    var a, b, c, d := v / 4096, v / 256 % 16, v / 16 % 16, v % 16;
    HexCharValue(a);
    HexCharValue(b);
    HexCharValue(c);
    HexCharValue(d);
    Hex4OfValues(HexDigits(v) + rest, a, b, c, d);
    HexSum(v);
  }

  // ----- strings -----

  /** Control characters, the HTML characters and the two line separators are written as \\u escapes. */
  predicate NeedsHex(c: char) {
    c < ' ' || c == '<' || c == '>' || c == '&' || c as int == 0x2028 || c as int == 0x2029
  }

  function EncodeChar(c: char): string {
    if c == '\"' then "\\\""
    else if c == '\\' then "\\\\"
    else if c as int == 8 then "\\b"
    else if c as int == 12 then "\\f"
    else if c == '\n' then "\\n"
    else if c == '\r' then "\\r"
    else if c == '\t' then "\\t"
    else if NeedsHex(c) then "\\u" + HexDigits(c as int)
    else [c]
  }

  function EncodeChars(s: string): string {
    if s == "" then "" else EncodeChar(s[0]) + EncodeChars(s[1..])
  }

  function Quote(s: string): string {
    "\"" + EncodeChars(s) + "\""
  }

  const REPLACEMENT: char := 0xFFFD as char

  /** The character after a backslash, and how many characters of s it takes. */
  function DecodeEscape(s: string): (r: Option<(char, nat)>)
    ensures r.Some? ==> 1 <= r.value.1 <= |s|
  {
    if s == "" then None
    else if s[0] == '\"' || s[0] == '\\' || s[0] == '/' then Some((s[0], 1))
    else if s[0] == 'b' then Some((8 as char, 1))
    else if s[0] == 'f' then Some((12 as char, 1))
    else if s[0] == 'n' then Some(('\n', 1))
    else if s[0] == 'r' then Some(('\r', 1))
    else if s[0] == 't' then Some(('\t', 1))
    else if s[0] == 'u' then
      match Hex4(s[1..])
      case None => None
      case Some(v) => if 0xD800 <= v < 0xE000 then Some(DecodeSurrogate(v, s)) else Some((v as char, 5))
    else None
  }

  /** A surrogate half combines with the escape after it, or reads as the replacement character. */
  function DecodeSurrogate(hi: nat, s: string): (r: (char, nat))
    requires |s| >= 5
    ensures 5 <= r.1 <= |s|
  {
    if |s| >= 7 && s[5] == '\\' && s[6] == 'u' && Hex4(s[7..]).Some? then
      var lo := Hex4(s[7..]).value;
      if 0xD800 <= hi < 0xDC00 <= lo < 0xE000 then
        ((0x10000 + (hi - 0xD800) * 0x400 + (lo - 0xDC00)) as char, 11)
      else (REPLACEMENT, 5)
    else (REPLACEMENT, 5)
  }

  /** Reads a string body up to its closing quote: the text, and what follows the quote. */
  function DecodeChars(s: string): (r: Option<(string, string)>)
    ensures r.Some? ==> |r.value.0| + |r.value.1| < |s|
    decreases |s|
  {
    if s == "" then None
    else if s[0] == '\"' then Some(("", s[1..]))
    else if s[0] < ' ' then None
    else if s[0] == '\\' then
      match DecodeEscape(s[1..])
      case None => None
      case Some((c, n)) => Prepend(c, DecodeChars(s[1 + n..]))
    else Prepend(s[0], DecodeChars(s[1..]))
  }

  function Prepend(c: char, r: Option<(string, string)>): Option<(string, string)> {
    match r
    case None => None
    case Some((text, rest)) => Some(([c] + text, rest))
  }

  lemma EncodedCharDecodes(c: char, tail: string)
    ensures DecodeChars(EncodeChar(c) + tail) == Prepend(c, DecodeChars(tail))
  {
    var s := EncodeChar(c) + tail;
    if |EncodeChar(c)| == 1 {
      assert s[1..] == tail;
    } else if |EncodeChar(c)| == 2 {
      assert s[0] == '\\' && s[1..][0] == EncodeChar(c)[1] && s[2..] == tail;
      assert DecodeEscape(s[1..]) == Some((c, 1));
    } else {
      assert s[0] == '\\' && s[1..][0] == 'u';
      assert s[1..][1..] == HexDigits(c as int) + tail;
      Hex4OfDigits(c as int, tail);
      assert DecodeEscape(s[1..]) == Some((c, 5));
      assert s[6..] == tail;
    }
  }

  lemma {:induction false} QuoteDecodes(text: string, rest: string)
    ensures DecodeChars(EncodeChars(text) + "\"" + rest) == Some((text, rest))
  {
    if text == "" {
      assert EncodeChars(text) + "\"" + rest == "\"" + rest;
      assert ("\"" + rest)[1..] == rest;
    } else {
      var tail := EncodeChars(text[1..]) + "\"" + rest;
      assert EncodeChars(text) + "\"" + rest == EncodeChar(text[0]) + tail;
      EncodedCharDecodes(text[0], tail);
      QuoteDecodes(text[1..], rest);
      assert [text[0]] + text[1..] == text;
    }
  }

  // ----- lists of strings -----

  /** json.Marshal of a []string. */
  function EncodeList(names: seq<string>): string {
    "[" + EncodeItems(names) + "]"
  }

  function EncodeItems(names: seq<string>): string {
    if names == [] then ""
    else if |names| == 1 then Quote(names[0])
    else Quote(names[0]) + "," + EncodeItems(names[1..])
  }

  predicate IsSpace(c: char) {
    c == ' ' || c == '\t' || c == '\r' || c == '\n'
  }

  function SkipSpace(s: string): (r: string)
    ensures |r| <= |s| && (r != "" ==> !IsSpace(r[0]))
  {
    if s != "" && IsSpace(s[0]) then SkipSpace(s[1..]) else s
  }

  /** One element: a string, or null, which leaves Go's element at its zero value. */
  function DecodeItem(s: string): (r: Option<(string, string)>)
    ensures r.Some? ==> |r.value.0| + |r.value.1| < |s|
  {
    if s != "" && s[0] == '\"' then DecodeChars(s[1..])
    else if "null" <= s then Some(("", s[4..]))
    else None
  }

  /** Elements up to the closing bracket, s being at an element. */
  function DecodeItems(s: string): (r: Option<(seq<string>, string)>)
    ensures r.Some? ==> forall x :: x in r.value.0 ==> |x| < |s|
    decreases |s|
  {
    match DecodeItem(s)
    case None => None
    case Some((x, rest)) =>
      var t := SkipSpace(rest);
      if t == "" then None
      else if t[0] == ']' then Some(([x], t[1..]))
      else if t[0] == ',' then
        match DecodeItems(SkipSpace(t[1..]))
        case None => None
        case Some((xs, after)) => Some(([x] + xs, after))
      else None
  }

  /** json.Unmarshal into a []string; null leaves the slice nil, which reads as empty. */
  function DecodeList(s: string): (r: Option<seq<string>>)
    ensures r.Some? ==> forall x :: x in r.value ==> |x| < |s|
  {
    var t := SkipSpace(s);
    if "null" <= t && SkipSpace(t[4..]) == "" then Some([])
    else if t == "" || t[0] != '[' then None
    else
      var u := SkipSpace(t[1..]);
      if u != "" && u[0] == ']' then (if SkipSpace(u[1..]) == "" then Some([]) else None)
      else
        match DecodeItems(u)
        case Some((xs, rest)) => if SkipSpace(rest) == "" then Some(xs) else None
        case None => None
  }

  lemma QuotedItemDecodes(name: string, rest: string)
    ensures DecodeItem(Quote(name) + rest) == Some((name, rest))
  {
    var s := Quote(name) + rest;
    assert s[1..] == EncodeChars(name) + "\"" + rest;
    QuoteDecodes(name, rest);
  }

  lemma SkipNothing(s: string)
    requires s != "" && !IsSpace(s[0])
    ensures SkipSpace(s) == s
  {
  }

  lemma LastItemDecodes(name: string, rest: string)
    ensures DecodeItems(Quote(name) + ("]" + rest)) == Some(([name], rest))
  {
    QuotedItemDecodes(name, "]" + rest);
    SkipNothing("]" + rest);
    assert ("]" + rest)[1..] == rest;
  }

  lemma FirstItemDecodes(name: string, more: string)
    requires more != "" && !IsSpace(more[0])
    ensures DecodeItems(Quote(name) + ("," + more)) ==
            match DecodeItems(more) case None => None case Some((xs, after)) => Some(([name] + xs, after))
  {
    QuotedItemDecodes(name, "," + more);
    SkipNothing("," + more);
    assert ("," + more)[1..] == more;
    SkipNothing(more);
  }

  lemma Reassociate(a: string, b: string, c: string, d: string)
    ensures a + b + c + d == a + (b + (c + d))
  {
  }

  lemma QuoteFirst(a: string, rest: string)
    ensures Quote(a) + rest != "" && (Quote(a) + rest)[0] == '\"'
  {
  }

  lemma ItemsText(names: seq<string>, tail: string)
    requires names != []
    ensures (EncodeItems(names) + tail) != "" && !IsSpace((EncodeItems(names) + tail)[0])
    ensures |names| > 1 ==> EncodeItems(names) + tail == Quote(names[0]) + ("," + (EncodeItems(names[1..]) + tail))
  {
    if |names| == 1 {
      QuoteFirst(names[0], tail);
    } else {
      Reassociate(Quote(names[0]), ",", EncodeItems(names[1..]), tail);
      QuoteFirst(names[0], "," + (EncodeItems(names[1..]) + tail));
    }
  }

  lemma {:induction false} ItemsDecode(names: seq<string>, rest: string)
    requires names != []
    ensures DecodeItems(EncodeItems(names) + ("]" + rest)) == Some((names, rest))
  {
    if |names| == 1 {
      LastItemDecodes(names[0], rest);
      assert names == [names[0]];
    } else {
      var more := EncodeItems(names[1..]) + ("]" + rest);
      ItemsText(names, "]" + rest);
      ItemsText(names[1..], "]" + rest);
      ItemsDecode(names[1..], rest);
      FirstItemDecodes(names[0], more);
      assert names == [names[0]] + names[1..];
    }
  }

  /** Unmarshalling what was marshalled gives the list back, whatever the strings contain. */
  lemma ListRoundTrip(names: seq<string>)
    ensures DecodeList(EncodeList(names)) == Some(names)
    ensures forall x :: x in names ==> |x| < |EncodeList(names)|
  {
    var s := EncodeList(names);
    var u := EncodeItems(names) + ("]" + "");
    assert s[1..] == u;
    SkipNothing(s);
    assert u[0] == (if names == [] then ']' else '\"');
    SkipNothing(u);
    assert SkipSpace("") == "";
    if names == [] {
      assert u[1..] == "";
    } else {
      ItemsDecode(names, "");
    }
  }

  lemma TwoItems(x: string, y: string)
    ensures EncodeList([x, y]) == "[" + Quote(x) + "," + Quote(y) + "]"
  {
    assert [x, y][1..] == [y];
    assert EncodeItems([y]) == Quote(y);
    assert EncodeItems([x, y]) == Quote(x) + "," + Quote(y);
  }

  /** The encoding, spelled out. */
  lemma EncodedForms()
    ensures EncodeList([]) == "[]" && EncodeList(["a", "b"]) == "[\"a\",\"b\"]"
    ensures EncodeChars("\"") == "\\\"" && EncodeChars("\\") == "\\\\" && EncodeChars("<") == "\\u003c"
  {
    assert "a"[1..] == "" && "b"[1..] == "";
    assert EncodeChars("a") == "a" && EncodeChars("b") == "b";
    assert ["a", "b"][1..] == ["b"] && ["b"][1..] == [];
    assert "\""[1..] == "" && "\\"[1..] == "" && "<"[1..] == "";
    assert HexDigits('<' as int) == "003c";
  }
}
