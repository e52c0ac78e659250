/** The few text operations the parsers share: splitting, joining and decimal numerals. */
module Text {

  // ----- split and join -----

  /** strings.Split on a one-character separator: always at least one part. */
  function Split(s: string, c: char): (parts: seq<string>)
    ensures |parts| >= 1
    ensures forall p :: p in parts ==> c !in p
  {
    if s == "" then [""]
    else
      var rest := Split(s[1..], c);
      if s[0] == c then [""] + rest
      else
        assert rest[0] in rest;
        [[s[0]] + rest[0]] + rest[1..]
  }

  /** strings.Join with a one-character separator. */
  function Join(parts: seq<string>, c: char): string {
    if parts == [] then ""
    else if |parts| == 1 then parts[0]
    else parts[0] + [c] + Join(parts[1..], c)
  }

  lemma {:induction false} SplitOne(p: string, c: char)
    requires c !in p
    ensures Split(p, c) == [p]
  {
    if p != "" {
      SplitOne(p[1..], c);
      assert [p[0]] + p[1..] == p;
    }
  }

  lemma {:induction false} SplitFirst(p: string, c: char, rest: string)
    requires c !in p
    ensures Split(p + [c] + rest, c) == [p] + Split(rest, c)
  {
    var s := p + [c] + rest;
    if p == "" {
      assert s[1..] == rest;
    } else {
      SplitFirst(p[1..], c, rest);
      assert s[1..] == p[1..] + [c] + rest;
      assert [p[0]] + p[1..] == p;
    }
  }

  lemma JoinTwo(x: string, y: string, c: char)
    ensures Join([x], c) == x && Join([x, y], c) == x + [c] + y
  {
    assert [x, y][1..] == [y];
    assert Join([y], c) == y;
  }

  lemma JoinMore(x: string, rest: seq<string>, c: char)
    requires rest != []
    ensures Join([x] + rest, c) == x + [c] + Join(rest, c)
  {
    assert ([x] + rest)[1..] == rest;
  }

  lemma {:induction false} SplitJoin(parts: seq<string>, c: char)
    requires parts != [] && forall p :: p in parts ==> c !in p
    ensures Split(Join(parts, c), c) == parts
  {
    if |parts| == 1 {
      SplitOne(parts[0], c);
    } else {
      SplitJoin(parts[1..], c);
      SplitFirst(parts[0], c, Join(parts[1..], c));
      assert parts == [parts[0]] + parts[1..];
    }
  }

  lemma {:induction false} JoinSplit(s: string, c: char)
    ensures Join(Split(s, c), c) == s
  {
    if s != "" {
      var rest := Split(s[1..], c);
      JoinSplit(s[1..], c);
      if s[0] == c {
        assert Split(s, c)[1..] == rest;
      } else {
        assert Split(s, c)[1..] == rest[1..];
        assert s == [s[0]] + s[1..];
      }
    }
  }

  // ----- white space -----

  /** Unicode's White_Space, which strings.TrimSpace removes. */
  predicate IsBlank(c: char) {
    var n := c as int;
    || 9 <= n <= 13 || n == 0x20 || n == 0x85 || n == 0xA0 || n == 0x1680 || 0x2000 <= n <= 0x200A
    || n == 0x2028 || n == 0x2029 || n == 0x202F || n == 0x205F || n == 0x3000
  }

  function TrimLeft(s: string): string {
    if s != "" && IsBlank(s[0]) then TrimLeft(s[1..]) else s
  }

  function TrimRight(s: string): string {
    if s != "" && IsBlank(s[|s| - 1]) then TrimRight(s[..|s| - 1]) else s
  }

  /** strings.TrimSpace. */
  function Trim(s: string): string {
    TrimRight(TrimLeft(s))
  }

  // ----- decimal numerals -----

  predicate IsDigit(c: char) {
    '0' <= c <= '9'
  }

  predicate AllDigits(s: string) {
    forall i :: 0 <= i < |s| ==> IsDigit(s[i])
  }

  /** Digits with no leading zero, unless the numeral is just "0". */
  predicate IsNumeral(s: string) {
    s != "" && AllDigits(s) && (|s| > 1 ==> s[0] != '0')
  }

  function DigitValue(c: char): nat
    requires IsDigit(c)
  {
    c as int - '0' as int
  }

  function DigitChar(d: nat): (c: char)
    requires d < 10
    ensures IsDigit(c) && DigitValue(c) == d
  {
    ('0' as int + d) as char
  }

  function ValueOf(s: string): nat
    requires AllDigits(s)
  {
    if s == "" then 0 else 10 * ValueOf(s[..|s| - 1]) + DigitValue(s[|s| - 1])
  }

  function Numeral(n: nat): (s: string)
    ensures IsNumeral(s) && ValueOf(s) == n
  {
    if n < 10 then [DigitChar(n)]
    else
      var front := Numeral(n / 10);
      var s := front + [DigitChar(n % 10)];
      assert s[..|s| - 1] == front;
      assert |front| > 1 ==> front[0] != '0';
      assert |front| == 1 ==> ValueOf(front) == DigitValue(front[0]) by { assert front[..0] == ""; }
      s
  }

  lemma DigitSplits(f: nat, d: nat)
    requires d < 10
    ensures (10 * f + d) / 10 == f && (10 * f + d) % 10 == d
  {
  }

  lemma DigitOfValue(c: char)
    requires IsDigit(c)
    ensures DigitChar(DigitValue(c)) == c
  {
  }

  /** A numeral is determined by its value. */
  lemma {:induction false} NumeralOfValue(s: string)
    requires IsNumeral(s)
    ensures Numeral(ValueOf(s)) == s
  {
    var k := |s| - 1;
    var front, d := s[..k], DigitValue(s[k]);
    DigitOfValue(s[k]);
    assert s == front + [s[k]];
    if k > 0 {
      assert front[0] == s[0];
      NumeralOfValue(front);
      NumeralPositive(front);
      DigitSplits(ValueOf(front), d);
      assert Numeral(ValueOf(s)) == Numeral(ValueOf(s) / 10) + [DigitChar(ValueOf(s) % 10)];
    }
  }

  lemma {:induction false} NumeralPositive(s: string)
    requires s != "" && AllDigits(s) && s[0] != '0'
    ensures ValueOf(s) > 0
  {
    if |s| > 1 {
      NumeralPositive(s[..|s| - 1]);
    } else {
      assert s[..0] == "";
    }
  }

  // ----- order -----

  function CompareInt(a: int, b: int): int {
    if a < b then -1 else if a > b then 1 else 0
  }

  /** strings.Compare: by character, a prefix first. */
  function CompareText(a: string, b: string): int {
    if a == "" && b == "" then 0
    else if a == "" then -1
    else if b == "" then 1
    else if a[0] != b[0] then CompareInt(a[0] as int, b[0] as int)
    else CompareText(a[1..], b[1..])
  }

  lemma {:induction false} TextOrder(a: string, b: string)
    ensures CompareText(a, b) == -CompareText(b, a) && -1 <= CompareText(a, b) <= 1
    ensures CompareText(a, b) == 0 <==> a == b
  {
    if a != "" && b != "" {
      TextOrder(a[1..], b[1..]);
      assert a == [a[0]] + a[1..] && b == [b[0]] + b[1..];
    }
  }

  lemma {:induction false} TextTransitive(a: string, b: string, c: string)
    requires CompareText(a, b) <= 0 && CompareText(b, c) <= 0
    ensures CompareText(a, c) <= 0
  {
    if a != "" && b != "" && c != "" && a[0] == b[0] == c[0] {
      TextTransitive(a[1..], b[1..], c[1..]);
    }
  }

  /** Strictly ascending, as sort.Strings leaves distinct strings. */
  predicate Ascending(xs: seq<string>) {
    forall i, j :: 0 <= i < j < |xs| ==> CompareText(xs[i], xs[j]) < 0
  }

  function InsertText(xs: seq<string>, x: string): seq<string> {
    if xs == [] then [x]
    else if CompareText(x, xs[0]) < 0 then [x] + xs
    else [xs[0]] + InsertText(xs[1..], x)
  }

  lemma {:induction false} InsertTextSorts(xs: seq<string>, x: string)
    requires Ascending(xs) && x !in xs
    ensures Ascending(InsertText(xs, x)) && forall y :: y in InsertText(xs, x) <==> y in xs || y == x
  {
    if xs != [] {
      TextOrder(x, xs[0]);
      if CompareText(x, xs[0]) < 0 {
        forall i | 1 <= i < |xs| ensures CompareText(x, xs[i]) < 0 {
          TextTransitive(x, xs[0], xs[i]);
          TextOrder(x, xs[i]);
          assert xs[i] in xs;
        }
      } else {
        InsertTextSorts(xs[1..], x);
        var r := InsertText(xs[1..], x);
        forall i | 0 <= i < |r| ensures CompareText(xs[0], r[i]) < 0 {
          assert r[i] in r;
          if r[i] != x {
            assert r[i] in xs[1..];
          }
        }
      }
    }
  }

  /** The members of a set in sorted order. */
  method SortedMembers(s: set<string>) returns (out: seq<string>)
    ensures Ascending(out) && forall x :: x in out <==> x in s
  {
    out := [];
    var left := s;
    while left != {}
      invariant left <= s && Ascending(out)
      invariant forall x :: x in out <==> x in s - left
      decreases left
    {
      var x :| x in left;
      InsertTextSorts(out, x);
      out := InsertText(out, x);
      left := left - {x};
    }
  }
}
