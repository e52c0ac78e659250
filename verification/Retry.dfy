/**
 Retry predicates: what the constructors build, the text a plan stores, and Parse, which reads it back.
 */
module RetryPredicates {
  import opened Wrappers
  import opened Text
  import opened Json

  const TWO_63: int := 0x8000_0000_0000_0000

  predicate IsInt64(x: int) {
    -TWO_63 <= x < TWO_63
  }

  /** One finished try of a step; `infra` is executor.IsInfra of its error. */
  datatype Attempt = Attempt(exitCode: int, infra: bool, logTail: string)

  /**
   What predicates depend on outside this package: regular expressions, JSON syntax, the registry of
   named predicates (each given its recorded parameters, "" for none), and bare Go functions.
   */
  datatype Env = Env(
    compiles: string -> bool,
    matches: (string, string) -> bool,
    validJson: string -> bool,
    registry: map<string, (string, Attempt) -> bool>,
    bare: (int, Attempt) -> bool)

  /** The match closure of a predicate, by what it decides. */
  datatype Matcher =
    | Never
    | Infra
    | ExitCodes(codes: set<int>)
    | LogText(pattern: string)
    | Registered(name: string, params: string)
    | Bare(id: int)
    | AnyOf(parts: seq<Matcher>)

  function Match(env: Env, m: Matcher, a: Attempt): bool {
    match m
    case Never => false
    case Infra => a.infra
    case ExitCodes(codes) => a.exitCode != 0 && a.exitCode in codes
    case LogText(pattern) => env.matches(pattern, a.logTail)
    case Registered(name, params) => name in env.registry && env.registry[name](params, a)
    case Bare(id) => env.bare(id, a)
    case AnyOf(parts) => exists i :: 0 <= i < |parts| && Match(env, parts[i], a)
  }

  /** A predicate carries its match, its stored form ("" when it has none) and a construction failure. */
  datatype Predicate = Predicate(matcher: Matcher, serial: string, failed: bool)

  // ----- exit codes -----

  /** Inserts a code into a sorted list, once. */
  function Insert(xs: seq<int>, c: int): seq<int> {
    if xs == [] then [c]
    else if c < xs[0] then [c] + xs
    else if c == xs[0] then xs
    else [xs[0]] + Insert(xs[1..], c)
  }

  /** The non-zero codes, deduplicated and sorted. */
  function SortedCodes(codes: seq<int>): seq<int> {
    if codes == [] then []
    else
      var k := |codes| - 1;
      var front := SortedCodes(codes[..k]);
      if codes[k] == 0 then front else Insert(front, codes[k])
  }

  predicate Ascending(xs: seq<int>) {
    forall i, j :: 0 <= i < j < |xs| ==> xs[i] < xs[j]
  }

  function NonZero(codes: seq<int>): set<int> {
    set c | c in codes && c != 0
  }

  lemma {:induction false} InsertSorts(xs: seq<int>, c: int)
    requires Ascending(xs)
    ensures Ascending(Insert(xs, c)) && forall x :: x in Insert(xs, c) <==> x in xs || x == c
  {
    if xs != [] && c > xs[0] {
      InsertSorts(xs[1..], c);
      var r := Insert(xs[1..], c);
      forall i | 0 <= i < |r| ensures xs[0] < r[i] {
        assert r[i] in r;
        assert r[i] in xs[1..] || r[i] == c;
      }
      assert xs == [xs[0]] + xs[1..];
    }
  }

  lemma {:induction false} SortedCodesAre(codes: seq<int>)
    ensures Ascending(SortedCodes(codes)) && forall x :: x in SortedCodes(codes) <==> x in NonZero(codes)
  {
    if codes != [] {
      var k := |codes| - 1;
      SortedCodesAre(codes[..k]);
      assert codes == codes[..k] + [codes[k]];
      if codes[k] != 0 { InsertSorts(SortedCodes(codes[..k]), codes[k]); }
    }
  }

  lemma AscendingTail(xs: seq<int>)
    requires Ascending(xs) && xs != []
    ensures forall x :: x in xs[1..] <==> x in xs && x != xs[0]
  {
    assert xs == [xs[0]] + xs[1..];
  }

  /** A set of codes has one ascending list. */
  lemma {:induction false} AscendingUnique(xs: seq<int>, ys: seq<int>)
    requires Ascending(xs) && Ascending(ys) && forall x :: x in xs <==> x in ys
    ensures xs == ys
  {
    if ys != [] { assert ys[0] in ys && ys[0] in xs; }
    if xs != [] {
      assert xs[0] in xs && xs[0] in ys;
      assert xs[0] == ys[0];
      AscendingTail(xs);
      AscendingTail(ys);
      AscendingUnique(xs[1..], ys[1..]);
      assert xs == [xs[0]] + xs[1..] && ys == [ys[0]] + ys[1..];
    }
  }

  // ----- decimal integers -----

  function Itoa(n: int): string {
    if n < 0 then "-" + Numeral(-n) else Numeral(n)
  }

  /** strconv.Atoi: an optional sign, digits, and a value that fits. */
  function Atoi(s: string): Option<int> {
    var digits := if s != "" && (s[0] == '-' || s[0] == '+') then s[1..] else s;
    if digits == "" || !AllDigits(digits) then None
    else
      var n: int := ValueOf(digits);
      var v := if s[0] == '-' then -n else n;
      if IsInt64(v) then Some(v) else None
  }

  lemma AtoiItoa(n: int)
    requires IsInt64(n)
    ensures Atoi(Itoa(n)) == Some(n) && ',' !in Itoa(n)
  {
    var digits := Numeral(if n < 0 then -n else n);
    assert IsDigit(digits[0]);
    forall c | c in digits ensures c != ',' {
      var i :| 0 <= i < |digits| && digits[i] == c;
      assert IsDigit(digits[i]);
    }
    if n < 0 { assert Itoa(n)[1..] == digits; }
  }

  function Itoas(xs: seq<int>): seq<string> {
    if xs == [] then [] else [Itoa(xs[0])] + Itoas(xs[1..])
  }

  function Atois(parts: seq<string>): Option<seq<int>> {
    if parts == [] then Some([])
    else
      match (Atoi(parts[0]), Atois(parts[1..]))
      case (Some(c), Some(cs)) => Some([c] + cs)
      case _ => None
  }

  lemma AtoisOneMore(x: int, rest: seq<string>, xs: seq<int>)
    requires IsInt64(x) && Atois(rest) == Some(xs)
    ensures Atois([Itoa(x)] + rest) == Some([x] + xs)
  {
    AtoiItoa(x);
    assert ([Itoa(x)] + rest)[1..] == rest;
  }

  lemma {:induction false} AtoisItoas(xs: seq<int>)
    requires forall x :: x in xs ==> IsInt64(x)
    ensures Atois(Itoas(xs)) == Some(xs)
    ensures forall p :: p in Itoas(xs) ==> ',' !in p
  {
    if xs != [] {
      assert xs[0] in xs;
      AtoiItoa(xs[0]);
      AtoisItoas(xs[1..]);
      AtoisOneMore(xs[0], Itoas(xs[1..]), xs[1..]);
      assert xs == [xs[0]] + xs[1..];
    }
  }

  // ----- constructors -----

  function OnInfra(): Predicate {
    Predicate(Infra, "infra", false)
  }

  function OnExitCode(codes: seq<int>): Predicate {
    Predicate(ExitCodes(NonZero(codes)), "exit_code:" + Join(Itoas(SortedCodes(codes)), ','), false)
  }

  /** OnExitCode as it runs: a set first, then its members in order, then their text. */
  method BuildExitCode(codes: seq<int>) returns (p: Predicate)
    ensures p == OnExitCode(codes)
  {
    var codeSet: set<int> := {};
    for k := 0 to |codes|
      invariant codeSet == NonZero(codes[..k])
    {
      assert codes[..k + 1] == codes[..k] + [codes[k]];
      if codes[k] != 0 {
        codeSet := codeSet + {codes[k]};
      }
    }
    assert codes[..|codes|] == codes;
    var sorted: seq<int> := [];
    var left := codeSet;
    while left != {}
      invariant left <= codeSet && Ascending(sorted)
      invariant forall x :: x in sorted <==> x in codeSet - left
      decreases left
    {
      var c :| c in left;
      InsertSorts(sorted, c);
      sorted := Insert(sorted, c);
      left := left - {c};
    }
    SortedCodesAre(codes);
    AscendingUnique(sorted, SortedCodes(codes));
    var strs: seq<string> := [];
    for i := |sorted| downto 0
      invariant strs == Itoas(sorted[i..])
    {
      strs := [Itoa(sorted[i])] + strs;
    }
    p := Predicate(ExitCodes(codeSet), "exit_code:" + Join(strs, ','), false);
  }

  function OnLogMatch(env: Env, pattern: string): Option<Predicate> {
    if env.compiles(pattern) then Some(Predicate(LogText(pattern), "log_match:" + pattern, false)) else None
  }

  /** An already validated name; parameters that are absent or null are not recorded. */
  function FromNamed(name: string, raw: string): Predicate {
    if raw != "" && raw != "null" then Predicate(Registered(name, raw), "func:" + name + ":" + raw, false)
    else Predicate(Registered(name, ""), "func:" + name, false)
  }

  /** raw is the canonical JSON of the parameters, "" for none. */
  function Named(env: Env, name: string, raw: string): Predicate {
    if name == "" || ':' in name || name !in env.registry then Predicate(Never, "", true)
    else FromNamed(name, raw)
  }

  function Func(id: int): Predicate {
    Predicate(Bare(id), "", false)
  }

  function MatchersOf(ps: seq<Predicate>): seq<Matcher> {
    seq(|ps|, i requires 0 <= i < |ps| => ps[i].matcher)
  }

  function SerialsOf(ps: seq<Predicate>): seq<string> {
    seq(|ps|, i requires 0 <= i < |ps| => ps[i].serial)
  }

  /** The first part without a stored form decides: a construction failure travels, a bare function does not. */
  function FirstUnstorable(ps: seq<Predicate>): Option<Predicate> {
    if ps == [] then None
    else if ps[0].failed || ps[0].serial == "" then Some(ps[0])
    else FirstUnstorable(ps[1..])
  }

  function Any(ps: seq<Predicate>): Predicate {
    var m := AnyOf(MatchersOf(ps));
    if ps == [] then Predicate(m, "", false)
    else
      match FirstUnstorable(ps)
      case Some(p) => Predicate(m, "", p.failed)
      case None => Predicate(m, "any:" + EncodeList(SerialsOf(ps)), false)
  }

  // ----- Parse -----

  datatype ParseError = BadExitCode | BadPattern | NoName | NotRegistered | BadParams | BadList | EmptyAny | Unrecognized

  /** strings.Cut at the first colon. */
  function Cut(s: string): (r: (string, string))
    ensures ':' !in r.0 && |r.1| <= |s|
  {
    if s == "" then ("", "")
    else if s[0] == ':' then ("", s[1..])
    else ([s[0]] + Cut(s[1..]).0, Cut(s[1..]).1)
  }

  function ParseNamed(env: Env, rest: string): Result<Predicate, ParseError> {
    var (name, params) := Cut(rest);
    if name == "" then Err(NoName)
    else if name !in env.registry then Err(NotRegistered)
    else if params != "" && !env.validJson(params) then Err(BadParams)
    else Ok(FromNamed(name, params))
  }

  function ParseExitCodes(rest: string): Result<Predicate, ParseError> {
    if rest == "" then Ok(OnExitCode([]))
    else
      match Atois(Split(rest, ','))
      case Some(codes) => Ok(OnExitCode(codes))
      case None => Err(BadExitCode)
  }

  /** Parse terminates on every string: the parts of a list are shorter than the list. */
  function Parse(env: Env, s: string): Result<Predicate, ParseError>
    decreases |s|, 1, 0
  {
    if s == "infra" then Ok(OnInfra())
    else if "exit_code:" <= s then ParseExitCodes(s[10..])
    else if "log_match:" <= s then
      match OnLogMatch(env, s[10..])
      case Some(p) => Ok(p)
      case None => Err(BadPattern)
    else if "func:" <= s then ParseNamed(env, s[5..])
    else if "any:" <= s then
      match DecodeList(s[4..])
      case None => Err(BadList)
      case Some(names) =>
        if names == [] then Err(EmptyAny)
        else
          match ParseAll(env, names, |s|)
          case Ok(ps) => Ok(Any(ps))
          case Err(e) => Err(e)
    else Err(Unrecognized)
  }

  function ParseAll(env: Env, names: seq<string>, bound: nat): Result<seq<Predicate>, ParseError>
    requires forall x :: x in names ==> |x| < bound
    decreases bound, 0, |names|
  {
    if names == [] then Ok([])
    else
      match Parse(env, names[0])
      case Err(e) => Err(e)
      case Ok(p) =>
        match ParseAll(env, names[1..], bound)
        case Err(e) => Err(e)
        case Ok(ps) => Ok([p] + ps)
  }

  // ----- everything a pipeline can write -----

  datatype Expr =
    | EInfra
    | EExitCode(codes: seq<int>)
    | ELogMatch(pattern: string)
    | ENamed(name: string, raw: string)
    | EFunc(id: int)
    | EAny(parts: seq<Expr>)

  /** A pattern that does not compile never becomes a predicate, and parameters are canonical JSON or none. */
  predicate Writable(env: Env, e: Expr) {
    match e
    case EExitCode(codes) => forall c :: c in codes ==> IsInt64(c)
    case ELogMatch(pattern) => env.compiles(pattern)
    case ENamed(_, raw) => raw == "" || env.validJson(raw)
    case EAny(parts) => forall i :: 0 <= i < |parts| ==> Writable(env, parts[i])
    case _ => true
  }

  function Build(env: Env, e: Expr): Predicate {
    match e
    case EInfra => OnInfra()
    case EExitCode(codes) => OnExitCode(codes)
    case ELogMatch(pattern) => (match OnLogMatch(env, pattern) case Some(p) => p case None => Predicate(Never, "", true))
    case ENamed(name, raw) => Named(env, name, raw)
    case EFunc(id) => Func(id)
    case EAny(parts) => Any(seq(|parts|, i requires 0 <= i < |parts| => Build(env, parts[i])))
  }

  /** Same stored form, same decision on every attempt. */
  ghost predicate Same(env: Env, p: Predicate, q: Predicate) {
    p.serial == q.serial && p.failed == q.failed && forall a :: Match(env, p.matcher, a) == Match(env, q.matcher, a)
  }

  // ----- round trips -----

  lemma SortedTwice(codes: seq<int>)
    ensures SortedCodes(SortedCodes(codes)) == SortedCodes(codes)
    ensures NonZero(SortedCodes(codes)) == NonZero(codes)
  {
    SortedCodesAre(codes);
    SortedCodesAre(SortedCodes(codes));
    AscendingUnique(SortedCodes(SortedCodes(codes)), SortedCodes(codes));
  }

  lemma {:induction false} JoinedNonEmpty(parts: seq<string>, c: char)
    requires parts != [] && parts[0] != ""
    ensures Join(parts, c) != ""
  {
  }

  lemma ExitCodesParse(codes: seq<int>)
    requires forall c :: c in codes ==> IsInt64(c)
    ensures ParseExitCodes(Join(Itoas(SortedCodes(codes)), ',')) == Ok(OnExitCode(codes))
  {
    var sorted := SortedCodes(codes);
    SortedCodesAre(codes);
    SortedTwice(codes);
    assert forall x :: x in sorted ==> x in codes;
    if sorted == [] {
      assert Itoas(sorted) == [];
    } else {
      AtoisItoas(sorted);
      JoinedNonEmpty(Itoas(sorted), ',');
      SplitJoin(Itoas(sorted), ',');
    }
  }

  lemma ExitCodeRoundTrip(env: Env, codes: seq<int>)
    requires forall c :: c in codes ==> IsInt64(c)
    ensures Parse(env, OnExitCode(codes).serial) == Ok(OnExitCode(codes))
  {
    var body := Join(Itoas(SortedCodes(codes)), ',');
    var s := "exit_code:" + body;
    assert s[0] == 'e' && s != "infra" && s[10..] == body;
    ExitCodesParse(codes);
  }

  lemma LogMatchRoundTrip(env: Env, pattern: string)
    requires env.compiles(pattern)
    ensures Parse(env, "log_match:" + pattern) == Ok(Predicate(LogText(pattern), "log_match:" + pattern, false))
  {
    var s := "log_match:" + pattern;
    assert s[0] == 'l' && s != "infra" && s[10..] == pattern;
    assert !("exit_code:" <= s) by { assert "exit_code:"[0] == 'e'; }
  }

  lemma {:induction false} CutAtColon(name: string, rest: string)
    requires ':' !in name
    ensures Cut(name) == (name, "")
    ensures Cut(name + ":" + rest) == (name, rest)
  {
    var s := name + ":" + rest;
    if name == "" {
      assert s[1..] == rest;
    } else {
      CutAtColon(name[1..], rest);
      assert s[1..] == name[1..] + ":" + rest;
      assert [name[0]] + name[1..] == name;
    }
  }

  lemma NamedRoundTrip(env: Env, name: string, raw: string)
    requires raw == "" || env.validJson(raw)
    requires Named(env, name, raw).serial != ""
    ensures Parse(env, Named(env, name, raw).serial) == Ok(Named(env, name, raw))
  {
    var s := Named(env, name, raw).serial;
    CutAtColon(name, raw);
    assert s[0] == 'f' && s != "infra";
    assert !("exit_code:" <= s) by { assert "exit_code:"[0] == 'e'; }
    assert !("log_match:" <= s) by { assert "log_match:"[0] == 'l'; }
    if raw != "" && raw != "null" {
      assert s[5..] == name + ":" + raw;
    } else {
      assert s[5..] == name;
    }
  }

  lemma {:induction false} AllStorable(ps: seq<Predicate>)
    ensures FirstUnstorable(ps).None? <==> forall i :: 0 <= i < |ps| ==> !ps[i].failed && ps[i].serial != ""
  {
    if ps != [] {
      AllStorable(ps[1..]);
      assert forall i :: 1 <= i < |ps| ==> ps[i] == ps[1..][i - 1];
    }
  }

  /** The parts of a composite parse back one by one. */
  lemma {:induction false} PartsParse(env: Env, ps: seq<Predicate>, bound: nat) returns (qs: seq<Predicate>)
    requires forall i :: 0 <= i < |ps| ==> |ps[i].serial| < bound
    requires forall i :: 0 <= i < |ps| ==>
               Parse(env, ps[i].serial).Ok? && Same(env, ps[i], Parse(env, ps[i].serial).value)
    ensures ParseAll(env, SerialsOf(ps), bound) == Ok(qs) && |qs| == |ps|
    ensures forall i :: 0 <= i < |ps| ==> Same(env, ps[i], qs[i])
    decreases |ps|
  {
    if ps == [] {
      qs := [];
    } else {
      var rest := PartsParse(env, ps[1..], bound);
      qs := [Parse(env, ps[0].serial).value] + rest;
      assert SerialsOf(ps)[1..] == SerialsOf(ps[1..]);
      forall i | 0 <= i < |ps| ensures Same(env, ps[i], qs[i]) {
        if i > 0 { assert ps[i] == ps[1..][i - 1] && qs[i] == rest[i - 1]; }
      }
    }
  }

  lemma SameAnyMatch(env: Env, ms: seq<Matcher>, ns: seq<Matcher>, a: Attempt)
    requires |ms| == |ns| && forall i :: 0 <= i < |ms| ==> Match(env, ms[i], a) == Match(env, ns[i], a)
    ensures Match(env, AnyOf(ms), a) == Match(env, AnyOf(ns), a)
  {
  }

  lemma AnySerial(ps: seq<Predicate>)
    requires FirstUnstorable(ps).None?
    ensures !Any(ps).failed && Any(ps).serial == if ps == [] then "" else "any:" + EncodeList(SerialsOf(ps))
  {
  }

  lemma SameAny(env: Env, ps: seq<Predicate>, qs: seq<Predicate>)
    requires |ps| == |qs| && forall i :: 0 <= i < |ps| ==> Same(env, ps[i], qs[i])
    requires FirstUnstorable(ps).None?
    ensures Same(env, Any(ps), Any(qs))
  {
    AllStorable(ps);
    AllStorable(qs);
    AnySerial(ps);
    AnySerial(qs);
    assert SerialsOf(ps) == SerialsOf(qs);
    forall a ensures Match(env, Any(ps).matcher, a) == Match(env, Any(qs).matcher, a) {
      SameAnyMatch(env, MatchersOf(ps), MatchersOf(qs), a);
    }
  }

  lemma NotAnEarlierForm(s: string)
    requires s != "" && s[0] == 'a'
    ensures s != "infra" && !("exit_code:" <= s) && !("log_match:" <= s) && !("func:" <= s)
  {
    assert "exit_code:"[0] == 'e' && "log_match:"[0] == 'l' && "func:"[0] == 'f' && "infra"[0] == 'i';
  }

  lemma ParseOfList(env: Env, body: string, names: seq<string>, s: string)
    requires s == "any:" + body && DecodeList(body) == Some(names) && names != []
    ensures forall x :: x in names ==> |x| < |s|
    ensures Parse(env, s) == match ParseAll(env, names, |s|) case Ok(ps) => Ok(Any(ps)) case Err(e) => Err(e)
  {
    assert s[0] == 'a' && s[4..] == body && "any:" <= s;
    NotAnEarlierForm(s);
  }

  lemma AnyRoundTrip(env: Env, ps: seq<Predicate>)
    requires Any(ps).serial != ""
    requires forall i :: 0 <= i < |ps| ==>
               Parse(env, ps[i].serial).Ok? && Same(env, ps[i], Parse(env, ps[i].serial).value)
    ensures Parse(env, Any(ps).serial).Ok? && Same(env, Any(ps), Parse(env, Any(ps).serial).value)
  {
    var names, s := SerialsOf(ps), Any(ps).serial;
    ListRoundTrip(names);
    ParseOfList(env, EncodeList(names), names, s);
    forall i | 0 <= i < |ps| ensures |ps[i].serial| < |s| {
      assert names[i] in names;
    }
    var qs := PartsParse(env, ps, |s|);
    SameAny(env, ps, qs);
  }

  /**
   Every storable predicate a pipeline can write, at any nesting of Any, is read back from its stored form
   with the same stored form and the same decision on every attempt.
   */
  lemma {:induction false} ParseRoundTrips(env: Env, e: Expr)
    requires Writable(env, e) && Build(env, e).serial != ""
    ensures Parse(env, Build(env, e).serial).Ok?
    ensures Same(env, Build(env, e), Parse(env, Build(env, e).serial).value)
  {
    match e
    case EInfra =>
    case EExitCode(codes) => ExitCodeRoundTrip(env, codes);
    case ELogMatch(pattern) => LogMatchRoundTrip(env, pattern);
    case ENamed(name, raw) => NamedRoundTrip(env, name, raw);
    case EFunc(_) =>
    case EAny(parts) =>
      var ps := seq(|parts|, i requires 0 <= i < |parts| => Build(env, parts[i]));
      AllStorable(ps);
      forall i | 0 <= i < |ps|
        ensures Parse(env, ps[i].serial).Ok? && Same(env, ps[i], Parse(env, ps[i].serial).value)
      {
        assert ps[i] == Build(env, parts[i]);
        ParseRoundTrips(env, parts[i]);
      }
      AnyRoundTrip(env, ps);
  }

  /** Two exit-code predicates are stored alike exactly when they name the same non-zero codes. */
  lemma ExitCodeSerials(env: Env, xs: seq<int>, ys: seq<int>)
    requires forall c :: c in xs ==> IsInt64(c)
    requires forall c :: c in ys ==> IsInt64(c)
    ensures OnExitCode(xs).serial == OnExitCode(ys).serial <==> NonZero(xs) == NonZero(ys)
  {
    ExitCodeRoundTrip(env, xs);
    ExitCodeRoundTrip(env, ys);
    if NonZero(xs) == NonZero(ys) {
      SortedCodesAre(xs);
      SortedCodesAre(ys);
      AscendingUnique(SortedCodes(xs), SortedCodes(ys));
    }
  }

  // ----- the decision, said of what the author wrote -----

  /** The parameters a named predicate is called with: absent and null are the same. */
  function GivenParams(raw: string): string {
    if raw == "null" then "" else raw
  }

  /** When the written predicate asks for a retry of the attempt. */
  predicate Decides(env: Env, e: Expr, a: Attempt) {
    match e
    case EInfra => a.infra
    case EExitCode(codes) => a.exitCode != 0 && a.exitCode in codes
    case ELogMatch(pattern) => env.matches(pattern, a.logTail)
    case ENamed(name, raw) =>
      name != "" && ':' !in name && name in env.registry && env.registry[name](GivenParams(raw), a)
    case EFunc(id) => env.bare(id, a)
    case EAny(parts) => exists i :: 0 <= i < |parts| && Decides(env, parts[i], a)
  }

  lemma {:induction false} BuildDecides(env: Env, e: Expr, a: Attempt)
    requires Writable(env, e)
    ensures Match(env, Build(env, e).matcher, a) <==> Decides(env, e, a)
  {
    match e
    case EAny(parts) =>
      var ps := seq(|parts|, i requires 0 <= i < |parts| => Build(env, parts[i]));
      var ms := MatchersOf(ps);
      forall i | 0 <= i < |parts| ensures Match(env, ms[i], a) <==> Decides(env, parts[i], a) {
        BuildDecides(env, parts[i], a);
        assert ms[i] == Build(env, parts[i]).matcher;
      }
      assert Build(env, e).matcher == AnyOf(ms);
      PartsDecide(env, ms, parts, a);
    case _ =>
  }

  lemma PartsDecide(env: Env, ms: seq<Matcher>, parts: seq<Expr>, a: Attempt)
    requires |ms| == |parts| && forall i :: 0 <= i < |ms| ==> (Match(env, ms[i], a) <==> Decides(env, parts[i], a))
    ensures Match(env, AnyOf(ms), a) <==> Decides(env, EAny(parts), a)
  {
    if Match(env, AnyOf(ms), a) {
      var i :| 0 <= i < |ms| && Match(env, ms[i], a);
      assert Decides(env, parts[i], a);
    }
    if Decides(env, EAny(parts), a) {
      var i :| 0 <= i < |parts| && Decides(env, parts[i], a);
      assert Match(env, ms[i], a);
    }
  }

  /** What is read back from the plan asks for a retry exactly when what the author wrote does. */
  lemma ParsedDecides(env: Env, e: Expr, a: Attempt)
    requires Writable(env, e) && Build(env, e).serial != ""
    ensures Parse(env, Build(env, e).serial).Ok?
    ensures Match(env, Parse(env, Build(env, e).serial).value.matcher, a) <==> Decides(env, e, a)
  {
    ParseRoundTrips(env, e);
    BuildDecides(env, e, a);
  }

  /** A composite of nothing matches nothing, and a composite is the disjunction of any way to cut it in two. */
  lemma AnyIsDisjunction(env: Env, ps: seq<Predicate>, qs: seq<Predicate>, a: Attempt)
    ensures !Match(env, Any([]).matcher, a)
    ensures Match(env, Any(ps + qs).matcher, a) <==> Match(env, Any(ps).matcher, a) || Match(env, Any(qs).matcher, a)
    ensures forall p :: Match(env, Any([p]).matcher, a) <==> Match(env, p.matcher, a)
  {
    var ms, ns := MatchersOf(ps), MatchersOf(qs);
    assert MatchersOf(ps + qs) == ms + ns;
    CutInTwo(env, ms, ns, a);
    assert MatchersOf([]) == [];
    forall p ensures Match(env, Any([p]).matcher, a) <==> Match(env, p.matcher, a) {
      assert MatchersOf([p]) == [p.matcher];
      var one := [p.matcher];
      assert Match(env, AnyOf(one), a) <==> Match(env, one[0], a);
    }
  }

  lemma CutInTwo(env: Env, ms: seq<Matcher>, ns: seq<Matcher>, a: Attempt)
    ensures Match(env, AnyOf(ms + ns), a) <==> Match(env, AnyOf(ms), a) || Match(env, AnyOf(ns), a)
  {
    var all := ms + ns;
    if Match(env, AnyOf(all), a) {
      var i :| 0 <= i < |all| && Match(env, all[i], a);
      assert if i < |ms| then Match(env, ms[i], a) else Match(env, ns[i - |ms|], a);
    }
    if Match(env, AnyOf(ms), a) {
      var i :| 0 <= i < |ms| && Match(env, ms[i], a);
      assert Match(env, all[i], a);
    }
    if Match(env, AnyOf(ns), a) {
      var i :| 0 <= i < |ns| && Match(env, ns[i], a);
      assert Match(env, all[|ms| + i], a);
    }
  }

  /** Exit codes decide by membership, and success is never retried whatever was listed. */
  lemma ExitCodeDecides(env: Env, codes: seq<int>, a: Attempt)
    ensures Match(env, OnExitCode(codes).matcher, a) <==> a.exitCode != 0 && a.exitCode in codes
    ensures a.exitCode == 0 ==> !Match(env, OnExitCode(codes).matcher, a)
    ensures Match(env, OnInfra().matcher, a) <==> a.infra
  {
  }

  // ----- the stored forms, spelled out -----

  lemma StoredForms(env: Env)
    ensures OnInfra().serial == "infra"
    ensures FromNamed("flaky", "").serial == "func:flaky" && FromNamed("flaky", "null").serial == "func:flaky"
    ensures FromNamed("flaky", "3").serial == "func:flaky:3"
    ensures env.compiles("oom") ==> OnLogMatch(env, "oom").Some? && OnLogMatch(env, "oom").value.serial == "log_match:oom"
    ensures Any([OnInfra(), OnInfra()]).serial == "any:" + ("[" + "\"infra\"" + "," + "\"infra\"" + "]")
    ensures Func(0).serial == "" && Any([]).serial == "" && Any([OnInfra(), Func(0)]).serial == ""
  {
    StoredInfra();
    StoredNames();
    Unstored();
  }

  lemma StoredNames()
    ensures FromNamed("flaky", "").serial == "func:flaky" && FromNamed("flaky", "null").serial == "func:flaky"
    ensures FromNamed("flaky", "3").serial == "func:flaky:3"
  {
  }

  lemma Unstored()
    ensures Any([]).serial == "" && Any([OnInfra(), Func(0)]).serial == ""
  {
    var ps := [OnInfra(), Func(0)];
    assert ps[1].serial == "";
    AllStorable(ps);
  }

  lemma StoredInfra()
    ensures Any([OnInfra(), OnInfra()]).serial == "any:" + ("[" + "\"infra\"" + "," + "\"infra\"" + "]")
  {
    var p := OnInfra();
    TwoStored(p, p);
    PlainText();
    TwoItems("infra", "infra");
    assert Quote("infra") == "\"infra\"";
  }

  lemma TwoStored(p: Predicate, q: Predicate)
    requires !p.failed && p.serial != "" && !q.failed && q.serial != ""
    ensures Any([p, q]).serial == "any:" + EncodeList([p.serial, q.serial])
  {
    AllStorable([p, q]);
    assert SerialsOf([p, q]) == [p.serial, q.serial];
  }

  lemma PlainText()
    ensures EncodeChars("infra") == "infra"
  {
    assert "infra"[1..] == "nfra" && "nfra"[1..] == "fra" && "fra"[1..] == "ra" && "ra"[1..] == "a" && "a"[1..] == "";
    assert EncodeChars("a") == "a";
    assert EncodeChars("ra") == "ra";
    assert EncodeChars("fra") == "fra";
    assert EncodeChars("nfra") == "nfra";
  }

  lemma StoredExitCodes()
    ensures OnExitCode([]).serial == "exit_code:" && OnExitCode([0]).serial == "exit_code:"
    ensures OnExitCode([137, 1, 0, 137]).serial == "exit_code:1,137"
    ensures OnExitCode([-1]).serial == "exit_code:-1"
  {
    StoredCodes();
  }

  lemma StoredCodes()
    ensures SortedCodes([137, 1, 0, 137]) == [1, 137] && SortedCodes([0]) == [] && SortedCodes([-1]) == [-1]
    ensures Join(Itoas([1, 137]), ',') == "1,137" && Join(Itoas([-1]), ',') == "-1"
  {
    SortedAs([137, 1, 0, 137], [1, 137]);
    SortedAs([0], []);
    SortedAs([-1], [-1]);
    WrittenCodes();
  }

  lemma SortedAs(codes: seq<int>, sorted: seq<int>)
    requires Ascending(sorted) && forall c :: c in sorted <==> c in codes && c != 0
    ensures SortedCodes(codes) == sorted
  {
    SortedCodesAre(codes);
    AscendingUnique(SortedCodes(codes), sorted);
  }

  lemma ItoasTwo(x: int, y: int)
    ensures Itoas([x]) == [Itoa(x)] && Itoas([x, y]) == [Itoa(x), Itoa(y)]
  {
    assert [x][1..] == [] && [x, y][1..] == [y];
    assert Itoas([y]) == [Itoa(y)];
  }

  lemma WrittenCodes()
    ensures Join(Itoas([1, 137]), ',') == "1,137" && Join(Itoas([-1]), ',') == "-1"
  {
    ItoasTwo(1, 137);
    ItoasTwo(-1, -1);
    JoinTwo(Itoa(1), Itoa(137), ',');
    JoinTwo(Itoa(-1), "", ',');
    Numerals();
  }

  lemma Numerals()
    ensures Itoa(1) == "1" && Itoa(-1) == "-1" && Itoa(137) == "137"
  {
    assert Numeral(1) == "1" && Numeral(13) == "13";
    assert Numeral(137) == Numeral(13) + "7";
  }

  /** What Parse refuses. */
  lemma Refused(env: Env, name: string)
    ensures Parse(env, "") == Err(Unrecognized) && Parse(env, "never") == Err(Unrecognized)
    ensures Parse(env, "exit_code:x") == Err(BadExitCode)
    ensures Parse(env, "func:") == Err(NoName)
    ensures ':' !in name && name != "" && name !in env.registry ==> Parse(env, "func:" + name) == Err(NotRegistered)
    ensures !env.compiles("(") ==> Parse(env, "log_match:(") == Err(BadPattern)
    ensures Parse(env, "any:[]") == Err(EmptyAny) && Parse(env, "any:x") == Err(BadList)
  {
    RefusedWords(env);
    RefusedCode(env);
    RefusedPattern(env);
    RefusedNames(env, name);
    RefusedLists(env);
  }

  lemma RefusedWords(env: Env)
    ensures Parse(env, "") == Err(Unrecognized) && Parse(env, "never") == Err(Unrecognized)
  {
    var s := "never";
    assert s[0] == 'n';
    assert "exit_code:"[0] == 'e' && "log_match:"[0] == 'l' && "func:"[0] == 'f' && "any:"[0] == 'a' && "infra"[0] == 'i';
  }

  lemma RefusedCode(env: Env)
    ensures Parse(env, "exit_code:x") == Err(BadExitCode)
  {
    var code := "exit_code:x";
    assert code[0] == 'e' && code[10..] == "x" && code[1] == 'x';
    SplitOne("x", ',');
  }

  lemma RefusedPattern(env: Env)
    ensures !env.compiles("(") ==> Parse(env, "log_match:(") == Err(BadPattern)
  {
    var pattern := "log_match:(";
    assert pattern[0] == 'l' && pattern[10..] == "(";
    assert !("exit_code:" <= pattern) by { assert "exit_code:"[0] == 'e'; }
  }

  lemma RefusedNames(env: Env, name: string)
    ensures Parse(env, "func:") == Err(NoName)
    ensures ':' !in name && name != "" && name !in env.registry ==> Parse(env, "func:" + name) == Err(NotRegistered)
  {
    forall n | ':' !in n
      ensures Parse(env, "func:" + n) == ParseNamed(env, n)
    {
      var s := "func:" + n;
      assert s[0] == 'f' && s[5..] == n;
      assert "exit_code:"[0] == 'e' && "log_match:"[0] == 'l' && "infra"[0] == 'i';
    }
    assert "func:" + "" == "func:";
    if ':' !in name { CutAtColon(name, ""); }
  }

  lemma RefusedLists(env: Env)
    ensures Parse(env, "any:[]") == Err(EmptyAny) && Parse(env, "any:x") == Err(BadList)
  {
    var empty, bad := "any:[]", "any:x";
    assert empty[0] == 'a' && empty[4..] == "[]" && bad[0] == 'a' && bad[4..] == "x";
    NotAnEarlierForm(empty);
    NotAnEarlierForm(bad);
    NoItems();
  }

  lemma NoItems()
    ensures DecodeList("[]") == Some([]) && DecodeList("x") == None
  {
    assert "[]"[1..] == "]" && "]"[1..] == "";
    assert SkipSpace("") == "" && SkipSpace("]") == "]" && SkipSpace("[]") == "[]" && SkipSpace("x") == "x";
  }
}
