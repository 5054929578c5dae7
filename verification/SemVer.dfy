/** Semantic versions: parsing, printing, precedence, and the decision whether to release. Numbers
    are 64-bit and wrap around. */
module SemVer {
  import opened Wrappers
  import opened Strings

  datatype Version = Version(major: int, minor: int, patch: int, pre: seq<string>, build: string)

  datatype ParseError = Empty | NothingAfterV | BadBuild | EmptyPre | NotThreeNumbers | BadNumber | BadPre

  // ----- numbers -----

  const HALF: int := 0x8000_0000_0000_0000
  const FULL: int := 2 * HALF

  /** Two's complement, 64 bits. */
  function Wrap(x: int): (w: int)
    ensures -HALF <= w < HALF
    ensures -HALF <= x < HALF ==> w == x
  {
    (x + HALF) % FULL - HALF
  }

  lemma WrapStep(a: int, d: int)
    ensures Wrap(Wrap(a) * 10 + d) == Wrap(a * 10 + d)
  {
    var k := (a + HALF) / FULL;
    assert Wrap(a) == a - k * FULL;
    WrapShift(a * 10 + d, -10 * k);
  }

  lemma WrapShift(x: int, k: int)
    ensures Wrap(x + k * FULL) == Wrap(x)
  {
    var q, m := (x + HALF) / FULL, (x + HALF) % FULL;
    assert x + k * FULL + HALF == (q + k) * FULL + m;
    Remainder(x + k * FULL + HALF, q + k, m);
  }

  lemma Remainder(x: int, q: int, m: int)
    requires x == q * FULL + m && 0 <= m < FULL
    ensures x % FULL == m
  {}

  predicate Digit(c: char) {
    '0' <= c <= '9'
  }

  predicate Digits(s: string) {
    forall i :: 0 <= i < |s| ==> Digit(s[i])
  }

  function Value(s: string): nat
    requires Digits(s)
  {
    if s == "" then 0 else 10 * Value(s[..|s| - 1]) + (s[|s| - 1] - '0') as nat
  }

  /** Digits without a leading zero. */
  predicate Numeric(s: string) {
    s != "" && Digits(s) && (|s| == 1 || s[0] != '0')
  }

  function Print(n: nat): (s: string)
    ensures Numeric(s)
    ensures n > 0 ==> s[0] != '0'
  {
    if n < 10 then [(n as char) + '0'] else Print(n / 10) + [(n % 10) as char + '0']
  }

  lemma {:induction false} ValueOfPrint(n: nat)
    ensures Value(Print(n)) == n
  {
    if n >= 10 {
      ValueOfPrint(n / 10);
      assert Print(n)[..|Print(n)| - 1] == Print(n / 10);
    }
  }

  lemma {:induction false} PrintOfValue(s: string)
    requires Numeric(s)
    ensures Print(Value(s)) == s
    ensures s[0] != '0' ==> Value(s) > 0
    decreases |s|
  {
    var last := s[|s| - 1];
    if |s| == 1 {
      assert s[..0] == "";
    } else {
      var before := s[..|s| - 1];
      PrintOfValue(before);
      assert s == before + [last];
    }
  }

  function Numbered(s: string): Option<int> {
    if Numeric(s) then Some(Wrap(Value(s))) else None
  }

  method ParseNumeric(s: string) returns (r: Option<int>)
    ensures r == Numbered(s)
  {
    if s == "" || (|s| > 1 && s[0] == '0') {
      return None;
    }
    var n := 0;
    for i := 0 to |s|
      invariant Digits(s[..i]) && n == Wrap(Value(s[..i]))
    {
      if s[i] < '0' || s[i] > '9' {
        return None;
      }
      var d := (s[i] - '0') as int;
      assert s[..i + 1][..i] == s[..i];
      WrapStep(Value(s[..i]), d);
      n := Wrap(n * 10 + d);
    }
    assert s[..|s|] == s;
    return Some(n);
  }

  // ----- identifiers -----

  predicate IdentChar(c: char) {
    Digit(c) || 'A' <= c <= 'Z' || 'a' <= c <= 'z' || c == '-'
  }

  predicate Ident(s: string) {
    s != "" && forall i :: 0 <= i < |s| ==> IdentChar(s[i])
  }

  /** A prerelease identifier: if it is a number it has no leading zero. */
  predicate PreIdent(s: string) {
    Ident(s) && (Digits(s) ==> Numeric(s))
  }

  predicate Build(s: string) {
    forall part :: part in Split(s, '.') ==> Ident(part)
  }

  method ValidatePreIdent(s: string) returns (ok: bool)
    ensures ok == PreIdent(s)
  {
    if s == "" {
      return false;
    }
    var digits := true;
    for i := 0 to |s|
      invariant forall j :: 0 <= j < i ==> IdentChar(s[j])
      invariant digits == forall j :: 0 <= j < i ==> Digit(s[j])
    {
      if !Digit(s[i]) {
        if IdentChar(s[i]) {
          digits := false;
        } else {
          return false;
        }
      }
    }
    return !(digits && |s| > 1 && s[0] == '0');
  }

  method ValidateBuild(s: string) returns (ok: bool)
    ensures ok == Build(s)
  {
    hide Find, Split;
    if s == "" {
      assert Split(s, '.') == [""];
      assert "" in Split(s, '.');
      return false;
    }
    var parts := Split(s, '.');
    for i := 0 to |parts|
      invariant forall j :: 0 <= j < i ==> Ident(parts[j])
    {
      var part := parts[i];
      assert part in parts;
      if part == "" {
        return false;
      }
      for k := 0 to |part|
        invariant forall j :: 0 <= j < k ==> IdentChar(part[j])
      {
        if !IdentChar(part[k]) {
          return false;
        }
      }
    }
    return true;
  }

  // ----- parsing and printing -----

  /** Everything between the optional v and the first sign of the kind. */
  function Before(s: string, c: char): string {
    s[..Find(s, c)]
  }

  function After(s: string, c: char): Option<string> {
    if c in s then Some(s[Find(s, c) + 1..]) else None
  }

  function Numbers(s: string): Result<(int, int, int), ParseError> {
    var nums := Split(s, '.');
    if |nums| != 3 then Err(NotThreeNumbers)
    else if Numbered(nums[0]).None? || Numbered(nums[1]).None? || Numbered(nums[2]).None? then Err(BadNumber)
    else Ok((Numbered(nums[0]).value, Numbered(nums[1]).value, Numbered(nums[2]).value))
  }

  function Bare(raw: string): string {
    var s := TrimSpace(raw);
    if s != "" && (s[0] == 'v' || s[0] == 'V') then s[1..] else s
  }

  function Parsed(raw: string): Result<Version, ParseError> {
    if TrimSpace(raw) == "" then Err(Empty) else
    var s := Bare(raw);
    if s == "" then Err(NothingAfterV) else
    var build := After(s, '+');
    if build.Some? && !Build(build.value) then Err(BadBuild) else
    var front := Before(s, '+');
    var pre := After(front, '-');
    if pre == Some("") then Err(EmptyPre) else
    match Numbers(Before(front, '-'))
    case Err(e) => Err(e)
    case Ok((major, minor, patch)) =>
      var idents := if pre.Some? then Split(pre.value, '.') else [];
      if !(forall p :: p in idents ==> PreIdent(p)) then Err(BadPre)
      else Ok(Version(major, minor, patch, idents, if build.Some? then build.value else ""))
  }

  method ParseNumbers(s: string) returns (r: Result<(int, int, int), ParseError>)
    ensures r == Numbers(s)
  {
    hide Split, Numbered;
    var nums := Split(s, '.');
    if |nums| != 3 {
      return Err(NotThreeNumbers);
    }
    var major := ParseNumeric(nums[0]);
    if major.None? {
      return Err(BadNumber);
    }
    var minor := ParseNumeric(nums[1]);
    if minor.None? {
      return Err(BadNumber);
    }
    var patch := ParseNumeric(nums[2]);
    if patch.None? {
      return Err(BadNumber);
    }
    return Ok((major.value, minor.value, patch.value));
  }

  function OrEmpty(s: Option<string>): string {
    if s.Some? then s.value else ""
  }

  method SplitBuild(s: string) returns (front: string, build: string, ok: bool)
    ensures front == Before(s, '+') && build == OrEmpty(After(s, '+'))
    ensures ok == (After(s, '+').Some? ==> Build(build))
  {
    hide Find, Build;
    front, build, ok := s, "", true;
    if '+' in s {
      var i := Find(s, '+');
      build, front := s[i + 1..], s[..i];
      ok := ValidateBuild(build);
    } else {
      NoneThere(s, '+');
    }
  }

  method SplitPre(front: string) returns (core: string, pre: string, ok: bool)
    ensures core == Before(front, '-') && pre == OrEmpty(After(front, '-'))
    ensures ok == (After(front, '-') != Some(""))
  {
    hide Find;
    core, pre, ok := front, "", true;
    if '-' in front {
      var i := Find(front, '-');
      pre, core := front[i + 1..], front[..i];
      ok := pre != "";
    } else {
      NoneThere(front, '-');
    }
  }

  method ParsePre(pre: string) returns (preParts: seq<string>, ok: bool)
    ensures preParts == if pre == "" then [] else Split(pre, '.')
    ensures ok == forall p :: p in preParts ==> PreIdent(p)
  {
    hide Split, PreIdent;
    preParts := [];
    if pre != "" {
      preParts := Split(pre, '.');
      for i := 0 to |preParts|
        invariant forall j :: 0 <= j < i ==> PreIdent(preParts[j])
      {
        ok := ValidatePreIdent(preParts[i]);
        if !ok {
          assert preParts[i] in preParts;
          return;
        }
      }
    }
    ok := true;
  }

  method Parse(raw: string) returns (r: Result<Version, ParseError>)
    ensures r == Parsed(raw)
  {
    hide Find, Split, TrimSpace, Numbers, PreIdent, Build, Before, After;
    var s := TrimSpace(raw);
    if s == "" {
      return Err(Empty);
    }
    if s[0] == 'v' || s[0] == 'V' {
      s := s[1..];
    }
    if s == "" {
      return Err(NothingAfterV);
    }
    var front, build, buildOk := SplitBuild(s);
    if !buildOk {
      return Err(BadBuild);
    }
    var core, pre, preOk := SplitPre(front);
    if !preOk {
      return Err(EmptyPre);
    }
    var numbers := ParseNumbers(core);
    if numbers.Err? {
      return Err(numbers.error);
    }
    var preParts, identsOk := ParsePre(pre);
    if !identsOk {
      return Err(BadPre);
    }
    var (major, minor, patch) := numbers.value;
    return Ok(Version(major, minor, patch, preParts, build));
  }

  function PrintInt(n: int): string {
    if n < 0 then "-" + Print(-n) else Print(n)
  }

  function Text(v: Version): string {
    PrintInt(v.major) + "." + PrintInt(v.minor) + "." + PrintInt(v.patch)
    + (if v.pre == [] then "" else "-" + Join(v.pre, '.'))
    + if v.build == "" then "" else "+" + v.build
  }

  function Tag(v: Version): string {
    "v" + Text(v)
  }

  /** The versions the standard describes, with numbers that fit. */
  predicate Valid(v: Version) {
    && 0 <= v.major < HALF && 0 <= v.minor < HALF && 0 <= v.patch < HALF
    && (forall p :: p in v.pre ==> PreIdent(p))
    && (v.build == "" || Build(v.build))
  }

  // ----- the round trip -----

  lemma {:induction false} JoinChars(parts: seq<string>, i: nat)
    requires forall p :: p in parts ==> Ident(p)
    requires i < |Join(parts, '.')|
    ensures IdentChar(Join(parts, '.')[i]) || Join(parts, '.')[i] == '.'
    decreases |parts|
  {
    if |parts| > 1 {
      assert parts[0] in parts;
      if i > |parts[0]| {
        JoinChars(parts[1..], i - |parts[0]| - 1);
      }
    } else {
      assert parts[0] in parts;
    }
  }

  lemma BuildChars(s: string, i: nat)
    requires Build(s) && i < |s|
    ensures IdentChar(s[i]) || s[i] == '.'
  {
    hide Split, Join;
    JoinSplit(s, '.');
    JoinChars(Split(s, '.'), i);
  }

  /** The dotted numbers of a printed version. */
  function Front(v: Version): string {
    PrintInt(v.major) + "." + PrintInt(v.minor) + "." + PrintInt(v.patch)
  }

  lemma FrontChars(v: Version, i: nat)
    requires Valid(v) && i < |Front(v)|
    ensures Digit(Front(v)[i]) || Front(v)[i] == '.'
  {
    hide Print;
  }

  lemma FrontReadsBack(v: Version)
    requires Valid(v)
    ensures Numbers(Front(v)) == Ok((v.major, v.minor, v.patch))
  {
    hide Split, Print, Find;
    var a, b, c := Print(v.major), Print(v.minor), Print(v.patch);
    ValueOfPrint(v.major);
    ValueOfPrint(v.minor);
    ValueOfPrint(v.patch);
    assert Front(v) == a + ['.'] + (b + ['.'] + c);
    SplitCons(a, b + ['.'] + c, '.');
    SplitCons(b, c, '.');
    assert '.' !in c;
  }

  lemma AfterFirst(s: string, head: string, rest: string, c: char)
    requires s == head + [c] + rest && c !in head
    ensures Before(s, c) == head && After(s, c) == Some(rest)
  {
    hide Find;
    assert s[..|head|] == head && s[|head|] == c;
    FindAt(s, |head|, c);
    assert s[|head| + 1..] == rest;
  }

  lemma NoneThere(s: string, c: char)
    requires c !in s
    ensures Before(s, c) == s && After(s, c) == None
  {
    hide Find;
  }

  lemma TrimNothing(s: string)
    requires s != "" && !IsSpace(s[0]) && !IsSpace(s[|s| - 1])
    ensures TrimSpace(s) == s
  {}

  lemma FirstChar(v: Version)
    requires Valid(v)
    ensures Text(v) != "" && Digit(Text(v)[0])
  {
    hide Print, Join;
    assert Text(v)[0] == PrintInt(v.major)[0];
  }

  lemma BareText(v: Version)
    requires Valid(v)
    ensures Text(v) != "" && TrimSpace(Text(v)) == Text(v) && Bare(Text(v)) == Text(v)
  {
    hide TrimSpace, Text, Valid;
    FirstChar(v);
    LastChar(v);
    TrimNothing(Text(v));
  }

  lemma LastChar(v: Version)
    requires Valid(v)
    ensures var s := Text(v); s != "" && (IdentChar(s[|s| - 1]) || s[|s| - 1] == '.')
  {
    hide Print, Join;
    var s := Text(v);
    if v.build != "" {
      assert s[|s| - 1] == v.build[|v.build| - 1];
      BuildChars(v.build, |v.build| - 1);
    } else if v.pre != [] {
      PreNotEmpty(v.pre);
      var pre := Join(v.pre, '.');
      assert s[|s| - 1] == pre[|pre| - 1];
      JoinChars(v.pre, |pre| - 1);
    } else {
      assert s[|s| - 1] == PrintInt(v.patch)[|PrintInt(v.patch)| - 1];
    }
  }

  lemma PreNotEmpty(pre: seq<string>)
    requires pre != [] && forall p :: p in pre ==> PreIdent(p)
    ensures Join(pre, '.') != ""
  {
    assert pre[0] in pre;
  }

  /** Printing a valid version and parsing the text gives the version back. */
  lemma RoundTrip(v: Version)
    requires Valid(v)
    ensures Parsed(Text(v)) == Ok(v)
  {
    hide Split, Join, Find, TrimSpace, Numbers, Print, Numbered, Bare, Before, After;
    BareText(v);
    var pre := Join(v.pre, '.');
    var front := Front(v) + if v.pre == [] then "" else "-" + pre;
    CutBuild(v, front);
    CutPre(v, front);
    FrontReadsBack(v);
    if v.pre != [] {
      PreNotEmpty(v.pre);
      SplitJoin(v.pre, '.');
    }
  }

  /** Parsing looks at what is left without spaces and a leading v. */
  lemma ParsedByBare(a: string, b: string)
    requires TrimSpace(a) != "" && TrimSpace(b) != "" && Bare(a) == Bare(b)
    ensures Parsed(a) == Parsed(b)
  {
    hide TrimSpace, Bare, After, Before, Build, Numbers, Split, PreIdent;
  }

  /** Spaces around a version do not matter. */
  lemma SpacesDoNotMatter(raw: string)
    ensures Parsed(TrimSpace(raw)) == Parsed(raw)
  {
    hide TrimSpace, After, Before, Build, Numbers, Split, PreIdent;
    assert TrimSpace(TrimSpace(raw)) == TrimSpace(raw);
  }

  /** The tag of a valid version, written with a small or a capital v, parses to the version. */
  lemma TagParses(v: Version, mark: char)
    requires Valid(v) && (mark == 'v' || mark == 'V')
    ensures Parsed([mark] + Text(v)) == Ok(v)
    ensures Tag(v) == ['v'] + Text(v)
  {
    hide TrimSpace, Text, Valid, Parsed;
    BareText(v);
    RoundTrip(v);
    var tag := [mark] + Text(v);
    assert tag[|tag| - 1] == Text(v)[|Text(v)| - 1];
    TrimNothing(tag);
    assert tag[1..] == Text(v);
    ParsedByBare(tag, Text(v));
  }

  lemma NoPlusInFront(v: Version, front: string)
    requires Valid(v) && front == Front(v) + if v.pre == [] then "" else "-" + Join(v.pre, '.')
    ensures '+' !in front
  {
    hide Print, Join, Front;
    if '+' in front {
      var i :| 0 <= i < |front| && front[i] == '+';
      if i < |Front(v)| {
        FrontChars(v, i);
      } else if i > |Front(v)| {
        JoinChars(v.pre, i - |Front(v)| - 1);
      }
    }
  }

  lemma TextIs(v: Version, front: string)
    requires front == Front(v) + if v.pre == [] then "" else "-" + Join(v.pre, '.')
    ensures Text(v) == if v.build == "" then front else front + ['+'] + v.build
  {
    hide PrintInt, Join;
  }

  lemma CutBuild(v: Version, front: string)
    requires Valid(v) && front == Front(v) + if v.pre == [] then "" else "-" + Join(v.pre, '.')
    ensures Before(Text(v), '+') == front
    ensures After(Text(v), '+') == if v.build == "" then None else Some(v.build)
  {
    hide Text, Join, Before, After, Valid, Front;
    NoPlusInFront(v, front);
    TextIs(v, front);
    if v.build == "" {
      NoneThere(front, '+');
    } else {
      AfterFirst(Text(v), front, v.build, '+');
    }
  }

  lemma CutPre(v: Version, front: string)
    requires Valid(v) && front == Front(v) + if v.pre == [] then "" else "-" + Join(v.pre, '.')
    ensures Before(front, '-') == Front(v)
    ensures After(front, '-') == if v.pre == [] then None else Some(Join(v.pre, '.'))
  {
    hide Print, Join, Before, After;
    if '-' in Front(v) {
      var i :| 0 <= i < |Front(v)| && Front(v)[i] == '-';
      FrontChars(v, i);
    }
    if v.pre == [] {
      assert front == Front(v);
      NoneThere(front, '-');
    } else {
      assert front == Front(v) + ['-'] + Join(v.pre, '.');
      AfterFirst(front, Front(v), Join(v.pre, '.'), '-');
    }
  }

  /** The three numbers of the text fit in 64 bits. */
  predicate NumbersFit(raw: string) {
    forall n :: n in Split(Before(Before(Bare(raw), '+'), '-'), '.') && Digits(n) ==> Value(n) < HALF
  }

  lemma FrontText(front: string, v: Version)
    requires Numbers(front) == Ok((v.major, v.minor, v.patch))
    requires forall n :: n in Split(front, '.') && Digits(n) ==> Value(n) < HALF
    ensures Front(v) == front && 0 <= v.major < HALF && 0 <= v.minor < HALF && 0 <= v.patch < HALF
  {
    hide Split, Find, Join;
    var nums := Split(front, '.');
    JoinSplit(front, '.');
    JoinThree(nums);
    forall i | 0 <= i < 3 ensures Print(Value(nums[i])) == nums[i] && Numbered(nums[i]) == Some(Value(nums[i]) as int) {
      assert nums[i] in nums;
      assert Numbered(nums[i]).Some?;
      PrintOfValue(nums[i]);
    }
  }

  lemma JoinThree(nums: seq<string>)
    requires |nums| == 3
    ensures Join(nums, '.') == nums[0] + "." + nums[1] + "." + nums[2]
  {
    assert nums[1..][1..] == [nums[2]] && nums[1..][0] == nums[1];
    assert Join(nums[1..], '.') == nums[1] + ['.'] + nums[2];
  }

  lemma FirstPart(a: string, b: string, x: string, y: string, c: char)
    requires c !in a && c !in b && a + [c] + x == b + [c] + y
    ensures a == b && x == y
  {
    var s := a + [c] + x;
    assert s[|a|] == c && s[..|a|] == a && s[..|b|] == b && s[|b|] == c;
    FindAt(s, |a|, c);
    FindAt(s, |b|, c);
    assert s[|a| + 1..] == x && s[|b| + 1..] == y;
  }

  lemma PrintIntDots(n: int)
    ensures '.' !in PrintInt(n) && PrintInt(n) != ""
  {
    hide Print;
    assert Numeric(Print(if n < 0 then -n else n));
  }

  lemma PrintIntSign(n: int)
    ensures PrintInt(n) != "" && (n < 0 <==> PrintInt(n)[0] == '-')
  {
    hide Print;
    assert Digit(Print(if n < 0 then -n else n)[0]);
  }

  /** A numeric text is the printed form of its wrapped value only when it fits. */
  lemma PrintedFits(s: string)
    requires Numeric(s) && PrintInt(Wrap(Value(s))) == s
    ensures Value(s) < HALF
  {
    hide Value, Print;
    var w := Wrap(Value(s));
    assert s[0] != '-';
    PrintIntSign(w);
    if w >= 0 {
      ValueOfPrint(w);
    }
  }

  lemma EmptyIsNoBuild()
    ensures !Build("")
  {
    hide Find;
    assert Split("", '.') == [""];
    assert "" in Split("", '.');
  }

  /** A text is what stands before a sign, and after it if there is one. */
  lemma CutAndJoin(s: string, c: char)
    ensures s == Before(s, c) + if After(s, c).Some? then [c] + After(s, c).value else ""
  {
    hide Find;
  }

  /** What parses, with numbers that fit, is the text of its version, up to spaces and a leading v. */
  lemma ParsedIsPrinted(raw: string, v: Version)
    requires Parsed(raw) == Ok(v) && NumbersFit(raw)
    ensures Valid(v) && Text(v) == Bare(raw)
  {
    hide Split, Join, Find, Numbers, Print, Bare, TrimSpace, PreIdent, Build, Before, After;
    var s := Bare(raw);
    var front := Before(s, '+');
    FrontText(Before(front, '-'), v);
    EmptyIsNoBuild();
    CutAndJoin(s, '+');
    CutAndJoin(front, '-');
    if After(front, '-').Some? {
      JoinSplit(After(front, '-').value, '.');
    }
  }

  /** What stands behind the three numbers. */
  function Tail(v: Version): string {
    (if v.pre == [] then "" else "-" + Join(v.pre, '.')) + if v.build == "" then "" else "+" + v.build
  }

  /** What parses is its three numbers, then the rest of its version. */
  lemma ParsedShape(raw: string, v: Version)
    requires Parsed(raw) == Ok(v)
    ensures var nums := Split(Before(Before(Bare(raw), '+'), '-'), '.');
            && |nums| == 3 && (forall i :: 0 <= i < 3 ==> Numeric(nums[i]))
            && v.major == Wrap(Value(nums[0])) && v.minor == Wrap(Value(nums[1])) && v.patch == Wrap(Value(nums[2]))
            && Bare(raw) == nums[0] + ['.'] + (nums[1] + ['.'] + (nums[2] + Tail(v)))
  {
    hide Split, Join, Find, Value, Wrap, Bare, TrimSpace, PreIdent, Build, Before, After, Digits;
    var s := Bare(raw);
    var front := Before(s, '+');
    var nums := Split(Before(front, '-'), '.');
    JoinSplit(Before(front, '-'), '.');
    EmptyIsNoBuild();
    CutAndJoin(s, '+');
    CutAndJoin(front, '-');
    if After(front, '-').Some? {
      JoinSplit(After(front, '-').value, '.');
    }
    assert |nums| == 3;
    JoinThree(nums);
    assert s == nums[0] + "." + nums[1] + "." + nums[2] + Tail(v);
  }

  /** Text that parses is the text of its version, up to spaces and a leading v, exactly when its
      numbers fit. */
  lemma PrintedExactly(raw: string, v: Version)
    requires Parsed(raw) == Ok(v)
    ensures Text(v) == Bare(raw) <==> NumbersFit(raw)
  {
    hide Split, Join, Find, Parsed, Print, Value, Bare, Before, Numeric;
    if NumbersFit(raw) {
      ParsedIsPrinted(raw, v);
    }
    if Text(v) == Bare(raw) {
      ParsedShape(raw, v);
      var nums := Split(Before(Before(Bare(raw), '+'), '-'), '.');
      SameNumbers(v, nums);
      PrintedFits(nums[0]);
      PrintedFits(nums[1]);
      PrintedFits(nums[2]);
    }
  }

  lemma SameNumbers(v: Version, nums: seq<string>)
    requires |nums| == 3 && (forall i :: 0 <= i < 3 ==> Numeric(nums[i]))
    requires Text(v) == nums[0] + ['.'] + (nums[1] + ['.'] + (nums[2] + Tail(v)))
    ensures nums[0] == PrintInt(v.major) && nums[1] == PrintInt(v.minor) && nums[2] == PrintInt(v.patch)
  {
    hide Print, Join, PrintInt;
    var a, b, c := PrintInt(v.major), PrintInt(v.minor), PrintInt(v.patch);
    PrintIntDots(v.major);
    PrintIntDots(v.minor);
    assert Text(v) == a + ['.'] + (b + ['.'] + (c + Tail(v)));
    assert '.' !in nums[0] && '.' !in nums[1];
    FirstPart(a, nums[0], b + ['.'] + (c + Tail(v)), nums[1] + ['.'] + (nums[2] + Tail(v)), '.');
    FirstPart(b, nums[1], c + Tail(v), nums[2] + Tail(v), '.');
    SameHead(c, nums[2], Tail(v));
  }

  lemma SameHead(a: string, b: string, tail: string)
    requires a + tail == b + tail
    ensures a == b
  {
    assert |a| == |b|;
    assert (a + tail)[..|a|] == a && (b + tail)[..|b|] == b;
  }

  // ----- precedence -----

  function CmpInt(a: int, b: int): int {
    if a < b then -1 else if a > b then 1 else 0
  }

  function CmpText(a: string, b: string): int {
    if a == b then 0 else if Less(a, b) then -1 else 1
  }

  function CmpIdent(a: string, b: string): int {
    var an, bn := Numbered(a), Numbered(b);
    if an.Some? && bn.Some? then CmpInt(an.value, bn.value)
    else if an.Some? then -1
    else if bn.Some? then 1
    else CmpText(a, b)
  }

  /** The identifiers from position `i` on. */
  function CmpPre(a: seq<string>, b: seq<string>, i: nat): int
    requires i <= |a| && i <= |b|
    decreases |a| - i
  {
    if i == |a| || i == |b| then CmpInt(|a|, |b|)
    else if CmpIdent(a[i], b[i]) != 0 then CmpIdent(a[i], b[i])
    else CmpPre(a, b, i + 1)
  }

  function Compare(v: Version, o: Version): int {
    if CmpInt(v.major, o.major) != 0 then CmpInt(v.major, o.major)
    else if CmpInt(v.minor, o.minor) != 0 then CmpInt(v.minor, o.minor)
    else if CmpInt(v.patch, o.patch) != 0 then CmpInt(v.patch, o.patch)
    else if v.pre == [] && o.pre == [] then 0
    else if v.pre == [] then 1
    else if o.pre == [] then -1
    else CmpPre(v.pre, o.pre, 0)
  }

  // Compare is a total preorder, even where numbers wrap.

  lemma IdentFlips(a: string, b: string)
    ensures CmpIdent(a, b) == -CmpIdent(b, a)
  {
    hide Numbered;
    LessTotal(a, b);
    if Less(a, b) {
      LessAsymmetric(a, b);
    }
  }

  lemma {:induction false} PreFlips(a: seq<string>, b: seq<string>, i: nat)
    requires i <= |a| && i <= |b|
    ensures CmpPre(a, b, i) == -CmpPre(b, a, i)
    decreases |a| - i
  {
    hide CmpIdent;
    if i < |a| && i < |b| {
      IdentFlips(a[i], b[i]);
      PreFlips(a, b, i + 1);
    }
  }

  /** Comparing the other way round gives the opposite result. */
  lemma CompareFlips(v: Version, o: Version)
    ensures Compare(v, o) == -Compare(o, v)
  {
    hide CmpPre;
    PreFlips(v.pre, o.pre, 0);
  }

  /** How two comparisons combine: the result is at most zero if both are, and zero only if both are. */
  predicate Combines(ab: int, bc: int, ac: int) {
    ab <= 0 && bc <= 0 ==> ac <= 0 && (ac == 0 <==> ab == 0 && bc == 0)
  }

  lemma IdentCombines(a: string, b: string, c: string)
    ensures Combines(CmpIdent(a, b), CmpIdent(b, c), CmpIdent(a, c))
  {
    hide Numbered, Less;
    LessIrreflexive(a);
    if Less(a, b) && Less(b, c) {
      LessTransitive(a, b, c);
    }
  }

  lemma {:induction false} PreCombines(a: seq<string>, b: seq<string>, c: seq<string>, i: nat)
    requires i <= |a| && i <= |b| && i <= |c|
    ensures Combines(CmpPre(a, b, i), CmpPre(b, c, i), CmpPre(a, c, i))
    decreases |a| - i
  {
    hide CmpIdent;
    if i < |a| && i < |b| && i < |c| {
      IdentCombines(a[i], b[i], c[i]);
      PreCombines(a, b, c, i + 1);
    }
  }

  lemma CompareCombines(a: Version, b: Version, c: Version)
    ensures Combines(Compare(a, b), Compare(b, c), Compare(a, c))
  {
    hide CmpPre;
    PreCombines(a.pre, b.pre, c.pre, 0);
  }

  // Where numbers fit, it is the precedence of Semantic Versioning 2.0.0, item 11.

  /** 11.4.1 to 11.4.3: numbers by value, texts bytewise, numbers before texts. */
  predicate IdentLower(x: string, y: string) {
    if Digits(x) && Digits(y) then Value(x) < Value(y) else if Digits(x) || Digits(y) then Digits(x) else Less(x, y)
  }

  /** The lists agree up to `i` and the first is lower there. */
  predicate LowerAt(a: seq<string>, b: seq<string>, i: nat)
    requires i <= |a| && i <= |b|
  {
    && (forall j :: 0 <= j < i ==> a[j] == b[j])
    && if i < |a| && i < |b| then a[i] != b[i] && IdentLower(a[i], b[i]) else i == |a| && i < |b|
  }

  /** 11.4 and 11.4.4: the first identifier that differs decides, else the longer list is higher. */
  predicate PreLower(a: seq<string>, b: seq<string>) {
    exists i :: 0 <= i <= |a| && i <= |b| && LowerAt(a, b, i)
  }

  /** 11.2 and 11.3: the numbers from left to right, then a prerelease before its release. */
  predicate Lower(a: Version, b: Version) {
    || a.major < b.major
    || (a.major == b.major && a.minor < b.minor)
    || (a.major == b.major && a.minor == b.minor && a.patch < b.patch)
    || (a.major == b.major && a.minor == b.minor && a.patch == b.patch
        && a.pre != [] && (b.pre == [] || PreLower(a.pre, b.pre)))
  }

  predicate PreFits(pre: seq<string>) {
    forall p :: p in pre ==> PreIdent(p) && (Digits(p) ==> Value(p) < HALF)
  }

  lemma IdentMeans(x: string, y: string)
    requires PreIdent(x) && PreIdent(y) && (Digits(x) ==> Value(x) < HALF) && (Digits(y) ==> Value(y) < HALF)
    ensures CmpIdent(x, y) < 0 <==> x != y && IdentLower(x, y)
    ensures CmpIdent(x, y) == 0 <==> x == y
  {
    hide Value, Print, Less;
    LessIrreflexive(x);
    if Digits(x) && Digits(y) {
      PrintOfValue(x);
      PrintOfValue(y);
    }
  }

  lemma {:induction false} PreMeans(a: seq<string>, b: seq<string>, i: nat)
    requires PreFits(a) && PreFits(b) && i <= |a| && i <= |b| && forall j :: 0 <= j < i ==> a[j] == b[j]
    ensures CmpPre(a, b, i) < 0 <==> PreLower(a, b)
    ensures CmpPre(a, b, i) == 0 <==> a == b
    decreases |a| - i
  {
    hide CmpIdent, IdentLower, PreIdent, Digits, Value;
    if i < |a| && i < |b| {
      assert a[i] in a && b[i] in b;
      IdentMeans(a[i], b[i]);
      if a[i] == b[i] {
        PreMeans(a, b, i + 1);
      } else {
        DecidedAt(a, b, i);
      }
    } else {
      assert |a| == i < |b| ==> LowerAt(a, b, i);
    }
  }

  lemma DecidedAt(a: seq<string>, b: seq<string>, i: nat)
    requires i < |a| && i < |b| && (forall j :: 0 <= j < i ==> a[j] == b[j]) && a[i] != b[i]
    ensures PreLower(a, b) <==> IdentLower(a[i], b[i])
  {
    hide IdentLower;
    assert LowerAt(a, b, i) <==> IdentLower(a[i], b[i]);
  }

  /** On versions whose numbers fit, Compare decides the precedence of the standard, and calls two
      versions equal exactly when they differ in nothing but build metadata. */
  lemma CompareMeans(a: Version, b: Version)
    requires PreFits(a.pre) && PreFits(b.pre)
    ensures Compare(a, b) < 0 <==> Lower(a, b)
    ensures Compare(a, b) == 0 <==> a.(build := "") == b.(build := "")
  {
    hide CmpPre, PreLower, PreFits;
    PreMeans(a.pre, b.pre, 0);
  }

  /** If the identifier is a number, 64 bits hold it. */
  predicate Fits(x: string) {
    Digits(x) ==> Value(x) < HALF
  }

  /** Comparing the two identifiers gives what the standard says. */
  predicate Agrees(x: string, y: string) {
    (CmpIdent(x, y) < 0 <==> x != y && IdentLower(x, y)) && (CmpIdent(x, y) == 0 <==> x == y)
  }

  /** The fitting number that a number that wraps is not told apart from, or is put below. */
  function Rival(x: string): string
    requires Digits(x)
  {
    Print(if Wrap(Value(x)) < 0 then 0 else Wrap(Value(x)))
  }

  lemma RivalDisagrees(x: string)
    requires Numeric(x) && Value(x) >= HALF
    ensures PreIdent(Rival(x)) && Fits(Rival(x)) && !Agrees(x, Rival(x))
  {
    hide Value, Print;
    var n: nat := if Wrap(Value(x)) < 0 then 0 else Wrap(Value(x));
    ValueOfPrint(n);
    assert Digits(Rival(x)) && Value(Rival(x)) == n < HALF;
  }

  /** A numeric identifier is compared with every fitting identifier as the standard says exactly when
      it fits itself. */
  lemma ComparedRightExactly(x: string)
    requires Numeric(x)
    ensures Value(x) < HALF <==> forall y :: PreIdent(y) && Fits(y) ==> Agrees(x, y)
  {
    hide Value, Agrees, Digits;
    if Value(x) < HALF {
      forall y | PreIdent(y) && Fits(y) ensures Agrees(x, y) {
        FittingAgree(x, y);
      }
    } else {
      RivalDisagrees(x);
    }
  }

  lemma FittingAgree(x: string, y: string)
    requires Numeric(x) && Value(x) < HALF && PreIdent(y) && Fits(y)
    ensures Agrees(x, y)
  {
    IdentMeans(x, y);
  }

  /** Two texts that parse, of which the second is below the first, and that are taken for equal. */
  lemma WrappedNumbersCollide()
    ensures var high, low := Version(1, 0, 0, [Print(FULL)], ""), Version(1, 0, 0, ["0"], "");
            && Parsed(Text(high)) == Ok(high) && Parsed(Text(low)) == Ok(low) && Text(high) != Text(low)
            && Lower(low, high) && Compare(low, high) == 0
  {
    hide Print, Parsed, Text;
    var high, low := Version(1, 0, 0, [Print(FULL)], ""), Version(1, 0, 0, ["0"], "");
    ValueOfPrint(FULL);
    assert Value("0") == 0 by {
      assert "0"[..0] == "";
    }
    assert Valid(high) && Valid(low);
    RoundTrip(high);
    RoundTrip(low);
    assert high.pre[0] != low.pre[0];
    assert LowerAt(low.pre, high.pre, 0);
  }

  // ----- releasing -----

  /** The greatest of the candidates that parse. */
  method Highest(candidates: seq<string>) returns (best: Version, ok: bool)
    ensures ok <==> exists i :: 0 <= i < |candidates| && Parsed(candidates[i]).Ok?
    ensures ok ==> Ok(best) in Results(candidates)
    ensures ok ==> forall i :: 0 <= i < |candidates| && Parsed(candidates[i]).Ok? ==>
                     Compare(Parsed(candidates[i]).value, best) <= 0
  {
    hide Parsed, Compare;
    best, ok := Version(0, 0, 0, [], ""), false;
    for i := 0 to |candidates|
      invariant ok <==> exists j :: 0 <= j < i && Parsed(candidates[j]).Ok?
      invariant ok ==> Ok(best) in Results(candidates)
      invariant ok ==> forall j :: 0 <= j < i && Parsed(candidates[j]).Ok? ==> Compare(Parsed(candidates[j]).value, best) <= 0
    {
      var v := Parse(candidates[i]);
      if v.Err? {
        continue;
      }
      assert Results(candidates)[i] == v;
      CompareFlips(v.value, v.value);
      if !ok || Compare(v.value, best) > 0 {
        if ok {
          CompareFlips(v.value, best);
          forall j | 0 <= j < i && Parsed(candidates[j]).Ok? ensures Compare(Parsed(candidates[j]).value, v.value) <= 0 {
            CompareCombines(Parsed(candidates[j]).value, best, v.value);
          }
        }
        best, ok := v.value, true;
      }
    }
  }

  function Results(candidates: seq<string>): seq<Result<Version, ParseError>> {
    seq(|candidates|, i requires 0 <= i < |candidates| => Parsed(candidates[i]))
  }

  /** The version is above every candidate that parses. */
  predicate AboveAll(current: Version, candidates: seq<string>) {
    forall i :: 0 <= i < |candidates| && Parsed(candidates[i]).Ok? ==> Compare(current, Parsed(candidates[i]).value) > 0
  }

  /** It is enough to look at a greatest one. */
  lemma AboveTheHighest(current: Version, candidates: seq<string>, best: Version)
    requires Ok(best) in Results(candidates)
    requires forall i :: 0 <= i < |candidates| && Parsed(candidates[i]).Ok? ==> Compare(Parsed(candidates[i]).value, best) <= 0
    ensures Compare(current, best) > 0 <==> AboveAll(current, candidates)
  {
    hide Parsed, Compare;
    CompareFlips(current, best);
    if Compare(current, best) > 0 {
      forall i | 0 <= i < |candidates| && Parsed(candidates[i]).Ok? ensures Compare(current, Parsed(candidates[i]).value) > 0 {
        var v := Parsed(candidates[i]).value;
        CompareFlips(current, v);
        CompareCombines(v, best, current);
      }
    }
  }

  datatype Decision = Decision(skip: bool, version: string, tag: string)

  /** A release is published exactly when the version is above every released one. */
  method DecideRelease(current: Version, candidates: seq<string>) returns (d: Decision)
    ensures d.skip <==> !AboveAll(current, candidates)
    ensures d.version == Text(current) && d.tag == Tag(current)
  {
    hide Parsed, Compare, Text;
    d := Decision(false, Text(current), Tag(current));
    var best, ok := Highest(candidates);
    if !ok {
      return;
    }
    AboveTheHighest(current, candidates, best);
    if Compare(current, best) > 0 {
      return;
    }
    d := d.(skip := true);
  }

  datatype Status = Good | Warn | Fail

  method CheckPullRequest(current: Version, candidates: seq<string>, versionChanged: bool) returns (status: Status)
    ensures status == Good <==> AboveAll(current, candidates)
    ensures status == Fail <==> !AboveAll(current, candidates) && versionChanged
  {
    hide Parsed, Compare;
    var best, ok := Highest(candidates);
    if ok {
      AboveTheHighest(current, candidates, best);
    }
    if !ok || Compare(current, best) > 0 {
      return Good;
    }
    return if versionChanged then Fail else Warn;
  }

  function Tags(versions: seq<Version>): seq<string> {
    seq(|versions|, i requires 0 <= i < |versions| => Tag(versions[i]))
  }

  /** Against the tags of released versions a version is above all exactly when each of them comes before it
      in the order of the standard. */
  lemma TagsDecide(current: Version, versions: seq<Version>)
    requires PreFits(current.pre) && forall v :: v in versions ==> Valid(v) && PreFits(v.pre)
    ensures AboveAll(current, Tags(versions)) <==> forall v :: v in versions ==> Lower(v, current)
  {
    hide Parsed, Compare, Tag, Text, Valid, PreFits, Lower;
    forall i | 0 <= i < |versions|
      ensures Parsed(Tags(versions)[i]) == Ok(versions[i])
      ensures Compare(current, versions[i]) > 0 <==> Lower(versions[i], current)
    {
      TagParses(versions[i], 'v');
      CompareMeans(versions[i], current);
      CompareFlips(versions[i], current);
    }
    if forall v :: v in versions ==> Lower(v, current) {
      assert AboveAll(current, Tags(versions));
    }
    if AboveAll(current, Tags(versions)) {
      forall v | v in versions ensures Lower(v, current) {
        var i :| 0 <= i < |versions| && versions[i] == v;
        assert Parsed(Tags(versions)[i]).Ok?;
      }
    }
  }

  // ----- the grammar -----

  /** An identifier: letters, digits and hyphens, at least one; a number among prerelease identifiers does
      not begin with a zero unless it is zero. */
  lemma PreIdentExactly(s: string)
    ensures PreIdent(s) <==>
              && s != ""
              && (forall i :: 0 <= i < |s| ==> '0' <= s[i] <= '9' || 'A' <= s[i] <= 'Z' || 'a' <= s[i] <= 'z' || s[i] == '-')
              && (s[0] != '0' || s == "0" || exists i :: 0 <= i < |s| && !('0' <= s[i] <= '9'))
  {}
}
