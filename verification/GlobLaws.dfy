/** What each kind of pattern character says, as equations that take a pattern apart from its front. */
module GlobLaws {
  import opened Glob

  // ----- patterns and names that go on -----

  lemma {:induction false} RangesShift(x: string, p: string, i: nat, first: bool)
    requires i <= |p|
    ensures var r, s := ParseRanges(p, i, first), ParseRanges(x + p, |x| + i, first);
            match r case NoRanges => s.NoRanges? case Ranges(ranges, close) => s == Ranges(ranges, |x| + close)
    decreases |p| - i
  {
    assert forall k :: 0 <= k < |p| ==> (x + p)[|x| + k] == p[k];
    if i < |p| && (first || p[i] != ']') {
      var next := if i + 2 < |p| && p[i + 1] == '-' && p[i + 2] != ']' then i + 3 else i + 1;
      RangesShift(x, p, next, false);
    }
  }

  lemma ClassShift(x: string, p: string, i: nat)
    requires i < |p|
    ensures var r, s := ParseClass(p, i), ParseClass(x + p, |x| + i);
            match r case NoClass => s.NoClass? case Parsed(cls, next) => s == Parsed(cls, |x| + next)
  {
    hide ParseRanges;
    assert forall k :: 0 <= k < |p| ==> (x + p)[|x| + k] == p[k];
    if FirstOf(p, i) <= |p| {
      RangesShift(x, p, FirstOf(p, i), true);
    }
  }

  lemma TokenShift(x: string, p: string, i: nat)
    requires i < |p|
    ensures TokenAt(x + p, |x| + i) == (TokenAt(p, i).0, |x| + TokenAt(p, i).1)
  {
    hide ParseClass;
    assert (x + p)[|x| + i] == p[i];
    ClassShift(x, p, i);
  }

  lemma {:induction false} Shift(x: string, p: string, i: nat, y: string, name: string, n: nat)
    requires i <= |p| && n <= |name|
    ensures At(x + p, |x| + i, y + name, |y| + n) == At(p, i, name, n)
    decreases |p| - i, 0, 0
  {
    hide TokenAt;
    if i < |p| {
      assert (x + p)[|x| + i] == p[i];
      TokenShift(x, p, i);
      if p[i] == '*' {
        ShiftAfter(x, p, i + 1, y, name, n);
      } else if n < |name| {
        assert (y + name)[|y| + n] == name[n];
        Shift(x, p, TokenAt(p, i).1, y, name, n + 1);
      }
    }
  }

  lemma {:induction false} ShiftAfter(x: string, p: string, i: nat, y: string, name: string, n: nat)
    requires i <= |p| && n <= |name|
    ensures AtOrAfter(x + p, |x| + i, y + name, |y| + n) == AtOrAfter(p, i, name, n)
    decreases |p| - i, 1, |name| - n
  {
    hide At;
    Shift(x, p, i, y, name, n);
    if n < |name| {
      ShiftAfter(x, p, i, y, name, n + 1);
    }
  }

  /** What follows the front of a pattern is matched against what follows the front of a name. */
  lemma Rest(x: string, p: string, name: string, k: nat)
    requires k <= |name|
    ensures At(x + p, |x|, name, k) == Matches(p, name[k..])
  {
    assert name[..k] + name[k..] == name;
    Shift(x, p, 0, name[..k], name[k..], 0);
  }

  // ----- the equations -----

  /** Nothing matches nothing. */
  lemma EmptyPattern(name: string)
    ensures Matches("", name) <==> name == ""
  {}

  /** `*` stands for any number of characters, `?` for one. */
  lemma StarPattern(p: string, name: string)
    ensures Matches("*" + p, name) <==> exists k :: 0 <= k <= |name| && Matches(p, name[k..])
  {
    if Matches("*" + p, name) {
      var k := AtOrAfterFinds("*" + p, 1, name, 0);
      Rest("*", p, name, k);
    }
    if k :| 0 <= k <= |name| && Matches(p, name[k..]) {
      Rest("*", p, name, k);
      AtOrAfterFrom("*" + p, 1, name, 0, k);
    }
  }

  lemma AnyOnePattern(p: string, name: string)
    ensures Matches("?" + p, name) <==> name != "" && Matches(p, name[1..])
  {
    if name != "" {
      Rest("?", p, name, 1);
    }
  }

  predicate Plain(c: char) {
    c != '*' && c != '?' && c != '['
  }

  /** Any other character but an opening bracket stands for itself. */
  lemma LiteralPattern(c: char, p: string, name: string)
    requires Plain(c)
    ensures Matches([c] + p, name) <==> name != "" && name[0] == c && Matches(p, name[1..])
  {
    if name != "" {
      Rest([c], p, name, 1);
    }
  }

  /** The characters and ranges that a class lists. */
  predicate InBody(body: string, c: char) {
    if |body| >= 3 && body[1] == '-' then body[0] <= c <= body[2] || InBody(body[3..], c)
    else body != "" && (body[0] == c || InBody(body[1..], c))
  }

  predicate NoClosing(s: string) {
    forall k :: 0 <= k < |s| ==> s[k] != ']'
  }

  /** How far the first character or range of a class goes. */
  function FirstLength(body: string): nat {
    if |body| >= 3 && body[1] == '-' then 3 else 1
  }

  function FirstRange(body: string): Range
    requires body != ""
  {
    Range(body[0], if |body| >= 3 && body[1] == '-' then body[2] else body[0])
  }

  /** A class body lies in the pattern from `i` up to its closing bracket. */
  predicate LiesAt(pattern: string, i: nat, first: bool, body: string) {
    && i + |body| < |pattern| && pattern[i + |body|] == ']'
    && (forall k :: 0 <= k < |body| ==> pattern[i + k] == body[k])
    && (first ==> body != "") && (forall k :: (if first then 1 else 0) <= k < |body| ==> body[k] != ']')
  }

  lemma FirstOfBody(pattern: string, i: nat, first: bool, body: string)
    requires LiesAt(pattern, i, first, body) && body != ""
    ensures LiesAt(pattern, i + FirstLength(body), false, body[FirstLength(body)..])
    ensures var r := ParseRanges(pattern, i + FirstLength(body), false);
            r.Ranges? ==> ParseRanges(pattern, i, first) == Ranges([FirstRange(body)] + r.ranges, r.close)
  {
    assert pattern[i + 0] == body[0];
    assert |body| >= 2 ==> pattern[i + 1] == body[1];
    assert |body| >= 3 ==> pattern[i + 2] == body[2];
  }

  lemma InBodyFirst(body: string, c: char)
    requires body != ""
    ensures InBody(body, c) <==>
              FirstRange(body).lo <= c <= FirstRange(body).hi || InBody(body[FirstLength(body)..], c)
  {}

  lemma {:induction false} BodyRanges(pattern: string, i: nat, first: bool, body: string, c: char)
    requires LiesAt(pattern, i, first, body)
    ensures var r := ParseRanges(pattern, i, first);
            r.Ranges? && r.close == i + |body| && (InRanges(r.ranges, c) <==> InBody(body, c))
    decreases |body|
  {
    if body == "" {
      NothingInNoRanges(c);
    } else {
      hide InRanges, InBody, LiesAt, ParseRanges;
      FirstOfBody(pattern, i, first, body);
      BodyRanges(pattern, i + FirstLength(body), false, body[FirstLength(body)..], c);
      InRangesCons(FirstRange(body), ParseRanges(pattern, i + FirstLength(body), false).ranges, c);
      InBodyFirst(body, c);
    }
  }

  lemma InRangesCons(r: Range, ranges: seq<Range>, c: char)
    ensures InRanges([r] + ranges, c) <==> r.lo <= c <= r.hi || InRanges(ranges, c)
  {
    assert r in [r] + ranges;
    assert forall q :: q in [r] + ranges <==> q == r || q in ranges;
  }

  lemma BodyLies(a: string, body: string, p: string)
    requires body != "" && NoClosing(body[1..])
    ensures LiesAt(a + body + ("]" + p), |a|, true, body)
  {
    assert forall k :: 1 <= k < |body| ==> body[1..][k - 1] == body[k];
  }

  predicate IsClass(negation: string, body: string) {
    && (negation == "" || negation == "^" || negation == "!")
    && body != "" && NoClosing(body[1..]) && (negation == "" ==> body[0] != '^' && body[0] != '!')
  }

  lemma ClassToken(negation: string, body: string, p: string, c: char)
    requires IsClass(negation, body)
    ensures var x := "[" + negation + body + "]";
            var (token, next) := TokenAt(x + p, 0);
            next == |x| && !token.Star? && (Accepts(token, c) <==> InBody(body, c) != (negation != ""))
  {
    hide InBody, ParseRanges, InRanges, NoClosing;
    var x := "[" + negation + body + "]";
    var pattern := x + p;
    var i := 1 + |negation|;
    BodyLies("[" + negation, body, p);
    assert pattern == "[" + negation + body + ("]" + p);
    assert negation != "" ==> pattern[1] == negation[0];
    assert negation == "" ==> pattern[1] == body[0];
    BodyRanges(pattern, i, true, body, c);
  }

  /** A class stands for one of the characters it lists, or, after `^` or `!`, for one of the others. A
      closing bracket that comes first is listed. */
  lemma ClassPattern(negation: string, body: string, p: string, name: string)
    requires IsClass(negation, body)
    ensures Matches("[" + negation + body + "]" + p, name) <==>
              name != "" && (InBody(body, name[0]) != (negation != "")) && Matches(p, name[1..])
  {
    hide InBody, TokenAt, Accepts, IsClass;
    var x := "[" + negation + body + "]";
    assert (x + p)[0] == '[';
    if name != "" {
      ClassToken(negation, body, p, name[0]);
      Rest(x, p, name, 1);
    }
  }

  /** A bracket that is not closed matches nothing, whatever comes before or after it. */
  lemma UnclosedPattern(p: string, name: string)
    requires |p| <= 1 || NoClosing(p[if p[0] == '^' || p[0] == '!' then 2 else 1..])
    ensures !Matches("[" + p, name)
  {
    var pattern := "[" + p;
    var from := FirstOf(pattern, 0) + 1;
    assert |p| > 1 ==> p[if p[0] == '^' || p[0] == '!' then 2 else 1..] == pattern[from..];
    if from <= |pattern| {
      assert forall k :: from <= k < |pattern| ==> pattern[k] == pattern[from..][k - from];
    }
    ClassEnds(pattern, 0);
  }

  // ----- common patterns -----

  predicate AllPlain(p: string) {
    forall k :: 0 <= k < |p| ==> Plain(p[k])
  }

  /** A plain name matches itself only. */
  lemma {:induction false} PlainPattern(p: string, name: string)
    requires AllPlain(p)
    ensures Matches(p, name) <==> name == p
  {
    hide Matches;
    if p == "" {
      EmptyPattern(name);
    } else {
      assert p == [p[0]] + p[1..];
      LiteralPattern(p[0], p[1..], name);
      if name != "" {
        PlainPattern(p[1..], name[1..]);
        assert name == [name[0]] + name[1..];
      }
    }
  }

  /** `*` before a plain ending matches the names with that ending. */
  lemma EndingPattern(ending: string, name: string)
    requires AllPlain(ending)
    ensures Matches("*" + ending, name) <==> |ending| <= |name| && name[|name| - |ending|..] == ending
  {
    hide Matches;
    StarPattern(ending, name);
    forall k | 0 <= k <= |name| ensures Matches(ending, name[k..]) <==> name[k..] == ending {
      PlainPattern(ending, name[k..]);
    }
    if |ending| <= |name| && name[|name| - |ending|..] == ending {
      assert Matches(ending, name[|name| - |ending|..]);
    }
  }
}
