/** Byte strings: splitting and joining on a separator, trimming, and the bytewise order. */
module Strings {

  /** The position of the first `c`, or the length when there is none. */
  function Find(s: string, c: char): (i: nat)
    ensures i <= |s| && c !in s[..i]
    ensures i < |s| ==> s[i] == c
    ensures c in s <==> i < |s|
  {
    if s == "" || s[0] == c then 0 else 1 + Find(s[1..], c)
  }

  function Split(s: string, sep: char): (parts: seq<string>)
    ensures |parts| >= 1
    ensures forall p :: p in parts ==> sep !in p
    ensures sep !in s ==> parts == [s]
    decreases |s|
  {
    var i := Find(s, sep);
    if i == |s| then [s] else [s[..i]] + Split(s[i + 1..], sep)
  }

  function Join(parts: seq<string>, sep: char): string {
    if parts == [] then ""
    else if |parts| == 1 then parts[0]
    else parts[0] + [sep] + Join(parts[1..], sep)
  }

  lemma JoinCons(head: string, parts: seq<string>, sep: char)
    requires parts != []
    ensures Join([head] + parts, sep) == head + [sep] + Join(parts, sep)
  {
    assert ([head] + parts)[1..] == parts;
  }

  lemma SplitAtFirst(s: string, sep: char)
    requires sep in s
    ensures Split(s, sep) == [s[..Find(s, sep)]] + Split(s[Find(s, sep) + 1..], sep)
  {
    hide Find;
  }

  lemma {:induction false} JoinSplit(s: string, sep: char)
    ensures Join(Split(s, sep), sep) == s
    decreases |s|
  {
    hide Find, Split;
    if sep in s {
      var i := Find(s, sep);
      SplitAtFirst(s, sep);
      JoinSplit(s[i + 1..], sep);
      JoinCons(s[..i], Split(s[i + 1..], sep), sep);
      assert s == s[..i] + [sep] + s[i + 1..];
    }
  }

  lemma FindAt(s: string, i: nat, c: char)
    requires i < |s| && c !in s[..i] && s[i] == c
    ensures Find(s, c) == i
  {
    var j := Find(s, c);
    assert forall k :: 0 <= k < i ==> s[..i][k] != c;
    assert forall k :: 0 <= k < j ==> s[..j][k] != c;
  }

  lemma SplitCons(head: string, rest: string, sep: char)
    requires sep !in head
    ensures Split(head + [sep] + rest, sep) == [head] + Split(rest, sep)
  {
    var s := head + [sep] + rest;
    assert s[..|head|] == head && s[|head| + 1..] == rest;
    FindAt(s, |head|, sep);
  }

  lemma {:induction false} SplitJoin(parts: seq<string>, sep: char)
    requires parts != [] && forall p :: p in parts ==> sep !in p
    ensures Split(Join(parts, sep), sep) == parts
    decreases |parts|
  {
    hide Find, Split;
    if |parts| > 1 {
      SplitJoin(parts[1..], sep);
      SplitCons(parts[0], Join(parts[1..], sep), sep);
    } else {
      assert sep !in parts[0];
    }
  }

  function ReplaceAll(s: string, from: char, to: char): (r: string)
    ensures |r| == |s|
    ensures from != to ==> from !in r
    ensures from !in s ==> r == s
  {
    if s == "" then "" else [if s[0] == from then to else s[0]] + ReplaceAll(s[1..], from, to)
  }

  /** Character by character. */
  lemma {:induction false} ReplacedAt(s: string, from: char, to: char, i: nat)
    requires i < |s|
    ensures ReplaceAll(s, from, to)[i] == if s[i] == from then to else s[i]
  {
    if i > 0 {
      ReplacedAt(s[1..], from, to, i - 1);
    }
  }

  function TrimLeft(s: string, cut: char -> bool): (r: string)
    ensures |r| <= |s| && r == s[|s| - |r|..]
    ensures r != "" ==> !cut(r[0])
    ensures s == "" || !cut(s[0]) ==> r == s
  {
    if s != "" && cut(s[0]) then TrimLeft(s[1..], cut) else s
  }

  function TrimRight(s: string, cut: char -> bool): (r: string)
    ensures |r| <= |s| && r == s[..|r|]
    ensures r != "" ==> !cut(r[|r| - 1])
    ensures s == "" || !cut(s[|s| - 1]) ==> r == s
  {
    if s != "" && cut(s[|s| - 1]) then TrimRight(s[..|s| - 1], cut) else s
  }

  function Trim(s: string, cut: char -> bool): (r: string)
    ensures |r| <= |s|
    ensures r != "" ==> !cut(r[0]) && !cut(r[|r| - 1])
    ensures s == "" || (!cut(s[0]) && !cut(s[|s| - 1])) ==> r == s
    ensures s == "" || !cut(s[0]) ==> r <= s
    ensures forall c :: c in r ==> c in s
  {
    TrimRight(TrimLeft(s, cut), cut)
  }

  predicate IsSpace(c: char) {
    c == ' ' || '\t' <= c <= '\r'
  }

  predicate IsSlash(c: char) {
    c == '/'
  }

  function TrimSpace(s: string): (r: string)
    ensures r != "" ==> !IsSpace(r[0]) && !IsSpace(r[|r| - 1])
    ensures s == "" || (!IsSpace(s[0]) && !IsSpace(s[|s| - 1])) ==> r == s
  {
    Trim(s, IsSpace)
  }

  function TrimSlashes(s: string): (r: string)
    ensures r != "" ==> r[0] != '/' && r[|r| - 1] != '/'
    ensures s == "" || (s[0] != '/' && s[|s| - 1] != '/') ==> r == s
    ensures s == "" || s[0] != '/' ==> r <= s
    ensures forall c :: c in r ==> c in s
  {
    Trim(s, IsSlash)
  }

  predicate Slashes(s: string) {
    forall k :: 0 <= k < |s| ==> s[k] == '/'
  }

  lemma {:induction false} LeftIsSlash(s: string, k: nat)
    requires k < |s| - |TrimLeft(s, IsSlash)|
    ensures s[k] == '/'
  {
    if k > 0 {
      LeftIsSlash(s[1..], k - 1);
    }
  }

  lemma {:induction false} RightIsSlash(s: string, k: nat)
    requires |TrimRight(s, IsSlash)| <= k < |s|
    ensures s[k] == '/'
    decreases |s|
  {
    if k < |s| - 1 {
      RightIsSlash(s[..|s| - 1], k);
    }
  }

  lemma LeadingSlashes(s: string) returns (a: string)
    ensures Slashes(a) && s == a + TrimLeft(s, IsSlash)
  {
    a := s[..|s| - |TrimLeft(s, IsSlash)|];
    forall k | 0 <= k < |a| ensures a[k] == '/' {
      LeftIsSlash(s, k);
    }
  }

  lemma TrailingSlashes(s: string) returns (b: string)
    ensures Slashes(b) && s == TrimRight(s, IsSlash) + b
  {
    b := s[|TrimRight(s, IsSlash)|..];
    forall k | 0 <= k < |b| ensures b[k] == '/' {
      RightIsSlash(s, |TrimRight(s, IsSlash)| + k);
    }
  }

  /** Only slashes are trimmed, at both ends. */
  lemma TrimSlashesExactly(s: string) returns (a: string, b: string)
    ensures Slashes(a) && Slashes(b) && s == a + TrimSlashes(s) + b
  {
    hide Slashes, TrimSlashes, TrimLeft, TrimRight;
    a := LeadingSlashes(s);
    b := TrailingSlashes(TrimLeft(s, IsSlash));
    TrimIsBoth(s);
  }

  lemma TrimIsBoth(s: string)
    ensures TrimSlashes(s) == TrimRight(TrimLeft(s, IsSlash), IsSlash)
  {
    hide TrimLeft, TrimRight;
  }

  // ----- the bytewise order used by primary keys and ORDER BY -----

  predicate Less(a: string, b: string) {
    b != "" && (a == "" || a[0] < b[0] || (a[0] == b[0] && Less(a[1..], b[1..])))
  }

  predicate AtMost(a: string, b: string) {
    a == b || Less(a, b)
  }

  lemma LessFromEmpty(a: string, b: string)
    ensures Less("", b) <==> b != ""
    ensures Less(a, b) ==> b != ""
  {}

  lemma {:induction false} LessIrreflexive(a: string)
    ensures !Less(a, a)
  {
    if a != "" {
      LessIrreflexive(a[1..]);
    }
  }

  lemma {:induction false} LessTransitive(a: string, b: string, c: string)
    requires Less(a, b) && Less(b, c)
    ensures Less(a, c)
  {
    if a != "" && a[0] == b[0] && b[0] == c[0] {
      LessTransitive(a[1..], b[1..], c[1..]);
    }
  }

  lemma {:induction false} LessTotal(a: string, b: string)
    ensures Less(a, b) || a == b || Less(b, a)
  {
    if a != "" && b != "" && a[0] == b[0] {
      LessTotal(a[1..], b[1..]);
    } else if a == "" {
      assert b == "" || Less(a, b);
    }
  }

  lemma LessAsymmetric(a: string, b: string)
    requires Less(a, b)
    ensures a != b && !Less(b, a)
  {
    if Less(b, a) {
      LessTransitive(a, b, a);
    }
    LessIrreflexive(a);
  }

  lemma {:induction false} LessAfterPrefix(p: string, a: string, b: string)
    ensures Less(p + a, p + b) <==> Less(a, b)
  {
    if p == "" {
      assert p + a == a && p + b == b;
    } else {
      assert (p + a)[1..] == p[1..] + a && (p + b)[1..] == p[1..] + b;
      LessAfterPrefix(p[1..], a, b);
    }
  }

  /** A range scan stands in for a prefix test: '0' is the character after '/'. */
  lemma {:induction false} PrefixIsRange(p: string, s: string)
    ensures p + "/" <= s <==> AtMost(p + "/", s) && Less(s, p + "0")
  {
    if p == "" {
      assert p + "/" == "/" && p + "0" == "0";
      if s != "" && s[0] == '/' {
        assert Less("", s[1..]) || s[1..] == "";
        assert s == "/" + s[1..];
      }
    } else if s != "" && s[0] == p[0] {
      assert (p + "/")[1..] == p[1..] + "/" && (p + "0")[1..] == p[1..] + "0";
      PrefixIsRange(p[1..], s[1..]);
      assert p + "/" == s <==> p[1..] + "/" == s[1..];
      assert p + "/" <= s <==> p[1..] + "/" <= s[1..];
    } else if s != "" {
      assert (p + "/")[0] == p[0] != s[0];
    }
  }
}
