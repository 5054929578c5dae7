/** The glob matcher for one path component: `*`, `?` and `[...]` classes.

    A pattern is read as a list of tokens, and it matches a name when the name can be cut
    into one piece per token: any piece for `*`, one accepted character for every other
    token. The iterative matcher with its single backtrack point decides exactly that.
    A `char` stands for one byte, and matching is case-sensitive. */
module Glob {
  import opened Sequences

  datatype Range = Range(lo: char, hi: char)

  datatype Class = Class(negate: bool, ranges: seq<Range>)

  /** `Dead` is an unterminated `[`, which no character matches. */
  datatype Token = Star | AnyOne | Literal(c: char) | OneOf(cls: Class) | Dead

  datatype ClassParse = NoClass | Parsed(cls: Class, next: nat)

  datatype RangeParse = NoRanges | Ranges(ranges: seq<Range>, close: nat)

  /** The class body from index `i` up to its closing bracket. The first character belongs
      to the class even when it is `]`. */
  function ParseRanges(pattern: string, i: nat, first: bool): (r: RangeParse)
    ensures r.Ranges? ==> i <= r.close < |pattern| && pattern[r.close] == ']'
    decreases |pattern| - i
  {
    if i >= |pattern| then NoRanges
    else if pattern[i] == ']' && !first then Ranges([], i)
    else
      var (range, next) := if i + 2 < |pattern| && pattern[i + 1] == '-' && pattern[i + 2] != ']'
                           then (Range(pattern[i], pattern[i + 2]), i + 3)
                           else (Range(pattern[i], pattern[i]), i + 1);
      match ParseRanges(pattern, next, false)
      case NoRanges => NoRanges
      case Ranges(rest, close) => Ranges([range] + rest, close)
  }

  predicate Negated(pattern: string, p: nat) {
    p + 1 < |pattern| && (pattern[p + 1] == '^' || pattern[p + 1] == '!')
  }

  /** The first character of a class, after the negation. */
  function FirstOf(pattern: string, p: nat): nat {
    if Negated(pattern, p) then p + 2 else p + 1
  }

  /** The class that opens at `p`, and the index after it. */
  function ParseClass(pattern: string, p: nat): (r: ClassParse)
    ensures r.Parsed? ==> p < r.next <= |pattern|
  {
    match ParseRanges(pattern, FirstOf(pattern, p), true)
    case NoRanges => NoClass
    case Ranges(ranges, close) => Parsed(Class(Negated(pattern, p), ranges), close + 1)
  }

  predicate InRanges(ranges: seq<Range>, c: char) {
    exists r :: r in ranges && r.lo <= c <= r.hi
  }

  predicate InClass(cls: Class, c: char) {
    InRanges(cls.ranges, c) != cls.negate
  }

  predicate Accepts(t: Token, c: char) {
    match t
    case Star => false
    case AnyOne => true
    case Literal(l) => l == c
    case OneOf(cls) => InClass(cls, c)
    case Dead => false
  }

  /** The token written at `p` and the index after it. */
  function TokenAt(pattern: string, p: nat): (r: (Token, nat))
    requires p < |pattern|
    ensures p < r.1 <= |pattern|
    ensures r.0.Star? <==> pattern[p] == '*'
    ensures r.0.Star? ==> r.1 == p + 1
  {
    match pattern[p]
    case '*' => (Star, p + 1)
    case '?' => (AnyOne, p + 1)
    case '[' => (match ParseClass(pattern, p)
                 case NoClass => (Dead, p + 1)
                 case Parsed(cls, next) => (OneOf(cls), next))
    case c => (Literal(c), p + 1)
  }

  function Tokens(pattern: string, p: nat): seq<Token>
    requires p <= |pattern|
    decreases |pattern| - p
  {
    if p == |pattern| then [] else
      var (t, next) := TokenAt(pattern, p);
      [t] + Tokens(pattern, next)
  }

  // ----- the meaning of a pattern -----

  /** One piece of the name per token. */
  predicate Assigns(tokens: seq<Token>, pieces: seq<string>) {
    && |pieces| == |tokens|
    && forall i :: 0 <= i < |tokens| ==>
         tokens[i].Star? || (|pieces[i]| == 1 && Accepts(tokens[i], pieces[i][0]))
  }

  ghost predicate Spells(pattern: string, p: nat, name: string)
    requires p <= |pattern|
  {
    exists pieces :: Assigns(Tokens(pattern, p), pieces) && Concat(pieces) == name
  }

  /** Some assignment of substrings to the stars makes the pattern spell the name. */
  ghost predicate Meaning(pattern: string, name: string) {
    Spells(pattern, 0, name)
  }

  // ----- a recursive form of the meaning, which the loop is proved against -----

  /** The pattern from `p` matches the name from `n`. */
  predicate At(pattern: string, p: nat, name: string, n: nat)
    requires p <= |pattern| && n <= |name|
    decreases |pattern| - p, 0, 0
  {
    if p == |pattern| then n == |name|
    else if pattern[p] == '*' then AtOrAfter(pattern, p + 1, name, n)
    else
      var (t, next) := TokenAt(pattern, p);
      n < |name| && Accepts(t, name[n]) && At(pattern, next, name, n + 1)
  }

  /** The pattern from `p` matches the name from `n` or somewhere after it. */
  predicate AtOrAfter(pattern: string, p: nat, name: string, n: nat)
    requires p <= |pattern| && n <= |name|
    decreases |pattern| - p, 1, |name| - n
  {
    At(pattern, p, name, n) || (n < |name| && AtOrAfter(pattern, p, name, n + 1))
  }

  predicate Matches(pattern: string, name: string) {
    At(pattern, 0, name, 0)
  }

  lemma {:induction false} AtOrAfterFinds(pattern: string, p: nat, name: string, n: nat) returns (k: nat)
    requires p <= |pattern| && n <= |name| && AtOrAfter(pattern, p, name, n)
    ensures n <= k <= |name| && At(pattern, p, name, k)
    decreases |name| - n
  {
    if At(pattern, p, name, n) {
      k := n;
    } else {
      k := AtOrAfterFinds(pattern, p, name, n + 1);
    }
  }

  lemma {:induction false} AtOrAfterFrom(pattern: string, p: nat, name: string, n: nat, k: nat)
    requires p <= |pattern| && n <= k <= |name| && At(pattern, p, name, k)
    ensures AtOrAfter(pattern, p, name, n)
    decreases k - n
  {
    if n < k {
      AtOrAfterFrom(pattern, p, name, n + 1, k);
    }
  }

  lemma {:induction false} MatchHasPieces(pattern: string, p: nat, name: string, n: nat) returns (pieces: seq<string>)
    requires p <= |pattern| && n <= |name| && At(pattern, p, name, n)
    ensures Assigns(Tokens(pattern, p), pieces) && Concat(pieces) == name[n..]
    decreases |pattern| - p
  {
    if p == |pattern| {
      pieces := [];
    } else {
      var (t, next) := TokenAt(pattern, p);
      var k := n + 1;
      if t.Star? {
        k := AtOrAfterFinds(pattern, p + 1, name, n);
      }
      var rest := MatchHasPieces(pattern, next, name, k);
      pieces := [name[n..k]] + rest;
      assert pieces[1..] == rest;
      assert name[n..k] + name[k..] == name[n..];
    }
  }

  lemma {:induction false} PiecesMatch(pattern: string, p: nat, name: string, n: nat, pieces: seq<string>)
    requires p <= |pattern| && n <= |name|
    requires Assigns(Tokens(pattern, p), pieces) && Concat(pieces) == name[n..]
    ensures At(pattern, p, name, n)
    decreases |pattern| - p
  {
    if p < |pattern| {
      var (t, next) := TokenAt(pattern, p);
      var k := n + |pieces[0]|;
      assert Tokens(pattern, p)[1..] == Tokens(pattern, next);
      assert |name[n..]| == |pieces[0]| + |Concat(pieces[1..])|;
      assert name[n..][|pieces[0]|..] == name[k..] == Concat(pieces[1..]);
      assert name[n..][..|pieces[0]|] == pieces[0];
      PiecesMatch(pattern, next, name, k, pieces[1..]);
      if t.Star? {
        AtOrAfterFrom(pattern, p + 1, name, n, k);
      }
    }
  }

  /** The recursive form accepts exactly the names that some assignment spells. */
  lemma MeaningIsMatches(pattern: string, name: string)
    ensures Meaning(pattern, name) <==> Matches(pattern, name)
  {
    assert name[0..] == name;
    if Matches(pattern, name) {
      var pieces := MatchHasPieces(pattern, 0, name, 0);
    }
    if Meaning(pattern, name) {
      var pieces :| Assigns(Tokens(pattern, 0), pieces) && Concat(pieces) == name;
      PiecesMatch(pattern, 0, name, 0, pieces);
    }
  }

  /** A pattern matches some name exactly when every token but the stars accepts some character;
      so one unterminated class makes it match nothing. */
  lemma MatchesSomeName(pattern: string)
    ensures (exists name :: Matches(pattern, name)) <==> Alive(Tokens(pattern, 0))
    ensures Dead in Tokens(pattern, 0) ==> !Alive(Tokens(pattern, 0))
  {
    hide Matches, Tokens;
    var tokens := Tokens(pattern, 0);
    if name :| Matches(pattern, name) {
      MeaningIsMatches(pattern, name);
      var pieces :| Assigns(tokens, pieces) && Concat(pieces) == name;
      assert forall i :: 0 <= i < |tokens| ==> tokens[i].Star? || Accepts(tokens[i], pieces[i][0]);
    }
    if Alive(tokens) {
      var pieces := AcceptedPieces(tokens);
      MeaningIsMatches(pattern, Concat(pieces));
    }
    assert forall c :: !Accepts(Dead, c);
  }

  ghost predicate Alive(tokens: seq<Token>) {
    forall i :: 0 <= i < |tokens| ==> tokens[i].Star? || exists c :: Accepts(tokens[i], c)
  }

  lemma {:induction false} AcceptedPieces(tokens: seq<Token>) returns (pieces: seq<string>)
    requires Alive(tokens)
    ensures Assigns(tokens, pieces)
  {
    pieces := [];
    if tokens != [] {
      var rest := AcceptedPieces(tokens[1..]);
      var piece := "";
      if !tokens[0].Star? {
        var c :| Accepts(tokens[0], c);
        piece := [c];
      }
      pieces := [piece] + rest;
      assert forall i :: 0 < i < |tokens| ==> tokens[i] == tokens[1..][i - 1] && pieces[i] == rest[i - 1];
    }
  }

  predicate NoBracket(pattern: string, from: nat, to: nat)
    requires to <= |pattern|
  {
    forall k :: from <= k < to ==> pattern[k] != ']'
  }

  lemma {:induction false} ClosesAtBracket(pattern: string, i: nat, first: bool)
    ensures var r, from := ParseRanges(pattern, i, first), if first then i + 1 else i;
            && (r.NoRanges? <==> NoBracket(pattern, from, |pattern|))
            && (r.Ranges? ==> from <= r.close && NoBracket(pattern, from, r.close))
    decreases |pattern| - i
  {
    if i < |pattern| && (first || pattern[i] != ']') {
      var isRange := i + 2 < |pattern| && pattern[i + 1] == '-' && pattern[i + 2] != ']';
      ClosesAtBracket(pattern, if isRange then i + 3 else i + 1, false);
    }
  }

  /** A class ends at the first closing bracket after its first character, and is unterminated
      exactly when there is none. */
  lemma ClassEnds(pattern: string, p: nat)
    ensures ParseClass(pattern, p).NoClass? <==> NoBracket(pattern, FirstOf(pattern, p) + 1, |pattern|)
    ensures ParseClass(pattern, p).Parsed? ==>
              var close := ParseClass(pattern, p).next - 1;
              && FirstOf(pattern, p) < close < |pattern| && pattern[close] == ']'
              && NoBracket(pattern, FirstOf(pattern, p) + 1, close)
  {
    hide ParseRanges, NoBracket;
    ClosesAtBracket(pattern, FirstOf(pattern, p), true);
  }

  // ----- reading a class -----

  function Prepend(ranges: seq<Range>, r: RangeParse): RangeParse {
    match r
    case NoRanges => NoRanges
    case Ranges(rest, close) => Ranges(ranges + rest, close)
  }

  lemma PrependSnoc(ranges: seq<Range>, next: Range, r: RangeParse)
    ensures Prepend(ranges, Prepend([next], r)) == Prepend(ranges + [next], r)
  {
    if r.Ranges? {
      assert ranges + ([next] + r.ranges) == ranges + [next] + r.ranges;
    }
  }

  lemma InRangesSnoc(ranges: seq<Range>, r: Range, c: char)
    ensures InRanges(ranges + [r], c) <==> InRanges(ranges, c) || r.lo <= c <= r.hi
  {
    assert r in ranges + [r];
    assert forall q :: q in ranges + [r] <==> q in ranges || q == r;
  }

  lemma NothingInNoRanges(c: char)
    ensures !InRanges([], c)
  {}

  /** Reports the index after the class that opens at `p` and whether the class holds `c`;
      an unterminated class gives false. */
  method MatchClass(pattern: string, p: nat, c: char) returns (end: nat, ok: bool)
    requires p < |pattern|
    ensures match ParseClass(pattern, p)
            case NoClass => !ok
            case Parsed(cls, next) => end == next && ok == InClass(cls, c)
  {
    hide InRanges;
    NothingInNoRanges(c);
    if |pattern| - p < 2 {
      return 0, false;
    }
    var i := p + 1;
    var negate := false;
    if pattern[i] == '^' || pattern[i] == '!' {
      negate := true;
      i := i + 1;
    }
    var matched := false;
    var first := true;
    ghost var whole := ParseRanges(pattern, i, true);
    ghost var seen: seq<Range> := [];
    assert Prepend([], whole) == whole;
    while i < |pattern| && (pattern[i] != ']' || first)
      invariant i <= |pattern|
      invariant matched == InRanges(seen, c)
      invariant whole == Prepend(seen, ParseRanges(pattern, i, first))
    {
      ghost var range := Range(pattern[i], pattern[i]);
      if i + 2 < |pattern| && pattern[i + 1] == '-' && pattern[i + 2] != ']' {
        range := Range(pattern[i], pattern[i + 2]);
        if pattern[i] <= c <= pattern[i + 2] {
          matched := true;
        }
        i := i + 3;
      } else {
        if pattern[i] == c {
          matched := true;
        }
        i := i + 1;
      }
      first := false;
      InRangesSnoc(seen, range, c);
      PrependSnoc(seen, range, ParseRanges(pattern, i, false));
      seen := seen + [range];
    }
    if i >= |pattern| || pattern[i] != ']' {
      return 0, false;
    }
    assert seen + [] == seen;
    return i + 1, matched != negate;
  }

  // ----- the matcher -----

  /** Wherever the pattern from `q` matches at or after `from`, the pattern from `p` matches
      `used` characters further on. */
  ghost predicate RestartsReach(pattern: string, q: nat, name: string, from: nat, p: nat, used: nat)
    requires q <= |pattern| && p <= |pattern|
  {
    forall k :: from <= k <= |name| && At(pattern, q, name, k) ==>
      k + used <= |name| && At(pattern, p, name, k + used)
  }

  /** The state of the search: the pattern and name positions and the last star met. */
  datatype Search = Search(p: nat, n: nat, hasStar: bool, starP: nat, starN: nat)

  predicate InBounds(pattern: string, name: string, s: Search) {
    && s.p <= |pattern| && s.n <= |name|
    && (s.hasStar ==> s.starP < s.p && s.starN <= s.n)
  }

  /** The answer a search state leads to: the attempt under way succeeds or a later restart
      of the last star does. */
  predicate Answer(pattern: string, name: string, s: Search)
    requires InBounds(pattern, name, s)
  {
    || At(pattern, s.p, name, s.n)
    || (s.hasStar && s.starN < |name| && AtOrAfter(pattern, s.starP + 1, name, s.starN + 1))
  }

  /** A later restart has to use as many characters to get to the current pattern position. */
  ghost predicate Fair(pattern: string, name: string, s: Search)
    requires InBounds(pattern, name, s)
  {
    s.hasStar ==> RestartsReach(pattern, s.starP + 1, name, s.starN, s.p, s.n - s.starN)
  }

  /** Meeting a new star makes the old backtrack point redundant: whatever a later restart of
      the old star can match, the new star matches from here. */
  lemma NewStar(pattern: string, name: string, s: Search)
    requires InBounds(pattern, name, s) && Fair(pattern, name, s)
    requires s.p < |pattern| && pattern[s.p] == '*'
    ensures var s' := Search(s.p + 1, s.n, true, s.p, s.n);
            Fair(pattern, name, s') && Answer(pattern, name, s') == Answer(pattern, name, s)
  {
    if s.hasStar && s.starN < |name| && AtOrAfter(pattern, s.starP + 1, name, s.starN + 1) {
      var k := AtOrAfterFinds(pattern, s.starP + 1, name, s.starN + 1);
      var j := AtOrAfterFinds(pattern, s.p + 1, name, k + (s.n - s.starN));
      AtOrAfterFrom(pattern, s.p + 1, name, s.n, j);
    }
    var s' := Search(s.p + 1, s.n, true, s.p, s.n);
    assert At(pattern, s.p, name, s.n) == AtOrAfter(pattern, s.p + 1, name, s.n) == Answer(pattern, name, s');
  }

  /** One accepted character moves every attempt forward together. */
  lemma OneCharacter(pattern: string, name: string, s: Search)
    requires InBounds(pattern, name, s) && Fair(pattern, name, s)
    requires s.p < |pattern| && pattern[s.p] != '*' && s.n < |name|
    requires Accepts(TokenAt(pattern, s.p).0, name[s.n])
    ensures var s' := s.(p := TokenAt(pattern, s.p).1, n := s.n + 1);
            Fair(pattern, name, s') && Answer(pattern, name, s') == Answer(pattern, name, s)
  {}

  /** A failed attempt restarts the star one character later. */
  lemma Backtrack(pattern: string, name: string, s: Search)
    requires InBounds(pattern, name, s)
    requires s.hasStar && s.n < |name| && !At(pattern, s.p, name, s.n)
    ensures var s' := Search(s.starP + 1, s.starN + 1, true, s.starP, s.starN + 1);
            Fair(pattern, name, s') && Answer(pattern, name, s') == Answer(pattern, name, s)
  {}

  /** Once the name is used up no later restart can reach this far. */
  lemma NameUsedUp(pattern: string, name: string, s: Search)
    requires InBounds(pattern, name, s) && Fair(pattern, name, s) && s.n == |name|
    ensures Answer(pattern, name, s) == At(pattern, s.p, name, |name|)
  {
    if s.hasStar && s.starN < |name| && AtOrAfter(pattern, s.starP + 1, name, s.starN + 1) {
      var k := AtOrAfterFinds(pattern, s.starP + 1, name, s.starN + 1);
    }
  }

  /** The switch on the pattern character, other than a star, against the name character `c`. */
  method MatchToken(pattern: string, p: nat, c: char) returns (next: nat, ok: bool)
    requires p <= |pattern|
    requires p < |pattern| ==> pattern[p] != '*'
    ensures ok <==> p < |pattern| && Accepts(TokenAt(pattern, p).0, c)
    ensures ok ==> next == TokenAt(pattern, p).1
  {
    if p == |pattern| {
      return p, false;
    }
    if pattern[p] == '?' {
      return p + 1, true;
    } else if pattern[p] == '[' {
      next, ok := MatchClass(pattern, p, c);
    } else {
      return p + 1, pattern[p] == c;
    }
  }

  lemma LoneStar(name: string)
    ensures Matches("*", name)
  {
    AtOrAfterFrom("*", 1, name, 0, |name|);
  }

  lemma Stuck(pattern: string, p: nat, name: string, n: nat)
    requires p <= |pattern| && n < |name| && (p < |pattern| ==> pattern[p] != '*')
    requires !(p < |pattern| && Accepts(TokenAt(pattern, p).0, name[n]))
    ensures !At(pattern, p, name, n)
  {}

  /** Whether only stars are left. */
  method OnlyStars(pattern: string, from: nat, ghost name: string) returns (b: bool)
    requires from <= |pattern|
    ensures b == At(pattern, from, name, |name|)
  {
    var p := from;
    while p < |pattern| && pattern[p] == '*'
      invariant p <= |pattern|
      invariant At(pattern, from, name, |name|) == At(pattern, p, name, |name|)
    {
      p := p + 1;
    }
    return p == |pattern|;
  }

  /** The iterative matcher with one backtrack point. By MeaningIsMatches its answer is whether
      some assignment of substrings to the stars spells the name. */
  method MatchSegment(pattern: string, name: string) returns (b: bool)
    ensures b == Matches(pattern, name)
  {
    hide At, AtOrAfter, RestartsReach, TokenAt, Accepts;
    if pattern == "*" {
      LoneStar(name);
      return true;
    }
    var p: nat, n: nat := 0, 0;
    var starP: nat, starN: nat := 0, 0;
    var hasStarBacktrack := false;
    while n < |name|
      invariant InBounds(pattern, name, Search(p, n, hasStarBacktrack, starP, starN))
      invariant Fair(pattern, name, Search(p, n, hasStarBacktrack, starP, starN))
      invariant Matches(pattern, name) == Answer(pattern, name, Search(p, n, hasStarBacktrack, starP, starN))
      decreases !hasStarBacktrack, |pattern| - starP, |name| - starN, |name| - n, |pattern| - p
    {
      ghost var s := Search(p, n, hasStarBacktrack, starP, starN);
      if p < |pattern| && pattern[p] == '*' {
        NewStar(pattern, name, s);
        starP, starN, hasStarBacktrack := p, n, true;
        p := p + 1;
        continue;
      }
      var next, ok := MatchToken(pattern, p, name[n]);
      if ok {
        OneCharacter(pattern, name, s);
        p, n := next, n + 1;
        continue;
      }
      Stuck(pattern, p, name, n);
      if hasStarBacktrack {
        Backtrack(pattern, name, s);
        starN := starN + 1;
        p, n := starP + 1, starN;
        continue;
      }
      return false;
    }
    NameUsedUp(pattern, name, Search(p, n, hasStarBacktrack, starP, starN));
    b := OnlyStars(pattern, p, name);
  }
}
