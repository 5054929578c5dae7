/** Ignore patterns over whole paths: `**` spans zero or more segments, a leading or interior
    slash anchors a pattern to the backup root, a trailing slash restricts it to directories.
    A path is the list of its segments; Split turns the slash-separated form into it. */
module Pattern {
  import opened Wrappers
  import opened Strings
  import Glob

  datatype Pattern = Pattern(segments: seq<string>, negate: bool, dirOnly: bool, anchored: bool)

  /** A rule line without its negation mark, its trailing slash and its leading slash. */
  datatype Line = Line(text: string, negate: bool, dirOnly: bool, anchored: bool)

  function ParseLine(line: string): Line {
    var negate := line != "" && line[0] == '!';
    ParseSlashes(negate, ReplaceAll(if negate then line[1..] else line, '\\', '/'))
  }

  /** The slashes at the ends, after the negation mark. */
  function ParseSlashes(negate: bool, l0: string): (l: Line)
    ensures l.negate == negate
  {
    var dirOnly := l0 != "" && l0[|l0| - 1] == '/';
    var l1 := if dirOnly then l0[..|l0| - 1] else l0;
    var rooted := l1 != "" && l1[0] == '/';
    Line(if rooted then l1[1..] else l1, negate, dirOnly, rooted || '/' in l1)
  }

  /** Blank lines and comments compile to nothing. */
  function ParsePattern(raw: string): (r: Option<Pattern>)
    ensures r.Some? ==> r.value.segments != []
    ensures r.Some? && !r.value.anchored ==>
      |r.value.segments| == 1 && r.value.segments[0] != "" && '/' !in r.value.segments[0]
  {
    var line := TrimSpace(raw);
    if line == "" || line[0] == '#' then None else
    var l := ParseLine(line);
    if l.text == "" then None else
    Some(Pattern(Split(l.text, '/'), l.negate, l.dirOnly, l.anchored))
  }

  // ----- what a rule text says -----

  function Slashed(l: Line, rooted: bool): string {
    var l1 := if rooted then "/" + l.text else l.text;
    if l.dirOnly then l1 + "/" else l1
  }

  function Shown(l: Line, rooted: bool): string {
    if l.negate then "!" + Slashed(l, rooted) else Slashed(l, rooted)
  }

  /** The slashes and the mark next to the text are all accounted for. */
  predicate IsLine(l: Line, rooted: bool) {
    && l.text != ""
    && (l.anchored <==> rooted || '/' in l.text)
    && (!rooted ==> l.text[0] != '/')
    && (!l.dirOnly ==> l.text[|l.text| - 1] != '/')
    && (!l.negate && !rooted ==> l.text[0] != '!')
  }

  lemma MarkStays(line: string)
    requires line != ""
    ensures var all := ReplaceAll(line, '\\', '/');
            all != "" && (all[0] == '!' <==> line[0] == '!') && all[1..] == ReplaceAll(line[1..], '\\', '/')
  {}

  lemma SlashesAreShown(negate: bool, l0: string)
    requires ParseSlashes(negate, l0).text != "" && (!negate ==> l0[..1] != "!")
    ensures var l := ParseSlashes(negate, l0);
            (IsLine(l, false) && l0 == Slashed(l, false)) || (IsLine(l, true) && l0 == Slashed(l, true))
  {
    var l := ParseSlashes(negate, l0);
    var l1 := if l.dirOnly then l0[..|l0| - 1] else l0;
    var rooted := l1[0] == '/';
    assert l.dirOnly ==> l0 == l1 + "/";
    assert rooted ==> l1 == "/" + l.text;
    assert l1[|l1| - 1] == l.text[|l.text| - 1];
    assert !negate && !rooted ==> l0[..1] == [l.text[0]];
    assert l0 == Slashed(l, rooted);
  }

  lemma ShownSlashes(l: Line, rooted: bool)
    requires IsLine(l, rooted)
    ensures ParseSlashes(l.negate, Slashed(l, rooted)) == l
    ensures Slashed(l, rooted) != "" && (!l.negate ==> Slashed(l, rooted)[0] != '!')
  {
    var l1 := if rooted then "/" + l.text else l.text;
    var l0 := Slashed(l, rooted);
    assert l1[|l1| - 1] == l.text[|l.text| - 1];
    assert l.dirOnly ==> l0[..|l0| - 1] == l1;
    assert rooted ==> l1[1..] == l.text;
  }

  lemma LineIsShown(line: string)
    requires line != "" && ParseLine(line).text != ""
    ensures var l, all := ParseLine(line), ReplaceAll(line, '\\', '/');
            (IsLine(l, false) && all == Shown(l, false)) || (IsLine(l, true) && all == Shown(l, true))
  {
    hide ReplaceAll, ParseSlashes, IsLine, Slashed;
    var all := ReplaceAll(line, '\\', '/');
    MarkStays(line);
    if line[0] == '!' {
      SlashesAreShown(true, all[1..]);
      assert all == "!" + all[1..];
    } else {
      SlashesAreShown(false, all);
    }
  }

  lemma ShownIsLine(line: string, l: Line, rooted: bool)
    requires line != "" && IsLine(l, rooted) && ReplaceAll(line, '\\', '/') == Shown(l, rooted)
    ensures ParseLine(line) == l
  {
    hide ReplaceAll, ParseSlashes, IsLine, Slashed;
    MarkStays(line);
    ShownSlashes(l, rooted);
    assert l.negate ==> Shown(l, rooted)[1..] == Slashed(l, rooted);
  }

  /** A rule that begins with a slash, apart from its negation mark, is rooted. */
  function Text(p: Pattern, rooted: bool): string {
    Shown(Line(Join(p.segments, '/'), p.negate, p.dirOnly, p.anchored), rooted)
  }

  /** What a compiled rule can be: several segments or a leading slash anchor it; only such slashes
      leave an empty segment at the front, and only a trailing slash besides the mark of a directory
      rule leaves one at the end. */
  predicate IsRule(p: Pattern, rooted: bool) {
    && p.segments != [] && p.segments != [""]
    && (forall s :: s in p.segments ==> '/' !in s)
    && (p.anchored <==> rooted || |p.segments| > 1)
    && (!rooted ==> p.segments[0] != "")
    && (!p.dirOnly ==> p.segments[|p.segments| - 1] != "")
    && (!p.negate && !rooted ==> p.segments[0][0] != '!')
  }

  predicate Says(p: Pattern, text: string) {
    || (IsRule(p, false) && text == Text(p, false))
    || (IsRule(p, true) && text == Text(p, true))
  }

  /** A rule is the one written by its text, with backslashes read as slashes: each part of the rule
      is in the text, and nothing else is. Blank lines, comments and bare marks and slashes are no rules. */
  lemma ParsedExactly(raw: string, p: Pattern)
    ensures ParsePattern(raw) == Some(p) <==>
            var line := TrimSpace(raw);
            line != "" && line[0] != '#' && Says(p, ReplaceAll(line, '\\', '/'))
  {
    hide TrimSpace, ReplaceAll, ParseLine, Split, Join, Shown, IsLine, IsRule;
    var line := TrimSpace(raw);
    var all := ReplaceAll(line, '\\', '/');
    if ParsePattern(raw) == Some(p) {
      LineIsShown(line);
      JoinSplit(ParseLine(line).text, '/');
      LineIsRule(p, false);
      LineIsRule(p, true);
    } else {
      if line != "" && IsRule(p, false) && all == Text(p, false) {
        RuleIsLine(p, false);
        ShownIsLine(line, Line(Join(p.segments, '/'), p.negate, p.dirOnly, p.anchored), false);
      }
      if line != "" && IsRule(p, true) && all == Text(p, true) {
        RuleIsLine(p, true);
        ShownIsLine(line, Line(Join(p.segments, '/'), p.negate, p.dirOnly, p.anchored), true);
      }
    }
  }

  lemma {:induction false} SplitEnds(s: string)
    requires s != ""
    ensures var parts := Split(s, '/');
            && (parts[0] == "" <==> s[0] == '/') && (parts[0] != "" ==> parts[0][0] == s[0])
            && (parts[|parts| - 1] == "" <==> s[|s| - 1] == '/') && (|parts| > 1 <==> '/' in s)
    decreases |s|
  {
    if '/' in s {
      SplitAtFirst(s, '/');
      var rest := s[Find(s, '/') + 1..];
      if rest != "" {
        SplitEnds(rest);
      }
    }
  }

  lemma LineIsRule(p: Pattern, rooted: bool)
    requires p.segments == Split(Join(p.segments, '/'), '/') && Join(p.segments, '/') != ""
    ensures IsLine(Line(Join(p.segments, '/'), p.negate, p.dirOnly, p.anchored), rooted) ==> IsRule(p, rooted)
  {
    hide Split, Find;
    SplitEnds(Join(p.segments, '/'));
  }

  lemma RuleIsLine(p: Pattern, rooted: bool)
    requires IsRule(p, rooted)
    ensures p.segments == Split(Join(p.segments, '/'), '/') && Join(p.segments, '/') != ""
    ensures IsLine(Line(Join(p.segments, '/'), p.negate, p.dirOnly, p.anchored), rooted)
  {
    hide Split, Find;
    SplitJoin(p.segments, '/');
    var text := Join(p.segments, '/');
    assert text != "" by {
      if |p.segments| > 1 {
        assert '/' in text;
      }
    }
    SplitEnds(text);
  }

  // ----- the meaning of a segment list -----

  predicate SegMatch(pat: seq<string>, path: seq<string>)
    decreases |pat|, 0, 0
  {
    if pat == [] then path == []
    else if pat[0] == "**" then SomeSuffix(pat[1..], path)
    else path != [] && Glob.Matches(pat[0], path[0]) && SegMatch(pat[1..], path[1..])
  }

  /** The segment list matches what is left of the path after dropping zero or more segments. */
  predicate SomeSuffix(pat: seq<string>, path: seq<string>)
    decreases |pat|, 1, |path|
  {
    SegMatch(pat, path) || (path != [] && SomeSuffix(pat, path[1..]))
  }

  lemma {:induction false} SomeSuffixMeans(pat: seq<string>, path: seq<string>)
    ensures SomeSuffix(pat, path) <==> exists i :: 0 <= i <= |path| && SegMatch(pat, path[i..])
    decreases |path|
  {
    assert path[0..] == path;
    if path != [] {
      SomeSuffixMeans(pat, path[1..]);
      assert forall i :: 0 <= i < |path| ==> path[1..][i..] == path[i + 1..];
      if j :| 0 <= j <= |path| && SegMatch(pat, path[j..]) && j > 0 {
        assert path[1..][j - 1..] == path[j..];
      }
    }
  }

  /** `**` directly followed by `**` says no more than one of them. */
  lemma {:induction false} DoubleStarCollapses(pat: seq<string>, path: seq<string>)
    requires |pat| > 1 && pat[0] == "**" && pat[1] == "**"
    ensures SegMatch(pat, path) <==> SegMatch(pat[1..], path)
    decreases |path|
  {
    if path != [] {
      DoubleStarCollapses(pat, path[1..]);
    }
  }

  lemma {:induction false} LoneDoubleStar(path: seq<string>)
    ensures SegMatch(["**"], path)
  {
    if path != [] {
      LoneDoubleStar(path[1..]);
    }
  }

  lemma {:induction false} MatchesNothingMatchesAll(pat: seq<string>, path: seq<string>)
    requires pat != [] && SegMatch(pat, [])
    ensures SegMatch(pat, path)
    decreases |pat|
  {
    if |pat| == 1 {
      assert pat == ["**"];
      LoneDoubleStar(path);
    } else {
      MatchesNothingMatchesAll(pat[1..], path);
    }
  }

  /** Matching from some depth of the path, which is what an unanchored pattern does. */
  predicate AtSomeDepth(pat: seq<string>, path: seq<string>) {
    exists i :: 0 <= i < |path| && SegMatch(pat, path[i..])
  }

  /** An unanchored pattern matches exactly when the same pattern behind a leading `**` does. */
  lemma UnanchoredIsDoubleStar(pat: seq<string>, path: seq<string>)
    requires pat != [] && path != []
    ensures AtSomeDepth(pat, path) <==> SegMatch(["**"] + pat, path)
  {
    assert (["**"] + pat)[1..] == pat;
    SomeSuffixMeans(pat, path);
    if SegMatch(["**"] + pat, path) {
      var i :| 0 <= i <= |path| && SegMatch(pat, path[i..]);
      if i == |path| {
        assert path[i..] == [] && path[0..] == path;
        MatchesNothingMatchesAll(pat, path);
      }
    }
  }

  // ----- the segment matcher -----

  method MatchSegments(pattern: seq<string>, segments: seq<string>) returns (b: bool)
    ensures b == SegMatch(pattern, segments)
    decreases |pattern|
  {
    var pat, path := pattern, segments;
    while |pat| > 0
      invariant |pat| <= |pattern|
      invariant SegMatch(pattern, segments) == SegMatch(pat, path)
    {
      if pat[0] == "**" {
        while |pat| > 1 && pat[1] == "**"
          invariant 0 < |pat| <= |pattern| && pat[0] == "**"
          invariant SegMatch(pattern, segments) == SegMatch(pat, path)
        {
          DoubleStarCollapses(pat, path);
          pat := pat[1..];
        }
        if |pat| == 1 {
          assert pat == ["**"];
          LoneDoubleStar(path);
          return true;
        }
        SomeSuffixMeans(pat[1..], path);
        for i := 0 to |path| + 1
          invariant forall j :: 0 <= j < i ==> !SegMatch(pat[1..], path[j..])
        {
          var found := MatchSegments(pat[1..], path[i..]);
          if found {
            return true;
          }
        }
        return false;
      }
      if |path| == 0 {
        return false;
      }
      var ok := Glob.MatchSegment(pat[0], path[0]);
      if !ok {
        return false;
      }
      pat, path := pat[1..], path[1..];
    }
    return |path| == 0;
  }

  /** What a pattern says of the entry at `path`. */
  predicate Holds(p: Pattern, path: seq<string>, isDir: bool) {
    && (p.dirOnly ==> isDir)
    && if p.anchored then SegMatch(p.segments, path) else AtSomeDepth(p.segments, path)
  }

  method Match(p: Pattern, path: seq<string>, isDir: bool) returns (b: bool)
    requires path != []
    ensures b == Holds(p, path, isDir)
  {
    if |p.segments| == 0 {
      return false;
    }
    if p.dirOnly && !isDir {
      return false;
    }
    if p.anchored {
      b := MatchSegments(p.segments, path);
      return;
    }
    for i := 0 to |path|
      invariant forall j :: 0 <= j < i ==> !SegMatch(p.segments, path[j..])
    {
      var found := MatchSegments(p.segments, path[i..]);
      if found {
        return true;
      }
    }
    return false;
  }

  // ----- rules that opt out of anchoring -----

  /** Puts `**` in front of a rule that an interior slash would anchor. */
  function AnyDepth(rule: string): string {
    var inner := TrimSlashes(rule);
    if '/' in rule && !("**/" <= rule) && !("/" <= rule) && inner != "" && '/' in inner then "**/" + rule else rule
  }

  /** Rule text as the built-in tables write it. */
  predicate PlainRule(rule: string) {
    && rule != "" && !IsSpace(rule[0]) && !IsSpace(rule[|rule| - 1])
    && rule[0] != '#' && rule[0] != '!' && '\\' !in rule
  }

  function Trailing(rule: string): bool {
    rule != "" && rule[|rule| - 1] == '/'
  }

  function Core(rule: string): string {
    if Trailing(rule) then rule[..|rule| - 1] else rule
  }

  lemma PlainParse(rule: string)
    requires PlainRule(rule) && rule[0] != '/' && '/' in Core(rule)
    ensures ParsePattern(rule) == Some(Pattern(Split(Core(rule), '/'), false, Trailing(rule), true))
  {
    hide TrimSpace, ParseLine, Split;
    PlainTrim(rule);
    PlainLine(rule);
  }

  lemma PlainTrim(rule: string)
    requires PlainRule(rule)
    ensures TrimSpace(rule) == rule
  {}

  lemma PlainLine(rule: string)
    requires rule != "" && '\\' !in rule && rule[0] != '!' && rule[0] != '/' && '/' in Core(rule)
    ensures ParseLine(rule) == Line(Core(rule), false, Trailing(rule), true)
  {
    hide ReplaceAll;
  }

  lemma WideIsPlain(rule: string)
    requires PlainRule(rule) && '/' in Core(rule)
    ensures var wide := "**/" + rule;
            && PlainRule(wide) && Trailing(wide) == Trailing(rule)
            && Core(wide) == "**" + ['/'] + Core(rule) && '/' in Core(wide)
  {
    var wide := "**/" + rule;
    assert Core(wide) == "**" + ['/'] + Core(rule);
    assert Core(wide)[2] == '/';
    assert '\\' !in wide;
  }

  /** A rewritten built-in rule has the segments of the rule as written behind a `**`. */
  lemma AnyDepthSegments(rule: string)
    requires PlainRule(rule) && AnyDepth(rule) != rule
    ensures ParsePattern(rule).Some? && ParsePattern(AnyDepth(rule)).Some?
    ensures var p, q := ParsePattern(rule).value, ParsePattern(AnyDepth(rule)).value;
            q.segments == ["**"] + p.segments && p.anchored && q.anchored && p.dirOnly == q.dirOnly
  {
    hide TrimSlashes, Find, Split, ParsePattern, ReplaceAll, PlainRule, Core, Trailing;
    InnerSlash(rule);
    PlainParse(rule);
    WideIsPlain(rule);
    PlainParse("**/" + rule);
    SplitCons("**", Core(rule), '/');
  }

  /** The slash that AnyDepth looks for is not the trailing one. */
  lemma InnerSlash(rule: string)
    requires AnyDepth(rule) != rule
    ensures rule != "" && rule[0] != '/'
    ensures '/' in Core(rule)
  {
    hide TrimSlashes, Core;
    NotRooted(rule);
    SlashBeforeTheEnd(rule, TrimSlashes(rule));
  }

  lemma NotRooted(rule: string)
    requires rule != "" && !("/" <= rule)
    ensures rule[0] != '/'
  {
    assert rule[0] == '/' ==> "/" <= rule;
  }

  lemma SlashBeforeTheEnd(rule: string, inner: string)
    requires rule != "" && inner <= rule && '/' in inner && inner[|inner| - 1] != '/'
    ensures '/' in Core(rule)
  {
    var k :| 0 <= k < |inner| && inner[k] == '/';
    assert k < |rule| - 1 && rule[k] == '/';
    assert rule[..|rule| - 1][k] == '/';
  }

  /** A rewritten built-in rule matches an entry exactly when the rule as written would match it
      seen from some directory above it, or from the root. */
  lemma AnyDepthMatchesAnywhere(rule: string, path: seq<string>, isDir: bool)
    requires PlainRule(rule) && AnyDepth(rule) != rule && path != []
    ensures ParsePattern(rule).Some? && ParsePattern(AnyDepth(rule)).Some?
    ensures Holds(ParsePattern(AnyDepth(rule)).value, path, isDir) <==>
            exists i :: 0 <= i < |path| && Holds(ParsePattern(rule).value, path[i..], isDir)
  {
    AnyDepthSegments(rule);
    hide ParsePattern, PlainRule, AnyDepth, SegMatch;
    var p := ParsePattern(rule).value;
    UnanchoredIsDoubleStar(p.segments, path);
    if p.dirOnly ==> isDir {
      assert forall i :: 0 <= i < |path| ==> (Holds(p, path[i..], isDir) <==> SegMatch(p.segments, path[i..]));
    }
  }
}
