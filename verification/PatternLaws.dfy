/** What rules say of paths: with `**` and without, in the words of the kinds of rule that people write. */
module PatternLaws {
  import opened Wrappers
  import opened Strings
  import opened Sequences
  import opened Patterns = Pattern
  import Glob
  import opened GlobLaws

  // ----- segments -----

  /** One piece of the path for each segment: any piece for `**`, one matching name for another segment. */
  predicate Aligns(pat: seq<string>, pieces: seq<seq<string>>) {
    && |pieces| == |pat|
    && forall i :: 0 <= i < |pat| ==> pat[i] == "**" || (|pieces[i]| == 1 && Glob.Matches(pat[i], pieces[i][0]))
  }

  ghost predicate Spells(pat: seq<string>, path: seq<string>) {
    exists pieces :: Aligns(pat, pieces) && Concat(pieces) == path
  }

  lemma {:induction false} SegHasPieces(pat: seq<string>, path: seq<string>) returns (pieces: seq<seq<string>>)
    requires SegMatch(pat, path)
    ensures Aligns(pat, pieces) && Concat(pieces) == path
    decreases |pat|
  {
    pieces := [];
    if pat != [] {
      var k := 1;
      if pat[0] == "**" {
        SomeSuffixMeans(pat[1..], path);
        k :| 0 <= k <= |path| && SegMatch(pat[1..], path[k..]);
      }
      var rest := SegHasPieces(pat[1..], path[k..]);
      pieces := [path[..k]] + rest;
      assert pieces[1..] == rest && path[..k] + path[k..] == path;
      AlignsCons(pat, path[..k], rest);
    }
  }

  lemma AlignsCons(pat: seq<string>, first: seq<string>, rest: seq<seq<string>>)
    requires pat != []
    ensures Aligns(pat, [first] + rest) <==>
              Aligns(pat[1..], rest) && (pat[0] == "**" || (|first| == 1 && Glob.Matches(pat[0], first[0])))
  {
    hide Glob.Matches;
    var pieces := [first] + rest;
    if Aligns(pat[1..], rest) {
      assert forall i :: 0 < i < |pat| ==> pat[i] == pat[1..][i - 1] && pieces[i] == rest[i - 1];
    }
    if Aligns(pat, pieces) {
      assert forall i :: 0 <= i < |rest| ==> rest[i] == pieces[i + 1] && pat[1..][i] == pat[i + 1];
    }
  }

  lemma {:induction false} PiecesAreSeg(pat: seq<string>, path: seq<string>, pieces: seq<seq<string>>)
    requires Aligns(pat, pieces) && Concat(pieces) == path
    ensures SegMatch(pat, path)
    decreases |pat|
  {
    hide Glob.Matches;
    if pat != [] {
      assert pieces == [pieces[0]] + pieces[1..];
      AlignsCons(pat, pieces[0], pieces[1..]);
      var k := |pieces[0]|;
      assert path[..k] == pieces[0] && path[k..] == Concat(pieces[1..]);
      PiecesAreSeg(pat[1..], path[k..], pieces[1..]);
      SomeSuffixMeans(pat[1..], path);
    }
  }

  /** A list of segments matches a path exactly when the path is cut into one piece for each. */
  lemma SegMatchMeans(pat: seq<string>, path: seq<string>)
    ensures SegMatch(pat, path) <==> Spells(pat, path)
  {
    if SegMatch(pat, path) {
      var pieces := SegHasPieces(pat, path);
    }
    if Spells(pat, path) {
      var pieces :| Aligns(pat, pieces) && Concat(pieces) == path;
      PiecesAreSeg(pat, path, pieces);
    }
  }

  predicate NoDoubleStar(pat: seq<string>) {
    forall i :: 0 <= i < |pat| ==> pat[i] != "**"
  }

  /** Without `**` it is name by name. */
  lemma {:induction false} NameByName(pat: seq<string>, path: seq<string>)
    requires NoDoubleStar(pat)
    ensures SegMatch(pat, path) <==> |pat| == |path| && forall i :: 0 <= i < |pat| ==> Glob.Matches(pat[i], path[i])
    decreases |pat|
  {
    hide Glob.Matches;
    if pat != [] && path != [] {
      NameByName(pat[1..], path[1..]);
      if |pat| == |path| {
        assert forall i :: 0 < i < |pat| ==> pat[i] == pat[1..][i - 1] && path[i] == path[1..][i - 1];
      }
    }
  }

  // ----- rules -----

  /** A rule for directories never holds of a file, though it may hit it by a directory above. */
  lemma DirRuleSparesFiles(p: Pattern, path: seq<string>)
    requires p.dirOnly
    ensures !Holds(p, path, false)
    ensures Holds(p, path, true) <==> Holds(p.(dirOnly := false), path, true)
  {
    hide SegMatch;
  }

  /** An anchored rule speaks of the whole path, any other of what follows some directory of it. */
  lemma HoldsExactly(p: Pattern, path: seq<string>, isDir: bool)
    ensures Holds(p, path, isDir) <==>
              && (p.dirOnly ==> isDir)
              && if p.anchored then Spells(p.segments, path)
                 else exists i :: 0 <= i < |path| && Spells(p.segments, path[i..])
  {
    hide SegMatch, Spells;
    SegMatchMeans(p.segments, path);
    forall i | 0 <= i < |path| ensures SegMatch(p.segments, path[i..]) <==> Spells(p.segments, path[i..]) {
      SegMatchMeans(p.segments, path[i..]);
    }
  }

  /** A rule that is a name speaks of entries by their own name, wherever they are. */
  lemma NameRule(p: Pattern, path: seq<string>, isDir: bool)
    requires !p.anchored && |p.segments| == 1 && p.segments[0] != "**"
    ensures Holds(p, path, isDir) <==>
              (p.dirOnly ==> isDir) && path != [] && Glob.Matches(p.segments[0], path[|path| - 1])
  {
    hide SegMatch, Glob.Matches;
    forall i | 0 <= i < |path|
      ensures SegMatch(p.segments, path[i..]) <==> i == |path| - 1 && Glob.Matches(p.segments[0], path[i])
    {
      NameByName(p.segments, path[i..]);
    }
    if path != [] && Glob.Matches(p.segments[0], path[|path| - 1]) {
      assert SegMatch(p.segments, path[|path| - 1..]);
    }
  }

  // ----- rules as they are written -----

  /** A word without special characters. */
  predicate Word(w: string) {
    && w != "" && AllPlain(w) && '/' !in w && '\\' !in w && w[0] != '!' && w[0] != '#'
    && !IsSpace(w[0]) && !IsSpace(w[|w| - 1])
  }

  lemma Written(raw: string, p: Pattern)
    requires raw != "" && raw[0] != '#' && !IsSpace(raw[0]) && !IsSpace(raw[|raw| - 1]) && '\\' !in raw
    requires Says(p, raw)
    ensures ParsePattern(raw) == Some(p)
  {
    hide TrimSpace, ReplaceAll, Says, ParsePattern;
    ParsedExactly(raw, p);
  }

  /** `word/` holds of the directories of that name at any depth, and of nothing else. */
  lemma DirectoryRule(w: string, path: seq<string>, isDir: bool)
    requires Word(w)
    ensures var p := ParsePattern(w + "/");
            p == Some(Pattern([w], false, true, false))
            && (Holds(p.value, path, isDir) <==> isDir && path != [] && path[|path| - 1] == w)
  {
    hide ParsePattern, Holds;
    var p := Pattern([w], false, true, false);
    assert Says(p, w + "/");
    Written(w + "/", p);
    NameRule(p, path, isDir);
    if path != [] {
      PlainPattern(w, path[|path| - 1]);
    }
  }

  /** `*ending` holds of the entries whose name ends so, at any depth. */
  lemma EndingRule(w: string, path: seq<string>, isDir: bool)
    requires Word(w)
    ensures var p := ParsePattern("*" + w);
            p == Some(Pattern(["*" + w], false, false, false))
            && (Holds(p.value, path, isDir) <==>
                  path != [] && var name := path[|path| - 1]; |w| <= |name| && name[|name| - |w|..] == w)
  {
    hide ParsePattern, Holds;
    var p := Pattern(["*" + w], false, false, false);
    assert ("*" + w)[1] == w[0];
    assert Says(p, "*" + w);
    Written("*" + w, p);
    NameRule(p, path, isDir);
    if path != [] {
      EndingPattern(w, path[|path| - 1]);
    }
  }

  /** `/word` holds of the entry of that name directly below the root. */
  lemma RootRule(w: string, path: seq<string>, isDir: bool)
    requires Word(w)
    ensures var p := ParsePattern("/" + w);
            p == Some(Pattern([w], false, false, true)) && (Holds(p.value, path, isDir) <==> path == [w])
  {
    hide ParsePattern;
    var p := Pattern([w], false, false, true);
    assert Says(p, "/" + w);
    Written("/" + w, p);
    hide SegMatch;
    NameByName([w], path);
    if |path| == 1 {
      PlainPattern(w, path[0]);
    }
  }

  /** `/word/` holds of the directory of that name directly below the root. */
  lemma RootDirectoryRule(w: string, path: seq<string>, isDir: bool)
    requires Word(w)
    ensures var p := ParsePattern("/" + w + "/");
            p == Some(Pattern([w], false, true, true)) && (Holds(p.value, path, isDir) <==> isDir && path == [w])
  {
    hide ParsePattern;
    var p := Pattern([w], false, true, true);
    assert Says(p, "/" + w + "/");
    Written("/" + w + "/", p);
    hide SegMatch;
    NameByName([w], path);
    if |path| == 1 {
      PlainPattern(w, path[0]);
    }
  }

  /** A slash, a star and an ending hold of the entries directly below the root whose name ends so. */
  lemma RootEndingRule(w: string, path: seq<string>, isDir: bool)
    requires Word(w)
    ensures var p := ParsePattern("/*" + w);
            p == Some(Pattern(["*" + w], false, false, true))
            && (Holds(p.value, path, isDir) <==> |path| == 1 && |w| <= |path[0]| && path[0][|path[0]| - |w|..] == w)
  {
    hide ParsePattern;
    var p := Pattern(["*" + w], false, false, true);
    assert "/*" + w == "/" + ("*" + w) && ("*" + w)[1] == w[0];
    assert Says(p, "/" + ("*" + w));
    Written("/" + ("*" + w), p);
    hide SegMatch, Glob.Matches;
    NameByName(["*" + w], path);
    if |path| == 1 {
      EndingPattern(w, path[0]);
    }
  }

  /** `!rule` is the rule, negated. */
  lemma NegatedRule(w: string)
    requires Word(w)
    ensures ParsePattern("!" + w) == Some(Pattern([w], true, false, false))
  {
    hide ParsePattern;
    var p := Pattern([w], true, false, false);
    assert Says(p, "!" + w);
    Written("!" + w, p);
  }
}
