/** What rule lists do to an entry, over the rules that hit it: which kind of rule decides, which rule of
    its kind, and what adding a rule changes. */
module IgnoreLaws {
  import opened Wrappers
  import opened Patterns = Pattern
  import opened IgnoreMatcher
  import opened PatternLaws

  // ----- hits -----

  /** A rule hits an entry when it holds of it, or when it hits the directory that holds the entry. */
  lemma HitsByParent(p: Pattern, dir: Path, name: string, isDir: bool)
    ensures Hits(p, dir + [name], isDir) <==> Holds(p, dir + [name], isDir) || Hits(p, dir, true)
    ensures !Hits(p, [], isDir)
  {
    hide Holds;
    var path := dir + [name];
    assert path[..|path|] == path && path[..|dir|] == dir;
    assert forall k :: 0 <= k <= |dir| ==> path[..k] == dir[..k];
    if Hits(p, path, isDir) {
      var k :| 0 < k <= |path| && Holds(p, path[..k], k < |path| || isDir);
      assert k <= |dir| ==> Holds(p, dir[..k], k < |dir| || true);
    }
    if Hits(p, dir, true) {
      var k :| 0 < k <= |dir| && Holds(p, dir[..k], k < |dir| || true);
      assert Holds(p, path[..k], k < |path| || isDir);
    }
    if Holds(p, path, isDir) {
      assert Holds(p, path[..|path|], |path| < |path| || isDir);
    }
  }

  /** What hits a directory hits everything below it. */
  lemma {:induction false} HitsBelow(p: Pattern, dir: Path, rest: Path, isDir: bool)
    requires Hits(p, dir, true) && rest != []
    ensures Hits(p, dir + rest, isDir)
    decreases |rest|
  {
    hide Hits;
    var last := rest[|rest| - 1];
    assert dir + rest == dir + rest[..|rest| - 1] + [last];
    if |rest| == 1 {
      assert dir + rest[..0] == dir;
    } else {
      HitsBelow(p, dir, rest[..|rest| - 1], true);
    }
    HitsByParent(p, dir + rest[..|rest| - 1], last, isDir);
  }

  predicate Entry(path: Path) {
    path != [] && path != ["."]
  }

  predicate NoneHits(rules: seq<Pattern>, path: Path, isDir: bool) {
    forall j :: 0 <= j < |rules| ==> !Hits(rules[j], path, isDir)
  }

  // ----- which rule decides -----

  /** An include that hits keeps the entry, whatever the other rules are. */
  lemma IncludesWin(r: Rules, t: Table, path: Path, isDir: bool, i: nat)
    requires i < |r.includes| && Hits(r.includes[i], path, isDir)
    ensures Verdict(r, t, path, isDir) == Keep
  {
    hide Hits;
  }

  /** Without one the last exclude that hits decides: a negated one keeps the entry, another skips it. */
  lemma LastExcludeDecides(r: Rules, t: Table, path: Path, isDir: bool, i: nat)
    requires Entry(path) && NoneHits(r.includes, path, isDir) && i < |r.excludes| && Hits(r.excludes[i], path, isDir)
    requires forall j :: i < j < |r.excludes| ==> !Hits(r.excludes[j], path, isDir)
    ensures Verdict(r, t, path, isDir) == if r.excludes[i].negate then Keep else Skip(Excluded(i))
  {
    hide Hits;
  }

  predicate UserSilent(r: Rules, path: Path, isDir: bool) {
    Entry(path) && NoneHits(r.includes, path, isDir) && NoneHits(r.excludes, path, isDir)
  }

  /** A name that begins with a dot, other than the two that stand for directories. */
  lemma HiddenExactly(name: string)
    ensures HiddenName(name) <==> |name| >= 2 && name[0] == '.' && name != ".."
  {
    assert "." <= name <==> name != "" && name[0] == '.';
  }

  /** When no rule of the user hits, hidden names come next, then the first built-in rule that hits. */
  lemma HiddenAndGlobalsDecide(r: Rules, t: Table, path: Path, isDir: bool)
    requires UserSilent(r, path, isDir)
    ensures var hidden := r.skipHidden && exists k :: 0 <= k < |path| && HiddenName(path[k]);
            && (hidden ==> Verdict(r, t, path, isDir) == Skip(Hidden))
            && (!hidden ==>
                  forall i :: 0 <= i < |r.globals| && Hits(r.globals[i], path, isDir)
                              && (forall j :: 0 <= j < i ==> !Hits(r.globals[j], path, isDir)) ==>
                    Verdict(r, t, path, isDir) == Skip(Global(i)))
  {
    hide Hits, HiddenName;
  }

  /** Nothing else than a project is left to speak. */
  predicate LeftAlone(r: Rules, path: Path, isDir: bool) {
    && UserSilent(r, path, isDir) && NoneHits(r.globals, path, isDir)
    && !(r.skipHidden && exists k :: 0 <= k < |path| && HiddenName(path[k]))
  }

  /** Outside of projects, and without developer rules, what no rule speaks about is kept. */
  lemma KeptByDefault(r: Rules, t: Table, path: Path, isDir: bool)
    requires LeftAlone(r, path, isDir) && (r.dev == [] || forall n :: 0 <= n < |path| ==> path[..n] !in t)
    ensures Verdict(r, t, path, isDir) == Keep
  {
    hide Hits, HiddenName;
  }

  /** The rule holds of the part of the path from the project down to depth `k`. */
  predicate HoldsAt(p: Pattern, root: nat, path: Path, isDir: bool, k: nat)
    requires root <= k <= |path|
  {
    Holds(p, path[root..k], k < |path| || isDir)
  }

  predicate SilentAt(rules: seq<Pattern>, root: nat, path: Path, isDir: bool, k: nat)
    requires root <= k <= |path|
  {
    forall j :: 0 <= j < |rules| ==> !HoldsAt(rules[j], root, path, isDir, k)
  }

  lemma {:induction false} ProjectDecides(rules: seq<Pattern>, dev: seq<Pattern>, root: nat, path: Path, isDir: bool,
                                          k: nat, n: nat)
    requires root <= k <= n <= |path|
    requires forall m :: k < m <= n ==> SilentAt(rules, root, path, isDir, m) && SilentAt(dev, root, path, isDir, m)
    ensures ProjectVerdict(rules, dev, root, path, isDir, n) == ProjectVerdict(rules, dev, root, path, isDir, k)
    decreases n
  {
    hide Holds;
    if k < n {
      assert SilentAt(rules, root, path, isDir, n) && SilentAt(dev, root, path, isDir, n);
      NothingHolds(rules, root, path, isDir, n);
      NothingHolds(dev, root, path, isDir, n);
      ProjectDecides(rules, dev, root, path, isDir, k, n - 1);
    }
  }

  lemma NothingHolds(rules: seq<Pattern>, root: nat, path: Path, isDir: bool, k: nat)
    requires root <= k <= |path| && SilentAt(rules, root, path, isDir, k)
    ensures FirstHolding(rules, path[root..k], k < |path| || isDir, 0).None?
  {
    hide Holds;
    var i := FirstHolding(rules, path[root..k], k < |path| || isDir, 0);
    assert i.Some? ==> HoldsAt(rules[i.value], root, path, isDir, k);
  }

  /** Inside projects the innermost one decides. Of its own rules and the developer rules the one counts
      that speaks of the entry itself, or failing that of the deepest directory above it inside the project;
      there the project's own rules come first, and of each list the first rule that holds. */
  lemma InnermostDecides(r: Rules, t: Table, path: Path, isDir: bool, n: nat, k: nat, i: nat)
    requires LeftAlone(r, path, isDir) && r.dev != [] && n < |path| && path[..n] in t && n < k <= |path|
    requires forall m :: n < m < |path| ==> path[..m] !in t
    requires forall m :: k < m <= |path| ==> SilentAt(t[path[..n]], n, path, isDir, m) && SilentAt(r.dev, n, path, isDir, m)
    ensures i < |t[path[..n]]| && HoldsAt(t[path[..n]][i], n, path, isDir, k)
            && (forall j :: 0 <= j < i ==> !HoldsAt(t[path[..n]][j], n, path, isDir, k)) ==>
              Verdict(r, t, path, isDir) == Skip(OfProject(i))
    ensures SilentAt(t[path[..n]], n, path, isDir, k) && i < |r.dev| && HoldsAt(r.dev[i], n, path, isDir, k)
            && (forall j :: 0 <= j < i ==> !HoldsAt(r.dev[j], n, path, isDir, k)) ==>
              Verdict(r, t, path, isDir) == Skip(Dev(i))
    ensures k == n + 1 && SilentAt(t[path[..n]], n, path, isDir, k) && SilentAt(r.dev, n, path, isDir, k) ==>
              Verdict(r, t, path, isDir) == Keep
  {
    hide Hits, HiddenName, Holds;
    var own := t[path[..n]];
    VerdictOfProject(r, t, path, isDir, n);
    ProjectDecides(own, r.dev, n, path, isDir, k, |path|);
    FirstIs(own, n, path, isDir, k, i);
    FirstIs(r.dev, n, path, isDir, k, i);
    if SilentAt(own, n, path, isDir, k) {
      NothingHolds(own, n, path, isDir, k);
    }
    if SilentAt(r.dev, n, path, isDir, k) {
      NothingHolds(r.dev, n, path, isDir, k);
    }
  }

  lemma FirstIs(rules: seq<Pattern>, root: nat, path: Path, isDir: bool, k: nat, i: nat)
    requires root <= k <= |path|
    ensures i < |rules| && HoldsAt(rules[i], root, path, isDir, k)
            && (forall j :: 0 <= j < i ==> !HoldsAt(rules[j], root, path, isDir, k)) ==>
              FirstHolding(rules, path[root..k], k < |path| || isDir, 0) == Some(i)
  {
    hide Holds;
    var f := FirstHolding(rules, path[root..k], k < |path| || isDir, 0);
    if f.Some? {
      assert HoldsAt(rules[f.value], root, path, isDir, k);
    }
  }

  lemma {:induction false} InnermostIs(t: Table, path: Path, n: nat, m: nat)
    requires n <= m <= |path| && path[..n] in t && forall j :: n < j <= m ==> path[..j] !in t
    ensures Innermost(t, path, m) == Some(n)
    decreases m
  {
    if n < m {
      InnermostIs(t, path, n, m - 1);
    }
  }

  lemma VerdictOfProject(r: Rules, t: Table, path: Path, isDir: bool, n: nat)
    requires LeftAlone(r, path, isDir) && r.dev != [] && n < |path| && path[..n] in t
    requires forall m :: n < m < |path| ==> path[..m] !in t
    ensures Verdict(r, t, path, isDir) == ProjectVerdict(t[path[..n]], r.dev, n, path, isDir, |path|)
  {
    hide Hits, HiddenName, ProjectVerdict;
    InnermostIs(t, path, n, |path| - 1);
  }

  // ----- what a project excludes -----

  /** The rule that the name of something to exclude is read as; an empty name is no rule. */
  predicate RuleFor(name: string, p: Pattern) {
    && name != ""
    && ParsePattern(if '*' in name || '?' in name || '[' in name then "/" + name else "/" + name + "/") == Some(p)
  }

  lemma {:induction false} CompiledExactly(excluded: seq<string>, p: Pattern)
    ensures p in Compiled(excluded) <==> exists name :: name in excluded && RuleFor(name, p)
    decreases |excluded|
  {
    hide ParsePattern;
    if excluded != [] {
      var before, last := excluded[..|excluded| - 1], excluded[|excluded| - 1];
      CompiledExactly(before, p);
      assert excluded == before + [last];
      assert p in Compiled(excluded) <==> p in Compiled(before) || RuleFor(last, p);
    }
  }

  predicate EndsWith(name: string, w: string) {
    |w| <= |name| && name[|name| - |w|..] == w
  }

  /** A name that a detector gives: a plain one, or one that starts with a star. */
  predicate Usual(name: string) {
    Word(name) || (|name| > 1 && name[0] == '*' && Word(name[1..]))
  }

  /** A plain name excludes the project's own directory of that name; a star and an ending exclude
      whatever ends so directly in the project. */
  predicate Excludes(name: string, path: Path, isDir: bool) {
    |path| == 1 && if |name| > 1 && name[0] == '*' then EndsWith(path[0], name[1..]) else isDir && path[0] == name
  }

  lemma UsualRule(name: string, path: Path, isDir: bool)
    requires Usual(name)
    ensures exists p :: RuleFor(name, p) && (Holds(p, path, isDir) <==> Excludes(name, path, isDir))
  {
    hide ParsePattern, Holds;
    if Word(name) {
      assert '*' !in name && '?' !in name && '[' !in name;
      RootDirectoryRule(name, path, isDir);
      assert RuleFor(name, ParsePattern("/" + name + "/").value);
    } else {
      var w := name[1..];
      assert name == "*" + w && "/" + name == "/*" + w && '*' in name;
      RootEndingRule(w, path, isDir);
      assert RuleFor(name, ParsePattern("/" + name).value);
    }
  }

  lemma OneRule(name: string, p: Pattern, q: Pattern)
    requires RuleFor(name, p) && RuleFor(name, q)
    ensures p == q
  {
    hide ParsePattern;
  }

  /** The rules of a project hold of what one of the names excludes, and of nothing else. */
  lemma ProjectRulesMean(excluded: seq<string>, path: Path, isDir: bool)
    requires forall name :: name in excluded ==> Usual(name)
    ensures (exists p :: p in Compiled(excluded) && Holds(p, path, isDir)) <==>
            (exists name :: name in excluded && Excludes(name, path, isDir))
  {
    hide Compiled, RuleFor, Holds, Usual, Excludes;
    if p :| p in Compiled(excluded) && Holds(p, path, isDir) {
      CompiledExactly(excluded, p);
      var name :| name in excluded && RuleFor(name, p);
      UsualRule(name, path, isDir);
      var q :| RuleFor(name, q) && (Holds(q, path, isDir) <==> Excludes(name, path, isDir));
      OneRule(name, p, q);
    }
    if name :| name in excluded && Excludes(name, path, isDir) {
      UsualRule(name, path, isDir);
      var q :| RuleFor(name, q) && (Holds(q, path, isDir) <==> Excludes(name, path, isDir));
      CompiledExactly(excluded, q);
    }
  }

  /** A file that is kept otherwise is skipped exactly when a size limit is set and it is larger. */
  lemma SizeDecides(r: Rules, t: Table, path: Path, size: nat)
    ensures Verdict(r, t, path, false).Skip? ==> FileVerdict(r, t, path, size) == Verdict(r, t, path, false)
    ensures Verdict(r, t, path, false).Keep? ==>
              FileVerdict(r, t, path, size) == if 0 < r.maxFileSize < size then Skip(TooLarge) else Keep
  {
    hide Verdict;
  }

  // ----- what adding a rule changes -----

  lemma LastHitSnoc(rules: seq<Pattern>, p: Pattern, path: Path, isDir: bool)
    ensures LastHit(rules + [p], path, isDir, |rules| + 1)
         == if Hits(p, path, isDir) then Some(|rules|) else LastHit(rules, path, isDir, |rules|)
  {
    hide Hits;
    SameHits(rules, p, path, isDir, |rules|);
  }

  lemma {:induction false} SameHits(rules: seq<Pattern>, p: Pattern, path: Path, isDir: bool, n: nat)
    requires n <= |rules|
    ensures LastHit(rules + [p], path, isDir, n) == LastHit(rules, path, isDir, n)
  {
    hide Hits;
    if n > 0 {
      SameHits(rules, p, path, isDir, n - 1);
    }
  }

  /** One more exclude at the end: a negated one that hits keeps the entry; a plain one that hits skips it,
      unless an include hits; one that does not hit changes nothing. */
  lemma OneMoreExclude(r: Rules, t: Table, path: Path, isDir: bool, p: Pattern)
    requires Entry(path)
    ensures var more := r.(excludes := r.excludes + [p]);
            && (Hits(p, path, isDir) && p.negate ==> Verdict(more, t, path, isDir) == Keep)
            && (Hits(p, path, isDir) && !p.negate ==>
                  Verdict(more, t, path, isDir)
                  == if NoneHits(r.includes, path, isDir) then Skip(Excluded(|r.excludes|)) else Keep)
            && (!Hits(p, path, isDir) ==> Verdict(more, t, path, isDir) == Verdict(r, t, path, isDir))
  {
    hide Hits, HiddenName, ProjectVerdict, Innermost, LastHit, FirstHit;
    LastHitSnoc(r.excludes, p, path, isDir);
    NoneHitsExactly(r.includes, path, isDir);
  }

  lemma NoneHitsExactly(rules: seq<Pattern>, path: Path, isDir: bool)
    ensures NoneHits(rules, path, isDir) <==> FirstHit(rules, path, isDir, 0).None?
  {
    hide Hits;
  }

  /** One more include keeps the entry when it hits, and changes nothing when it does not. */
  lemma OneMoreInclude(r: Rules, t: Table, path: Path, isDir: bool, p: Pattern)
    ensures var more := r.(includes := r.includes + [p]);
            Verdict(more, t, path, isDir) == if Hits(p, path, isDir) then Keep else Verdict(r, t, path, isDir)
  {
    hide Hits, HiddenName, ProjectVerdict, Innermost, LastHit, FirstHit, NoneHits;
    NoneHitsExactly(r.includes, path, isDir);
    NoneHitsExactly(r.includes + [p], path, isDir);
    NoneHitsSnoc(r.includes, p, path, isDir);
    if path == [] {
      NothingHitsTheRoot(p, isDir);
    }
  }

  lemma NothingHitsTheRoot(p: Pattern, isDir: bool)
    ensures !Hits(p, [], isDir)
  {}

  lemma NoneHitsSnoc(rules: seq<Pattern>, p: Pattern, path: Path, isDir: bool)
    ensures NoneHits(rules + [p], path, isDir) <==> NoneHits(rules, path, isDir) && !Hits(p, path, isDir)
  {
    hide Hits;
    var more := rules + [p];
    assert more[|rules|] == p && forall j :: 0 <= j < |rules| ==> more[j] == rules[j];
  }
}
