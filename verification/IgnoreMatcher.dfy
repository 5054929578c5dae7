/** The ignore policy of a backup root: the user's rules, the built-in rules, and the rules that
    apply inside detected projects. A path is the list of its names below the root; matching is
    case sensitive. */
module IgnoreMatcher {
  import opened Wrappers
  import opened Patterns = Pattern

  type Path = seq<string>

  /** `maxFileSize` 0 means no limit. */
  datatype Rules = Rules(includes: seq<Pattern>, excludes: seq<Pattern>, globals: seq<Pattern>, dev: seq<Pattern>,
                         skipHidden: bool, maxFileSize: nat)

  /** The rules of the projects found so far, by project root. */
  type Table = map<Path, seq<Pattern>>

  datatype Cause = Excluded(rule: nat) | Hidden | Global(rule: nat) | OfProject(rule: nat) | Dev(rule: nat) | TooLarge

  datatype Decision = Keep | Skip(cause: Cause)

  // ----- what a decision is -----

  /** A rule speaks about an entry when it holds of the entry or of a directory above it. */
  predicate Hits(p: Pattern, path: Path, isDir: bool) {
    exists k :: 0 < k <= |path| && Holds(p, path[..k], k < |path| || isDir)
  }

  function LastHit(rules: seq<Pattern>, path: Path, isDir: bool, n: nat): (i: Option<nat>)
    requires n <= |rules|
    ensures match i
            case Some(i) => i < n && Hits(rules[i], path, isDir) && forall j :: i < j < n ==> !Hits(rules[j], path, isDir)
            case None => forall j :: 0 <= j < n ==> !Hits(rules[j], path, isDir)
  {
    if n == 0 then None else if Hits(rules[n - 1], path, isDir) then Some(n - 1) else LastHit(rules, path, isDir, n - 1)
  }

  function FirstHit(rules: seq<Pattern>, path: Path, isDir: bool, n: nat): (i: Option<nat>)
    requires n <= |rules|
    ensures match i
            case Some(i) => n <= i < |rules| && Hits(rules[i], path, isDir)
                            && forall j :: n <= j < i ==> !Hits(rules[j], path, isDir)
            case None => forall j :: n <= j < |rules| ==> !Hits(rules[j], path, isDir)
    decreases |rules| - n
  {
    if n == |rules| then None else if Hits(rules[n], path, isDir) then Some(n) else FirstHit(rules, path, isDir, n + 1)
  }

  function FirstHolding(rules: seq<Pattern>, path: Path, isDir: bool, n: nat): (i: Option<nat>)
    requires n <= |rules|
    ensures match i
            case Some(i) => n <= i < |rules| && Holds(rules[i], path, isDir)
                            && forall j :: n <= j < i ==> !Holds(rules[j], path, isDir)
            case None => forall j :: n <= j < |rules| ==> !Holds(rules[j], path, isDir)
    decreases |rules| - n
  {
    if n == |rules| then None else if Holds(rules[n], path, isDir) then Some(n) else FirstHolding(rules, path, isDir, n + 1)
  }

  predicate HiddenName(name: string) {
    "." <= name && name != "." && name != ".."
  }

  /** The length of the longest project root among the first `n` ancestors and the backup root. */
  function Innermost(table: Table, path: Path, n: nat): (root: Option<nat>)
    requires n <= |path|
    ensures match root
            case Some(k) => k <= n && path[..k] in table && forall j :: k < j <= n ==> path[..j] !in table
            case None => forall j :: 0 <= j <= n ==> path[..j] !in table
  {
    if path[..n] in table then Some(n) else if n == 0 then None else Innermost(table, path, n - 1)
  }

  /** The verdict of a project rooted at depth `root`, trying the entry first and then the
      directories between it and the project. */
  function ProjectVerdict(rules: seq<Pattern>, dev: seq<Pattern>, root: nat, path: Path, isDir: bool, k: nat): Decision
    requires root <= |path| && k <= |path|
  {
    if k <= root then Keep else
      var sub, dir := path[root..k], k < |path| || isDir;
      match FirstHolding(rules, sub, dir, 0)
      case Some(i) => Skip(OfProject(i))
      case None =>
        match FirstHolding(dev, sub, dir, 0)
        case Some(i) => Skip(Dev(i))
        case None => ProjectVerdict(rules, dev, root, path, isDir, k - 1)
  }

  function InProject(r: Rules, table: Table, path: Path, isDir: bool): Decision
    requires path != []
  {
    if r.dev == [] then Keep else
      match Innermost(table, path, |path| - 1)
      case None => Keep
      case Some(root) => ProjectVerdict(table[path[..root]], r.dev, root, path, isDir, |path|)
  }

  function Verdict(r: Rules, table: Table, path: Path, isDir: bool): Decision {
    if path == [] || path == ["."] then Keep
    else if FirstHit(r.includes, path, isDir, 0).Some? then Keep
    else
      match LastHit(r.excludes, path, isDir, |r.excludes|)
      case Some(i) => if r.excludes[i].negate then Keep else Skip(Excluded(i))
      case None =>
        if r.skipHidden && exists k :: 0 <= k < |path| && HiddenName(path[k]) then Skip(Hidden)
        else
          match FirstHit(r.globals, path, isDir, 0)
          case Some(i) => Skip(Global(i))
          case None => InProject(r, table, path, isDir)
  }

  function FileVerdict(r: Rules, table: Table, path: Path, size: nat): Decision {
    var d := Verdict(r, table, path, false);
    if d.Keep? && r.maxFileSize > 0 && size > r.maxFileSize then Skip(TooLarge) else d
  }

  // ----- the matcher -----

  datatype Candidate = Candidate(path: Path, isDir: bool)

  predicate IsCandidates(cands: seq<Candidate>, path: Path, isDir: bool) {
    |cands| == |path|
    && forall j :: 0 <= j < |cands| ==> cands[j] == Candidate(path[..|path| - j], j > 0 || isDir)
  }

  /** The entry, then each of its ancestor directories. */
  method Candidates(rel: Path, isDir: bool) returns (out: seq<Candidate>)
    requires rel != []
    ensures IsCandidates(out, rel, isDir)
  {
    out := [Candidate(rel, isDir)];
    assert rel[..|rel|] == rel;
    var n := |rel|;
    while n > 1
      invariant 1 <= n <= |rel| && |out| == |rel| + 1 - n
      invariant forall j :: 0 <= j < |out| ==> out[j] == Candidate(rel[..|rel| - j], j > 0 || isDir)
    {
      n := n - 1;
      out := out + [Candidate(rel[..n], true)];
    }
  }

  method AnyHit(p: Pattern, cands: seq<Candidate>, ghost path: Path, ghost isDir: bool) returns (b: bool)
    requires IsCandidates(cands, path, isDir)
    ensures b == Hits(p, path, isDir)
  {
    hide Holds;
    for j := 0 to |cands|
      invariant forall i :: 0 <= i < j ==> !Holds(p, cands[i].path, cands[i].isDir)
    {
      b := Patterns.Match(p, cands[j].path, cands[j].isDir);
      if b {
        assert cands[j].path == path[..|path| - j];
        return;
      }
    }
    b := false;
    forall k | 0 < k <= |path| ensures !Holds(p, path[..k], k < |path| || isDir) {
      assert cands[|path| - k] == Candidate(path[..k], k < |path| || isDir);
    }
  }

  method FindHolding(rules: seq<Pattern>, sub: Path, isDir: bool) returns (i: Option<nat>)
    requires sub != []
    ensures i == FirstHolding(rules, sub, isDir, 0)
  {
    hide Holds;
    for j := 0 to |rules|
      invariant FirstHolding(rules, sub, isDir, 0) == FirstHolding(rules, sub, isDir, j)
    {
      var b := Patterns.Match(rules[j], sub, isDir);
      if b {
        return Some(j);
      }
    }
    return None;
  }

  /** Whether a rule text contains a wildcard. */
  predicate IsGlob(dir: string) {
    '*' in dir || '?' in dir || '[' in dir
  }

  /** The rules of a project, from the names it excludes. */
  function Compiled(excluded: seq<string>): seq<Pattern> {
    if excluded == [] then [] else
      var before, dir := Compiled(excluded[..|excluded| - 1]), excluded[|excluded| - 1];
      if dir == "" then before else
        match ParsePattern(if IsGlob(dir) then "/" + dir else "/" + dir + "/")
        case None => before
        case Some(p) => before + [p]
  }

  class Matcher {
    const rules: Rules
    var projects: Table

    constructor (r: Rules)
      ensures rules == r && projects == map[]
    {
      rules := r;
      projects := map[];
    }

    method RegisterProject(root: Path, excluded: seq<string>)
      modifies this
      ensures projects == old(projects)[root := Compiled(excluded)]
    {
      hide ParsePattern;
      var patterns: seq<Pattern> := [];
      for i := 0 to |excluded|
        invariant patterns == Compiled(excluded[..i])
      {
        var dir := excluded[i];
        assert excluded[..i + 1][..i] == excluded[..i];
        if dir == "" {
          continue;
        }
        var pattern := "/" + dir;
        if !IsGlob(dir) {
          pattern := pattern + "/";
        }
        var p := ParsePattern(pattern);
        if p.Some? {
          patterns := patterns + [p.value];
        }
      }
      assert excluded[..|excluded|] == excluded;
      projects := projects[root := patterns];
    }

    method Match(path: Path, isDir: bool) returns (d: Decision)
      ensures d == Verdict(rules, projects, path, isDir)
    {
      hide Hits, Holds;
      if path == [] || path == ["."] {
        return Keep;
      }
      var cands := Candidates(path, isDir);
      for i := 0 to |rules.includes|
        invariant FirstHit(rules.includes, path, isDir, 0) == FirstHit(rules.includes, path, isDir, i)
      {
        var hit := AnyHit(rules.includes[i], cands, path, isDir);
        if hit {
          return Keep;
        }
      }
      var excluded: Option<nat> := None;
      for i := 0 to |rules.excludes|
        invariant excluded == LastHit(rules.excludes, path, isDir, i)
      {
        var hit := AnyHit(rules.excludes[i], cands, path, isDir);
        if hit {
          excluded := Some(i);
        }
      }
      if excluded.Some? {
        return if rules.excludes[excluded.value].negate then Keep else Skip(Excluded(excluded.value));
      }
      if rules.skipHidden {
        for j := 0 to |cands|
          invariant forall k :: |path| - j <= k < |path| ==> !HiddenName(path[k])
        {
          var last := cands[j].path[|cands[j].path| - 1];
          if HiddenName(last) {
            assert last == path[|path| - j - 1];
            return Skip(Hidden);
          }
        }
      }
      for i := 0 to |rules.globals|
        invariant FirstHit(rules.globals, path, isDir, 0) == FirstHit(rules.globals, path, isDir, i)
      {
        var hit := AnyHit(rules.globals[i], cands, path, isDir);
        if hit {
          return Skip(Global(i));
        }
      }
      d := MatchProject(path, isDir, cands);
    }

    method MatchProject(path: Path, isDir: bool, cands: seq<Candidate>) returns (d: Decision)
      requires path != [] && IsCandidates(cands, path, isDir)
      ensures d == InProject(rules, projects, path, isDir)
    {
      hide Hits, Holds;
      if |rules.dev| == 0 || projects == map[] {
        return Keep;
      }
      var n := |path|;
      while true
        invariant 0 < n <= |path|
        invariant Innermost(projects, path, |path| - 1) == Innermost(projects, path, n - 1)
        decreases n
      {
        n := n - 1;
        if path[..n] in projects {
          var patterns := projects[path[..n]];
          for j := 0 to |cands|
            invariant ProjectVerdict(patterns, rules.dev, n, path, isDir, |path|)
                   == ProjectVerdict(patterns, rules.dev, n, path, isDir, |path| - j)
          {
            // A directory at or above the project is not inside it.
            if |cands[j].path| <= n {
              continue;
            }
            var sub := cands[j].path[n..];
            assert sub == path[n..|path| - j];
            var own := FindHolding(patterns, sub, cands[j].isDir);
            if own.Some? {
              return Skip(OfProject(own.value));
            }
            var dev := FindHolding(rules.dev, sub, cands[j].isDir);
            if dev.Some? {
              return Skip(Dev(dev.value));
            }
          }
          return Keep;
        }
        if n == 0 {
          return Keep;
        }
      }
    }

    method MatchFile(path: Path, size: nat) returns (d: Decision)
      ensures d == FileVerdict(rules, projects, path, size)
    {
      d := Match(path, false);
      if d.Skip? {
        return;
      }
      if rules.maxFileSize > 0 && size > rules.maxFileSize {
        return Skip(TooLarge);
      }
    }
  }
}
