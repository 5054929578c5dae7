/** Stored paths: forward slashes, no leading or trailing separator, no empty, `.` or `..` segment. */
module Paths {
  import opened Wrappers
  import opened Strings

  predicate CleanSegment(s: string) {
    s != "" && s != "." && s != ".."
  }

  function CleanPath(p: string): (r: Option<string>)
    ensures r.Some? ==> r.value != "" && '\\' !in r.value
  {
    var q := TrimSlashes(ReplaceAll(p, '\\', '/'));
    if q == "" || q == "." then None
    else if forall s :: s in Split(q, '/') ==> CleanSegment(s) then
      NoBackslash(p);
      Some(q)
    else None
  }

  /** normalizePath: anything invalid stands for the whole tree. */
  function NormalizePath(p: string): string {
    match CleanPath(p)
    case None => ""
    case Some(q) => q
  }

  lemma NoBackslash(p: string)
    ensures '\\' !in TrimSlashes(ReplaceAll(p, '\\', '/'))
  {
    hide ReplaceAll, TrimSlashes;
  }

  /** A path as it is stored: no backslash, and no empty, `.` or `..` segment, so that it begins and ends
      with a name. */
  predicate IsStored(p: string) {
    '\\' !in p && forall s :: s in Split(p, '/') ==> s != "" && s != "." && s != ".."
  }

  /** A path is accepted exactly when what is left of it, with backslashes read as slashes and the slashes
      at its ends trimmed, can be stored, and that is what is stored. */
  lemma CleanExactly(raw: string, p: string)
    ensures CleanPath(raw) == Some(p) <==> p == TrimSlashes(ReplaceAll(raw, '\\', '/')) && IsStored(p)
  {
    hide ReplaceAll, TrimSlashes;
    NoBackslash(raw);
    var q := TrimSlashes(ReplaceAll(raw, '\\', '/'));
    if q == "" || q == "." {
      assert Split(q, '/') == [q] && q in Split(q, '/') by { OneSegment(q); }
    }
  }

  lemma OneSegment(q: string)
    requires '/' !in q
    ensures Split(q, '/') == [q]
  {}

  /** Cleaning a stored path changes nothing. */
  lemma CleanIsStable(p: string)
    requires CleanPath(p).Some?
    ensures CleanPath(CleanPath(p).value) == CleanPath(p)
    ensures NormalizePath(CleanPath(p).value) == CleanPath(p).value
  {
    hide ReplaceAll, TrimSlashes, Split, CleanSegment;
    var q := CleanPath(p).value;
    assert ReplaceAll(q, '\\', '/') == q;
    assert TrimSlashes(q) == q;
  }

  lemma OneSegmentIsClean(p: string)
    requires CleanSegment(p) && '/' !in p && '\\' !in p
    ensures CleanPath(p) == Some(p)
  {
    hide ReplaceAll, TrimSlashes, Split;
    assert p[0] in p && p[|p| - 1] in p;
    assert ReplaceAll(p, '\\', '/') == p;
    assert TrimSlashes(p) == p;
    assert Split(p, '/') == [p];
  }
}
