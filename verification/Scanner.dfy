/** The walk over a backup root. It prunes a skipped directory, and registers the projects it meets
    on the way down, so the table that decides about an entry is still growing when it is visited. */
module Scanner {
  import opened Wrappers
  import opened Patterns = Pattern
  import opened IgnoreMatcher

  /** A directory whose listing cannot be read shows no children. */
  datatype Node = Dir(children: seq<Child>) | Unreadable | File(size: nat) | Symlink | Special

  datatype Child = Child(name: string, node: Node)

  datatype Kind = DirItem | FileItem(size: nat) | LinkItem

  datatype Item = Item(path: Path, kind: Kind)

  /** What a directory with these names excludes if it is the root of a project. */
  type Detector = seq<string> -> Option<seq<string>>

  /** No two entries of a directory share their name. */
  predicate DistinctNames(node: Node) {
    node.Dir? ==> UniqueNames(node.children) && forall c :: c in node.children ==> DistinctNames(c.node)
  }

  predicate UniqueNames(children: seq<Child>) {
    forall i, j :: 0 <= i < j < |children| ==> children[i].name != children[j].name
  }

  function Names(children: seq<Child>): seq<string> {
    seq(|children|, i requires 0 <= i < |children| => children[i].name)
  }

  // ----- what a walk emits, if the table were fixed -----

  /** The entry itself, unless it is skipped. */
  function Entry(r: Rules, t: Table, path: Path, node: Node): Option<Item> {
    match node
    case Dir(_) => if Verdict(r, t, path, true).Keep? then Some(Item(path, DirItem)) else None
    case Unreadable => if Verdict(r, t, path, true).Keep? then Some(Item(path, DirItem)) else None
    case File(size) => if FileVerdict(r, t, path, size).Keep? then Some(Item(path, FileItem(size))) else None
    case Symlink => if Verdict(r, t, path, false).Keep? then Some(Item(path, LinkItem)) else None
    case Special => None
  }

  /** Everything below a directory that is kept, looking only below kept directories. */
  function Pruned(r: Rules, t: Table, path: Path, node: Node): seq<Item>
    decreases node, 1
  {
    match Entry(r, t, path, node)
    case None => []
    case Some(item) => [item] + if node.Dir? then PrunedBelow(r, t, path, node, |node.children|) else []
  }

  /** The first `n` children. */
  function PrunedBelow(r: Rules, t: Table, path: Path, node: Node, n: nat): seq<Item>
    requires node.Dir? && n <= |node.children|
    decreases node, 0, n
  {
    if n == 0 then [] else
      PrunedBelow(r, t, path, node, n - 1) + Pruned(r, t, path + [node.children[n - 1].name], node.children[n - 1].node)
  }

  /** The directory itself, if its names make it a project. */
  function Own(detect: Detector, path: Path, node: Node): Table
    requires node.Dir?
  {
    match detect(Names(node.children))
    case None => map[]
    case Some(excluded) => map[path := Compiled(excluded)]
  }

  /** The projects at the kept directories, looking only below kept directories. */
  function Found(r: Rules, detect: Detector, t: Table, path: Path, node: Node): Table
    decreases node, 1
  {
    if !node.Dir? || Entry(r, t, path, node).None? then map[]
    else Own(detect, path, node) + FoundBelow(r, detect, t, path, node, |node.children|)
  }

  function FoundBelow(r: Rules, detect: Detector, t: Table, path: Path, node: Node, n: nat): Table
    requires node.Dir? && n <= |node.children|
    decreases node, 0, n
  {
    if n == 0 then map[] else
      FoundBelow(r, detect, t, path, node, n - 1)
      + Found(r, detect, t, path + [node.children[n - 1].name], node.children[n - 1].node)
  }

  /** What a walk of a root emits and finds under a fixed table; the root itself is not judged. */
  function RootPruned(r: Rules, t: Table, root: Node): seq<Item> {
    if root.Dir? then PrunedBelow(r, t, [], root, |root.children|) else []
  }

  function RootFound(r: Rules, detect: Detector, t: Table, root: Node): Table {
    if root.Dir? then Own(detect, [], root) + FoundBelow(r, detect, t, [], root, |root.children|) else map[]
  }

  /** Everything below a directory that is kept, wherever it is. */
  function Filtered(r: Rules, t: Table, path: Path, node: Node): seq<Item>
    decreases node, 1
  {
    (match Entry(r, t, path, node) case None => [] case Some(item) => [item])
    + if node.Dir? then FilteredBelow(r, t, path, node, |node.children|) else []
  }

  function FilteredBelow(r: Rules, t: Table, path: Path, node: Node, n: nat): seq<Item>
    requires node.Dir? && n <= |node.children|
    decreases node, 0, n
  {
    if n == 0 then [] else
      FilteredBelow(r, t, path, node, n - 1) + Filtered(r, t, path + [node.children[n - 1].name], node.children[n - 1].node)
  }

  // ----- verdicts depend on the ancestors only -----

  predicate SameAt(a: Table, b: Table, q: Path) {
    (q in a <==> q in b) && (q in a ==> a[q] == b[q])
  }

  lemma {:induction false} SameInnermost(a: Table, b: Table, path: Path, n: nat)
    requires n <= |path| && forall j :: 0 <= j <= n ==> SameAt(a, b, path[..j])
    ensures Innermost(a, path, n) == Innermost(b, path, n)
    decreases n
  {
    assert SameAt(a, b, path[..n]);
    if n > 0 {
      SameInnermost(a, b, path, n - 1);
    }
  }

  /** Projects elsewhere, and projects registered at the entry or below it, do not change a verdict. */
  lemma VerdictFrame(r: Rules, a: Table, b: Table, path: Path, isDir: bool)
    requires forall j :: 0 <= j < |path| ==> SameAt(a, b, path[..j])
    ensures Verdict(r, a, path, isDir) == Verdict(r, b, path, isDir)
  {
    hide Hits, Holds, HiddenName, ProjectVerdict;
    if path != [] {
      SameInnermost(a, b, path, |path| - 1);
      var root := Innermost(a, path, |path| - 1);
      assert root.Some? ==> SameAt(a, b, path[..root.value]);
    }
  }

  /** The tables agree on the ancestors of the path and on everything from the path down. */
  ghost predicate Agree(a: Table, b: Table, path: Path) {
    forall q :: q <= path || path <= q ==> SameAt(a, b, q)
  }

  /** Nothing changed but at the path and below it. */
  ghost predicate Outside(a: Table, b: Table, path: Path) {
    forall q :: !(path <= q) ==> SameAt(a, b, q)
  }

  /** The items, and the table grown from `before` to `after`, are what every table that agrees with the
      latter around the path makes of the node. */
  ghost predicate Emits(r: Rules, detect: Detector, before: Table, after: Table, path: Path, node: Node, items: seq<Item>) {
    forall final: Table :: Agree(final, after, path) ==>
      items == Pruned(r, final, path, node) && after == before + Found(r, detect, final, path, node)
  }

  /** The path is that of the `i`th child or lies below it. */
  predicate AtChild(path: Path, node: Node, i: nat, q: Path)
    requires node.Dir? && i < |node.children|
  {
    path + [node.children[i].name] <= q
  }

  /** The same on the ancestors, the path itself, and the first `n` children. */
  ghost predicate AgreeBelow(a: Table, b: Table, path: Path, node: Node, n: nat)
    requires node.Dir? && n <= |node.children|
  {
    && (forall q :: q <= path ==> SameAt(a, b, q))
    && (forall i, q :: 0 <= i < n && AtChild(path, node, i, q) ==> SameAt(a, b, q))
  }

  ghost predicate EmitsBelow(
      r: Rules, detect: Detector, before: Table, after: Table, path: Path, node: Node, n: nat, items: seq<Item>)
    requires node.Dir? && n <= |node.children|
  {
    forall final: Table :: AgreeBelow(final, after, path, node, n) ==>
      items == PrunedBelow(r, final, path, node, n) && after == before + FoundBelow(r, detect, final, path, node, n)
  }

  lemma EntryFrame(r: Rules, a: Table, b: Table, path: Path, node: Node)
    requires forall j :: 0 <= j < |path| ==> SameAt(a, b, path[..j])
    ensures Entry(r, a, path, node) == Entry(r, b, path, node)
  {
    hide Verdict;
    VerdictFrame(r, a, b, path, true);
    VerdictFrame(r, a, b, path, false);
  }

  lemma LeafEmits(r: Rules, detect: Detector, t: Table, path: Path, node: Node)
    requires node.Dir? ==> Entry(r, t, path, node).None?
    ensures Emits(r, detect, t, t, path, node, if Entry(r, t, path, node).Some? then [Entry(r, t, path, node).value] else [])
  {
    hide Entry;
    assert t + map[] == t;
    forall final: Table | Agree(final, t, path) ensures Entry(r, final, path, node) == Entry(r, t, path, node) {
      EntryFrame(r, final, t, path, node);
    }
  }

  lemma MergeAssociates(a: Table, b: Table, c: Table)
    ensures a + b + c == a + (b + c)
  {}

  lemma ChildEmits(r: Rules, detect: Detector, before: Table, t: Table, t': Table, path: Path, node: Node, n: nat,
                   items: seq<Item>, more: seq<Item>)
    requires node.Dir? && UniqueNames(node.children) && n < |node.children|
    requires EmitsBelow(r, detect, before, t, path, node, n, items)
    requires Outside(t, t', path + [node.children[n].name])
    requires Emits(r, detect, t, t', path + [node.children[n].name], node.children[n].node, more)
    ensures EmitsBelow(r, detect, before, t', path, node, n + 1, items + more)
  {
    hide SameAt, Pruned, Entry, Found;
    var child, next := path + [node.children[n].name], n + 1;
    forall final: Table | AgreeBelow(final, t', path, node, next)
      ensures items + more == PrunedBelow(r, final, path, node, next)
      ensures t' == before + FoundBelow(r, detect, final, path, node, next)
    {
      AgreeBefore(final, t, t', path, node, n);
      assert Agree(final, t', child) by {
        forall q | q <= child || child <= q ensures SameAt(final, t', q) {
          assert q <= child && q != child ==> q <= path;
          assert child <= q ==> AtChild(path, node, n, q);
        }
      }
      MergeAssociates(before, FoundBelow(r, detect, final, path, node, n), Found(r, detect, final, child, node.children[n].node));
    }
  }

  lemma AgreeBefore(final: Table, t: Table, t': Table, path: Path, node: Node, n: nat)
    requires node.Dir? && UniqueNames(node.children) && n < |node.children|
    requires AgreeBelow(final, t', path, node, n + 1) && Outside(t, t', path + [node.children[n].name])
    ensures AgreeBelow(final, t, path, node, n)
  {
    var child := path + [node.children[n].name];
    forall q | q <= path ensures SameAt(final, t, q) {
      assert SameAt(final, t', q) && SameAt(t, t', q);
    }
    forall i, q | 0 <= i < n && AtChild(path, node, i, q) ensures SameAt(final, t, q) {
      assert q[|path|] == node.children[i].name;
      assert !(child <= q);
      assert SameAt(final, t', q) && SameAt(t, t', q);
    }
  }

  lemma DirEmits(r: Rules, detect: Detector, t: Table, mid: Table, t': Table, path: Path, node: Node, items: seq<Item>)
    requires node.Dir? && Entry(r, t, path, node).Some? && Outside(t, t', path) && mid == t + Own(detect, path, node)
    requires EmitsBelow(r, detect, mid, t', path, node, |node.children|, items)
    ensures Emits(r, detect, t, t', path, node, [Entry(r, t, path, node).value] + items)
  {
    hide Entry, PrunedBelow, FoundBelow, Own;
    forall final: Table | Agree(final, t', path)
      ensures [Entry(r, t, path, node).value] + items == Pruned(r, final, path, node)
      ensures t' == t + Found(r, detect, final, path, node)
    {
      forall j | 0 <= j < |path| ensures SameAt(final, t, path[..j]) {
        assert SameAt(final, t', path[..j]) && SameAt(t, t', path[..j]);
      }
      EntryFrame(r, final, t, path, node);
      assert AgreeBelow(final, t', path, node, |node.children|);
      MergeAssociates(t, Own(detect, path, node), FoundBelow(r, detect, final, path, node, |node.children|));
    }
  }

  // ----- projects are only found in directories that are kept -----

  ghost predicate Rooted(r: Rules, t: Table) {
    forall q :: q in t ==> Verdict(r, t, q, true).Keep?
  }

  /** No project is known at the path or below it. */
  ghost predicate Fresh(t: Table, path: Path) {
    forall q :: q in t ==> !(path <= q)
  }

  lemma RegisterKeepsRooted(r: Rules, t: Table, path: Path, rules: seq<Pattern>)
    requires Rooted(r, t) && Fresh(t, path) && Verdict(r, t, path, true).Keep?
    ensures Rooted(r, t[path := rules])
  {
    hide Verdict;
    var t' := t[path := rules];
    forall q | q in t' ensures Verdict(r, t', q, true).Keep? {
      forall j | 0 <= j < |q| ensures SameAt(t, t', q[..j]) {
        assert q[..j] == path ==> path <= q;
      }
      VerdictFrame(r, t, t', q, true);
    }
  }

  ghost predicate FreshBelow(t: Table, path: Path, node: Node, n: nat)
    requires node.Dir?
  {
    forall i :: n <= i < |node.children| ==> Fresh(t, path + [node.children[i].name])
  }

  lemma FreshNext(t: Table, t': Table, path: Path, node: Node, n: nat)
    requires node.Dir? && UniqueNames(node.children) && n < |node.children|
    requires FreshBelow(t, path, node, n) && Outside(t, t', path + [node.children[n].name])
    ensures FreshBelow(t', path, node, n + 1)
  {
    forall i, q | n + 1 <= i < |node.children| && q in t' ensures !(path + [node.children[i].name] <= q) {
      assert path + [node.children[i].name] <= q ==> q[|path|] == node.children[i].name;
      assert path + [node.children[n].name] <= q ==> q[|path|] == node.children[n].name;
      assert path + [node.children[i].name] <= q ==> SameAt(t, t', q);
      assert Fresh(t, path + [node.children[i].name]);
    }
  }

  // ----- the walk -----

  class Scanner {
    const matcher: Matcher
    const detect: Detector
    var emitted: seq<Item>

    constructor (m: Matcher, d: Detector)
      ensures matcher == m && detect == d && emitted == []
    {
      matcher, detect, emitted := m, d, [];
    }

    /** Registers the directory if its names make it a project. */
    method DetectProject(path: Path, node: Node)
      requires node.Dir?
      modifies matcher
      ensures matcher.projects == old(matcher.projects) + Own(detect, path, node)
      ensures Outside(old(matcher.projects), matcher.projects, path)
      ensures forall q :: q != path ==> SameAt(old(matcher.projects), matcher.projects, q)
      ensures (Rooted(matcher.rules, old(matcher.projects)) && Fresh(old(matcher.projects), path)
               && Verdict(matcher.rules, old(matcher.projects), path, true).Keep?) ==> Rooted(matcher.rules, matcher.projects)
    {
      hide Verdict, Rooted, Compiled;
      var excluded := detect(Names(node.children));
      if excluded.Some? {
        ghost var t := matcher.projects;
        matcher.RegisterProject(path, excluded.value);
        if Rooted(matcher.rules, t) && Fresh(t, path) && Verdict(matcher.rules, t, path, true).Keep? {
          RegisterKeepsRooted(matcher.rules, t, path, Compiled(excluded.value));
        }
      }
    }

    method VisitChildren(path: Path, node: Node) returns (ghost items: seq<Item>)
      requires node.Dir? && DistinctNames(node)
      modifies this, matcher
      ensures emitted == old(emitted) + items
      ensures forall q :: !(path <= q && path != q) ==> SameAt(old(matcher.projects), matcher.projects, q)
      ensures EmitsBelow(matcher.rules, detect, old(matcher.projects), matcher.projects, path, node, |node.children|, items)
      ensures Rooted(matcher.rules, old(matcher.projects)) && FreshBelow(old(matcher.projects), path, node, 0)
              ==> Rooted(matcher.rules, matcher.projects)
      decreases node, 0
    {
      hide Verdict, Rooted, EmitsBelow, Emits, FreshBelow, Fresh;
      items := [];
      ghost var unseen := Rooted(matcher.rules, matcher.projects) && FreshBelow(matcher.projects, path, node, 0);
      NothingEmitted(matcher.rules, detect, matcher.projects, path, node);
      for i := 0 to |node.children|
        invariant emitted == old(emitted) + items
        invariant forall q :: !(path <= q && path != q) ==> SameAt(old(matcher.projects), matcher.projects, q)
        invariant EmitsBelow(matcher.rules, detect, old(matcher.projects), matcher.projects, path, node, i, items)
        invariant unseen ==> Rooted(matcher.rules, matcher.projects) && FreshBelow(matcher.projects, path, node, i)
      {
        var child := node.children[i];
        ghost var t := matcher.projects;
        if unseen {
          FreshChild(t, path, node, i);
        }
        ghost var more := Visit(path + [child.name], child.node);
        OutsideBelow(old(matcher.projects), t, matcher.projects, path, child.name);
        ChildEmits(matcher.rules, detect, old(matcher.projects), t, matcher.projects, path, node, i, items, more);
        if unseen {
          FreshNext(t, matcher.projects, path, node, i);
        }
        items := items + more;
      }
    }

    /** The callback of the walk, and the descent below it. */
    method Visit(path: Path, node: Node) returns (ghost items: seq<Item>)
      requires DistinctNames(node)
      modifies this, matcher
      ensures emitted == old(emitted) + items
      ensures Outside(old(matcher.projects), matcher.projects, path)
      ensures Emits(matcher.rules, detect, old(matcher.projects), matcher.projects, path, node, items)
      ensures Rooted(matcher.rules, old(matcher.projects)) && Fresh(old(matcher.projects), path)
              ==> Rooted(matcher.rules, matcher.projects)
      decreases node, 1
    {
      hide Verdict, Rooted, EmitsBelow, Emits, FreshBelow, Outside, Own;
      ghost var t := matcher.projects;
      NothingOutside(t, path);
      match node
      case Dir(children) =>
        var d := matcher.Match(path, true);
        if d.Skip? {
          LeafEmits(matcher.rules, detect, t, path, node);
          return [];
        }
        DetectProject(path, node);
        emitted := emitted + [Item(path, DirItem)];
        ghost var mid := matcher.projects;
        FreshAfterRegister(t, mid, path, node);
        items := VisitChildren(path, node);
        OutsideChain(t, mid, matcher.projects, path);
        DirEmits(matcher.rules, detect, t, mid, matcher.projects, path, node, items);
        items := [Item(path, DirItem)] + items;
      case Unreadable =>
        LeafEmits(matcher.rules, detect, t, path, node);
        var d := matcher.Match(path, true);
        if d.Skip? {
          return [];
        }
        emitted := emitted + [Item(path, DirItem)];
        return [Item(path, DirItem)];
      case File(size) =>
        LeafEmits(matcher.rules, detect, t, path, node);
        var d := matcher.MatchFile(path, size);
        if d.Skip? {
          return [];
        }
        emitted := emitted + [Item(path, FileItem(size))];
        return [Item(path, FileItem(size))];
      case Symlink =>
        LeafEmits(matcher.rules, detect, t, path, node);
        var d := matcher.Match(path, false);
        if d.Skip? {
          return [];
        }
        emitted := emitted + [Item(path, LinkItem)];
        return [Item(path, LinkItem)];
      case Special =>
        LeafEmits(matcher.rules, detect, t, path, node);
        return [];
    }

    /** Walks a backup root. What it emits, and which projects it finds, is decided by the table as it
        stands at the end, although each entry was judged with the table of its time. Without rules
        that bring entries back, and starting with no projects, it emits every entry that the final
        table does not skip. */
    method WalkRoot(root: Node)
      requires DistinctNames(root)
      modifies this, matcher
      ensures emitted == old(emitted) + RootPruned(matcher.rules, matcher.projects, root)
      ensures matcher.projects == old(matcher.projects) + RootFound(matcher.rules, detect, matcher.projects, root)
      ensures OnlyExcludes(matcher.rules) && old(matcher.projects) == map[] && root.Dir? ==>
                emitted == old(emitted) + FilteredBelow(matcher.rules, matcher.projects, [], root, |root.children|)
    {
      hide Verdict, Rooted, EmitsBelow, FreshBelow, PrunedBelow, FilteredBelow, FoundBelow, Own;
      ghost var t := matcher.projects;
      if !root.Dir? {
        assert t + map[] == t;
        return;
      }
      DetectProject([], root);
      ghost var mid := matcher.projects;
      FreshAfterRegister(t, mid, [], root);
      ghost var items := VisitChildren([], root);
      FinalTable(matcher.rules, detect, t, mid, matcher.projects, root, items);
      if OnlyExcludes(matcher.rules) && t == map[] {
        NothingRegistered(matcher.rules);
        PruningLosesNothingBelow(matcher.rules, matcher.projects, [], root, |root.children|);
      }
    }

    /** Walks the roots one after the other, with one table for all of them. */
    method Walk(roots: seq<Node>) returns (ghost tables: seq<Table>)
      requires forall i :: 0 <= i < |roots| ==> DistinctNames(roots[i])
      modifies this, matcher
      ensures IsWalk(matcher.rules, detect, roots, tables)
      ensures tables[0] == old(matcher.projects) && tables[|roots|] == matcher.projects
      ensures emitted == old(emitted) + AllPruned(matcher.rules, roots, tables, |roots|)
    {
      hide RootPruned, RootFound, DistinctNames;
      tables := [matcher.projects];
      for i := 0 to |roots|
        invariant |tables| == i + 1 && tables[0] == old(matcher.projects) && tables[i] == matcher.projects
        invariant IsWalk(matcher.rules, detect, roots[..i], tables)
        invariant emitted == old(emitted) + AllPruned(matcher.rules, roots[..i], tables, i)
      {
        WalkRoot(roots[i]);
        WalkNext(matcher.rules, detect, roots, tables, i, matcher.projects);
        tables := tables + [matcher.projects];
      }
      assert roots[..|roots|] == roots;
    }
  }

  /** A walk of several roots: the tables before it and after each root. */
  predicate IsWalk(r: Rules, detect: Detector, roots: seq<Node>, tables: seq<Table>) {
    && |tables| == |roots| + 1
    && forall i :: 0 <= i < |roots| ==> FollowsFrom(r, detect, tables[i], tables[i + 1], roots[i])
  }

  predicate FollowsFrom(r: Rules, detect: Detector, before: Table, after: Table, root: Node) {
    after == before + RootFound(r, detect, after, root)
  }

  /** What the first `n` roots emit, each under the table at its own end. */
  function AllPruned(r: Rules, roots: seq<Node>, tables: seq<Table>, n: nat): seq<Item>
    requires n <= |roots| < |tables|
  {
    if n == 0 then [] else AllPruned(r, roots, tables, n - 1) + RootPruned(r, tables[n], roots[n - 1])
  }

  lemma {:induction false} AllPrunedPrefix(r: Rules, roots: seq<Node>, tables: seq<Table>, more: seq<Table>, i: nat, n: nat)
    requires n <= i < |roots| && i < |tables| && tables <= more && i + 1 < |more|
    ensures AllPruned(r, roots[..i + 1], more, n) == AllPruned(r, roots[..i], tables, n)
  {
    hide RootPruned;
    if n > 0 {
      AllPrunedPrefix(r, roots, tables, more, i, n - 1);
    }
  }

  /** One more root. */
  lemma WalkNext(r: Rules, detect: Detector, roots: seq<Node>, tables: seq<Table>, i: nat, t: Table)
    requires i < |roots| && IsWalk(r, detect, roots[..i], tables) && FollowsFrom(r, detect, tables[i], t, roots[i])
    ensures IsWalk(r, detect, roots[..i + 1], tables + [t])
    ensures AllPruned(r, roots[..i + 1], tables + [t], i + 1) == AllPruned(r, roots[..i], tables, i) + RootPruned(r, t, roots[i])
  {
    hide RootPruned, FollowsFrom;
    AllPrunedPrefix(r, roots, tables, tables + [t], i, i);
  }

  lemma FinalTable(r: Rules, detect: Detector, before: Table, mid: Table, t: Table, root: Node, items: seq<Item>)
    requires root.Dir? && mid == before + Own(detect, [], root)
    requires EmitsBelow(r, detect, mid, t, [], root, |root.children|, items)
    ensures items == RootPruned(r, t, root) && t == before + RootFound(r, detect, t, root)
  {
    hide PrunedBelow, FoundBelow, Own;
    assert AgreeBelow(t, t, [], root, |root.children|);
    MergeAssociates(before, Own(detect, [], root), FoundBelow(r, detect, t, [], root, |root.children|));
  }

  lemma NothingRegistered(r: Rules)
    ensures Rooted(r, map[]) && Fresh(map[], []) && Verdict(r, map[], [], true).Keep?
  {}

  lemma NothingEmitted(r: Rules, detect: Detector, t: Table, path: Path, node: Node)
    requires node.Dir?
    ensures EmitsBelow(r, detect, t, t, path, node, 0, [])
  {
    assert t + map[] == t;
  }

  lemma NothingOutside(t: Table, path: Path)
    ensures Outside(t, t, path)
  {}

  lemma FreshChild(t: Table, path: Path, node: Node, i: nat)
    requires node.Dir? && i < |node.children| && FreshBelow(t, path, node, i)
    ensures Fresh(t, path + [node.children[i].name])
  {}

  lemma OutsideBelow(t: Table, mid: Table, t': Table, path: Path, name: string)
    requires forall q :: !(path <= q && path != q) ==> SameAt(t, mid, q)
    requires Outside(mid, t', path + [name])
    ensures forall q :: !(path <= q && path != q) ==> SameAt(t, t', q)
  {
    forall q | !(path <= q && path != q) ensures SameAt(t, t', q) {
      assert SameAt(t, mid, q);
      assert path + [name] <= q ==> path <= q && path != q;
      assert SameAt(mid, t', q);
    }
  }

  lemma OutsideChain(t: Table, mid: Table, t': Table, path: Path)
    requires Outside(t, mid, path) && forall q :: !(path <= q && path != q) ==> SameAt(mid, t', q)
    ensures Outside(t, t', path)
  {
    forall q | !(path <= q) ensures SameAt(t, t', q) {
      assert SameAt(t, mid, q) && SameAt(mid, t', q);
    }
  }

  lemma FreshAfterRegister(t: Table, mid: Table, path: Path, node: Node)
    requires node.Dir? && forall q :: q != path ==> SameAt(t, mid, q)
    ensures Fresh(t, path) ==> FreshBelow(mid, path, node, 0)
  {
    if Fresh(t, path) {
      forall i, q | 0 <= i < |node.children| && q in mid ensures !(path + [node.children[i].name] <= q) {
        assert path + [node.children[i].name] <= q ==> path <= q && q != path;
        assert q != path ==> SameAt(t, mid, q);
      }
    }
  }

  // ----- skips are inherited -----

  /** No rule brings anything back. */
  predicate OnlyExcludes(r: Rules) {
    r.includes == [] && forall i :: 0 <= i < |r.excludes| ==> !r.excludes[i].negate
  }

  lemma HitsBelow(p: Pattern, path: Path, q: Path, isDir: bool)
    requires path <= q && path != q && Hits(p, path, true)
    ensures Hits(p, q, isDir)
  {
    hide Holds;
    var k :| 0 < k <= |path| && Holds(p, path[..k], k < |path| || true);
    assert q[..k] == path[..k];
  }

  /** Some rule of the project holds of the part of the path that ends at depth `k`. */
  predicate Bites(rules: seq<Pattern>, dev: seq<Pattern>, root: nat, path: Path, isDir: bool, k: nat)
    requires root <= k <= |path|
  {
    || FirstHolding(rules, path[root..k], k < |path| || isDir, 0).Some?
    || FirstHolding(dev, path[root..k], k < |path| || isDir, 0).Some?
  }

  lemma {:induction false} ProjectVerdictMeans(rules: seq<Pattern>, dev: seq<Pattern>, root: nat, path: Path, isDir: bool, k: nat)
    requires root <= |path| && k <= |path|
    ensures ProjectVerdict(rules, dev, root, path, isDir, k).Skip?
       <==> exists j :: root < j <= k && Bites(rules, dev, root, path, isDir, j)
    decreases k
  {
    hide FirstHolding;
    if k > root {
      ProjectVerdictMeans(rules, dev, root, path, isDir, k - 1);
      assert ProjectVerdict(rules, dev, root, path, isDir, k).Skip?
        <==> Bites(rules, dev, root, path, isDir, k) || ProjectVerdict(rules, dev, root, path, isDir, k - 1).Skip?;
    }
  }

  lemma {:induction false} InnermostBelow(t: Table, path: Path, q: Path, n: nat)
    requires path != [] && path <= q && |path| - 1 <= n < |q|
    requires forall j :: |path| <= j <= n ==> q[..j] !in t
    ensures Innermost(t, q, n) == Innermost(t, path, |path| - 1)
    decreases n
  {
    if n >= |path| {
      InnermostBelow(t, path, q, n - 1);
    } else {
      SameInnermostBelow(t, path, q, n);
    }
  }

  lemma {:induction false} SameInnermostBelow(t: Table, path: Path, q: Path, n: nat)
    requires path <= q && n <= |path|
    ensures Innermost(t, q, n) == Innermost(t, path, n)
  {
    assert q[..n] == path[..n];
    if n > 0 {
      SameInnermostBelow(t, path, q, n - 1);
    }
  }

  lemma InProjectBelow(r: Rules, t: Table, path: Path, q: Path, isDir: bool)
    requires path != [] && path <= q && path != q && InProject(r, t, path, true).Skip?
    requires forall j :: |path| <= j < |q| ==> q[..j] !in t
    ensures InProject(r, t, q, isDir).Skip?
  {
    hide FirstHolding;
    InnermostBelow(t, path, q, |q| - 1);
    var root := Innermost(t, path, |path| - 1).value;
    assert q[..root] == path[..root];
    var rules := t[path[..root]];
    ProjectVerdictMeans(rules, r.dev, root, path, true, |path|);
    ProjectVerdictMeans(rules, r.dev, root, q, isDir, |q|);
    var j :| root < j <= |path| && Bites(rules, r.dev, root, path, true, j);
    assert path[root..j] == q[root..j];
    assert Bites(rules, r.dev, root, q, isDir, j);
  }

  /** What is skipped takes everything below it along, when no project lies in between. */
  lemma SkipIsInherited(r: Rules, t: Table, path: Path, q: Path, isDir: bool)
    requires OnlyExcludes(r) && path <= q && path != q && Verdict(r, t, path, true).Skip?
    requires forall j :: |path| <= j < |q| ==> q[..j] !in t
    ensures Verdict(r, t, q, isDir).Skip?
  {
    hide Hits, HiddenName, InProject;
    if LastHit(r.excludes, path, true, |r.excludes|).Some? {
      HitsBelow(r.excludes[LastHit(r.excludes, path, true, |r.excludes|).value], path, q, isDir);
    } else if r.skipHidden && exists k :: 0 <= k < |path| && HiddenName(path[k]) {
      var k :| 0 <= k < |path| && HiddenName(path[k]);
      assert q[k] == path[k];
    } else if FirstHit(r.globals, path, true, 0).Some? {
      HitsBelow(r.globals[FirstHit(r.globals, path, true, 0).value], path, q, isDir);
    } else {
      InProjectBelow(r, t, path, q, isDir);
    }
  }

  /** No project is registered at a skipped directory or below it. */
  lemma {:induction false} NoProjectBelowSkipped(r: Rules, t: Table, path: Path, q: Path)
    requires OnlyExcludes(r) && Rooted(r, t) && Verdict(r, t, path, true).Skip? && path <= q
    ensures q !in t
    decreases |q|
  {
    hide Verdict;
    if q != path {
      forall j | |path| <= j < |q| ensures q[..j] !in t {
        NoProjectBelowSkipped(r, t, path, q[..j]);
      }
      SkipIsInherited(r, t, path, q, true);
    }
  }

  lemma SkippedBelow(r: Rules, t: Table, path: Path, q: Path, isDir: bool)
    requires OnlyExcludes(r) && Rooted(r, t) && Verdict(r, t, path, true).Skip? && path <= q && path != q
    ensures Verdict(r, t, q, isDir).Skip?
  {
    hide Verdict;
    forall j | |path| <= j < |q| ensures q[..j] !in t {
      NoProjectBelowSkipped(r, t, path, q[..j]);
    }
    SkipIsInherited(r, t, path, q, isDir);
  }

  lemma {:induction false} NothingBelowSkipped(r: Rules, t: Table, top: Path, path: Path, node: Node)
    requires OnlyExcludes(r) && Rooted(r, t) && Verdict(r, t, top, true).Skip? && top <= path && top != path
    ensures Filtered(r, t, path, node) == []
    decreases node, 1
  {
    hide Verdict, Rooted;
    SkippedBelow(r, t, top, path, true);
    SkippedBelow(r, t, top, path, false);
    if node.Dir? {
      NothingBelowSkippedIn(r, t, top, path, node, |node.children|);
    }
  }

  lemma {:induction false} NothingBelowSkippedIn(r: Rules, t: Table, top: Path, path: Path, node: Node, n: nat)
    requires OnlyExcludes(r) && Rooted(r, t) && Verdict(r, t, top, true).Skip? && top <= path
    requires node.Dir? && n <= |node.children|
    ensures FilteredBelow(r, t, path, node, n) == []
    decreases node, 0, n
  {
    hide Verdict, Rooted;
    if n > 0 {
      NothingBelowSkippedIn(r, t, top, path, node, n - 1);
      NothingBelowSkipped(r, t, top, path + [node.children[n - 1].name], node.children[n - 1].node);
    }
  }

  lemma {:induction false} PruningLosesNothing(r: Rules, t: Table, path: Path, node: Node)
    requires OnlyExcludes(r) && Rooted(r, t)
    ensures Pruned(r, t, path, node) == Filtered(r, t, path, node)
    decreases node, 1
  {
    hide Verdict, Rooted;
    if node.Dir? {
      if Entry(r, t, path, node).Some? {
        PruningLosesNothingBelow(r, t, path, node, |node.children|);
      } else {
        NothingBelowSkippedIn(r, t, path, path, node, |node.children|);
      }
    }
  }

  lemma {:induction false} PruningLosesNothingBelow(r: Rules, t: Table, path: Path, node: Node, n: nat)
    requires OnlyExcludes(r) && Rooted(r, t) && node.Dir? && n <= |node.children|
    ensures PrunedBelow(r, t, path, node, n) == FilteredBelow(r, t, path, node, n)
    decreases node, 0, n
  {
    hide Verdict, Rooted, Entry;
    if n > 0 {
      PruningLosesNothingBelow(r, t, path, node, n - 1);
      PruningLosesNothing(r, t, path + [node.children[n - 1].name], node.children[n - 1].node);
    }
  }

  // ----- which entries those are -----

  function ChildNamed(children: seq<Child>, name: string, n: nat): (i: Option<nat>)
    requires n <= |children|
    ensures i.Some? ==> i.value < n && children[i.value].name == name
    ensures i.None? ==> forall j :: 0 <= j < n ==> children[j].name != name
  {
    if n == 0 then None else if children[n - 1].name == name then Some(n - 1) else ChildNamed(children, name, n - 1)
  }

  /** The entry at a path below a node. */
  function Lookup(node: Node, rel: Path): Option<Node>
    decreases |rel|
  {
    if rel == [] then Some(node) else if !node.Dir? then None else
      match ChildNamed(node.children, rel[0], |node.children|)
      case None => None
      case Some(i) => Lookup(node.children[i].node, rel[1..])
  }

  /** The item describes an entry of the tree that is not skipped. */
  predicate Kept(r: Rules, t: Table, path: Path, node: Node, item: Item) {
    path <= item.path &&
    match Lookup(node, item.path[|path|..])
    case None => false
    case Some(found) => Entry(r, t, item.path, found) == Some(item)
  }

  lemma {:induction false} InFilteredBelow(r: Rules, t: Table, path: Path, node: Node, n: nat, item: Item)
    requires node.Dir? && n <= |node.children|
    ensures item in FilteredBelow(r, t, path, node, n)
       <==> exists i :: 0 <= i < n && item in Filtered(r, t, path + [node.children[i].name], node.children[i].node)
    decreases n
  {
    hide Filtered;
    if n > 0 {
      InFilteredBelow(r, t, path, node, n - 1, item);
    }
  }

  lemma KeptByChild(r: Rules, t: Table, path: Path, node: Node, item: Item)
    requires node.Dir? && UniqueNames(node.children)
    ensures (Kept(r, t, path, node, item) && item.path != path)
       <==> exists i :: 0 <= i < |node.children| && Kept(r, t, path + [node.children[i].name], node.children[i].node, item)
  {
    hide Entry;
    if path <= item.path && path != item.path {
      var name := item.path[|path|];
      assert item.path[|path|..][0] == name && item.path[|path|..][1..] == item.path[|path| + 1..];
      var i := ChildNamed(node.children, name, |node.children|);
      if i.Some? {
        assert path + [name] <= item.path;
        assert Kept(r, t, path, node, item) <==> Kept(r, t, path + [name], node.children[i.value].node, item);
      }
    }
    forall i | 0 <= i < |node.children| && Kept(r, t, path + [node.children[i].name], node.children[i].node, item)
      ensures path <= item.path && path != item.path && item.path[|path|] == node.children[i].name
    {
    }
  }

  /** An item is in the filtered list exactly when it describes an entry that is not skipped. */
  lemma {:induction false} FilteredMeans(r: Rules, t: Table, path: Path, node: Node, item: Item)
    requires DistinctNames(node)
    ensures item in Filtered(r, t, path, node) <==> Kept(r, t, path, node, item)
    decreases node
  {
    hide Verdict, FilteredBelow;
    assert path == item.path ==> item.path[|path|..] == [];
    if node.Dir? {
      InFilteredBelow(r, t, path, node, |node.children|, item);
      KeptByChild(r, t, path, node, item);
      forall i | 0 <= i < |node.children|
        ensures item in Filtered(r, t, path + [node.children[i].name], node.children[i].node)
           <==> Kept(r, t, path + [node.children[i].name], node.children[i].node, item)
      {
        FilteredMeans(r, t, path + [node.children[i].name], node.children[i].node, item);
      }
    }
  }

  /** The walk of a root emits exactly the entries below it that are not skipped. */
  lemma RootMeans(r: Rules, t: Table, root: Node, item: Item)
    requires root.Dir? && DistinctNames(root)
    ensures item in FilteredBelow(r, t, [], root, |root.children|) <==> item.path != [] && Kept(r, t, [], root, item)
  {
    hide Filtered, Kept, FilteredBelow;
    InFilteredBelow(r, t, [], root, |root.children|, item);
    KeptByChild(r, t, [], root, item);
    forall i | 0 <= i < |root.children|
      ensures item in Filtered(r, t, [] + [root.children[i].name], root.children[i].node)
         <==> Kept(r, t, [] + [root.children[i].name], root.children[i].node, item)
    {
      FilteredMeans(r, t, [] + [root.children[i].name], root.children[i].node, item);
    }
  }
}
