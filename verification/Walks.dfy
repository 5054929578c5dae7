/** What a walk emits and finds, entry by entry, with any rules and for several roots. */
module Walks {
  import opened Wrappers
  import opened Strings
  import opened Patterns = Pattern
  import opened IgnoreMatcher
  import opened Scanner
  import Glob

  // ----- with any rules: what pruning costs -----

  /** Every directory from the one at `from` down to the parent of the entry is kept. */
  predicate Open(r: Rules, t: Table, from: Path, path: Path) {
    forall k :: |from| <= k < |path| ==> Verdict(r, t, path[..k], true).Keep?
  }

  lemma {:induction false} InPrunedBelow(r: Rules, t: Table, path: Path, node: Node, n: nat, item: Item)
    requires node.Dir? && n <= |node.children|
    ensures item in PrunedBelow(r, t, path, node, n)
       <==> exists i :: 0 <= i < n && item in Pruned(r, t, path + [node.children[i].name], node.children[i].node)
    decreases n
  {
    hide Pruned;
    if n > 0 {
      InPrunedBelow(r, t, path, node, n - 1, item);
    }
  }

  lemma OpenBelow(r: Rules, t: Table, path: Path, name: string, q: Path)
    requires path + [name] <= q
    ensures Open(r, t, path, q) <==> Verdict(r, t, path, true).Keep? && Open(r, t, path + [name], q)
  {
    hide Verdict;
    assert q[..|path|] == path;
  }

  /** A kept entry below a directory, by the child it lies below. */
  predicate KeptOpen(r: Rules, t: Table, path: Path, node: Node, item: Item) {
    Kept(r, t, path, node, item) && Open(r, t, path, item.path)
  }

  lemma KeptOpenByChild(r: Rules, t: Table, path: Path, node: Node, item: Item)
    requires node.Dir? && UniqueNames(node.children)
    ensures (KeptOpen(r, t, path, node, item) && item.path != path)
       <==> Verdict(r, t, path, true).Keep?
            && exists i :: 0 <= i < |node.children| && KeptOpen(r, t, path + [node.children[i].name], node.children[i].node, item)
  {
    hide Verdict, Open;
    KeptByChild(r, t, path, node, item);
    forall i | 0 <= i < |node.children| && Kept(r, t, path + [node.children[i].name], node.children[i].node, item)
      ensures Open(r, t, path, item.path)
         <==> Verdict(r, t, path, true).Keep? && Open(r, t, path + [node.children[i].name], item.path)
    {
      OpenBelow(r, t, path, node.children[i].name, item.path);
    }
  }

  /** With any rules and any table: what the pruning walk emits are the entries that are not skipped and
      lie below no skipped directory. */
  lemma {:induction false} PrunedMeans(r: Rules, t: Table, path: Path, node: Node, item: Item)
    requires DistinctNames(node)
    ensures item in Pruned(r, t, path, node) <==> KeptOpen(r, t, path, node, item)
    decreases node
  {
    hide Verdict, PrunedBelow;
    assert path == item.path ==> item.path[|path|..] == [];
    if node.Dir? {
      InPrunedBelow(r, t, path, node, |node.children|, item);
      KeptOpenByChild(r, t, path, node, item);
      forall i | 0 <= i < |node.children|
        ensures item in Pruned(r, t, path + [node.children[i].name], node.children[i].node)
           <==> KeptOpen(r, t, path + [node.children[i].name], node.children[i].node, item)
      {
        PrunedMeans(r, t, path + [node.children[i].name], node.children[i].node, item);
      }
    }
  }

  /** The same for a root. */
  lemma RootPrunedMeans(r: Rules, t: Table, root: Node, item: Item)
    requires root.Dir? && DistinctNames(root)
    ensures item in RootPruned(r, t, root) <==> item.path != [] && KeptOpen(r, t, [], root, item)
  {
    hide Pruned, KeptOpen, PrunedBelow;
    InPrunedBelow(r, t, [], root, |root.children|, item);
    KeptOpenByChild(r, t, [], root, item);
    forall i | 0 <= i < |root.children|
      ensures item in Pruned(r, t, [] + [root.children[i].name], root.children[i].node)
         <==> KeptOpen(r, t, [] + [root.children[i].name], root.children[i].node, item)
    {
      PrunedMeans(r, t, [] + [root.children[i].name], root.children[i].node, item);
    }
  }

  /** What is recorded of each kind of entry: a directory, whether it can be listed or not, a symbolic
      link, and a file of a size within the limit; nothing is recorded of anything else. */
  lemma EmittedExactly(r: Rules, t: Table, root: Node, path: Path, kind: Kind)
    requires root.Dir? && DistinctNames(root) && path != []
    ensures Item(path, kind) in RootPruned(r, t, root) <==>
              && Open(r, t, [], path)
              && match kind
                 case DirItem =>
                   Verdict(r, t, path, true).Keep?
                   && Lookup(root, path).Some? && (Lookup(root, path).value.Dir? || Lookup(root, path).value.Unreadable?)
                 case LinkItem => Verdict(r, t, path, false).Keep? && Lookup(root, path) == Some(Symlink)
                 case FileItem(size) =>
                   Verdict(r, t, path, false).Keep? && Lookup(root, path) == Some(File(size))
                   && (r.maxFileSize == 0 || size <= r.maxFileSize)
  {
    hide Verdict, Open, Lookup, RootPruned;
    RootPrunedMeans(r, t, root, Item(path, kind));
    assert path[0..] == path;
  }

  /** A walk emits every entry that is not skipped exactly when none of them lies below a skipped
      directory. */
  lemma NothingMissedExactly(r: Rules, t: Table, root: Node)
    requires root.Dir? && DistinctNames(root)
    ensures (forall item :: Kept(r, t, [], root, item) && item.path != [] ==> item in RootPruned(r, t, root))
       <==> (forall item :: Kept(r, t, [], root, item) && item.path != [] ==> Open(r, t, [], item.path))
  {
    hide Kept, Open, RootPruned;
    forall item: Item ensures item in RootPruned(r, t, root) <==> item.path != [] && KeptOpen(r, t, [], root, item) {
      RootPrunedMeans(r, t, root, item);
    }
  }

  // ----- in which order -----

  /** No entry comes twice, and none comes after something below it. */
  predicate InOrder(items: seq<Item>) {
    forall i, j :: 0 <= i < j < |items| ==> !(items[j].path <= items[i].path)
  }

  predicate Before(a: seq<Item>, b: seq<Item>) {
    forall x, y :: x in a && y in b ==> !(y.path <= x.path)
  }

  lemma OrderedConcat(a: seq<Item>, b: seq<Item>)
    requires InOrder(a) && InOrder(b) && Before(a, b)
    ensures InOrder(a + b)
  {
    assert forall j :: |a| <= j < |a + b| ==> (a + b)[j] in b;
  }

  lemma Below(r: Rules, t: Table, path: Path, node: Node, n: nat, item: Item)
    requires node.Dir? && DistinctNames(node) && n <= |node.children| && item in PrunedBelow(r, t, path, node, n)
    ensures path <= item.path && |path| < |item.path|
    ensures exists i :: 0 <= i < n && item.path[|path|] == node.children[i].name
  {
    hide PrunedBelow, Pruned, Kept, Open;
    InPrunedBelow(r, t, path, node, n, item);
    var i :| 0 <= i < n && item in Pruned(r, t, path + [node.children[i].name], node.children[i].node);
    var below := path + [node.children[i].name];
    PrunedMeans(r, t, below, node.children[i].node, item);
    KeptIsUnder(r, t, below, node.children[i].node, item);
    assert item.path[|path|] == below[|path|];
  }

  lemma KeptIsUnder(r: Rules, t: Table, path: Path, node: Node, item: Item)
    requires KeptOpen(r, t, path, node, item)
    ensures path <= item.path
  {
    hide Entry, Lookup;
  }

  lemma {:induction false} PrunedInOrder(r: Rules, t: Table, path: Path, node: Node)
    requires DistinctNames(node)
    ensures InOrder(Pruned(r, t, path, node))
    decreases node, 1
  {
    hide PrunedBelow, InOrder;
    var own := Entry(r, t, path, node);
    if own.Some? && node.Dir? {
      PrunedBelowInOrder(r, t, path, node, |node.children|);
      forall y | y in PrunedBelow(r, t, path, node, |node.children|) ensures !(y.path <= path) {
        Below(r, t, path, node, |node.children|, y);
      }
      FirstInOrder(own.value, PrunedBelow(r, t, path, node, |node.children|));
    } else if own.Some? {
      FirstInOrder(own.value, []);
    } else {
      FewInOrder();
    }
  }

  lemma FewInOrder()
    ensures InOrder([])
  {}

  lemma FirstInOrder(first: Item, rest: seq<Item>)
    requires (rest == [] || InOrder(rest)) && forall y :: y in rest ==> !(y.path <= first.path)
    ensures InOrder([first] + rest)
  {
    assert forall j :: 0 < j < |[first] + rest| ==> ([first] + rest)[j] in rest;
  }

  lemma {:induction false} PrunedBelowInOrder(r: Rules, t: Table, path: Path, node: Node, n: nat)
    requires node.Dir? && DistinctNames(node) && n <= |node.children|
    ensures InOrder(PrunedBelow(r, t, path, node, n))
    decreases node, 0, n
  {
    hide Pruned, InOrder;
    if n == 0 {
      FewInOrder();
    } else {
      var last := node.children[n - 1];
      var earlier, later := PrunedBelow(r, t, path, node, n - 1), Pruned(r, t, path + [last.name], last.node);
      PrunedBelowInOrder(r, t, path, node, n - 1);
      PrunedInOrder(r, t, path + [last.name], last.node);
      forall x, y | x in earlier && y in later ensures !(y.path <= x.path) {
        Below(r, t, path, node, n - 1, x);
        PrunedMeans(r, t, path + [last.name], last.node, y);
        KeptIsUnder(r, t, path + [last.name], last.node, y);
        assert y.path[|path|] == last.name;
      }
      OrderedConcat(earlier, later);
    }
  }

  /** A walk of a root records no entry twice, and a directory before what lies below it. */
  lemma RecordedInOrder(r: Rules, t: Table, root: Node)
    requires DistinctNames(root)
    ensures InOrder(RootPruned(r, t, root))
  {
    hide PrunedBelow, InOrder;
    if root.Dir? {
      PrunedBelowInOrder(r, t, [], root, |root.children|);
    } else {
      FewInOrder();
    }
  }

  // ----- which projects a walk finds -----

  /** The path is that of a kept directory, below kept directories, whose names make it a project. */
  predicate IsProject(r: Rules, detect: Detector, t: Table, path: Path, node: Node, q: Path) {
    && path <= q && Open(r, t, path, q) && Verdict(r, t, q, true).Keep?
    && var at := Lookup(node, q[|path|..]);
       at.Some? && at.value.Dir? && detect(Names(at.value.children)).Some?
  }

  function RulesAt(detect: Detector, path: Path, node: Node, q: Path): Option<seq<Pattern>>
    requires path <= q
  {
    var at := Lookup(node, q[|path|..]);
    if at.None? || !at.value.Dir? then None else
      match detect(Names(at.value.children))
      case None => None
      case Some(excluded) => Some(Compiled(excluded))
  }

  /** The table maps the path to exactly what the definition says. */
  predicate FoundAt(r: Rules, detect: Detector, t: Table, path: Path, node: Node, q: Path, found: Table) {
    && (q in found <==> IsProject(r, detect, t, path, node, q))
    && (q in found ==> path <= q && Some(found[q]) == RulesAt(detect, path, node, q))
  }

  lemma LookupChild(path: Path, node: Node, q: Path)
    requires node.Dir? && UniqueNames(node.children) && path <= q && path != q
    ensures var i := ChildNamed(node.children, q[|path|], |node.children|);
            Lookup(node, q[|path|..]) == if i.None? then None else Lookup(node.children[i.value].node, q[|path| + 1..])
  {
    assert q[|path|..][0] == q[|path|] && q[|path|..][1..] == q[|path| + 1..];
  }

  /** What a child's subtree says of a path is what the directory says of it, if the directory is kept. */
  lemma ProjectOfChild(r: Rules, detect: Detector, t: Table, path: Path, node: Node, i: nat, q: Path)
    requires node.Dir? && UniqueNames(node.children) && i < |node.children| && path + [node.children[i].name] <= q
    ensures IsProject(r, detect, t, path, node, q)
       <==> Verdict(r, t, path, true).Keep? && IsProject(r, detect, t, path + [node.children[i].name], node.children[i].node, q)
    ensures RulesAt(detect, path, node, q) == RulesAt(detect, path + [node.children[i].name], node.children[i].node, q)
  {
    hide Verdict, Open, Lookup, UniqueNames;
    OpenBelow(r, t, path, node.children[i].name, q);
    LookupNamed(path, node, i, q);
  }

  lemma LookupNamed(path: Path, node: Node, i: nat, q: Path)
    requires node.Dir? && UniqueNames(node.children) && i < |node.children| && path + [node.children[i].name] <= q
    ensures path <= q && Lookup(node, q[|path|..]) == Lookup(node.children[i].node, q[|path| + 1..])
  {
    LookupChild(path, node, q);
    assert q[|path|] == node.children[i].name;
  }

  /** The paths among the first `n` children. */
  predicate Among(path: Path, node: Node, n: nat, q: Path)
    requires node.Dir? && n <= |node.children|
  {
    exists i :: 0 <= i < n && AtChild(path, node, i, q)
  }

  lemma {:induction false} FoundBelowMeans(r: Rules, detect: Detector, t: Table, path: Path, node: Node, n: nat, q: Path)
    requires node.Dir? && DistinctNames(node) && n <= |node.children| && Verdict(r, t, path, true).Keep?
    ensures q in FoundBelow(r, detect, t, path, node, n) <==> Among(path, node, n, q) && IsProject(r, detect, t, path, node, q)
    ensures q in FoundBelow(r, detect, t, path, node, n) ==>
              path <= q && Some(FoundBelow(r, detect, t, path, node, n)[q]) == RulesAt(detect, path, node, q)
    decreases node, 0, n
  {
    hide Verdict, Entry, IsProject, RulesAt, Lookup, Found;
    if n > 0 {
      var child, last := path + [node.children[n - 1].name], node.children[n - 1].node;
      FoundBelowMeans(r, detect, t, path, node, n - 1, q);
      FoundMeans(r, detect, t, child, last, q);
      assert AtChild(path, node, n - 1, q) <==> child <= q;
      assert child <= q ==> q[|path|] == node.children[n - 1].name;
      assert Among(path, node, n, q) <==> Among(path, node, n - 1, q) || AtChild(path, node, n - 1, q);
      if child <= q {
        ProjectOfChild(r, detect, t, path, node, n - 1, q);
      } else {
        NotAbove(r, detect, t, child, last, q);
      }
    }
  }

  lemma NotAbove(r: Rules, detect: Detector, t: Table, path: Path, node: Node, q: Path)
    requires !(path <= q)
    ensures !IsProject(r, detect, t, path, node, q)
  {}

  lemma ProjectIsAmong(r: Rules, detect: Detector, t: Table, path: Path, node: Node, q: Path)
    requires DistinctNames(node) && IsProject(r, detect, t, path, node, q) && q != path
    ensures node.Dir? && Among(path, node, |node.children|, q) && Verdict(r, t, path, true).Keep?
  {
    hide Verdict;
    assert q[..|path|] == path;
    if node.Dir? {
      LookupChild(path, node, q);
      var i := ChildNamed(node.children, q[|path|], |node.children|).value;
      assert AtChild(path, node, i, q);
    }
  }

  lemma ProjectAtItself(r: Rules, detect: Detector, t: Table, path: Path, node: Node)
    ensures IsProject(r, detect, t, path, node, path)
       <==> node.Dir? && Verdict(r, t, path, true).Keep? && detect(Names(node.children)).Some?
    ensures RulesAt(detect, path, node, path)
         == if node.Dir? && detect(Names(node.children)).Some? then Some(Compiled(detect(Names(node.children)).value)) else None
  {
    hide Verdict;
    assert path[|path|..] == [];
  }

  /** Which projects a walk finds, and their rules. */
  lemma {:induction false} FoundMeans(r: Rules, detect: Detector, t: Table, path: Path, node: Node, q: Path)
    requires DistinctNames(node)
    ensures FoundAt(r, detect, t, path, node, q, Found(r, detect, t, path, node))
    decreases node, 1
  {
    hide Verdict, FoundBelow, IsProject, RulesAt, Compiled;
    ProjectAtItself(r, detect, t, path, node);
    if IsProject(r, detect, t, path, node, q) && q != path {
      ProjectIsAmong(r, detect, t, path, node, q);
    }
    if node.Dir? && Verdict(r, t, path, true).Keep? {
      FoundBelowMeans(r, detect, t, path, node, |node.children|, q);
      assert q == path ==> !Among(path, node, |node.children|, q);
    }
  }

  /** The same for a root, which is a project when its own names say so. */
  lemma RootFoundMeans(r: Rules, detect: Detector, t: Table, root: Node, q: Path)
    requires root.Dir? && DistinctNames(root)
    ensures FoundAt(r, detect, t, [], root, q, RootFound(r, detect, t, root))
  {
    hide FoundBelow, IsProject, RulesAt, Compiled, Among;
    ProjectAtItself(r, detect, t, [], root);
    RootIsKept(r, t);
    if IsProject(r, detect, t, [], root, q) && q != [] {
      ProjectIsAmong(r, detect, t, [], root, q);
    }
    FoundBelowMeans(r, detect, t, [], root, |root.children|, q);
    NotAmongItself(root);
  }

  lemma RootIsKept(r: Rules, t: Table)
    ensures Verdict(r, t, [], true).Keep?
  {}

  lemma NotAmongItself(root: Node)
    requires root.Dir?
    ensures !Among([], root, |root.children|, [])
  {}

  // ----- several roots -----

  lemma {:induction false} TablesGrow(r: Rules, detect: Detector, roots: seq<Node>, tables: seq<Table>, i: nat, j: nat)
    requires IsWalk(r, detect, roots, tables) && i <= j <= |roots|
    ensures tables[i].Keys <= tables[j].Keys
    decreases j
  {
    hide RootFound;
    if i < j {
      TablesGrow(r, detect, roots, tables, i, j - 1);
      assert FollowsFrom(r, detect, tables[j - 1], tables[j], roots[j - 1]);
    }
  }

  /** No rule of the user, no hidden name and no built-in rule decides: it is left to the project. */
  predicate LeftToProject(r: Rules, path: Path, isDir: bool) {
    && path != [] && path != ["."] && FirstHit(r.includes, path, isDir, 0).None?
    && LastHit(r.excludes, path, isDir, |r.excludes|).None?
    && !(r.skipHidden && exists k :: 0 <= k < |path| && HiddenName(path[k]))
    && FirstHit(r.globals, path, isDir, 0).None?
  }

  /** In the later table the innermost project above the entry is one that was registered since, with
      other rules or anew, and its rules skip the entry. */
  predicate Overtaken(r: Rules, t: Table, t': Table, path: Path, isDir: bool) {
    && LeftToProject(r, path, isDir) && r.dev != []
    && var root := Innermost(t', path, |path| - 1);
       && root.Some? && !SameAt(t, t', path[..root.value])
       && ProjectVerdict(t'[path[..root.value]], r.dev, root.value, path, isDir, |path|).Skip?
  }

  lemma {:induction false} InnermostStays(t: Table, t': Table, path: Path, n: nat)
    requires t.Keys <= t'.Keys && n <= |path|
    requires Innermost(t', path, n).Some? ==> SameAt(t, t', path[..Innermost(t', path, n).value])
    ensures Innermost(t, path, n) == Innermost(t', path, n)
    decreases n
  {
    if n > 0 && path[..n] !in t' {
      InnermostStays(t, t', path, n - 1);
    }
  }

  lemma InProjectStays(r: Rules, t: Table, t': Table, path: Path, isDir: bool)
    requires path != [] && t.Keys <= t'.Keys && InProject(r, t, path, isDir).Keep?
    ensures InProject(r, t', path, isDir).Keep? <==>
              !(r.dev != []
                && var root := Innermost(t', path, |path| - 1);
                   && root.Some? && !SameAt(t, t', path[..root.value])
                   && ProjectVerdict(t'[path[..root.value]], r.dev, root.value, path, isDir, |path|).Skip?)
  {
    hide ProjectVerdict;
    var root := Innermost(t', path, |path| - 1);
    if root.Some? ==> SameAt(t, t', path[..root.value]) {
      InnermostStays(t, t', path, |path| - 1);
    }
  }

  /** An entry that was kept is still kept by a later table exactly when it was not overtaken. */
  lemma StaysKeptExactly(r: Rules, t: Table, t': Table, path: Path, isDir: bool)
    requires t.Keys <= t'.Keys && Verdict(r, t, path, isDir).Keep?
    ensures Verdict(r, t', path, isDir).Keep? <==> !Overtaken(r, t, t', path, isDir)
    ensures (forall k :: 0 <= k < |path| ==> SameAt(t, t', path[..k])) ==> !Overtaken(r, t, t', path, isDir)
  {
    hide Hits, HiddenName, InProject, Innermost, ProjectVerdict;
    if LeftToProject(r, path, isDir) {
      InProjectStays(r, t, t', path, isDir);
    }
  }

  /** Of a walk over several roots: what an earlier root emitted is kept by the final table exactly when
      no project found in a later root overtakes it. */
  lemma EarlierRootStaysExactly(r: Rules, detect: Detector, roots: seq<Node>, tables: seq<Table>, i: nat, item: Item)
    requires IsWalk(r, detect, roots, tables) && i < |roots| && roots[i].Dir? && DistinctNames(roots[i])
    requires item in RootPruned(r, tables[i + 1], roots[i])
    ensures Verdict(r, tables[|roots|], item.path, item.kind.DirItem?).Keep?
       <==> !Overtaken(r, tables[i + 1], tables[|roots|], item.path, item.kind.DirItem?)
  {
    hide Verdict, Overtaken, RootPruned;
    RootPrunedMeans(r, tables[i + 1], roots[i], item);
    KeptMeansKeep(r, tables[i + 1], roots[i], item);
    TablesGrow(r, detect, roots, tables, i + 1, |roots|);
    StaysKeptExactly(r, tables[i + 1], tables[|roots|], item.path, item.kind.DirItem?);
  }

  lemma KeptMeansKeep(r: Rules, t: Table, root: Node, item: Item)
    requires Kept(r, t, [], root, item)
    ensures Verdict(r, t, item.path, item.kind.DirItem?).Keep?
  {
    hide Verdict, Lookup;
  }

  /** When nothing was registered since at the root or at a directory that was emitted, the earlier root
      would emit the same under the later table, skips included. */
  lemma {:induction false} SameWalkUnder(r: Rules, t: Table, t': Table, path: Path, node: Node)
    requires forall j :: 0 <= j < |path| ==> SameAt(t, t', path[..j])
    requires forall item :: item in Pruned(r, t, path, node) && item.kind.DirItem? ==> SameAt(t, t', item.path)
    ensures Pruned(r, t', path, node) == Pruned(r, t, path, node)
    decreases node, 1
  {
    hide Verdict, SameAt, PrunedBelow;
    EntryFrame(r, t, t', path, node);
    if node.Dir? && Entry(r, t, path, node).Some? {
      var own := Entry(r, t, path, node).value;
      assert own.path == path && own.kind.DirItem? && path[..|path|] == path;
      assert Pruned(r, t, path, node) == [own] + PrunedBelow(r, t, path, node, |node.children|);
      assert own in Pruned(r, t, path, node) && SameAt(t, t', own.path);
      SameWalkBelow(r, t, t', path, node, |node.children|);
    }
  }

  lemma {:induction false} SameWalkBelow(r: Rules, t: Table, t': Table, path: Path, node: Node, n: nat)
    requires node.Dir? && n <= |node.children| && forall j :: 0 <= j <= |path| ==> SameAt(t, t', path[..j])
    requires forall item :: item in PrunedBelow(r, t, path, node, n) && item.kind.DirItem? ==> SameAt(t, t', item.path)
    ensures PrunedBelow(r, t', path, node, n) == PrunedBelow(r, t, path, node, n)
    decreases node, 0, n
  {
    hide SameAt, Pruned;
    if n > 0 {
      SameWalkBelow(r, t, t', path, node, n - 1);
      var child := path + [node.children[n - 1].name];
      forall j | 0 <= j < |child| ensures SameAt(t, t', child[..j]) {
        assert child[..j] == path[..j];
      }
      SameWalkUnder(r, t, t', child, node.children[n - 1].node);
    }
  }

  // ----- where the premises are needed -----

  const SKIP_A := Pattern(["a"], false, false, true)
  const KEEP_AB := Pattern(["a", "b"], false, false, true)
  const ASK_FOR_AB := Rules([KEEP_AB], [SKIP_A], [], [], false, 0)
  const INNER := Dir([Child("b", Symlink)])
  const OUTER := Dir([Child("a", INNER)])

  lemma NameMatchesItself(c: char)
    requires c == 'a' || c == 'b'
    ensures SegMatch([[c]], [[c]])
  {
    assert Glob.Matches([c], [c]);
    assert [[c]][1..] == [];
  }

  lemma AskedForRules()
    ensures Holds(SKIP_A, ["a"], true) && !Holds(KEEP_AB, ["a"], true) && Holds(KEEP_AB, ["a", "b"], false)
  {
    NameMatchesItself('a');
    NameMatchesItself('b');
    assert ["a", "b"][1..] == ["b"] && ["a"][1..] == [];
    assert Glob.Matches("a", "a");
    assert !SegMatch(["b"], []);
  }

  lemma AskedForVerdicts()
    ensures Verdict(ASK_FOR_AB, map[], ["a"], true).Skip? && Verdict(ASK_FOR_AB, map[], ["a", "b"], false).Keep?
  {
    AskedForRules();
    hide Holds;
    assert ["a"][..1] == ["a"] && ["a", "b"][..2] == ["a", "b"];
    assert Hits(SKIP_A, ["a"], true) && Hits(KEEP_AB, ["a", "b"], false);
    assert !Hits(KEEP_AB, ["a"], true);
  }

  /** With a rule that brings an entry back, the walk does not reach it inside a skipped directory. */
  lemma AskedForButPruned()
    ensures DistinctNames(OUTER) && Kept(ASK_FOR_AB, map[], [], OUTER, Item(["a", "b"], LinkItem))
    ensures PrunedBelow(ASK_FOR_AB, map[], [], OUTER, 1) == []
  {
    AskedForVerdicts();
    hide Verdict;
    assert ["a", "b"][0..] == ["a", "b"] && ["a", "b"][1..] == ["b"] && ["b"][1..] == [];
    assert Lookup(INNER, ["b"]) == Some(Symlink);
    assert Lookup(OUTER, ["a", "b"]) == Some(Symlink);
    assert [] + ["a"] == ["a"];
    assert Pruned(ASK_FOR_AB, map[], ["a"], INNER) == [];
  }

  const DEV_RULES := Rules([], [], [], [SKIP_A], false, 0)
  const FIRST_ROOT := Dir([Child("b", Dir([]))])
  const SECOND_ROOT := Dir([Child("m", File(0))])

  /** A directory that holds "m" is a project that excludes "b". */
  function MarkedByM(names: seq<string>): Option<seq<string>> {
    if "m" in names then Some(["b"]) else None
  }

  lemma CompiledB()
    ensures Compiled(["b"]) == [Pattern(["b"], false, true, true)]
  {
    hide Split, ReplaceAll, TrimSpace;
    assert "/" + "b" + "/" == "/b/";
    PlainTrim("/b/");
    assert ParseLine("/b/") == Line("b", false, true, true);
    assert ["b"][..0] == [];
  }

  lemma FoundInTwoRoots(t: Table)
    ensures RootFound(DEV_RULES, MarkedByM, t, FIRST_ROOT) == map[]
    ensures RootFound(DEV_RULES, MarkedByM, t, SECOND_ROOT) == map[[] := Compiled(["b"])]
  {
    hide Entry, Compiled;
    assert Names(FIRST_ROOT.children) == ["b"] && Names(SECOND_ROOT.children) == ["m"];
    assert Names([]) == [];
    assert Found(DEV_RULES, MarkedByM, t, [] + ["b"], Dir([])) == map[];
    assert Found(DEV_RULES, MarkedByM, t, [] + ["m"], File(0)) == map[];
    assert FoundBelow(DEV_RULES, MarkedByM, t, [], FIRST_ROOT, 1) == map[];
    assert FoundBelow(DEV_RULES, MarkedByM, t, [], SECOND_ROOT, 1) == map[];
  }

  lemma TwoVerdicts()
    ensures Verdict(DEV_RULES, map[], ["b"], true).Keep?
    ensures Verdict(DEV_RULES, map[[] := Compiled(["b"])], ["b"], true).Skip?
  {
    CompiledB();
    SkippedB();
    hide Compiled, FirstHolding, Holds;
    assert ["b"][..0] == [] && ["b"][0..1] == ["b"];
  }

  lemma SkippedB()
    ensures FirstHolding([Pattern(["b"], false, true, true)], ["b"], true, 0) == Some(0)
  {
    hide SegMatch;
    NameMatchesItself('b');
  }

  /** Projects are known by their path below the root, whichever root that is: this walk of two roots
      emits a directory of the first that the table it ends with skips. */
  method TwoRoots() returns (emitted: seq<Item>, projects: Table)
    ensures Item(["b"], DirItem) in emitted && Verdict(DEV_RULES, projects, ["b"], true).Skip?
  {
    hide Verdict, Compiled, RootFound;
    var matcher := new Matcher(DEV_RULES);
    var scanner := new Scanner(matcher, MarkedByM);
    ghost var tables := scanner.Walk([FIRST_ROOT, SECOND_ROOT]);
    FoundInTwoRoots(tables[1]);
    FoundInTwoRoots(tables[2]);
    TwoVerdicts();
    assert FollowsFrom(DEV_RULES, MarkedByM, tables[0], tables[1], FIRST_ROOT);
    assert FollowsFrom(DEV_RULES, MarkedByM, tables[1], tables[2], SECOND_ROOT);
    var none: Table := map[];
    assert tables[1] == none + none == none;
    assert tables[2] == none + map[[] := Compiled(["b"])] == map[[] := Compiled(["b"])];
    assert [] + ["b"] == ["b"];
    assert Item(["b"], DirItem) in RootPruned(DEV_RULES, tables[1], FIRST_ROOT);
    emitted, projects := scanner.emitted, matcher.projects;
  }
}
