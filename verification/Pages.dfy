/** Reading a resolved file list in pages, in the order of the path bytes. */
module Pages {
  import opened Wrappers
  import opened Strings
  import opened Paths
  import opened Repository
  import opened RepositoryInvariant
  import opened Tree

  // ----- a set of paths in order -----

  predicate Sorted(s: seq<Path>) {
    forall i, j :: 0 <= i < j < |s| ==> Less(s[i], s[j])
  }

  predicate Within(s: seq<Path>, keys: set<Path>) {
    forall i :: 0 <= i < |s| ==> s[i] in keys
  }

  predicate IsListing(s: seq<Path>, keys: set<Path>) {
    Sorted(s) && Within(s, keys) && forall p :: p in keys ==> p in s
  }

  predicate IsLeast(m: Path, keys: set<Path>) {
    m in keys && forall p :: p in keys ==> AtMost(m, p)
  }

  lemma {:induction false} LeastExists(keys: set<Path>) returns (m: Path)
    requires keys != {}
    ensures IsLeast(m, keys)
    decreases |keys|
  {
    hide Less;
    var k :| k in keys;
    if keys == {k} {
      m := k;
    } else {
      var l := LeastExists(keys - {k});
      LessTotal(k, l);
      m := if Less(k, l) then k else l;
      forall p | p in keys ensures AtMost(m, p) {
        if p != k && m == k && p != l {
          assert p in keys - {k};
          LessTransitive(k, l, p);
        }
      }
    }
  }

  lemma HeadIsLeast(s: seq<Path>, p: Path)
    requires Sorted(s) && p in s
    ensures AtMost(s[0], p)
  {}

  lemma InTail(s: seq<Path>, p: Path)
    requires s != [] && Sorted(s)
    ensures p in s[1..] <==> p in s && p != s[0]
  {
    hide Less;
    assert s == [s[0]] + s[1..];
    if i :| 1 <= i < |s| && s[i] == p {
      LessAsymmetric(s[0], s[i]);
    }
  }

  /** A set has one ordered listing. */
  lemma {:induction false} ListingIsUnique(s: seq<Path>, t: seq<Path>, keys: set<Path>)
    requires IsListing(s, keys) && IsListing(t, keys)
    ensures s == t
    decreases |s|
  {
    hide Less;
    assert t != [] ==> t[0] in keys;
    if s != [] {
      assert s[0] in s && s[0] in t;
      assert t[0] in t && t[0] in s;
      HeadIsLeast(s, t[0]);
      HeadIsLeast(t, s[0]);
      if s[0] != t[0] {
        LessAsymmetric(s[0], t[0]);
        assert false;
      }
      forall p | p in keys - {s[0]} ensures p in s[1..] && p in t[1..] {
        InTail(s, p);
        InTail(t, p);
      }
      forall i | 0 <= i < |s| - 1 ensures s[1..][i] in keys - {s[0]} { InTail(s, s[1..][i]); }
      forall i | 0 <= i < |t| - 1 ensures t[1..][i] in keys - {s[0]} { InTail(t, t[1..][i]); }
      ListingIsUnique(s[1..], t[1..], keys - {s[0]});
    }
  }

  /** ORDER BY path. */
  method Order(keys: set<Path>) returns (s: seq<Path>)
    ensures IsListing(s, keys)
  {
    hide Less;
    s := [];
    var rest := keys;
    while rest != {}
      invariant Sorted(s) && Within(s, keys) && rest <= keys
      invariant forall p :: p in keys && p !in rest ==> p in s
      invariant forall i, q :: 0 <= i < |s| && q in rest ==> Less(s[i], q)
      decreases |rest|
    {
      ghost var least := LeastExists(rest);
      var m :| m in rest && forall p :: p in rest ==> AtMost(m, p);
      ghost var before, left := s, rest;
      s := s + [m];
      assert s[|s| - 1] == m && forall p :: p in before ==> p in s;
      rest := rest - {m};
      forall q | q in rest ensures Less(m, q) {
        assert q in left && AtMost(m, q);
      }
    }
  }

  // ----- one page -----

  datatype Row = Row(path: Path, entry: Entry)

  /** The rows of the first `k` paths. */
  function FirstRows(tree: map<Path, Entry>, paths: seq<Path>, k: nat): (rows: seq<Row>)
    requires k <= |paths| && Within(paths, tree.Keys)
    ensures |rows| == k && forall i :: 0 <= i < k ==> rows[i] == Row(paths[i], tree[paths[i]])
  {
    if k == 0 then [] else FirstRows(tree, paths, k - 1) + [Row(paths[k - 1], tree[paths[k - 1]])]
  }

  function Rows(tree: map<Path, Entry>, paths: seq<Path>): seq<Row>
    requires Within(paths, tree.Keys)
  {
    FirstRows(tree, paths, |paths|)
  }

  /** The filter of the query: a range scan for the prefix and a name test. */
  predicate Wanted(prefix: string, hit: string -> bool, p: Path) {
    && (prefix == "" || p == prefix || (AtMost(prefix + "/", p) && Less(p, prefix + "0")))
    && hit(p)
  }

  /** The range scan selects the path itself and everything under it. */
  lemma WantedIsUnderPrefix(prefix: string, hit: string -> bool, p: Path)
    ensures Wanted(prefix, hit, p) <==> (prefix == "" || p == prefix || prefix + "/" <= p) && hit(p)
  {
    PrefixIsRange(prefix, p);
  }

  function Selected(tree: map<Path, Entry>, prefix: string, hit: string -> bool, cursor: string): set<Path> {
    set p | p in tree && Less(cursor, p) && Wanted(NormalizePath(prefix), hit, p)
  }

  function PageLimit(limit: int): nat {
    if limit <= 0 || limit > 5000 then 1000 else limit
  }

  datatype Page = Page(rows: seq<Row>, next: string)

  /** One page: the first rows after the cursor, and the cursor of the next page when there are more. */
  predicate IsPage(page: Page, tree: map<Path, Entry>, listing: seq<Path>, limit: int)
    requires Within(listing, tree.Keys)
  {
    var n := PageLimit(limit);
    if |listing| <= n then page == Page(Rows(tree, listing), "")
    else page == Page(FirstRows(tree, listing, n), listing[n - 1])
  }

  ghost function ListingOf(keys: set<Path>): (s: seq<Path>)
    ensures IsListing(s, keys)
    decreases |keys|
  {
    ListingExists(keys);
    var s :| IsListing(s, keys);
    s
  }

  lemma {:induction false} ListingExists(keys: set<Path>)
    ensures exists s :: IsListing(s, keys)
    decreases |keys|
  {
    hide Less;
    if keys == {} {
      assert IsListing([], keys);
    } else {
      var m := LeastExists(keys);
      ListingExists(keys - {m});
      var rest :| IsListing(rest, keys - {m});
      forall p | p in keys ensures p in [m] + rest {
        assert p != m ==> p in keys - {m};
      }
      assert IsListing([m] + rest, keys);
    }
  }

  /** The rows of the query in order. */
  ghost function Listing(tree: map<Path, Entry>, prefix: string, hit: string -> bool, cursor: string): (s: seq<Path>)
    ensures IsListing(s, Selected(tree, prefix, hit, cursor)) && Within(s, tree.Keys)
  {
    ListingOf(Selected(tree, prefix, hit, cursor))
  }

  method TreeRange(r: Repo, id: Id, prefix: string, hit: string -> bool, cursor: string, limit: int)
    returns (page: Result<Page, Error>)
    ensures match TreeOf(r.snaps, id)
            case Err(e) => page == Err(e)
            case Ok(tree) => page.Ok? && IsPage(page.value, tree, Listing(tree, prefix, hit, cursor), limit)
  {
    match SnapshotChain(r.snaps, id)
    case Err(e) => return Err(e);
    case Ok(chain) =>
      if chain == [] {
        return Err(NotFound);
      }
      QueryIsFold(r.snaps, chain);
      var tree := QueryTree(r.snaps, chain);
      var found := Order(Selected(tree, prefix, hit, cursor));
      ListingIsUnique(found, Listing(tree, prefix, hit, cursor), Selected(tree, prefix, hit, cursor));
      var n := PageLimit(limit);
      if |found| > n {
        return Ok(Page(FirstRows(tree, found, n), found[n - 1]));
      }
      return Ok(Page(Rows(tree, found), ""));
  }

  /** What is asked for: what comes after the cursor, is the path of the prefix or lies below it, and has
      a name that hits; a prefix that is no path stands for everything. */
  predicate AskedFor(tree: map<Path, Entry>, prefix: string, hit: string -> bool, cursor: string, p: Path) {
    && p in tree && Less(cursor, p) && hit(p)
    && match CleanPath(prefix)
       case None => true
       case Some(q) => p == q || q + "/" <= p
  }

  lemma SelectedIsAskedFor(tree: map<Path, Entry>, prefix: string, hit: string -> bool, cursor: string, p: Path)
    ensures p in Selected(tree, prefix, hit, cursor) <==> AskedFor(tree, prefix, hit, cursor, p)
  {
    hide Less, CleanPath;
    WantedIsUnderPrefix(NormalizePath(prefix), hit, p);
  }

  lemma AskedIsNotEmpty(tree: map<Path, Entry>, prefix: string, hit: string -> bool, cursor: string, p: Path)
    ensures AskedFor(tree, prefix, hit, cursor, p) ==> p != ""
  {
    LessFromEmpty(cursor, p);
  }

  /** A page holds, in order, what is asked for, each with its entry; at most as many as the limit, or 1000
      if that is not between 1 and 5000. A cursor is the last path of a full page. */
  lemma PageExactly(page: Page, tree: map<Path, Entry>, prefix: string, hit: string -> bool, cursor: string, limit: int)
    requires IsPage(page, tree, Listing(tree, prefix, hit, cursor), limit)
    ensures var most := if 1 <= limit <= 5000 then limit else 1000;
            && |page.rows| <= most
            && (forall i, j :: 0 <= i < j < |page.rows| ==> Less(page.rows[i].path, page.rows[j].path))
            && (forall row :: row in page.rows ==>
                  AskedFor(tree, prefix, hit, cursor, row.path) && row.entry == tree[row.path])
            && (page.next != "" ==> |page.rows| == most && page.next == page.rows[most - 1].path)
  {
    hide Less, AskedFor, Selected, FirstRows, Listing;
    forall i | 0 <= i < |page.rows| ensures AskedFor(tree, prefix, hit, cursor, page.rows[i].path) {
      SelectedIsAskedFor(tree, prefix, hit, cursor, page.rows[i].path);
    }
  }

  /** Nothing that is asked for is lost: it is on the page, or after its cursor. */
  lemma PageLosesNothing(page: Page, tree: map<Path, Entry>, prefix: string, hit: string -> bool, cursor: string, limit: int,
                         p: Path)
    requires IsPage(page, tree, Listing(tree, prefix, hit, cursor), limit) && AskedFor(tree, prefix, hit, cursor, p)
    ensures (exists row :: row in page.rows && row.path == p) || (page.next != "" && Less(page.next, p))
  {
    hide Less, AskedFor, Selected, FirstRows, Listing;
    var listing := Listing(tree, prefix, hit, cursor);
    SelectedIsAskedFor(tree, prefix, hit, cursor, p);
    var i :| 0 <= i < |listing| && listing[i] == p;
    if i < |page.rows| {
      assert page.rows[i].path == p;
    } else {
      var last := listing[|page.rows| - 1];
      SelectedIsAskedFor(tree, prefix, hit, cursor, last);
      AskedIsNotEmpty(tree, prefix, hit, cursor, last);
    }
  }

  // ----- all pages -----

  /** Paths are never empty, so the empty cursor stands before all of them. */
  lemma TreePathsNotEmpty(r: Repo, id: Id)
    requires Inv(r) && TreeOf(r.snaps, id).Ok?
    ensures "" !in TreeOf(r.snaps, id).value
  {
    hide ChainShort, ParentOK, OwnerOK, Stored;
    var ids := SnapshotChain(r.snaps, id).value;
    FoldAt(r.snaps, ids, "");
    forall i | 0 <= i < |ids| ensures "" !in r.snaps[ids[i]].entries {
      assert ids[i] in ids;
      assert SnapOK(r, ids[i]);
    }
  }

  /** What comes after the path at position k - 1 of a listing is the rest of the listing. */
  lemma ListingAfter(tree: map<Path, Entry>, prefix: string, hit: string -> bool, whole: seq<Path>, k: nat, cursor: string)
    requires IsListing(whole, Selected(tree, prefix, hit, "")) && k <= |whole|
    requires cursor == if k == 0 then "" else whole[k - 1]
    ensures IsListing(whole[k..], Selected(tree, prefix, hit, cursor))
  {
    hide Less, Wanted, NormalizePath;
    forall p | p in Selected(tree, prefix, hit, cursor) ensures p in whole[k..] {
      LessFromEmpty(cursor, p);
      assert p in Selected(tree, prefix, hit, "");
      var i :| 0 <= i < |whole| && whole[i] == p;
      LessAsymmetric(cursor, p);
      assert i < k ==> AtMost(p, cursor);
      assert whole[k..][i - k] == p;
    }
  }

  const CLIENT_PAGE := 500

  /** One more page: the rows so far grow by the next stretch of the listing, and a page without a
      cursor is the last. */
  lemma OneMorePage(tree: map<Path, Entry>, whole: seq<Path>, k: nat, page: Page)
    requires "" !in tree && Within(whole, tree.Keys) && k <= |whole| && Within(whole[k..], tree.Keys)
    requires IsPage(page, tree, whole[k..], CLIENT_PAGE)
    ensures var n := |page.rows|;
            && k + n <= |whole| && FirstRows(tree, whole, k) + page.rows == FirstRows(tree, whole, k + n)
            && (if page.next == "" then k + n == |whole| else n > 0 && page.next == whole[k + n - 1])
  {
    hide FirstRows;
  }

  /** The restore client follows the cursors to the end and gets the whole ordered list under the
      prefix, no path lost or repeated; the guard against a repeating cursor never fires. */
  method FetchAll(r: Repo, id: Id, prefix: string, hit: string -> bool)
    returns (res: Result<seq<Row>, Error>)
    requires Inv(r)
    ensures match TreeOf(r.snaps, id)
            case Err(e) => res == Err(e)
            case Ok(tree) => res == Ok(Rows(tree, Listing(tree, prefix, hit, "")))
  {
    hide Less, Wanted, TreeOf, Inv, IsPage, FirstRows, Selected, Sorted, Listing;
    if TreeOf(r.snaps, id).Err? {
      return Err(TreeOf(r.snaps, id).error);
    }
    ghost var tree := TreeOf(r.snaps, id).value;
    TreePathsNotEmpty(r, id);
    ghost var whole := Listing(tree, prefix, hit, "");
    var rows: seq<Row> := [];
    var cursor := "";
    var seen: set<string> := {};
    ghost var k: nat := 0;
    while true
      invariant k <= |whole| && cursor == if k == 0 then "" else whole[k - 1]
      invariant rows == FirstRows(tree, whole, k)
      invariant seen <= set i | 0 <= i < k :: whole[i]
      decreases |whole| - k
    {
      var page := TreeRange(r, id, prefix, hit, cursor, CLIENT_PAGE);
      ListingAfter(tree, prefix, hit, whole, k, cursor);
      ListingIsUnique(Listing(tree, prefix, hit, cursor), whole[k..], Selected(tree, prefix, hit, cursor));
      OneMorePage(tree, whole, k, page.value);
      ghost var n := |page.value.rows|;
      if |page.value.rows| == 0 {
        assert rows + page.value.rows == rows;
        break;
      }
      rows := rows + page.value.rows;
      if page.value.next == "" {
        break;
      }
      CursorIsNew(whole, k, k + n, seen);
      if page.value.next in seen {
        return Err(Rejected);
      }
      seen := seen + {page.value.next};
      cursor := page.value.next;
      k := k + n;
    }
    return Ok(rows);
  }

  lemma CursorIsNew(whole: seq<Path>, k: nat, k': nat, seen: set<string>)
    requires Sorted(whole) && k < k' <= |whole| && seen <= set i | 0 <= i < k :: whole[i]
    ensures whole[k' - 1] !in seen
    ensures seen + {whole[k' - 1]} <= set i | 0 <= i < k' :: whole[i]
  {
    if whole[k' - 1] in seen {
      LessIrreflexive(whole[k' - 1]);
    }
  }

  // ----- one path -----

  /** Looking up one path asks for a page of one row under it: the path itself comes first when it
      is in the tree. */
  method TreeEntry(r: Repo, id: Id, path: string) returns (res: Result<Entry, Error>)
    requires Inv(r)
    ensures match TreeOf(r.snaps, id)
            case Err(e) => res == Err(e)
            case Ok(tree) =>
              var want := CleanPath(path);
              res == if want.Some? && want.value in tree then Ok(tree[want.value]) else Err(NotFound)
  {
    hide Less, Wanted, TreeOf, Inv, CleanPath, Selected, Listing;
    var all := (p: string) => true;
    var page := TreeRange(r, id, NormalizePath(path), all, "", 1);
    if page.Err? {
      return Err(page.error);
    }
    var want := NormalizePath(path);
    TreePathsNotEmpty(r, id);
    OwnPathFirst(TreeOf(r.snaps, id).value, path, all, Listing(TreeOf(r.snaps, id).value, NormalizePath(path), all, ""));
    assert CleanPath(path).Some? && want in TreeOf(r.snaps, id).value ==> page.value.rows[0].path == want;
    for i := 0 to |page.value.rows|
      invariant forall j :: 0 <= j < i ==> page.value.rows[j].path != want
    {
      if page.value.rows[i].path == want {
        return Ok(page.value.rows[i].entry);
      }
    }
    return Err(NotFound);
  }

  lemma OwnPathFirst(tree: map<Path, Entry>, path: string, all: string -> bool, listing: seq<Path>)
    requires "" !in tree && forall p :: all(p)
    requires IsListing(listing, Selected(tree, NormalizePath(path), all, ""))
    ensures CleanPath(path).Some? && CleanPath(path).value in tree ==>
              listing != [] && listing[0] == CleanPath(path).value
  {
    hide Less, CleanPath;
    if CleanPath(path).Some? && CleanPath(path).value in tree {
      var want := CleanPath(path).value;
      LessFromEmpty("", want);
      assert want in Selected(tree, want, all, "") by {
        CleanIsStable(path);
      }
      HeadIsLeast(listing, want);
      var p := listing[0];
      CleanIsStable(path);
      WantedIsUnderPrefix(want, all, p);
      if p != want {
        PrefixIsLess(want, p);
        LessAsymmetric(want, p);
      }
    }
  }

  lemma PrefixIsLess(want: string, p: string)
    requires want + "/" <= p
    ensures Less(want, p)
  {
    var tail := p[|want|..];
    assert want + "" == want && want + tail == p && tail != "";
    LessAfterPrefix(want, "", tail);
  }
}
