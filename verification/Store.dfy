/** The store as it is written: tables changed statement by statement, each method proved to do to
    the whole repository what the operation of the same name in Repository says. */
module Store {
  import opened Wrappers
  import opened Bytes
  import opened Paths
  import opened Repository
  import opened RepositoryInvariant
  import History

  // ----- small facts about the specification functions -----

  function Reversed<T>(s: seq<T>): (r: seq<T>)
    ensures |r| == |s|
  {
    if s == [] then [] else Reversed(s[1..]) + [s[0]]
  }

  lemma {:induction false} ReversedSnoc<T>(s: seq<T>, x: T)
    ensures Reversed(s + [x]) == [x] + Reversed(s)
  {
    if s != [] {
      assert (s + [x])[1..] == s[1..] + [x];
      ReversedSnoc(s[1..], x);
    }
  }

  lemma {:induction false} ReversedAt<T>(s: seq<T>, k: nat)
    requires k < |s|
    ensures Reversed(s)[k] == s[|s| - 1 - k]
    decreases |s|
  {
    if |s| > 1 {
      ReversedAt(s[1..], if k < |s| - 1 then k else 0);
    }
  }

  method Reverse<T>(chain: seq<T>) returns (s: seq<T>)
    ensures s == Reversed(chain)
  {
    s := chain;
    var i: int, j: int := 0, |s| - 1;
    while i < j
      invariant |s| == |chain| && 0 <= i && j == |s| - 1 - i && i <= j + 1
      invariant forall k :: 0 <= k < i || j < k < |s| ==> s[k] == chain[|s| - 1 - k]
      invariant forall k :: i <= k <= j ==> s[k] == chain[k]
    {
      s := s[i := s[j]][j := s[i]];
      i, j := i + 1, j - 1;
    }
    forall k | 0 <= k < |s| ensures s[k] == Reversed(chain)[k] {
      ReversedAt(chain, k);
    }
  }

  /** A chain found so far, put behind whatever the rest of the walk finds. */
  function Behind(r: Result<seq<Id>, Error>, tail: seq<Id>): Result<seq<Id>, Error> {
    match r
    case Err(e) => Err(e)
    case Ok(ids) => Ok(ids + tail)
  }

  lemma BehindSnoc(r: Result<seq<Id>, Error>, x: Id, tail: seq<Id>)
    ensures Behind(Behind(r, [x]), tail) == Behind(r, [x] + tail)
    ensures Behind(r, []) == r
  {
    if r.Ok? {
      assert r.value + [x] + tail == r.value + ([x] + tail);
      assert r.value + [] == r.value;
    }
  }

  lemma {:induction false} ItemTablePrefix(items: seq<Item>, i: nat)
    requires i <= |items| && ItemTable(items).Some?
    ensures ItemTable(items[..i]).Some?
    decreases |items|
  {
    hide CleanPath;
    if i < |items| {
      assert items[..|items| - 1][..i] == items[..i];
      ItemTablePrefix(items[..|items| - 1], i);
    } else {
      assert items[..i] == items;
    }
  }

  lemma {:induction false} PathSetPrefix(paths: seq<string>, i: nat)
    requires i <= |paths| && PathSet(paths).Some?
    ensures PathSet(paths[..i]).Some?
    decreases |paths|
  {
    hide CleanPath;
    if i < |paths| {
      assert paths[..|paths| - 1][..i] == paths[..i];
      PathSetPrefix(paths[..|paths| - 1], i);
    } else {
      assert paths[..i] == paths;
    }
  }

  lemma ItemRefsSnoc(items: seq<Item>, x: Item)
    ensures ItemRefs(items + [x]) == ItemRefs(items) + set d | d in x.entry.chunks
  {
    assert forall i :: i in items + [x] <==> i in items || i == x;
  }

  lemma NoRefs(items: seq<Item>)
    ensures ItemRefs(items[..0]) == {} && ItemTable(items[..0]) == Some(map[])
  {}

  lemma UpdateMerged(rows: map<Path, Entry>, table: map<Path, Entry>, p: Path, e: Entry)
    ensures (rows + table)[p := e] == rows + table[p := e]
  {}

  /** One more entry of a batch. */
  lemma NextItem(items: seq<Item>, i: nat)
    requires i < |items| && ItemTable(items[..i]).Some?
    ensures match CleanPath(items[i].path)
            case None => ItemTable(items).None?
            case Some(p) => ItemTable(items[..i + 1]) == Some(ItemTable(items[..i]).value[p := items[i].entry])
  {
    hide CleanPath;
    assert items[..i + 1][..i] == items[..i];
    if ItemTable(items).Some? {
      ItemTablePrefix(items, i + 1);
    }
  }

  // ----- the subtree that a deletion takes along -----

  function Children(snaps: Snaps, x: Id): set<Id> {
    set c | c in snaps && snaps[c].parent == Some(x)
  }

  /** A set that holds `id` and the children of each of its members holds everything that builds on `id`. */
  lemma {:induction false} ClosedHoldsDependants(snaps: Snaps, closed: set<Id>, id: Id, x: Id, n: nat)
    requires id in closed && forall y, c :: y in closed && c in Children(snaps, y) ==> c in closed
    requires Walk(snaps, x, n).Ok? && id in Walk(snaps, x, n).value
    ensures x in closed
    decreases n
  {
    if x != id {
      var parent := snaps[x].parent.value;
      ClosedHoldsDependants(snaps, closed, id, parent, n - 1);
      assert x in Children(snaps, parent);
    }
  }

  lemma ChildDepends(r: Repo, id: Id, x: Id, c: Id)
    requires Inv(r) && x in r.snaps && DependsOn(r.snaps, x, id) && c in Children(r.snaps, x)
    ensures DependsOn(r.snaps, c, id) && c != id
  {
    hide Inv, Walk;
    ParentWalk(r, x, c);
    ChainNeverFails(r, c);
    var up, ids := Walk(r.snaps, x, MAX_CHAIN + 1).value, Walk(r.snaps, c, MAX_CHAIN + 1).value;
    var i :| 0 <= i < |up| && up[i] == id;
    assert ids[i] == id && ids[|ids| - 1] == c;
  }

  /** The chain of a child is the chain of its parent and the child. */
  lemma ParentWalk(r: Repo, x: Id, c: Id)
    requires Inv(r) && x in r.snaps && c in Children(r.snaps, x)
    ensures Walk(r.snaps, c, MAX_CHAIN + 1).Ok? && Walk(r.snaps, x, MAX_CHAIN + 1).Ok?
    ensures Walk(r.snaps, c, MAX_CHAIN + 1).value == Walk(r.snaps, x, MAX_CHAIN + 1).value + [c]
  {
    assert SnapOK(r, c);
    ChainNeverFails(r, c);
    ChainNeverFails(r, x);
  }

  /** What the recursive query has found: rows already output, rows waiting to be expanded. */
  ghost predicate Exploring(r: Repo, id: Id, done: set<Id>, queue: set<Id>) {
    && id in done + queue && done !! queue
    && (forall x :: x in done + queue ==> x == id || (x in r.snaps && DependsOn(r.snaps, x, id)))
    && (forall x, c :: x in done && c in Children(r.snaps, x) ==> c in done + queue)
    && (forall x :: x in done + queue && x != id ==> exists p :: p in done && r.snaps[x].parent == Some(p))
  }

  lemma ChildIsFresh(r: Repo, id: Id, done: set<Id>, queue: set<Id>, x: Id, c: Id)
    requires Inv(r) && Exploring(r, id, done, queue) && x in queue && c in Children(r.snaps, x)
    ensures c !in done + queue && c in r.snaps && DependsOn(r.snaps, c, id)
  {
    assert ParentOK(r.snaps, c) by { InvParents(r); }
    SelfDepends(r, x);
    ChildDepends(r, id, x, c);
  }

  lemma ExploringStarts(r: Repo, id: Id)
    ensures Exploring(r, id, {}, {id})
  {}

  /** Expanding a row finds only rows not seen before, so UNION ALL repeats none. */
  lemma ExpandIsFresh(r: Repo, id: Id, done: set<Id>, queue: set<Id>, x: Id)
    requires Inv(r) && Exploring(r, id, done, queue) && x in queue
    ensures Children(r.snaps, x) !! done + queue && Children(r.snaps, x) <= r.snaps.Keys
    ensures Exploring(r, id, done + {x}, queue - {x} + Children(r.snaps, x))
  {
    hide Inv, DependsOn;
    forall c | c in Children(r.snaps, x) ensures c !in done + queue && c in r.snaps && DependsOn(r.snaps, c, id) {
      ChildIsFresh(r, id, done, queue, x, c);
    }
  }

  lemma SelfDepends(r: Repo, x: Id)
    requires Inv(r)
    ensures x in r.snaps ==> DependsOn(r.snaps, x, x)
  {
    if x in r.snaps {
      ChainNeverFails(r, x);
    }
  }

  lemma ExploredIsVictims(r: Repo, id: Id, done: set<Id>)
    requires Inv(r) && Exploring(r, id, done, {})
    ensures done * r.snaps.Keys == Victims(r, id)
  {
    SelfDepends(r, id);
    forall x | x in Victims(r, id) ensures x in done {
      ClosedHoldsDependants(r.snaps, done, id, x, MAX_CHAIN + 1);
    }
  }

  function Elements<T>(s: seq<T>): set<T> {
    set x | x in s
  }

  predicate Distinct<T(==)>(s: seq<T>) {
    forall i, j :: 0 <= i < j < |s| ==> s[i] != s[j]
  }

  lemma DistinctSnoc<T>(s: seq<T>, x: T)
    requires Distinct(s) && x !in s
    ensures Distinct(s + [x]) && Elements(s + [x]) == Elements(s) + {x}
  {}

  lemma NoneOutput(snaps: Snaps)
    ensures Distinct<Id>([]) && Elements<Id>([]) == {} * snaps.Keys
  {}

  /** The final join keeps the rows that exist. */
  lemma OutputRow(snaps: Snaps, ids: seq<Id>, done: set<Id>, x: Id)
    requires Distinct(ids) && Elements(ids) == done * snaps.Keys && x !in done
    ensures if x in snaps then Distinct(ids + [x]) && Elements(ids + [x]) == (done + {x}) * snaps.Keys
            else Elements(ids) == (done + {x}) * snaps.Keys
  {
    if x in snaps {
      assert x !in Elements(ids);
      DistinctSnoc(ids, x);
    }
  }

  lemma {:induction false} DistinctSize<T>(s: seq<T>)
    requires Distinct(s)
    ensures |Elements(s)| == |s|
    decreases |s|
  {
    if s != [] {
      var last, front := s[|s| - 1], s[..|s| - 1];
      DistinctSize(front);
      assert Elements(s) == Elements(front) + {last};
      assert last !in front;
    }
  }

  lemma ExpandedQueue(waiting: set<Id>, x: Id, kids: set<Id>)
    requires x in waiting && kids !! waiting
    ensures multiset(waiting) - multiset{x} + multiset(kids) == multiset(waiting - {x} + kids)
  {}

  // ----- what an account knows to be uploaded -----

  const MAX_PARAMS: nat := 500

  /** The account uploaded the chunk, or one of its snapshots references it. */
  predicate Known(r: Repo, user: User, d: Digest) {
    (user, d) in r.accountChunks || exists id :: id in r.snaps && r.snaps[id].user == user && d in r.snaps[id].refs
  }

  /** The unknown digests in the order they first come. */
  function MissingOf(r: Repo, user: User, digests: seq<Digest>): (missing: seq<Digest>)
    ensures Distinct(missing)
    ensures forall d :: d in missing <==> d in digests && !Known(r, user, d)
  {
    if digests == [] then [] else
      var d, before := digests[|digests| - 1], MissingOf(r, user, digests[..|digests| - 1]);
      assert digests == digests[..|digests| - 1] + [d];
      if Known(r, user, d) || d in before then before else before + [d]
  }

  // ----- the store -----

  class Store {
    var users: map<User, Policy>
    var devices: map<Device, User>
    var snaps: Snaps
    var chunks: map<Digest, ChunkRow>
    var accountChunks: set<(User, Digest)>
    var blobs: map<Digest, Bytes>

    function State(): Repo
      reads this
    {
      Repo(users, devices, snaps, chunks, accountChunks, blobs)
    }

    constructor ()
      ensures State() == EMPTY && Inv(State())
    {
      users, devices, snaps, chunks, accountChunks, blobs := map[], map[], map[], map[], {}, map[];
    }

    method SnapshotChain(id: Id) returns (r: Result<seq<Id>, Error>)
      ensures r == Repository.SnapshotChain(snaps, id)
    {
      if id == "" {
        return Ok([]);
      }
      var chain: seq<Id> := [];
      var current := id;
      BehindSnoc(Walk(snaps, id, MAX_CHAIN + 1), id, []);
      for links := 0 to MAX_CHAIN + 1
        invariant Walk(snaps, id, MAX_CHAIN + 1) == Behind(Walk(snaps, current, MAX_CHAIN + 1 - links), Reversed(chain))
      {
        if current !in snaps {
          return Err(NotFound);
        }
        ReversedSnoc(chain, current);
        chain := chain + [current];
        if snaps[current].kind == Full {
          chain := Reverse(chain);
          return Ok(chain);
        }
        if snaps[current].parent.None? || snaps[current].parent.value == "" {
          return Err(NoParent);
        }
        BehindSnoc(Walk(snaps, snaps[current].parent.value, MAX_CHAIN - links), current, Reversed(chain[..|chain| - 1]));
        assert chain[..|chain| - 1] + [current] == chain;
        current := snaps[current].parent.value;
      }
      return Err(ChainTooLong);
    }

    method StartSnapshot(id: Id, user: User, device: Device, kind: Kind, parentId: Id, startedAt: int, now: int)
      returns (r: Result<Id, Error>)
      modifies this
      ensures State() == Repository.StartSnapshot(old(State()), id, user, device, kind, parentId, startedAt, now).repo
      ensures r == Repository.StartSnapshot(old(State()), id, user, device, kind, parentId, startedAt, now).out
      ensures Inv(old(State())) ==> Inv(State())
    {
      hide Inv;
      if Inv(State()) {
        StartKeepsInv(State(), id, user, device, kind, parentId, startedAt, now);
      }
      var k := kind;
      var parent: Option<Id> := None;
      if k == Delta {
        var ok := DeltaParentOK(State(), user, device, parentId);
        var chain := SnapshotChain(parentId);
        if !ok || chain.Err? || |chain.value| == 0 || |chain.value| >= MAX_CHAIN {
          k := Full;
        } else {
          parent := Some(parentId);
        }
      }
      if id == "" || id in snaps || user !in users || device !in devices {
        return Err(Constraint);
      }
      snaps := snaps[id := Snap(user, device, k, Running, parent, startedAt, now, false, map[], {}, {})];
      return Ok(id);
    }

    /** Works on a copy of the row and writes it back at the end, as the transaction does. */
    method AddEntries(id: Id, items: seq<Item>, deleted: seq<string>, now: int) returns (r: Result<(), Error>)
      modifies this
      ensures State() == Repository.AddEntries(old(State()), id, items, deleted, now).repo
      ensures r == Repository.AddEntries(old(State()), id, items, deleted, now).out
      ensures Inv(old(State())) ==> Inv(State())
    {
      hide Inv;
      if Inv(State()) {
        AddKeepsInv(State(), id, items, deleted, now);
      }
      if |items| == 0 && |deleted| == 0 {
        return Ok(());
      }
      if id !in snaps {
        return Err(NotFound);
      }
      if snaps[id].status != Running {
        return Err(Conflict);
      }
      var tx := snaps[id].(updatedAt := now);
      var okItems;
      tx, okItems := UpsertItems(tx, items);
      if !okItems {
        return Err(InvalidPath);
      }
      var okPaths;
      tx, okPaths := InsertDeletions(tx, deleted);
      if !okPaths {
        return Err(InvalidPath);
      }
      snaps := snaps[id := tx];
      return Ok(());
    }

    static method UpsertItems(row: Snap, items: seq<Item>) returns (tx: Snap, ok: bool)
      ensures ok == ItemTable(items).Some?
      ensures ok ==> tx == row.(entries := row.entries + ItemTable(items).value, refs := row.refs + ItemRefs(items))
    {
      hide CleanPath, ItemRefs, ItemTable;
      tx := row;
      assert items[..0] == [] && items[..|items|] == items;
      NoRefs(items);
      for i := 0 to |items|
        invariant ItemTable(items[..i]).Some?
        invariant tx == row.(entries := row.entries + ItemTable(items[..i]).value, refs := row.refs + ItemRefs(items[..i]))
      {
        NextItem(items, i);
        assert items[..i + 1] == items[..i] + [items[i]];
        ItemRefsSnoc(items[..i], items[i]);
        var path := CleanPath(items[i].path);
        if path.None? {
          return tx, false;
        }
        UpdateMerged(row.entries, ItemTable(items[..i]).value, path.value, items[i].entry);
        tx := tx.(entries := tx.entries[path.value := items[i].entry]);
        tx := InsertRefs(tx, items[i].entry.chunks);
      }
      ok := true;
    }

    static method InsertRefs(row: Snap, digests: seq<Digest>) returns (tx: Snap)
      ensures tx == row.(refs := row.refs + set d | d in digests)
    {
      tx := row;
      for j := 0 to |digests|
        invariant tx == row.(refs := row.refs + set d | d in digests[..j])
      {
        assert digests[..j + 1] == digests[..j] + [digests[j]];
        tx := tx.(refs := tx.refs + {digests[j]});
      }
      assert digests[..|digests|] == digests;
    }

    static method InsertDeletions(row: Snap, deleted: seq<string>) returns (tx: Snap, ok: bool)
      ensures ok == PathSet(deleted).Some?
      ensures ok ==> tx == row.(deletions := row.deletions + PathSet(deleted).value)
    {
      hide CleanPath;
      tx := row;
      for i := 0 to |deleted|
        invariant PathSet(deleted[..i]).Some?
        invariant tx == row.(deletions := row.deletions + PathSet(deleted[..i]).value)
      {
        assert deleted[..i + 1][..i] == deleted[..i];
        var path := CleanPath(deleted[i]);
        if path.None? {
          if PathSet(deleted).Some? {
            PathSetPrefix(deleted, i + 1);
          }
          return tx, false;
        }
        tx := tx.(deletions := tx.deletions + {path.value});
      }
      assert deleted[..|deleted|] == deleted;
      ok := true;
    }

    method CompleteSnapshot(id: Id, agentError: bool) returns (r: Result<(), Error>)
      modifies this
      ensures State() == Repository.CompleteSnapshot(old(State()), id, agentError).repo
      ensures r == Repository.CompleteSnapshot(old(State()), id, agentError).out
      ensures r == if id !in old(snaps) || old(snaps)[id].status != Running then Err(NotFound)
                   else if !agentError && old(snaps)[id].refs <= old(chunks).Keys then Ok(())
                   else Err(MarkedFailed)
      ensures Inv(old(State())) ==> Inv(State())
    {
      hide Inv, MissingSnapshotChunks;
      History.CompletionAnswer(State(), id, agentError);
      if Inv(State()) {
        CompleteKeepsInv(State(), id, agentError);
      }
      var missing := MissingSnapshotChunks(State(), id);
      var status := Complete;
      if |missing| > 0 {
        assert missing != {};
        status := Failed;
      } else if agentError {
        status := Failed;
      }
      if id !in snaps || snaps[id].status != Running {
        return Err(NotFound);
      }
      snaps := snaps[id := snaps[id].(status := status)];
      return if status == Failed then Err(MarkedFailed) else Ok(());
    }

    /** One statement over all rows. */
    method FailStaleSnapshots(cutoff: int) returns (failed: nat)
      modifies this
      ensures State() == Repository.FailStaleSnapshots(old(State()), cutoff).repo
      ensures failed == Repository.FailStaleSnapshots(old(State()), cutoff).out
      ensures Inv(old(State())) ==> Inv(State())
    {
      hide Inv;
      if Inv(State()) {
        FailStaleKeepsInv(State(), cutoff);
      }
      var stale := set id | id in snaps && Stale(snaps[id], cutoff);
      snaps := map id | id in snaps :: if id in stale then snaps[id].(status := Failed) else snaps[id];
      return |stale|;
    }

    /** Removes a device of the account; its snapshots go with it. */
    method DeleteDevice(user: User, device: Device) returns (r: Result<(), Error>)
      modifies this
      ensures State() == Repository.DeleteDevice(old(State()), user, device).repo
      ensures r == Repository.DeleteDevice(old(State()), user, device).out
      ensures Inv(old(State())) ==> Inv(State())
    {
      hide Inv;
      if Inv(State()) {
        DeleteDeviceKeepsInv(State(), user, device);
      }
      if device !in devices || devices[device] != user {
        return Err(NotFound);
      }
      devices := devices - {device};
      snaps := map id | id in snaps && snaps[id].device != device :: snaps[id];
      return Ok(());
    }

    /** The recursive query: start from `id`, add the rows whose parent has been output. Its result
        holds every snapshot that builds on `id` once. */
    method Subtree(id: Id) returns (ids: seq<Id>)
      requires Inv(State())
      ensures Distinct(ids) && Elements(ids) == Victims(State(), id)
    {
      hide Inv, Exploring, Children, Victims, Distinct, Elements;
      ids := [];
      NoneOutput(snaps);
      ExploringStarts(State(), id);
      var queue: multiset<Id> := multiset{id};
      ghost var done: set<Id> := {};
      ghost var waiting: set<Id> := {id};
      while |queue| > 0
        invariant Exploring(State(), id, done, waiting) && done !! waiting && queue == multiset(waiting)
        invariant Distinct(ids) && Elements(ids) == done * snaps.Keys
        invariant done + waiting <= snaps.Keys + {id}
        decreases (snaps.Keys + {id}) - done
      {
        var x :| x in queue;
        ExpandIsFresh(State(), id, done, waiting, x);
        ExpandedQueue(waiting, x, Children(snaps, x));
        OutputRow(snaps, ids, done, x);
        if x in snaps {
          ids := ids + [x];
        }
        done := done + {x};
        waiting := waiting - {x} + Children(snaps, x);
        queue := queue - multiset{x} + multiset(Children(snaps, x));
      }
      assert waiting == {} by {
        assert |multiset(waiting)| == 0;
      }
      ExploredIsVictims(State(), id, done);
    }

    method DeleteSnapshotCascade(id: Id) returns (count: nat)
      requires Inv(State())
      modifies this
      ensures State() == Repository.DeleteSnapshotCascade(old(State()), id).repo
      ensures count == |Victims(old(State()), id)|
      ensures Inv(State())
    {
      hide Inv, Victims;
      CascadeKeepsInv(State(), id);
      var ids := Subtree(id);
      DistinctSize(ids);
      for i := 0 to |ids|
        invariant State() == old(State()).(snaps := old(snaps) - Elements(ids[..i]))
      {
        assert ids[..i + 1] == ids[..i] + [ids[i]];
        snaps := snaps - {ids[i]};
      }
      assert ids[..|ids|] == ids;
      return |ids|;
    }

    method DeleteSnapshot(user: User, id: Id) returns (r: Result<nat, Error>)
      requires Inv(State())
      modifies this
      ensures State() == Repository.DeleteSnapshot(old(State()), user, id).repo
      ensures r == Repository.DeleteSnapshot(old(State()), user, id).out
      ensures Inv(State())
    {
      if id !in snaps {
        return Err(NotFound);
      }
      if snaps[id].user != user {
        return Err(NotFound);
      }
      var count := DeleteSnapshotCascade(id);
      return Ok(count);
    }

    /** `registers` says whether the database takes the rows. */
    method RegisterChunk(user: User, digest: Digest, row: ChunkRow, registers: bool) returns (r: Result<(), Error>)
      modifies this
      ensures r == if !HexDigest(digest) then Err(BadDigest) else if registers then Ok(()) else Err(StoreFailed)
      ensures State() == if r.Ok? then Repository.RegisterChunk(old(State()), user, digest, row) else old(State())
    {
      if !HexDigest(digest) {
        return Err(BadDigest);
      }
      if !registers {
        return Err(StoreFailed);
      }
      if digest !in chunks {
        chunks := chunks[digest := row];
      }
      accountChunks := accountChunks + {(user, digest)};
      return Ok(());
    }

    /** Which of the digests the account has to upload, asked in batches of bounded size. */
    method MissingChunks(user: User, digests: seq<Digest>) returns (missing: seq<Digest>)
      ensures missing == MissingOf(State(), user, digests)
    {
      hide Known;
      var present := PresentChunks(user, digests);
      missing := [];
      var seen: set<Digest> := {};
      for i := 0 to |digests|
        invariant missing == MissingOf(State(), user, digests[..i]) && seen == Elements(missing)
      {
        var d := digests[i];
        assert digests[..i + 1][..i] == digests[..i];
        assert d in present <==> Known(State(), user, d);
        if d in present {
          continue;
        }
        if d in seen {
          continue;
        }
        seen := seen + {d};
        missing := missing + [d];
      }
      assert digests[..|digests|] == digests;
    }

    /** The digests that the account knows, looked up in batches of bounded size. */
    method PresentChunks(user: User, digests: seq<Digest>) returns (present: set<Digest>)
      ensures present == set d | d in digests && Known(State(), user, d)
    {
      hide Known;
      present := {};
      var start := 0;
      while start < |digests|
        invariant 0 <= start <= |digests|
        invariant present == set d | d in digests[..start] && Known(State(), user, d)
      {
        var end := if start + MAX_PARAMS < |digests| then start + MAX_PARAMS else |digests|;
        var batch := digests[start..end];
        present := present + set d | d in batch && Known(State(), user, d);
        assert digests[..end] == digests[..start] + batch;
        start := end;
      }
      assert digests[..start] == digests;
    }

    /** Some of the unreferenced chunks, as many as the limit allows. */
    method UnreferencedChunks(limit: int) returns (batch: seq<Digest>)
      ensures Distinct(batch) && Elements(batch) <= Unreferenced(State())
      ensures var n := if limit <= 0 then 1000 else limit;
              if |Unreferenced(State())| <= n then Elements(batch) == Unreferenced(State()) else |batch| == n
    {
      hide Unreferenced;
      var n := if limit <= 0 then 1000 else limit;
      batch := [];
      var left := Unreferenced(State());
      while |left| > 0 && |batch| < n
        invariant Distinct(batch) && Elements(batch) !! left && Elements(batch) + left == Unreferenced(State())
        invariant |batch| + |left| == |Unreferenced(State())| && |batch| <= n
        decreases |left|
      {
        var d :| d in left;
        assert d !in Elements(batch);
        DistinctSnoc(batch, d);
        batch := batch + [d];
        left := left - {d};
      }
    }

    method DeleteChunkRow(digest: Digest)
      modifies this
      ensures users == old(users) && devices == old(devices) && snaps == old(snaps) && blobs == old(blobs)
      ensures chunks == old(chunks) - {digest}
      ensures accountChunks == set uc | uc in old(accountChunks) && uc.1 != digest
    {
      chunks := chunks - {digest};
      accountChunks := set uc | uc in accountChunks && uc.1 != digest;
    }
  }
}
