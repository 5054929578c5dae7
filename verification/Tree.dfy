/** Resolving a snapshot's file list at read time: one query over the chain, read page by page. */
module Tree {
  import opened Wrappers
  import opened Bytes
  import opened Repository
  import opened RepositoryInvariant

  // ----- the fold: what a chain of snapshots means -----

  /** A newer entry shadows an older one, a newer deletion removes it, and within one snapshot the
      deletion wins. */
  function Materialise(snaps: Snaps, ids: seq<Id>): map<Path, Entry>
    requires forall x :: x in ids ==> x in snaps
  {
    if ids == [] then map[] else
      var last := snaps[ids[|ids| - 1]];
      (Materialise(snaps, ids[..|ids| - 1]) + last.entries) - last.deletions
  }

  /** The effective file list of a snapshot. */
  function TreeOf(snaps: Snaps, id: Id): Result<map<Path, Entry>, Error> {
    match SnapshotChain(snaps, id)
    case Err(e) => Err(e)
    case Ok(ids) => if ids == [] then Err(NotFound) else Ok(Materialise(snaps, ids))
  }

  // ----- the query: MAX(seq) per path -----

  /** The greatest position on the chain at which `p` has an entry, or -1. */
  function LastEntry(snaps: Snaps, ids: seq<Id>, p: Path): (seqNo: int)
    requires forall x :: x in ids ==> x in snaps
    ensures -1 <= seqNo < |ids|
    ensures seqNo >= 0 ==> p in snaps[ids[seqNo]].entries
    ensures forall i :: seqNo < i < |ids| ==> p !in snaps[ids[i]].entries
  {
    if ids == [] then -1
    else if p in snaps[ids[|ids| - 1]].entries then |ids| - 1
    else LastEntry(snaps, ids[..|ids| - 1], p)
  }

  /** The greatest position on the chain at which `p` has a deletion, or -1. */
  function LastDeletion(snaps: Snaps, ids: seq<Id>, p: Path): (seqNo: int)
    requires forall x :: x in ids ==> x in snaps
    ensures -1 <= seqNo < |ids|
    ensures seqNo >= 0 ==> p in snaps[ids[seqNo]].deletions
    ensures forall i :: seqNo < i < |ids| ==> p !in snaps[ids[i]].deletions
  {
    if ids == [] then -1
    else if p in snaps[ids[|ids| - 1]].deletions then |ids| - 1
    else LastDeletion(snaps, ids[..|ids| - 1], p)
  }

  function EntryPaths(snaps: Snaps, ids: seq<Id>): set<Path>
    requires forall x :: x in ids ==> x in snaps
  {
    set i, p | 0 <= i < |ids| && p in snaps[ids[i]].entries :: p
  }

  /** Rows of the query: the entry at its MAX(seq), unless a deletion is as new. */
  function QueryTree(snaps: Snaps, ids: seq<Id>): map<Path, Entry>
    requires forall x :: x in ids ==> x in snaps
  {
    map p | p in EntryPaths(snaps, ids) && LastDeletion(snaps, ids, p) < LastEntry(snaps, ids, p) ::
      snaps[ids[LastEntry(snaps, ids, p)]].entries[p]
  }

  predicate Shown(snaps: Snaps, ids: seq<Id>, p: Path)
    requires forall x :: x in ids ==> x in snaps
  {
    LastDeletion(snaps, ids, p) < LastEntry(snaps, ids, p)
  }

  lemma {:induction false} FoldAt(snaps: Snaps, ids: seq<Id>, p: Path)
    requires forall x :: x in ids ==> x in snaps
    ensures p in Materialise(snaps, ids) <==> Shown(snaps, ids, p)
    ensures Shown(snaps, ids, p) ==> Materialise(snaps, ids)[p] == snaps[ids[LastEntry(snaps, ids, p)]].entries[p]
    decreases |ids|
  {
    if ids != [] {
      FoldAt(snaps, ids[..|ids| - 1], p);
    }
  }

  lemma QueryAt(snaps: Snaps, ids: seq<Id>, p: Path)
    requires forall x :: x in ids ==> x in snaps
    ensures p in QueryTree(snaps, ids) <==> Shown(snaps, ids, p)
    ensures Shown(snaps, ids, p) ==> QueryTree(snaps, ids)[p] == snaps[ids[LastEntry(snaps, ids, p)]].entries[p]
  {
    var i := LastEntry(snaps, ids, p);
    assert i >= 0 ==> p in EntryPaths(snaps, ids);
  }

  /** The query computes the fold. */
  lemma QueryIsFold(snaps: Snaps, ids: seq<Id>)
    requires forall x :: x in ids ==> x in snaps
    ensures QueryTree(snaps, ids) == Materialise(snaps, ids)
  {
    hide QueryTree, Materialise, LastEntry, LastDeletion, Shown;
    forall p
      ensures p in QueryTree(snaps, ids) <==> p in Materialise(snaps, ids)
      ensures p in QueryTree(snaps, ids) ==> QueryTree(snaps, ids)[p] == Materialise(snaps, ids)[p]
    {
      QueryAt(snaps, ids, p);
      FoldAt(snaps, ids, p);
    }
  }

  // ----- a complete snapshot is restorable -----

  /** Every chunk of every file in the tree is in the blob store. */
  ghost predicate Restorable(r: Repo, id: Id) {
    && TreeOf(r.snaps, id).Ok?
    && forall p, d :: p in TreeOf(r.snaps, id).value && d in TreeOf(r.snaps, id).value[p].chunks ==> d in r.blobs
  }

  lemma CompleteIsRestorable(r: Repo, id: Id)
    requires Inv(r) && id in r.snaps && r.snaps[id].status == Complete
    ensures Restorable(r, id)
  {
    ChainNeverFails(r, id);
    InvParents(r);
    var ids := SnapshotChain(r.snaps, id).value;
    forall p, d | p in Materialise(r.snaps, ids) && d in Materialise(r.snaps, ids)[p].chunks ensures d in r.blobs {
      FoldAt(r.snaps, ids, p);
      var x := ids[LastEntry(r.snaps, ids, p)];
      ChainRow(r.snaps, id, MAX_CHAIN, x);
      assert SnapOK(r, x);
      assert r.snaps[x].entries[p] == Materialise(r.snaps, ids)[p];
    }
  }

  /** In every state of every run, every complete snapshot can be restored. */
  lemma RunsStayRestorable(states: seq<Repo>, steps: seq<Step>, i: nat, id: Id)
    requires IsRun(states, steps) && states[0] == EMPTY && i < |states|
    requires id in states[i].snaps && states[i].snaps[id].status == Complete
    ensures Restorable(states[i], id)
  {
    RunsKeepInv(states, steps, i);
    CompleteIsRestorable(states[i], id);
  }

  // ----- a complete snapshot never changes -----

  predicate SameContent(a: Snap, b: Snap) {
    && a.user == b.user && a.device == b.device && a.kind == b.kind && a.parent == b.parent
    && a.entries == b.entries && a.deletions == b.deletions && a.refs == b.refs
  }

  /** Complete rows that are in both stay complete and keep their contents. */
  predicate KeepsComplete(a: Snaps, b: Snaps) {
    forall x :: x in a && x in b && a[x].status == Complete ==> b[x].status == Complete && SameContent(a[x], b[x])
  }

  lemma StartKeepsComplete(r: Repo, id: Id, user: User, device: Device, kind: Kind, parent: Id, startedAt: int, now: int)
    ensures KeepsComplete(r.snaps, StartSnapshot(r, id, user, device, kind, parent, startedAt, now).repo.snaps)
  {
    hide StartAs;
  }

  lemma AddKeepsComplete(r: Repo, id: Id, items: seq<Item>, deleted: seq<string>, now: int)
    ensures KeepsComplete(r.snaps, AddEntries(r, id, items, deleted, now).repo.snaps)
  {
    hide ItemTable, PathSet, ItemRefs;
  }

  lemma CompleteKeepsComplete(r: Repo, id: Id, agentError: bool)
    ensures KeepsComplete(r.snaps, CompleteSnapshot(r, id, agentError).repo.snaps)
  {
    hide MissingSnapshotChunks;
  }

  lemma FailStaleKeepsComplete(r: Repo, cutoff: int)
    ensures KeepsComplete(r.snaps, FailStaleSnapshots(r, cutoff).repo.snaps)
  {}

  lemma StepKeepsComplete(r: Repo, step: Step)
    ensures KeepsComplete(r.snaps, Apply(r, step).snaps)
  {
    hide Victims, StartSnapshot, AddEntries, CompleteSnapshot, FailStaleSnapshots;
    match step
    case Starts(id, user, kind, device, parent, startedAt, now) =>
      StartKeepsComplete(r, id, user, device, kind, parent, startedAt, now);
    case Adds(id, items, deleted, now) => AddKeepsComplete(r, id, items, deleted, now);
    case Completes(id, agentError) => CompleteKeepsComplete(r, id, agentError);
    case FailsStale(cutoff) => FailStaleKeepsComplete(r, cutoff);
    case _ =>
  }

  /** A step leaves the blob of every referenced chunk alone. */
  lemma StepKeepsBlobs(r: Repo, step: Step, d: Digest)
    requires Inv(r) && Enabled(r, step) && Referenced(r, d) && d in r.chunks
    ensures d in Apply(r, step).blobs && Apply(r, step).blobs[d] == r.blobs[d]
  {
    assert d in r.blobs;
  }

  lemma {:induction false} MaterialiseFrame(a: Snaps, b: Snaps, ids: seq<Id>)
    requires forall x :: x in ids ==> x in a && x in b && SameContent(a[x], b[x])
    ensures Materialise(a, ids) == Materialise(b, ids)
    decreases |ids|
  {
    if ids != [] {
      MaterialiseFrame(a, b, ids[..|ids| - 1]);
    }
  }

  /** The ancestors of a surviving complete snapshot survive with their rows. */
  lemma {:induction false} AncestorSurvives(a: Snaps, b: Snaps, id: Id, n: nat, x: Id)
    requires ParentsOK(a) && ParentsOK(b) && KeepsComplete(a, b)
    requires id in a && a[id].status == Complete && id in b
    requires Walk(a, id, n).Ok? && x in Walk(a, id, n).value
    ensures x in b && SameContent(a[x], b[x])
    decreases n
  {
    if x != id {
      var parent := a[id].parent.value;
      assert ParentOK(a, id) && ParentOK(b, id) && SameContent(a[id], b[id]);
      assert Walk(a, id, n).value == Walk(a, parent, n - 1).value + [id];
      AncestorSurvives(a, b, parent, n - 1, x);
    }
  }

  lemma TreeFrame(r: Repo, r': Repo, id: Id)
    requires Inv(r) && Inv(r') && KeepsComplete(r.snaps, r'.snaps)
    requires id in r.snaps && r.snaps[id].status == Complete && id in r'.snaps
    ensures TreeOf(r.snaps, id).Ok? && TreeOf(r'.snaps, id) == TreeOf(r.snaps, id)
  {
    InvParents(r);
    InvParents(r');
    ChainNeverFails(r, id);
    hide Inv, ParentsOK, KeepsComplete, Walk;
    forall x | x in Walk(r.snaps, id, MAX_CHAIN + 1).value
      ensures x in r'.snaps && SameContent(r.snaps[x], r'.snaps[x])
    {
      AncestorSurvives(r.snaps, r'.snaps, id, MAX_CHAIN + 1, x);
    }
    WalkFrame(r.snaps, r'.snaps, id, MAX_CHAIN + 1);
    MaterialiseFrame(r.snaps, r'.snaps, SnapshotChain(r.snaps, id).value);
  }

  lemma TreeChunkReferenced(r: Repo, id: Id, p: Path, d: Digest)
    requires Inv(r) && id in r.snaps && r.snaps[id].status == Complete && TreeOf(r.snaps, id).Ok?
    requires p in TreeOf(r.snaps, id).value && d in TreeOf(r.snaps, id).value[p].chunks
    ensures Referenced(r, d) && d in r.chunks
  {
    ChainNeverFails(r, id);
    InvParents(r);
    var ids := SnapshotChain(r.snaps, id).value;
    FoldAt(r.snaps, ids, p);
    var x := ids[LastEntry(r.snaps, ids, p)];
    ChainRow(r.snaps, id, MAX_CHAIN, x);
    assert SnapOK(r, x);
    assert d in r.snaps[x].refs;
  }

  predicate SameBlobs(a: map<Digest, seq<byte>>, b: map<Digest, seq<byte>>, tree: map<Path, Entry>) {
    forall p, d :: p in tree && d in tree[p].chunks ==> d in a && d in b && b[d] == a[d]
  }

  /** `r'` still has `id`, complete, with the tree it had in `r` and the same bytes behind it. */
  predicate Unchanged(r: Repo, r': Repo, id: Id) {
    && id in r'.snaps && r'.snaps[id].status == Complete
    && TreeOf(r.snaps, id).Ok? && TreeOf(r'.snaps, id) == TreeOf(r.snaps, id)
    && SameBlobs(r.blobs, r'.blobs, TreeOf(r.snaps, id).value)
  }

  /** Any step leaves a complete snapshot unchanged or deletes it. */
  lemma StepKeepsTree(r: Repo, step: Step, id: Id)
    requires Inv(r) && Enabled(r, step) && id in r.snaps && r.snaps[id].status == Complete
    ensures id in Apply(r, step).snaps ==> Unchanged(r, Apply(r, step), id)
  {
    hide Inv, Apply, Enabled, TreeOf, Referenced;
    var r' := Apply(r, step);
    if id in r'.snaps {
      StepKeepsInv(r, step);
      StepKeepsComplete(r, step);
      TreeFrame(r, r', id);
      CompleteIsRestorable(r, id);
      forall p, d | p in TreeOf(r.snaps, id).value && d in TreeOf(r.snaps, id).value[p].chunks
        ensures d in r'.blobs && r'.blobs[d] == r.blobs[d]
      {
        TreeChunkReferenced(r, id, p, d);
        StepKeepsBlobs(r, step, d);
      }
    }
  }

  /** Over whole runs: from the state in which a snapshot is complete, for as long as it is not
      deleted, it stays complete with the same tree and the same bytes behind it. */
  lemma {:induction false} RunsKeepTree(states: seq<Repo>, steps: seq<Step>, i: nat, j: nat, id: Id)
    requires IsRun(states, steps) && states[0] == EMPTY && i <= j < |states|
    requires id in states[i].snaps && states[i].snaps[id].status == Complete
    requires forall k :: i <= k <= j ==> id in states[k].snaps
    ensures Unchanged(states[i], states[j], id)
    decreases j
  {
    hide Inv, Apply, Enabled, TreeOf;
    if i == j {
      RunsStayRestorable(states, steps, i, id);
    } else {
      RunsKeepTree(states, steps, i, j - 1, id);
      RunsKeepInv(states, steps, j - 1);
      StepKeepsTree(states[j - 1], steps[j - 1], id);
    }
  }

  // ----- what a batch of entries does to the tree -----

  lemma ChainAfterAdd(r: Repo, id: Id, row: Snap)
    requires Inv(r) && id in r.snaps && SameLinks(r.snaps[id], row)
    ensures var snaps, ids := r.snaps[id := row], SnapshotChain(r.snaps, id);
            && ids.Ok? && SnapshotChain(snaps, id) == ids && 0 < |ids.value| && ids.value[|ids.value| - 1] == id
            && (forall x :: x in ids.value ==> x in r.snaps)
            && Materialise(snaps, ids.value[..|ids.value| - 1]) == Materialise(r.snaps, ids.value[..|ids.value| - 1])
  {
    ChainNeverFails(r, id);
    var ids := SnapshotChain(r.snaps, id).value;
    WalkFrame(r.snaps, r.snaps[id := row], id, MAX_CHAIN + 1);
    var before := ids[..|ids| - 1];
    forall x | x in before ensures x != id {
      var i :| 0 <= i < |before| && before[i] == x;
      assert ids[i] != ids[|ids| - 1];
    }
    MaterialiseFrame(r.snaps, r.snaps[id := row], before);
  }

  /** Entries added to a running snapshot show in its tree unless the snapshot deletes their path,
      deleted paths are gone, and every other path stays as it was. */
  lemma AddEntriesShows(r: Repo, id: Id, items: seq<Item>, deleted: seq<string>, now: int, p: Path)
    requires Inv(r) && AddEntries(r, id, items, deleted, now).out.Ok? && (items != [] || deleted != [])
    ensures var r' := AddEntries(r, id, items, deleted, now).repo;
            && ItemTable(items).Some? && PathSet(deleted).Some? && id in r.snaps && id in r'.snaps
            && TreeOf(r.snaps, id).Ok? && TreeOf(r'.snaps, id).Ok?
    ensures var r' := AddEntries(r, id, items, deleted, now).repo;
            var added, removed := ItemTable(items).value, PathSet(deleted).value;
            var was, tree := TreeOf(r.snaps, id).value, TreeOf(r'.snaps, id).value;
            && (p in removed ==> p !in tree)
            && (p in added && p !in r'.snaps[id].deletions ==> p in tree && tree[p] == added[p])
            && (p !in added && p !in removed ==> (p in tree <==> p in was) && (p in tree ==> tree[p] == was[p]))
  {
    hide ItemTable, PathSet, ItemRefs, Inv, SnapshotChain;
    var row := AddEntries(r, id, items, deleted, now).repo.snaps[id];
    ChainAfterAdd(r, id, row);
  }
}
