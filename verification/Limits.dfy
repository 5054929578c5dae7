/** Promises of the repository's comments that do not hold without a condition: what the server answers
    to an upload question, with the exact condition, and examples of both failures. */
module Limits {
  import opened Wrappers
  import opened Paths
  import opened Repository
  import opened RepositoryInvariant
  import opened Tree
  import opened Interruption
  import opened Store

  // ----- "which of these do you not have?" -----

  /** The answer to the upload question leaves out only stored chunks exactly when no snapshot of
      the account, whatever its status, references one of the digests without its being stored. */
  lemma AnsweredIsStored(r: Repo, user: User, digests: seq<Digest>)
    requires Inv(r)
    ensures (forall d :: d in digests && d !in MissingOf(r, user, digests) ==> d in r.chunks) <==>
            (forall id, d :: id in r.snaps && r.snaps[id].user == user && d in r.snaps[id].refs && d in digests ==>
               d in r.chunks)
  {
    if forall d :: d in digests && d !in MissingOf(r, user, digests) ==> d in r.chunks {
      forall id, d | id in r.snaps && r.snaps[id].user == user && d in r.snaps[id].refs && d in digests
        ensures d in r.chunks
      {
        assert Known(r, user, d);
      }
    }
    if forall id, d :: id in r.snaps && r.snaps[id].user == user && d in r.snaps[id].refs && d in digests ==> d in r.chunks {
      forall d | d in digests && d !in MissingOf(r, user, digests) ensures d in r.chunks {
        assert Known(r, user, d);
      }
    }
  }

  const C8: string := "cccccccc"
  const C32: string := C8 + C8 + C8 + C8
  const CHUNK: Digest := C32 + C32

  const ONE_FILE := [Item("f", Entry(File, 1, 0, 0, "h", "", [CHUNK]))]

  const TABLE: map<Path, Entry> := map["f" := Entry(File, 1, 0, 0, "h", "", [CHUNK])]

  lemma OneFileTable()
    ensures ItemTable(ONE_FILE) == Some(TABLE)
    ensures PathSet([]) == Some({}) && ItemRefs(ONE_FILE) == {CHUNK}
  {
    hide CleanPath;
    OneSegmentIsClean("f");
    assert ONE_FILE[..0] == [];
    assert ItemTable(ONE_FILE[..0]) == Some(map[]);
    assert ONE_FILE[0] in ONE_FILE && CHUNK in ONE_FILE[0].entry.chunks;
    assert CHUNK in ItemRefs(ONE_FILE) && ItemRefs(ONE_FILE) <= {CHUNK};
  }

  function FullSnap(status: Status, updatedAt: int, entries: map<Path, Entry>, refs: set<Digest>): Snap {
    Snap("u", "dev", Full, status, None, 1, updatedAt, false, entries, {}, refs)
  }

  lemma StartFull(r: Repo, id: Id)
    requires id != "" && id !in r.snaps && "u" in r.users && "dev" in r.devices
    ensures var step := Starts(id, "u", Full, "dev", "", 1, 1);
            Enabled(r, step) && Apply(r, step) == r.(snaps := r.snaps[id := FullSnap(Running, 1, map[], {})])
  {
    hide SnapshotChain;
  }

  lemma AddOneFile(r: Repo, id: Id)
    requires id in r.snaps && r.snaps[id] == FullSnap(Running, 1, map[], {})
    ensures var step := Adds(id, ONE_FILE, [], 2);
            Enabled(r, step) && Apply(r, step) == r.(snaps := r.snaps[id := FullSnap(Running, 2, TABLE, {CHUNK})])
  {
    hide ItemTable, PathSet, ItemRefs;
    OneFileTable();
    assert map[] + TABLE == TABLE;
    var s: set<Digest>, t: set<Path> := {}, {};
    assert s + {CHUNK} == {CHUNK} && t + {} == {};
  }

  lemma CompleteOne(r: Repo, id: Id)
    requires id in r.snaps && r.snaps[id] == FullSnap(Running, 2, TABLE, {CHUNK})
    ensures var step, status := Completes(id, false), if CHUNK in r.chunks then Complete else Failed;
            && Enabled(r, step) && Apply(r, step) == r.(snaps := r.snaps[id := FullSnap(status, 2, TABLE, {CHUNK})])
            && CompleteSnapshot(r, id, false).out == if CHUNK in r.chunks then Ok(()) else Err(MarkedFailed)
  {
    if CHUNK in r.chunks {
      assert MissingSnapshotChunks(r, id) == {};
    } else {
      assert CHUNK in MissingSnapshotChunks(r, id);
    }
  }

  /** A new full snapshot with the one file "f" made of chunk CHUNK. */
  lemma Begin(r: Repo, id: Id) returns (r': Repo)
    requires Reachable(r) && id != "" && id !in r.snaps
    requires "u" in r.users && "dev" in r.devices
    ensures Reachable(r')
    ensures r' == r.(snaps := r.snaps[id := FullSnap(Running, 2, TABLE, {CHUNK})])
  {
    hide Reachable, Apply, Enabled;
    StartFull(r, id);
    ReachableStep(r, Starts(id, "u", Full, "dev", "", 1, 1));
    var r1 := Apply(r, Starts(id, "u", Full, "dev", "", 1, 1));
    AddOneFile(r1, id);
    ReachableStep(r1, Adds(id, ONE_FILE, [], 2));
    r' := Apply(r1, Adds(id, ONE_FILE, [], 2));
  }

  lemma Enrolled() returns (r: Repo)
    ensures Reachable(r) && r == EMPTY.(users := map["u" := Policy(0, 0, 0, 0)], devices := map["dev" := "u"])
  {
    ReachableStart();
    var r1 := Apply(EMPTY, Policies("u", Policy(0, 0, 0, 0)));
    ReachableStep(EMPTY, Policies("u", Policy(0, 0, 0, 0)));
    ReachableStep(r1, Enrols("dev", "u"));
    r := Apply(r1, Enrols("dev", "u"));
  }

  /** A snapshot that failed for want of a chunk keeps its references, so the account counts the
      chunk as known: the agent is told to upload nothing and the next snapshot fails as well. */
  lemma AFailedSnapshotBlocksTheNext()
    ensures exists r :: Reachable(r) && CHUNK !in r.chunks && CHUNK !in r.blobs && MissingOf(r, "u", [CHUNK]) == []
              && "s2" in r.snaps && r.snaps["s2"].status == Running && CompleteSnapshot(r, "s2", false).out == Err(MarkedFailed)
  {
    hide Reachable, Apply, Enabled, CompleteSnapshot, MissingOf;
    var r := Enrolled();
    r := Begin(r, "s1");
    CompleteOne(r, "s1");
    ReachableStep(r, Completes("s1", false));
    r := Begin(Apply(r, Completes("s1", false)), "s2");
    CompleteOne(r, "s2");
    assert "s1" in r.snaps && Known(r, "u", CHUNK);
    KnownIsNotMissing(r, "u", CHUNK);
  }

  // ----- a crash between deleting a blob and its row -----

  /** Backing up the one file next completes a snapshot that cannot be restored. */
  ghost predicate LosesTheChunk(r: Repo) {
    var begun := Apply(Apply(r, Starts("s", "u", Full, "dev", "", 1, 1)), Adds("s", ONE_FILE, [], 2));
    var after := Apply(begun, Completes("s", false));
    "s" in after.snaps && after.snaps["s"].status == Complete && !Restorable(after, "s")
  }

  /** But a snapshot may come to refer to the chunk first: the account still counts it as known, the
      row still satisfies the completion check, and the snapshot is complete without being restorable. */
  lemma AnInterruptedPassCanLoseAChunk()
    ensures exists r :: Reachable(r) && CHUNK in Unreferenced(r) && MissingOf(Interrupt(r, {CHUNK}), "u", [CHUNK]) == []
              && LosesTheChunk(Interrupt(r, {CHUNK}))
  {
    hide Reachable, Apply, Enabled, Restorable, MissingOf, Unreferenced;
    var e := Enrolled();
    var r := OneStored(e);
    var cut := Interrupt(r, {CHUNK});
    KnownIsNotMissing(cut, "u", CHUNK);
    StartFull(cut, "s");
    var r1 := Apply(cut, Starts("s", "u", Full, "dev", "", 1, 1));
    AddOneFile(r1, "s");
    var r2 := Apply(r1, Adds("s", ONE_FILE, [], 2));
    CompleteOne(r2, "s");
    var r3 := Apply(r2, Completes("s", false));
    TreeOfOne(r3.snaps, "s");
    NotRestorable(r3, "s");
    assert LosesTheChunk(cut);
  }

  lemma ChunkIsHex()
    ensures HexDigest(CHUNK)
  {
    assert forall i :: 0 <= i < |C8| ==> C8[i] == 'c';
    assert forall i :: 0 <= i < |C32| ==> C32[i] == 'c';
  }

  lemma PutOne(e: Repo, d: Digest)
    requires HexDigest(d) && e.blobs == map[] && e.chunks == map[] && e.accountChunks == {} && e.snaps == map[]
    ensures var r := Apply(e, Puts("u", d, [0], 1, false, true, true));
            && d in Unreferenced(r)
            && r == e.(blobs := map[d := [0]], chunks := map[d := ChunkRow(1, 1, false)], accountChunks := {("u", d)})
  {
    hide HexDigest;
  }

  lemma OneStored(e: Repo) returns (r: Repo)
    requires Reachable(e)
    requires e == EMPTY.(users := map["u" := Policy(0, 0, 0, 0)], devices := map["dev" := "u"])
    ensures Reachable(r) && CHUNK in Unreferenced(r)
    ensures r == e.(blobs := map[CHUNK := [0]], chunks := map[CHUNK := ChunkRow(1, 1, false)], accountChunks := {("u", CHUNK)})
  {
    hide Reachable, Apply, Unreferenced, HexDigest;
    ChunkIsHex();
    PutOne(e, CHUNK);
    var put := Puts("u", CHUNK, [0], 1, false, true, true);
    ReachableStep(e, put);
    r := Apply(e, put);
  }

  lemma KnownIsNotMissing(r: Repo, user: User, d: Digest)
    requires Known(r, user, d)
    ensures MissingOf(r, user, [d]) == []
  {
    assert [d][..0] == [];
  }

  lemma NotRestorable(r: Repo, id: Id)
    requires TreeOf(r.snaps, id) == Ok(TABLE) && CHUNK !in r.blobs
    ensures !Restorable(r, id)
  {
    assert "f" in TABLE && CHUNK in TABLE["f"].chunks;
  }

  lemma TreeOfOne(snaps: Snaps, id: Id)
    requires id in snaps && id != "" && snaps[id].kind == Full && snaps[id].deletions == {}
    ensures TreeOf(snaps, id) == Ok(snaps[id].entries)
  {
    assert Walk(snaps, id, MAX_CHAIN + 1) == Ok([id]);
    assert [id][..0] == [];
    assert Materialise(snaps, []) == map[];
    assert Materialise(snaps, [id]) == (map[] + snaps[id].entries) - snaps[id].deletions;
    assert map[] + snaps[id].entries == snaps[id].entries;
    assert snaps[id].entries - {} == snaps[id].entries;
  }
}
