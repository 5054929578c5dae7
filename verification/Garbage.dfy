/** Garbage collection of unreferenced chunks. */
module Garbage {
  import opened Repository
  import opened RepositoryInvariant
  import opened Interruption
  import opened Store

  const GC_BATCH := 5000

  function SumStored(chunks: map<Digest, ChunkRow>, ds: seq<Digest>): nat {
    if ds == [] then 0 else
      var d := ds[|ds| - 1];
      SumStored(chunks, ds[..|ds| - 1]) + if d in chunks then chunks[d].storedBytes else 0
  }

  lemma SumSnoc(chunks: map<Digest, ChunkRow>, ds: seq<Digest>, d: Digest)
    requires d in chunks
    ensures SumStored(chunks, ds + [d]) == SumStored(chunks, ds) + chunks[d].storedBytes
  {
    assert (ds + [d])[..|ds|] == ds;
  }

  /** Collecting some unreferenced chunks leaves exactly the others unreferenced. */
  lemma CollectLeavesOthers(r: Repo, victims: set<Digest>)
    ensures Unreferenced(Collect(r, victims)) == Unreferenced(r) - victims
  {
    assert forall d :: Referenced(Collect(r, victims), d) <==> Referenced(r, d);
  }

  lemma CollectOneMore(r: Repo, victims: set<Digest>, d: Digest)
    ensures Collect(Collect(r, victims), {d}) == Collect(r, victims + {d})
  {
    var once, twice := Collect(r, victims + {d}), Collect(Collect(r, victims), {d});
    assert r.blobs - victims - {d} == r.blobs - (victims + {d});
    assert r.chunks - victims - {d} == r.chunks - (victims + {d});
    assert twice.accountChunks == once.accountChunks;
  }

  lemma CollectNothing(r: Repo)
    ensures Collect(r, {}) == r
  {
    assert r.blobs - {} == r.blobs && r.chunks - {} == r.chunks;
  }

  /** What a pass has done so far: `removed` are the chunks that are gone, `half` those whose blob is
      gone and whose row could not be deleted. The storage refuses to delete the blobs `stubborn`, and
      the database the rows `stuck`. */
  ghost predicate Collected(was: Repo, now: Repo, removed: seq<Digest>, half: set<Digest>, stubborn: set<Digest>,
                            stuck: set<Digest>, deleted: nat, freed: nat)
  {
    && Distinct(removed) && Elements(removed) <= Unreferenced(was) - stubborn - stuck
    && half <= Unreferenced(was) * stuck - stubborn
    && now == Interrupt(Collect(was, Elements(removed)), half)
    && deleted == |removed| && freed == SumStored(was.chunks, removed)
  }

  lemma UnreferencedInterrupted(r: Repo, half: set<Digest>)
    ensures Unreferenced(Interrupt(r, half)) == Unreferenced(r)
  {
    assert forall d :: Referenced(Interrupt(r, half), d) <==> Referenced(r, d);
  }

  lemma CollectInterrupted(r: Repo, half: set<Digest>, d: Digest)
    ensures Collect(Interrupt(r, half), {d}) == Interrupt(Collect(r, {d}), half)
  {
    assert r.blobs - half - {d} == r.blobs - {d} - half;
  }

  lemma InterruptMore(r: Repo, half: set<Digest>, d: Digest)
    ensures Interrupt(Interrupt(r, half), {d}) == Interrupt(r, half + {d})
  {
    assert r.blobs - half - {d} == r.blobs - (half + {d});
  }

  lemma CollectedUnreferenced(was: Repo, now: Repo, removed: seq<Digest>, half: set<Digest>, stubborn: set<Digest>,
                              stuck: set<Digest>, deleted: nat, freed: nat)
    requires Collected(was, now, removed, half, stubborn, stuck, deleted, freed)
    ensures Unreferenced(now) == Unreferenced(was) - Elements(removed)
  {
    hide Unreferenced, Collect, Interrupt;
    UnreferencedInterrupted(Collect(was, Elements(removed)), half);
    CollectLeavesOthers(was, Elements(removed));
  }

  lemma OneCollected(was: Repo, now: Repo, removed: seq<Digest>, half: set<Digest>, stubborn: set<Digest>,
                     stuck: set<Digest>, deleted: nat, freed: nat, d: Digest)
    requires Collected(was, now, removed, half, stubborn, stuck, deleted, freed)
    requires d in Unreferenced(now) && d !in stubborn && d !in stuck
    ensures d in now.chunks && d in was.chunks && now.chunks[d] == was.chunks[d]
    ensures Collected(was, Collect(now, {d}), removed + [d], half, stubborn, stuck, deleted + 1,
              freed + was.chunks[d].storedBytes)
  {
    hide Unreferenced;
    CollectedUnreferenced(was, now, removed, half, stubborn, stuck, deleted, freed);
    CollectInterrupted(Collect(was, Elements(removed)), half, d);
    CollectOneMore(was, Elements(removed), d);
    UnreferencedStored(was, d);
    UnreferencedStored(now, d);
    SumSnoc(was.chunks, removed, d);
    assert d !in Elements(removed);
    DistinctSnoc(removed, d);
  }

  lemma OneInterrupted(was: Repo, now: Repo, removed: seq<Digest>, half: set<Digest>, stubborn: set<Digest>,
                  stuck: set<Digest>, deleted: nat, freed: nat, d: Digest)
    requires Collected(was, now, removed, half, stubborn, stuck, deleted, freed)
    requires d in Unreferenced(now) && d !in stubborn && d in stuck
    ensures Collected(was, Interrupt(now, {d}), removed, half + {d}, stubborn, stuck, deleted, freed)
  {
    hide Unreferenced, Collect;
    CollectedUnreferenced(was, now, removed, half, stubborn, stuck, deleted, freed);
    InterruptMore(Collect(was, Elements(removed)), half, d);
  }

  lemma UnreferencedStored(r: Repo, d: Digest)
    ensures d in Unreferenced(r) ==> d in r.chunks
  {}

  /** One chunk of a batch dealt with; `refused` are those that cannot go. */
  predicate Through(before: Repo, now: Repo, batch: seq<Digest>, k: nat, refused: set<Digest>, passDeleted: nat)
    requires k <= |batch|
  {
    && Unreferenced(now) == Unreferenced(before) - (Elements(batch[..k]) - refused)
    && (passDeleted == 0 ==> Elements(batch[..k]) <= refused)
    && (passDeleted > 0 ==> Unreferenced(now) < Unreferenced(before))
  }

  lemma ThroughNext(before: Repo, now: Repo, batch: seq<Digest>, k: nat, refused: set<Digest>, passDeleted: nat)
    requires Distinct(batch) && Elements(batch) <= Unreferenced(before) && k < |batch|
    requires Through(before, now, batch, k, refused, passDeleted)
    ensures batch[k] in Unreferenced(now)
    ensures batch[k] in refused ==>
              && Through(before, now, batch, k + 1, refused, passDeleted)
              && Through(before, Interrupt(now, {batch[k]}), batch, k + 1, refused, passDeleted)
    ensures batch[k] !in refused ==> Through(before, Collect(now, {batch[k]}), batch, k + 1, refused, passDeleted + 1)
  {
    hide Unreferenced, Collect, Interrupt;
    assert batch[..k + 1] == batch[..k] + [batch[k]];
    assert Elements(batch[..k + 1]) == Elements(batch[..k]) + {batch[k]};
    assert batch[k] !in Elements(batch[..k]) && batch[k] in Elements(batch);
    CollectLeavesOthers(now, {batch[k]});
    UnreferencedInterrupted(now, {batch[k]});
  }

  /** What a pass did is a row of events: collections of one chunk, and interruptions. */
  ghost predicate Happened(was: Repo, now: Repo, events: seq<Event>) {
    AllPossible(was, events) && AfterEvents(was, events) == now
  }

  lemma OneCollectedHappens(was: Repo, now: Repo, events: seq<Event>, d: Digest)
    requires Happened(was, now, events) && d in Unreferenced(now)
    ensures Happened(was, Collect(now, {d}), events + [Ordinary(Collects({d}))])
  {
    OneMoreEvent(was, events, Ordinary(Collects({d})));
  }

  lemma OneInterruptedHappens(was: Repo, now: Repo, events: seq<Event>, d: Digest)
    requires Happened(was, now, events) && d in Unreferenced(now)
    ensures Happened(was, Interrupt(now, {d}), events + [Interrupted(d)])
  {
    OneMoreEvent(was, events, Interrupted(d));
  }

  /** The inner loop over one batch. */
  method CollectBatch(db: Store, batch: seq<Digest>, stubborn: set<Digest>, stuck: set<Digest>, ends: set<Digest>,
                      deletedBefore: nat, freedBefore: nat,
                      ghost was: Repo, ghost removedBefore: seq<Digest>, ghost halfBefore: set<Digest>,
                      ghost eventsBefore: seq<Event>)
    returns (passDeleted: nat, deleted: nat, freed: nat, cancelled: bool, ghost removed: seq<Digest>, ghost half: set<Digest>,
             ghost events: seq<Event>)
    requires Distinct(batch) && Elements(batch) <= Unreferenced(db.State()) && Happened(was, db.State(), eventsBefore)
    requires Collected(was, db.State(), removedBefore, halfBefore, stubborn, stuck, deletedBefore, freedBefore)
    modifies db
    ensures Collected(was, db.State(), removed, half, stubborn, stuck, deleted, freed)
    ensures Happened(was, db.State(), events)
    ensures cancelled ==> Elements(batch) * ends != {}
    ensures !cancelled ==> Through(old(db.State()), db.State(), batch, |batch|, stubborn + stuck, passDeleted)
    ensures !cancelled ==> forall d :: d in batch && d in stuck && d !in stubborn ==> d in half
  {
    hide Unreferenced, Collected, Collect, Interrupt, Elements, Distinct, Through, Happened;
    ghost var before := db.State();
    passDeleted, deleted, freed, cancelled := 0, deletedBefore, freedBefore, false;
    removed, half, events := removedBefore, halfBefore, eventsBefore;
    ThroughNone(before, batch, stubborn + stuck);
    for k := 0 to |batch|
      invariant Collected(was, db.State(), removed, half, stubborn, stuck, deleted, freed)
      invariant Through(before, db.State(), batch, k, stubborn + stuck, passDeleted) && Happened(was, db.State(), events)
      invariant forall j :: 0 <= j < k && batch[j] in stuck && batch[j] !in stubborn ==> batch[j] in half
    {
      var digest := batch[k];
      if digest in ends {
        EndsThere(batch, k, ends);
        cancelled := true;
        return;
      }
      ghost var now := db.State();
      ThroughNext(before, now, batch, k, stubborn + stuck, passDeleted);
      if digest in stubborn {
        continue;
      }
      var stored := StoredBytes(db, digest);
      db.blobs := db.blobs - {digest};
      if digest in stuck {
        OneInterrupted(was, now, removed, half, stubborn, stuck, deleted, freed, digest);
        InterruptIs(now, db.State(), digest);
        OneInterruptedHappens(was, now, events, digest);
        half, events := half + {digest}, events + [Interrupted(digest)];
        continue;
      }
      OneCollected(was, now, removed, half, stubborn, stuck, deleted, freed, digest);
      db.DeleteChunkRow(digest);
      CollectIs(now, db.State(), digest);
      OneCollectedHappens(was, now, events, digest);
      events := events + [Ordinary(Collects({digest}))];
      passDeleted := passDeleted + 1;
      deleted := deleted + 1;
      freed := freed + stored;
      removed := removed + [digest];
    }
  }

  lemma EndsThere(batch: seq<Digest>, k: nat, ends: set<Digest>)
    requires k < |batch| && batch[k] in ends
    ensures Elements(batch) * ends != {}
  {
    assert batch[k] in Elements(batch) * ends;
  }

  /** The size that the query returned with the digest. */
  method StoredBytes(db: Store, digest: Digest) returns (n: nat)
    requires digest in Unreferenced(db.State())
    ensures digest in db.chunks && n == db.chunks[digest].storedBytes
  {
    n := db.chunks[digest].storedBytes;
  }

  lemma InterruptIs(now: Repo, next: Repo, d: Digest)
    requires next == now.(blobs := now.blobs - {d})
    ensures next == Interrupt(now, {d})
  {}

  lemma ThroughNone(before: Repo, batch: seq<Digest>, stubborn: set<Digest>)
    ensures Through(before, before, batch, 0, stubborn, 0)
  {}

  /** After a batch that was not full only refused chunks are left; nothing was deleted from a batch only
      if all of it is refused. */
  lemma LastBatch(before: Repo, now: Repo, batch: seq<Digest>, refused: set<Digest>, passDeleted: nat)
    requires Through(before, now, batch, |batch|, refused, passDeleted)
    requires if |Unreferenced(before)| <= GC_BATCH then Elements(batch) == Unreferenced(before) else |batch| == GC_BATCH
    ensures |batch| < GC_BATCH && Distinct(batch) ==> Elements(batch) == Unreferenced(before) && Unreferenced(now) <= refused
    ensures passDeleted == 0 ==> Elements(batch) <= refused
  {
    hide Unreferenced;
    assert batch[..|batch|] == batch;
  }

  /** The unreferenced chunks that the storage or the database does not let go. */
  function Refused(r: Repo, stubborn: set<Digest>, stuck: set<Digest>): set<Digest> {
    Unreferenced(r) * (stubborn + stuck)
  }

  /** With fewer refused chunks than a batch holds, some chunk of a full batch goes. */
  lemma FullBatchMoves(was: Repo, before: Repo, batch: seq<Digest>, stubborn: set<Digest>, stuck: set<Digest>)
    requires |Refused(was, stubborn, stuck)| < GC_BATCH && Unreferenced(before) <= Unreferenced(was)
    requires Distinct(batch) && Elements(batch) <= Unreferenced(before) && |batch| >= GC_BATCH
    ensures !(Elements(batch) <= stubborn + stuck)
  {
    hide Unreferenced, Elements, Distinct;
    DistinctSize(batch);
    if Elements(batch) <= stubborn + stuck {
      SubsetSize(Elements(batch), Refused(was, stubborn, stuck));
    }
  }

  lemma SubsetSize(a: set<Digest>, b: set<Digest>)
    requires a <= b
    ensures |a| <= |b|
  {
    assert b == a + (b - a);
  }

  /** Deletes unreferenced chunks batch by batch: the blob, then the row. The storage may refuse blobs,
      the database rows, and the context may be seen to have ended at the chunks `ends`. Whatever happens, only
      unreferenced chunks go, the counts are right, and the blobs that may be missing are those that
      were before and those whose rows are stuck. Unless it is cancelled, or refused a whole batch, exactly
      the chunks go that are not refused. */
  method CollectGarbage(db: Store, stubborn: set<Digest>, stuck: set<Digest>, ends: set<Digest>, ghost holes: set<Digest>)
    returns (deleted: nat, freed: nat, cancelled: bool, ghost removed: seq<Digest>, ghost half: set<Digest>,
             ghost events: seq<Event>)
    requires InvBut(db.State(), holes)
    modifies db
    ensures InvBut(db.State(), holes + half)
    ensures Collected(old(db.State()), db.State(), removed, half, stubborn, stuck, deleted, freed)
    ensures Happened(old(db.State()), db.State(), events)
    ensures cancelled ==> Unreferenced(old(db.State())) * ends != {}
    ensures !cancelled && |Refused(old(db.State()), stubborn, stuck)| < GC_BATCH ==>
              && Elements(removed) == Unreferenced(old(db.State())) - stubborn - stuck
              && half == Unreferenced(old(db.State())) * stuck - stubborn
  {
    hide InvBut, Unreferenced, Collected, Collect, Interrupt, Elements, Distinct, Happened, Refused;
    deleted, freed, cancelled, removed, half, events := 0, 0, false, [], {}, [];
    ghost var was := db.State();
    CollectedNothing(was, stubborn, stuck);
    while true
      invariant Collected(was, db.State(), removed, half, stubborn, stuck, deleted, freed)
      invariant Happened(was, db.State(), events)
      decreases Unreferenced(db.State())
    {
      var batch := db.UnreferencedChunks(GC_BATCH);
      if |batch| == 0 {
        EmptyBatch(db.State(), batch);
        CollectedAll(was, db.State(), removed, half, stubborn, stuck, deleted, freed, {});
        break;
      }
      ghost var before := db.State();
      CollectedUnreferenced(was, before, removed, half, stubborn, stuck, deleted, freed);
      var passDeleted;
      passDeleted, deleted, freed, cancelled, removed, half, events :=
        CollectBatch(db, batch, stubborn, stuck, ends, deleted, freed, was, removed, half, events);
      if cancelled {
        assert Elements(batch) <= Unreferenced(was);
        break;
      }
      LastBatch(before, db.State(), batch, stubborn + stuck, passDeleted);
      if passDeleted == 0 && |batch| >= GC_BATCH {
        if |Refused(was, stubborn, stuck)| < GC_BATCH {
          FullBatchMoves(was, before, batch, stubborn, stuck);
        }
        break;
      }
      if |batch| < GC_BATCH {
        HalfOfBatch(batch, stubborn, stuck, half);
        CollectedAll(was, db.State(), removed, half, stubborn, stuck, deleted, freed, Elements(batch));
        break;
      }
    }
    CollectedKeepsInv(was, db.State(), holes, removed, half, stubborn, stuck, deleted, freed);
  }

  lemma HalfOfBatch(batch: seq<Digest>, stubborn: set<Digest>, stuck: set<Digest>, half: set<Digest>)
    requires forall d :: d in batch && d in stuck && d !in stubborn ==> d in half
    ensures Elements(batch) * stuck - stubborn <= half
  {}

  lemma EmptyBatch(r: Repo, batch: seq<Digest>)
    requires batch == []
    requires if |Unreferenced(r)| <= GC_BATCH then Elements(batch) == Unreferenced(r) else |batch| == GC_BATCH
    ensures Unreferenced(r) == {}
  {}

  lemma CollectedNothing(was: Repo, stubborn: set<Digest>, stuck: set<Digest>)
    ensures Collected(was, was, [], {}, stubborn, stuck, 0, 0) && Happened(was, was, [])
  {
    CollectNothing(was);
    assert was.blobs - {} == was.blobs;
  }

  lemma CollectIs(now: Repo, next: Repo, d: Digest)
    requires next.users == now.users && next.devices == now.devices && next.snaps == now.snaps
    requires next.blobs == now.blobs - {d} && next.chunks == now.chunks - {d}
    requires next.accountChunks == set uc | uc in now.accountChunks && uc.1 != d
    ensures next == Collect(now, {d})
  {
    var c := Collect(now, {d});
    assert forall uc :: uc in next.accountChunks <==> uc in c.accountChunks;
    assert next.accountChunks == c.accountChunks && next.blobs == c.blobs && next.chunks == c.chunks;
  }

  lemma CollectedKeepsInv(was: Repo, now: Repo, holes: set<Digest>, removed: seq<Digest>, half: set<Digest>,
                          stubborn: set<Digest>, stuck: set<Digest>, deleted: nat, freed: nat)
    requires InvBut(was, holes) && Collected(was, now, removed, half, stubborn, stuck, deleted, freed)
    ensures InvBut(now, holes + half)
  {
    hide InvBut, Collect, Unreferenced, Interrupt;
    CollectKeepsInvBut(was, holes, Elements(removed));
    InterruptLeaves(Collect(was, Elements(removed)), holes, half);
  }

  /** With nothing but refused chunks left, the others went, and each stuck row has lost its blob, if each
      that was in the last batch has. */
  lemma CollectedAll(was: Repo, now: Repo, removed: seq<Digest>, half: set<Digest>, stubborn: set<Digest>,
                     stuck: set<Digest>, deleted: nat, freed: nat, last: set<Digest>)
    requires Collected(was, now, removed, half, stubborn, stuck, deleted, freed)
    requires Unreferenced(now) <= last * (stubborn + stuck) && last * stuck - stubborn <= half
    ensures Elements(removed) == Unreferenced(was) - stubborn - stuck
    ensures half == Unreferenced(was) * stuck - stubborn
  {
    hide Unreferenced;
    CollectedUnreferenced(was, now, removed, half, stubborn, stuck, deleted, freed);
    assert forall d :: d in Unreferenced(was) ==> d in Elements(removed) || d in Unreferenced(now);
  }

  /** A pass in which nothing is refused repairs everything that earlier ones left half done, as long as
      no snapshot needs it. */
  lemma CleanPassRepairs(was: Repo, now: Repo, holes: set<Digest>)
    requires InvBut(was, holes) && NoneNeeded(was) && now == Collect(was, Unreferenced(was))
    ensures Inv(now)
  {
    hide Inv;
    CollectKeepsInvBut(was, holes, Unreferenced(was));
    assert Missing(now) == {} by {
      assert forall d :: d in Missing(was) ==> d in Unreferenced(was);
    }
    InvButExactly(now, holes);
    InvButNothing(now);
  }

  lemma InvButExactly(r: Repo, holes: set<Digest>)
    requires InvBut(r, holes) && Missing(r) == {}
    ensures InvBut(r, {})
  {}
}
