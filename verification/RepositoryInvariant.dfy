/** What every reachable repository satisfies, and what follows from it. */
module RepositoryInvariant {
  import opened Wrappers
  import opened Paths
  import opened Repository

  // ----- the invariant -----

  /** Every chain reaches a full snapshot within MAX_CHAIN rows. */
  predicate ChainShort(snaps: Snaps, id: Id) {
    Walk(snaps, id, MAX_CHAIN).Ok?
  }

  predicate ParentOK(snaps: Snaps, id: Id)
    requires id in snaps
  {
    var s := snaps[id];
    match s.parent
    case None => s.kind == Full
    case Some(p) =>
      && s.kind == Delta && p != "" && p in snaps
      && snaps[p].status == Complete && snaps[p].user == s.user && snaps[p].device == s.device
  }

  predicate OwnerOK(r: Repo, s: Snap) {
    s.device in r.devices && s.user in r.users
  }

  predicate ContentOK(s: Snap) {
    && "" !in s.entries
    && forall p, d :: p in s.entries && d in s.entries[p].chunks ==> d in s.refs
  }

  predicate Stored(r: Repo, s: Snap) {
    s.status == Complete ==> s.refs <= r.chunks.Keys
  }

  predicate SnapOK(r: Repo, id: Id)
    requires id in r.snaps
  {
    var s := r.snaps[id];
    id != "" && ChainShort(r.snaps, id) && ParentOK(r.snaps, id) && OwnerOK(r, s) && ContentOK(s) && Stored(r, s)
  }

  predicate Inv(r: Repo) {
    && (forall id :: id in r.snaps ==> SnapOK(r, id))
    && (forall d :: d in r.devices ==> r.devices[d] in r.users)
    && r.chunks.Keys <= r.blobs.Keys
    && (forall uc :: uc in r.accountChunks ==> uc.1 in r.chunks)
  }

  // ----- chains -----

  lemma {:induction false} WalkMoreLinks(snaps: Snaps, id: Id, n: nat, m: nat)
    requires Walk(snaps, id, n).Ok? && n <= m
    ensures Walk(snaps, id, m) == Walk(snaps, id, n)
    decreases n
  {
    if snaps[id].kind != Full {
      WalkMoreLinks(snaps, snaps[id].parent.value, n - 1, m - 1);
    }
  }

  /** Rows that only changed in status, times or the pin. */
  predicate SameLinks(a: Snap, b: Snap) {
    a.kind == b.kind && a.parent == b.parent
  }

  /** A chain is untouched when the rows on it keep their kind and parent. */
  lemma {:induction false} WalkFrame(snaps: Snaps, snaps': Snaps, id: Id, n: nat)
    requires Walk(snaps, id, n).Ok?
    requires forall x :: x in Walk(snaps, id, n).value ==> x in snaps' && SameLinks(snaps[x], snaps'[x])
    ensures Walk(snaps', id, n) == Walk(snaps, id, n)
    decreases n
  {
    if snaps[id].kind != Full {
      var parent := snaps[id].parent.value;
      assert Walk(snaps, id, n).value == Walk(snaps, parent, n - 1).value + [id];
      WalkFrame(snaps, snaps', parent, n - 1);
    }
  }

  /** The chain of a row on the chain is the part of the chain up to it. */
  lemma {:induction false} WalkPrefix(snaps: Snaps, id: Id, n: nat, i: nat)
    requires Walk(snaps, id, n).Ok? && i < |Walk(snaps, id, n).value|
    ensures Walk(snaps, Walk(snaps, id, n).value[i], n) == Ok(Walk(snaps, id, n).value[..i + 1])
    decreases n
  {
    var ids := Walk(snaps, id, n).value;
    if i == |ids| - 1 {
      assert ids[..i + 1] == ids;
    } else {
      var parent := snaps[id].parent.value;
      var up := Walk(snaps, parent, n - 1).value;
      assert ids == up + [id];
      WalkPrefix(snaps, parent, n - 1, i);
      assert up[..i + 1] == ids[..i + 1];
      WalkMoreLinks(snaps, ids[i], n - 1, n);
    }
  }

  predicate ParentsOK(snaps: Snaps) {
    forall id :: id in snaps ==> ParentOK(snaps, id)
  }

  lemma InvParents(r: Repo)
    requires Inv(r)
    ensures ParentsOK(r.snaps)
  {
    forall id | id in r.snaps ensures ParentOK(r.snaps, id) {
      assert SnapOK(r, id);
    }
  }

  /** The rows on a chain, other than its end, are complete, and all belong to one account and device. */
  lemma {:induction false} ChainRow(snaps: Snaps, id: Id, n: nat, x: Id)
    requires ParentsOK(snaps) && Walk(snaps, id, n).Ok? && x in Walk(snaps, id, n).value
    ensures x != id ==> snaps[x].status == Complete
    ensures snaps[x].device == snaps[id].device && snaps[x].user == snaps[id].user
    decreases n
  {
    if x != id {
      var parent := snaps[id].parent.value;
      assert ParentOK(snaps, id);
      assert Walk(snaps, id, n).value == Walk(snaps, parent, n - 1).value + [id];
      ChainRow(snaps, parent, n - 1, x);
    }
  }

  /** Resolving a stored snapshot never fails, and its chain ends in it and starts in a full one. */
  lemma ChainNeverFails(r: Repo, id: Id)
    requires Inv(r) && id in r.snaps
    ensures var chain := SnapshotChain(r.snaps, id);
            && chain.Ok? && 0 < |chain.value| <= MAX_CHAIN && chain.value[|chain.value| - 1] == id
            && chain == Walk(r.snaps, id, MAX_CHAIN)
            && r.snaps[chain.value[0]].kind == Full
            && forall i, j :: 0 <= i < j < |chain.value| ==> chain.value[i] != chain.value[j]
  {
    assert SnapOK(r, id);
    WalkMoreLinks(r.snaps, id, MAX_CHAIN, MAX_CHAIN + 1);
    ChainStartsFull(r.snaps, id, MAX_CHAIN);
    ChainIsAcyclic(r.snaps, id, MAX_CHAIN);
  }

  lemma {:induction false} ChainStartsFull(snaps: Snaps, id: Id, n: nat)
    requires Walk(snaps, id, n).Ok?
    ensures snaps[Walk(snaps, id, n).value[0]].kind == Full
    decreases n
  {
    if snaps[id].kind != Full {
      ChainStartsFull(snaps, snaps[id].parent.value, n - 1);
    }
  }

  lemma ChainIsAcyclic(snaps: Snaps, id: Id, n: nat)
    requires Walk(snaps, id, n).Ok?
    ensures var ids := Walk(snaps, id, n).value;
            forall i, j :: 0 <= i < j < |ids| ==> ids[i] != ids[j]
  {
    var ids := Walk(snaps, id, n).value;
    forall i, j | 0 <= i < j < |ids| ensures ids[i] != ids[j] {
      WalkPrefix(snaps, id, n, i);
      WalkPrefix(snaps, id, n, j);
      assert |ids[..i + 1]| != |ids[..j + 1]|;
    }
  }

  // ----- every step keeps the invariant -----

  /** Rows of `r'` that come from a row of `r` with the same links and owner. */
  predicate Carried(r: Repo, r': Repo, id: Id)
    requires id in r'.snaps
  {
    && id in r.snaps && SameLinks(r.snaps[id], r'.snaps[id])
    && r.snaps[id].user == r'.snaps[id].user && r.snaps[id].device == r'.snaps[id].device
    && (r.snaps[id].status == Complete ==> r'.snaps[id].status == Complete)
  }

  /** A change that keeps or drops rows together with their chains keeps chains and parents right. */
  lemma KeepsChains(r: Repo, r': Repo, id: Id)
    requires Inv(r) && id in r'.snaps && id in r.snaps && ChainShort(r.snaps, id)
    requires forall x :: x in r'.snaps ==> Carried(r, r', x)
    requires forall x :: x in Walk(r.snaps, id, MAX_CHAIN).value ==> x in r'.snaps
    ensures ChainShort(r'.snaps, id) && ParentOK(r'.snaps, id)
  {
    assert Carried(r, r', id) && SnapOK(r, id);
    forall x | x in Walk(r.snaps, id, MAX_CHAIN).value
      ensures x in r'.snaps && SameLinks(r.snaps[x], r'.snaps[x])
    {
      assert Carried(r, r', x);
    }
    WalkFrame(r.snaps, r'.snaps, id, MAX_CHAIN);
    if r.snaps[id].parent.Some? {
      var parent := r.snaps[id].parent.value;
      assert parent in Walk(r.snaps, id, MAX_CHAIN).value;
      assert Carried(r, r', parent);
    }
  }

  /** One row changed, its links and owner kept: status, contents, pin. */
  lemma RowChangeKeepsInv(r: Repo, id: Id, s': Snap)
    requires Inv(r) && id in r.snaps
    requires SameLinks(r.snaps[id], s') && s'.user == r.snaps[id].user && s'.device == r.snaps[id].device
    requires r.snaps[id].status == Complete ==> s'.status == Complete
    requires ContentOK(s') && Stored(r, s')
    ensures Inv(r.(snaps := r.snaps[id := s']))
  {
    var r' := r.(snaps := r.snaps[id := s']);
    forall x | x in r'.snaps ensures SnapOK(r', x) {
      assert SnapOK(r, x);
      KeepsChains(r, r', x);
    }
  }

  lemma StartKeepsInv(r: Repo, id: Id, user: User, device: Device, kind: Kind, parent: Id, startedAt: int, now: int)
    requires Inv(r)
    ensures Inv(StartSnapshot(r, id, user, device, kind, parent, startedAt, now).repo)
  {
    var r' := StartSnapshot(r, id, user, device, kind, parent, startedAt, now).repo;
    if r' != r {
      forall x | x in r'.snaps ensures SnapOK(r', x) {
        if x == id {
          var s := r'.snaps[id];
          if s.kind == Delta {
            assert SnapOK(r, parent);
            WalkMoreLinks(r.snaps, parent, MAX_CHAIN, MAX_CHAIN + 1);
            FewerLinks(r.snaps, parent, MAX_CHAIN, MAX_CHAIN - 1);
            WalkFrame(r.snaps, r'.snaps, parent, MAX_CHAIN - 1);
          }
        } else {
          assert SnapOK(r, x);
          WalkFrame(r.snaps, r'.snaps, x, MAX_CHAIN);
        }
      }
    }
  }

  lemma {:induction false} FewerLinks(snaps: Snaps, id: Id, n: nat, m: nat)
    requires Walk(snaps, id, n).Ok? && |Walk(snaps, id, n).value| <= m
    ensures Walk(snaps, id, m) == Walk(snaps, id, n)
    decreases n
  {
    if snaps[id].kind != Full {
      FewerLinks(snaps, snaps[id].parent.value, n - 1, m - 1);
    }
  }

  lemma AddKeepsInv(r: Repo, id: Id, items: seq<Item>, deleted: seq<string>, now: int)
    requires Inv(r)
    ensures Inv(AddEntries(r, id, items, deleted, now).repo)
  {
    var r' := AddEntries(r, id, items, deleted, now).repo;
    if r' != r {
      assert SnapOK(r, id);
      var s, s', table := r.snaps[id], r'.snaps[id], ItemTable(items).value;
      forall p, d | p in s'.entries && d in s'.entries[p].chunks ensures d in s'.refs {
        if p in table {
          var i :| i in items && i.entry == table[p];
          assert d in ItemRefs(items);
        }
      }
      RowChangeKeepsInv(r, id, s');
    }
  }

  lemma FailStaleKeepsInv(r: Repo, cutoff: int)
    requires Inv(r)
    ensures Inv(FailStaleSnapshots(r, cutoff).repo)
  {
    var r' := FailStaleSnapshots(r, cutoff).repo;
    forall x | x in r'.snaps ensures SnapOK(r', x) {
      assert SnapOK(r, x);
      KeepsChains(r, r', x);
    }
  }

  lemma DependsUp(r: Repo, x: Id, y: Id, id: Id)
    requires Inv(r) && x in r.snaps && y in Walk(r.snaps, x, MAX_CHAIN).value
    requires DependsOn(r.snaps, y, id)
    ensures DependsOn(r.snaps, x, id)
  {
    assert SnapOK(r, x);
    WalkMoreLinks(r.snaps, x, MAX_CHAIN, MAX_CHAIN + 1);
    var ids := Walk(r.snaps, x, MAX_CHAIN + 1).value;
    var i :| 0 <= i < |ids| && ids[i] == y;
    WalkPrefix(r.snaps, x, MAX_CHAIN + 1, i);
    assert id in ids[..i + 1];
  }

  lemma CascadeKeepsInv(r: Repo, id: Id)
    requires Inv(r)
    ensures Inv(DeleteSnapshotCascade(r, id).repo)
  {
    var r' := DeleteSnapshotCascade(r, id).repo;
    forall x | x in r'.snaps ensures SnapOK(r', x) {
      assert SnapOK(r, x);
      forall y | y in Walk(r.snaps, x, MAX_CHAIN).value ensures y in r'.snaps {
        if DependsOn(r.snaps, y, id) {
          DependsUp(r, x, y, id);
        }
      }
      KeepsChains(r, r', x);
    }
  }

  lemma DeleteDeviceKeepsInv(r: Repo, user: User, device: Device)
    requires Inv(r)
    ensures Inv(DeleteDevice(r, user, device).repo)
  {
    var r' := DeleteDevice(r, user, device).repo;
    if r' != r {
      InvParents(r);
      forall x | x in r'.snaps ensures SnapOK(r', x) {
        assert SnapOK(r, x);
        forall y | y in Walk(r.snaps, x, MAX_CHAIN).value ensures y in r'.snaps {
          ChainRow(r.snaps, x, MAX_CHAIN, y);
        }
        KeepsChains(r, r', x);
      }
    }
  }

  lemma PutKeepsInv(r: Repo, user: User, digest: Digest, blob: seq<Bytes.byte>, plainLen: int, encrypted: bool,
                    accepted: bool, registers: bool)
    requires Inv(r)
    ensures Inv(PutChunk(r, user, digest, blob, plainLen, encrypted, accepted, registers).repo)
  {
    hide HexDigest;
    var r' := PutChunk(r, user, digest, blob, plainLen, encrypted, accepted, registers).repo;
    forall x | x in r'.snaps ensures SnapOK(r', x) {
      assert SnapOK(r, x);
    }
  }

  lemma CollectKeepsInv(r: Repo, victims: set<Digest>)
    requires Inv(r) && victims <= Unreferenced(r)
    ensures Inv(Collect(r, victims))
  {
    var r' := Collect(r, victims);
    forall x | x in r'.snaps ensures SnapOK(r', x) {
      assert SnapOK(r, x);
      assert forall d :: d in r.snaps[x].refs ==> Referenced(r, d);
    }
  }

  lemma CompleteKeepsInv(r: Repo, id: Id, agentError: bool)
    requires Inv(r)
    ensures Inv(CompleteSnapshot(r, id, agentError).repo)
  {
    if id in r.snaps && r.snaps[id].status == Running {
      assert SnapOK(r, id);
      var s' := CompleteSnapshot(r, id, agentError).repo.snaps[id];
      if s'.status == Complete {
        assert forall d :: d in s'.refs ==> d !in MissingSnapshotChunks(r, id);
      }
      RowChangeKeepsInv(r, id, s');
    }
  }

  lemma PinKeepsInv(r: Repo, user: User, id: Id, pinned: bool)
    requires Inv(r)
    ensures Inv(SetPinned(r, user, id, pinned).repo)
  {
    if id in r.snaps {
      assert SnapOK(r, id);
      RowChangeKeepsInv(r, id, r.snaps[id].(pinned := pinned));
    }
  }

  lemma SmallStepsKeepInv(r: Repo, step: Step)
    requires Inv(r) && (step.Policies? || step.Enrols? || step.DropsOrphan?)
    ensures Inv(Apply(r, step))
  {
    SameTables(r, Apply(r, step));
  }

  /** Every enabled step keeps the invariant. */
  lemma StepKeepsInv(r: Repo, step: Step)
    requires Inv(r) && Enabled(r, step)
    ensures Inv(Apply(r, step))
  {
    hide Inv, StartSnapshot, AddEntries, CompleteSnapshot, FailStaleSnapshots, SetPinned, DeleteSnapshotCascade,
      DeleteDevice, PutChunk, Collect, SetPolicy, Enrol, DropOrphan, Unreferenced;
    match step
    case Starts(id, user, kind, device, parent, startedAt, now) =>
      StartKeepsInv(r, id, user, device, kind, parent, startedAt, now);
    case Adds(id, items, deleted, now) => AddKeepsInv(r, id, items, deleted, now);
    case Completes(id, agentError) => CompleteKeepsInv(r, id, agentError);
    case FailsStale(cutoff) => FailStaleKeepsInv(r, cutoff);
    case Pins(user, id, pinned) => PinKeepsInv(r, user, id, pinned);
    case Deletes(user, id) => CascadeKeepsInv(r, id);
    case Cascades(id) => CascadeKeepsInv(r, id);
    case DeletesDevice(user, device) => DeleteDeviceKeepsInv(r, user, device);
    case Puts(user, digest, blob, plainLen, encrypted, accepted, registers) =>
      PutKeepsInv(r, user, digest, blob, plainLen, encrypted, accepted, registers);
    case Collects(victims) => CollectKeepsInv(r, victims);
    case Policies(_, _) => SmallStepsKeepInv(r, step);
    case Enrols(_, _) => SmallStepsKeepInv(r, step);
    case DropsOrphan(_) => SmallStepsKeepInv(r, step);
  }

  lemma SameTables(r: Repo, r': Repo)
    requires Inv(r) && r'.snaps == r.snaps && r'.chunks == r.chunks && r'.accountChunks == r.accountChunks
    requires r.users.Keys <= r'.users.Keys
    requires forall d :: d in r.devices ==> d in r'.devices && r'.devices[d] == r.devices[d]
    requires forall d :: d in r'.devices ==> r'.devices[d] in r'.users
    requires r'.chunks.Keys <= r'.blobs.Keys
    ensures Inv(r')
  {
    forall x | x in r'.snaps ensures SnapOK(r', x) {
      assert SnapOK(r, x);
    }
  }

  /** Every state of every run from the empty repository satisfies the invariant. */
  lemma {:induction false} RunsKeepInv(states: seq<Repo>, steps: seq<Step>, i: nat)
    requires IsRun(states, steps) && states[0] == EMPTY && i < |states|
    ensures Inv(states[i])
  {
    if i > 0 {
      RunsKeepInv(states, steps, i - 1);
      StepKeepsInv(states[i - 1], steps[i - 1]);
    }
  }

  ghost predicate Reachable(r: Repo) {
    exists states, steps :: IsRun(states, steps) && states[0] == EMPTY && states[|steps|] == r
  }

  lemma ReachableStart()
    ensures Reachable(EMPTY)
  {
    assert IsRun([EMPTY], []);
  }

  lemma ReachableStep(r: Repo, step: Step)
    requires Reachable(r) && Enabled(r, step)
    ensures Reachable(Apply(r, step))
  {
    hide Apply, Enabled;
    var states, steps :| IsRun(states, steps) && states[0] == EMPTY && states[|steps|] == r;
    assert IsRun(states + [Apply(r, step)], steps + [step]);
  }

  // ----- what single operations achieve -----

  /** A delta is started whenever it can be: on a complete snapshot of the same account and device
      whose chain has room for one more. */
  lemma DeltaWhenPossible(r: Repo, user: User, device: Device, kind: Kind, parent: Id)
    requires Inv(r)
    ensures StartAs(r, user, device, kind, parent) ==
              if kind == Delta && DeltaParentOK(r, user, device, parent) && |Walk(r.snaps, parent, MAX_CHAIN).value| < MAX_CHAIN
              then (Delta, Some(parent)) else (Full, None)
  {
    if parent in r.snaps {
      ChainNeverFails(r, parent);
    }
  }

  /** The last item for a path decides. */
  lemma {:induction false} LastItemWins(items: seq<Item>, i: nat, p: Path)
    requires i < |items| && ItemTable(items).Some? && CleanPath(items[i].path) == Some(p)
    requires forall j :: i < j < |items| ==> CleanPath(items[j].path) != Some(p)
    ensures p in ItemTable(items).value && ItemTable(items).value[p] == items[i].entry
    decreases |items|
  {
    hide CleanPath;
    if i < |items| - 1 {
      LastItemWins(items[..|items| - 1], i, p);
    }
  }

  /** A batch is accepted only as a whole: when every path in it is clean. */
  lemma {:induction false} BatchIsAllOrNothing(items: seq<Item>)
    ensures ItemTable(items).Some? <==> forall i :: 0 <= i < |items| ==> CleanPath(items[i].path).Some?
    decreases |items|
  {
    hide CleanPath;
    if items != [] {
      var before := items[..|items| - 1];
      BatchIsAllOrNothing(before);
      assert forall i :: 0 <= i < |before| ==> before[i] == items[i];
    }
  }
}
