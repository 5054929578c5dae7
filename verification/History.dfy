/** Why a snapshot is as it is: what any one step does to its status, its pin, its contents and its
    existence, and what that says of the steps that came before. */
module History {
  import opened Wrappers
  import opened Bytes
  import opened Paths
  import opened Repository
  import opened RepositoryInvariant
  import opened Tree

  // ----- one step of any kind -----

  /** The agent reports that it is done, without an error, and every chunk it referred to is stored. */
  predicate Finishes(r: Repo, step: Step, id: Id)
    requires id in r.snaps
  {
    step == Completes(id, false) && r.snaps[id].refs <= r.chunks.Keys
  }

  /** The agent reports an error or a chunk is missing, or nothing was heard of it since the cutoff. */
  predicate GivesUp(r: Repo, step: Step, id: Id)
    requires id in r.snaps
  {
    || (step.Completes? && step.id == id && (step.agentError || exists d :: d in r.snaps[id].refs && d !in r.chunks))
    || (step.FailsStale? && r.snaps[id].startedAt < step.cutoff && r.snaps[id].updatedAt < step.cutoff)
  }

  /** A running snapshot becomes complete or failed for these reasons and no others; a complete or
      failed one stays so. */
  lemma StatusExactly(r: Repo, step: Step, id: Id)
    requires id in r.snaps && id in Apply(r, step).snaps
    ensures Apply(r, step).snaps[id].status ==
              if r.snaps[id].status != Running then r.snaps[id].status
              else if Finishes(r, step, id) then Complete
              else if GivesUp(r, step, id) then Failed
              else Running
  {
    hide MissingSnapshotChunks;
    NoneMissing(r, id);
    if step.Completes? || step.FailsStale? {
      hide StartSnapshot, AddEntries, SetPinned, DeleteSnapshot, DeleteSnapshotCascade, DeleteDevice, PutChunk, Collect;
    } else {
      OthersKeepStatus(r, step, id);
    }
  }

  lemma OthersKeepStatus(r: Repo, step: Step, id: Id)
    requires id in r.snaps && id in Apply(r, step).snaps && !step.Completes? && !step.FailsStale?
    ensures Apply(r, step).snaps[id].status == r.snaps[id].status
  {
    hide StartAs, ItemTable, PathSet, ItemRefs, Victims, HexDigest;
  }

  lemma NoneMissing(r: Repo, id: Id)
    requires id in r.snaps
    ensures MissingSnapshotChunks(r, id) == {} <==> r.snaps[id].refs <= r.chunks.Keys
    ensures MissingSnapshotChunks(r, id) == {} <==> forall d :: d in r.snaps[id].refs ==> d in r.chunks
  {
    assert MissingSnapshotChunks(r, id) == {} ==>
             forall d :: d in r.snaps[id].refs && d !in r.chunks ==> d in MissingSnapshotChunks(r, id);
  }

  /** What completing answers. */
  lemma CompletionAnswer(r: Repo, id: Id, agentError: bool)
    ensures CompleteSnapshot(r, id, agentError).out ==
              if id !in r.snaps || r.snaps[id].status != Running then Err(NotFound)
              else if !agentError && r.snaps[id].refs <= r.chunks.Keys then Ok(())
              else Err(MarkedFailed)
  {
    if id in r.snaps {
      NoneMissing(r, id);
    }
  }

  /** A snapshot comes into being running, unpinned and empty, for an account and a device that exist. */
  lemma AppearsExactly(r: Repo, step: Step, id: Id)
    requires id !in r.snaps
    ensures id in Apply(r, step).snaps <==>
              step.Starts? && step.id == id && id != "" && step.user in r.users && step.device in r.devices
    ensures id in Apply(r, step).snaps ==>
              var s := Apply(r, step).snaps[id];
              s == Snap(step.user, step.device, s.kind, Running, s.parent, step.startedAt, step.now, false, map[], {}, {})
  {
    hide StartAs, ItemTable, PathSet, ItemRefs, Victims, HexDigest, MissingSnapshotChunks;
  }

  /** A snapshot goes only together with one it builds on, that its owner or maintenance deletes, or with
      its device, that the device's owner removes. */
  lemma GoneExactly(r: Repo, step: Step, id: Id)
    requires id in r.snaps
    ensures id !in Apply(r, step).snaps <==>
              || (step.Cascades? && DependsOn(r.snaps, id, step.id))
              || (step.Deletes? && step.id in r.snaps && r.snaps[step.id].user == step.user && DependsOn(r.snaps, id, step.id))
              || (step.DeletesDevice? && step.device in r.devices && r.devices[step.device] == step.user
                  && r.snaps[id].device == step.device)
  {
    hide StartAs, ItemTable, PathSet, ItemRefs, DependsOn, HexDigest, MissingSnapshotChunks;
  }

  /** A pin is set and lifted by the owner only. */
  lemma PinExactly(r: Repo, step: Step, id: Id)
    requires id in r.snaps && id in Apply(r, step).snaps
    ensures Apply(r, step).snaps[id].pinned ==
              if step.Pins? && step.id == id && step.user == r.snaps[id].user then step.pinned else r.snaps[id].pinned
  {
    hide StartAs, ItemTable, PathSet, ItemRefs, Victims, HexDigest, MissingSnapshotChunks;
  }

  /** A batch for the snapshot that is taken: the snapshot runs, the batch is not empty, and every path
      in it is clean. */
  predicate IsTaken(r: Repo, step: Step, id: Id) {
    && step.Adds? && step.id == id && id in r.snaps && r.snaps[id].status == Running
    && (step.items != [] || step.deleted != [])
    && (forall i :: i in step.items ==> CleanPath(i.path).Some?)
    && (forall p :: p in step.deleted ==> CleanPath(p).Some?)
  }

  lemma {:induction false} ItemTableExactly(items: seq<Item>, p: Path)
    ensures ItemTable(items).Some? <==> forall i :: i in items ==> CleanPath(i.path).Some?
    ensures ItemTable(items).Some? ==> (p in ItemTable(items).value <==> exists i :: i in items && CleanPath(i.path) == Some(p))
    decreases |items|
  {
    hide CleanPath;
    if items != [] {
      var before, last := items[..|items| - 1], items[|items| - 1];
      ItemTableExactly(before, p);
      assert items == before + [last];
    }
  }

  lemma {:induction false} PathSetExactly(paths: seq<string>, p: Path)
    ensures PathSet(paths).Some? <==> forall q :: q in paths ==> CleanPath(q).Some?
    ensures PathSet(paths).Some? ==> (p in PathSet(paths).value <==> exists q :: q in paths && CleanPath(q) == Some(p))
    decreases |paths|
  {
    hide CleanPath;
    if paths != [] {
      var before, last := paths[..|paths| - 1], paths[|paths| - 1];
      PathSetExactly(before, p);
      assert paths == before + [last];
    }
  }

  lemma TakenExactly(r: Repo, step: Step, id: Id)
    requires step.Adds? && step.id == id
    ensures IsTaken(r, step, id) <==>
              && id in r.snaps && r.snaps[id].status == Running && (step.items != [] || step.deleted != [])
              && ItemTable(step.items).Some? && PathSet(step.deleted).Some?
  {
    hide CleanPath, ItemTable, PathSet;
    ItemTableExactly(step.items, "");
    PathSetExactly(step.deleted, "");
  }

  /** The contents of a snapshot change by a batch that is taken, and only so: its references grow by the
      chunks of the batch, its deletions by the paths of the batch, and it was heard of now. */
  lemma ContentExactly(r: Repo, step: Step, id: Id, p: Path, d: Digest)
    requires id in r.snaps && id in Apply(r, step).snaps
    ensures var s, s' := r.snaps[id], Apply(r, step).snaps[id];
            && (d in s'.refs <==> d in s.refs || (IsTaken(r, step, id) && exists i :: i in step.items && d in i.entry.chunks))
            && (p in s'.deletions <==>
                  p in s.deletions || (IsTaken(r, step, id) && exists q :: q in step.deleted && CleanPath(q) == Some(p)))
            && (p in s'.entries <==>
                  p in s.entries || (IsTaken(r, step, id) && exists i :: i in step.items && CleanPath(i.path) == Some(p)))
            && s'.updatedAt == (if IsTaken(r, step, id) then step.now else s.updatedAt)
            && s' == Snap(s.user, s.device, s.kind, s'.status, s.parent, s.startedAt, s'.updatedAt, s'.pinned,
                          s'.entries, s'.deletions, s'.refs)
  {
    if step.Adds? && step.id == id {
      TakenExactly(r, step, id);
      ItemTableExactly(step.items, p);
      PathSetExactly(step.deleted, p);
      BatchContent(r, step, id, p, d);
    } else {
      OtherContent(r, step, id);
    }
  }

  lemma BatchContent(r: Repo, step: Step, id: Id, p: Path, d: Digest)
    requires step.Adds? && step.id == id && id in r.snaps
    ensures var s, s' := r.snaps[id], Apply(r, step).snaps[id];
            if r.snaps[id].status == Running && (step.items != [] || step.deleted != [])
               && ItemTable(step.items).Some? && PathSet(step.deleted).Some?
            then s' == s.(entries := s.entries + ItemTable(step.items).value,
                          deletions := s.deletions + PathSet(step.deleted).value,
                          refs := s.refs + ItemRefs(step.items), updatedAt := step.now)
            else s' == s
    ensures d in ItemRefs(step.items) <==> exists i :: i in step.items && d in i.entry.chunks
  {
    hide ItemTable, PathSet;
  }

  lemma OtherContent(r: Repo, step: Step, id: Id)
    requires id in r.snaps && id in Apply(r, step).snaps && !(step.Adds? && step.id == id)
    ensures var s, s' := r.snaps[id], Apply(r, step).snaps[id]; s' == s.(status := s'.status, pinned := s'.pinned)
  {
    if step.Completes? || step.FailsStale? || step.Pins? {
      StatusAndPinContent(r, step, id);
    } else {
      hide StartAs, ItemTable, PathSet, ItemRefs, Victims, HexDigest, CompleteSnapshot, FailStaleSnapshots, SetPinned;
    }
  }

  lemma StatusAndPinContent(r: Repo, step: Step, id: Id)
    requires id in r.snaps && (step.Completes? || step.FailsStale? || step.Pins?)
    ensures id in Apply(r, step).snaps
    ensures var s, s' := r.snaps[id], Apply(r, step).snaps[id]; s' == s.(status := s'.status, pinned := s'.pinned)
  {
    hide MissingSnapshotChunks, Stale, StartSnapshot, AddEntries, DeleteSnapshot, DeleteSnapshotCascade, DeleteDevice,
      PutChunk, Collect, DropOrphan, Enrol, SetPolicy;
  }

  /** A device belongs to the account it was enrolled for until that account removes it. */
  lemma DeviceExactly(r: Repo, step: Step, device: Device)
    ensures device in Apply(r, step).devices <==>
              || (device in r.devices && !(step.DeletesDevice? && step.device == device && r.devices[device] == step.user))
              || (device !in r.devices && step.Enrols? && step.device == device && step.user in r.users)
    ensures device in Apply(r, step).devices ==>
              Apply(r, step).devices[device] == if device in r.devices then r.devices[device] else step.user
  {
    hide StartSnapshot, AddEntries, CompleteSnapshot, FailStaleSnapshots, SetPinned, DeleteSnapshot, DeleteSnapshotCascade,
      PutChunk, Collect, DropOrphan, SetPolicy;
    if !step.Enrols? && !step.DeletesDevice? {
      OthersKeepDevices(r, step);
    }
  }

  lemma OthersKeepDevices(r: Repo, step: Step)
    requires !step.Enrols? && !step.DeletesDevice?
    ensures Apply(r, step).devices == r.devices
  {
    hide StartAs, ItemTable, PathSet, ItemRefs, Victims, HexDigest, MissingSnapshotChunks, Stale;
  }

  /** An account has the policy that was set last. */
  lemma PolicyExactly(r: Repo, step: Step, user: User)
    ensures user in Apply(r, step).users <==> user in r.users || (step.Policies? && step.user == user)
    ensures user in Apply(r, step).users ==>
              Apply(r, step).users[user] == if step.Policies? && step.user == user then step.policy else r.users[user]
  {
    hide StartAs, ItemTable, PathSet, ItemRefs, Victims, HexDigest, MissingSnapshotChunks, Stale;
  }

  // ----- parent links -----

  /** A path up the parent links from one snapshot to another. */
  predicate LeadsUp(snaps: Snaps, path: seq<Id>, x: Id, id: Id) {
    && path != [] && path[0] == x && path[|path| - 1] == id && (forall y :: y in path ==> y in snaps)
    && forall j :: 0 <= j < |path| - 1 ==> snaps[path[j]].parent == Some(path[j + 1])
  }

  lemma {:induction false} WalkLeadsUp(snaps: Snaps, x: Id, n: nat, id: Id) returns (path: seq<Id>)
    requires ParentsOK(snaps) && Walk(snaps, x, n).Ok? && id in Walk(snaps, x, n).value
    ensures LeadsUp(snaps, path, x, id)
    decreases n
  {
    if id == x {
      path := [x];
    } else {
      assert ParentOK(snaps, x);
      var parent := snaps[x].parent.value;
      assert Walk(snaps, x, n).value == Walk(snaps, parent, n - 1).value + [x];
      hide LeadsUp;
      var rest := WalkLeadsUp(snaps, parent, n - 1, id);
      path := [x] + rest;
      OneLinkMore(snaps, rest, x, parent, id);
    }
  }

  lemma OneLinkMore(snaps: Snaps, path: seq<Id>, x: Id, parent: Id, id: Id)
    requires LeadsUp(snaps, path, parent, id) && x in snaps && snaps[x].parent == Some(parent)
    ensures LeadsUp(snaps, [x] + path, x, id)
  {
    var whole := [x] + path;
    assert forall j :: 0 < j < |whole| ==> whole[j] == path[j - 1];
  }

  lemma {:induction false} WalkFollowsUp(snaps: Snaps, path: seq<Id>, x: Id, n: nat, id: Id)
    requires ParentsOK(snaps) && Walk(snaps, x, n).Ok? && LeadsUp(snaps, path, x, id)
    ensures id in Walk(snaps, x, n).value
    decreases |path|
  {
    if |path| > 1 {
      assert ParentOK(snaps, x) && snaps[x].parent == Some(path[1]);
      assert Walk(snaps, x, n).value == Walk(snaps, path[1], n - 1).value + [x];
      WalkFollowsUp(snaps, path[1..], path[1], n - 1, id);
    }
  }

  /** What goes with a deleted snapshot is what parent links lead up to it from. */
  lemma DependsByLinks(r: Repo, x: Id, id: Id)
    requires Inv(r) && x in r.snaps
    ensures DependsOn(r.snaps, x, id) <==> exists path :: LeadsUp(r.snaps, path, x, id)
  {
    InvParents(r);
    ChainNeverFails(r, x);
    hide Inv, LeadsUp;
    if DependsOn(r.snaps, x, id) {
      var path := WalkLeadsUp(r.snaps, x, MAX_CHAIN + 1, id);
    }
    if path :| LeadsUp(r.snaps, path, x, id) {
      WalkFollowsUp(r.snaps, path, x, MAX_CHAIN + 1, id);
    }
  }

  lemma {:induction false} WalkCounts(snaps: Snaps, path: seq<Id>, x: Id, n: nat, base: Id)
    requires ParentsOK(snaps) && Walk(snaps, x, n).Ok? && LeadsUp(snaps, path, x, base) && snaps[base].kind == Full
    ensures |Walk(snaps, x, n).value| == |path|
    decreases |path|
  {
    assert ParentOK(snaps, x);
    if |path| > 1 {
      assert snaps[x].parent == Some(path[1]);
      WalkCounts(snaps, path[1..], path[1], n - 1, base);
    }
  }

  /** The links from the snapshot lead up to a full one over fewer than 64 rows. */
  ghost predicate HasRoom(snaps: Snaps, id: Id) {
    exists path, base :: LeadsUp(snaps, path, id, base) && snaps[base].kind == Full && |path| < 64
  }

  lemma RoomByWalk(r: Repo, id: Id)
    requires Inv(r) && id in r.snaps
    ensures HasRoom(r.snaps, id) <==> SnapshotChain(r.snaps, id).Ok? && 0 < |SnapshotChain(r.snaps, id).value| < 64
  {
    InvParents(r);
    ChainNeverFails(r, id);
    hide Inv, LeadsUp, Walk;
    var ids := Walk(r.snaps, id, MAX_CHAIN).value;
    var path := WalkLeadsUp(r.snaps, id, MAX_CHAIN, ids[0]);
    WalkCounts(r.snaps, path, id, MAX_CHAIN, ids[0]);
    forall other, base | LeadsUp(r.snaps, other, id, base) && r.snaps[base].kind == Full ensures |other| == |ids| {
      WalkCounts(r.snaps, other, id, MAX_CHAIN, base);
    }
  }

  /** A new snapshot is the delta that was asked for exactly when its parent is complete, of the same
      account and device, and has room on its chain; otherwise it is a full one. */
  lemma DeltaExactly(r: Repo, id: Id, user: User, device: Device, kind: Kind, parent: Id, startedAt: int, now: int)
    requires Inv(r) && StartSnapshot(r, id, user, device, kind, parent, startedAt, now).out.Ok?
    ensures var s := StartSnapshot(r, id, user, device, kind, parent, startedAt, now).repo.snaps[id];
            if kind == Delta && parent in r.snaps && r.snaps[parent].status == Complete
               && r.snaps[parent].user == user && r.snaps[parent].device == device && HasRoom(r.snaps, parent)
            then s.kind == Delta && s.parent == Some(parent) else s.kind == Full && s.parent == None
  {
    hide SnapshotChain, HasRoom;
    if parent in r.snaps {
      assert SnapOK(r, parent);
      hide Inv;
      RoomByWalk(r, parent);
    }
  }

  /** A new full snapshot shows nothing, and a new delta what its parent shows. */
  lemma StartShows(r: Repo, id: Id, user: User, device: Device, kind: Kind, parent: Id, startedAt: int, now: int)
    requires Inv(r) && StartSnapshot(r, id, user, device, kind, parent, startedAt, now).out.Ok?
    ensures var r' := StartSnapshot(r, id, user, device, kind, parent, startedAt, now).repo;
            && id in r'.snaps && TreeOf(r'.snaps, id).Ok?
            && (r'.snaps[id].kind == Full ==> TreeOf(r'.snaps, id).value == map[])
            && (r'.snaps[id].kind == Delta ==>
                  r'.snaps[id].parent == Some(parent) && TreeOf(r'.snaps, id) == TreeOf(r.snaps, parent))
  {
    var r' := StartSnapshot(r, id, user, device, kind, parent, startedAt, now).repo;
    StartKeepsInv(r, id, user, device, kind, parent, startedAt, now);
    ChainNeverFails(r', id);
    hide Inv, StartAs, SnapshotChain, TreeOf;
    if r'.snaps[id].kind == Full {
      FullShows(r'.snaps, id);
    } else {
      DeltaHasParent(r, user, device, kind, parent);
      ChainNeverFails(r, parent);
      DeltaShows(r.snaps, id, r'.snaps[id], parent);
    }
  }

  lemma FullShows(snaps: Snaps, id: Id)
    requires id != "" && id in snaps && snaps[id].kind == Full && snaps[id].entries == map[] && snaps[id].deletions == {}
    ensures TreeOf(snaps, id) == Ok(map[])
  {
    assert Walk(snaps, id, MAX_CHAIN + 1) == Ok([id]);
    EmptyRowShows(snaps, [], id);
  }

  lemma DeltaShows(snaps: Snaps, id: Id, s: Snap, parent: Id)
    requires id != "" && id !in snaps && s.kind == Delta && s.parent == Some(parent) && s.entries == map[] && s.deletions == {}
    requires parent != "" && Walk(snaps, parent, MAX_CHAIN).Ok?
    requires SnapshotChain(snaps, parent) == Walk(snaps, parent, MAX_CHAIN)
    ensures TreeOf(snaps[id := s], id) == TreeOf(snaps, parent)
  {
    var up := Walk(snaps, parent, MAX_CHAIN).value;
    WalkFrame(snaps, snaps[id := s], parent, MAX_CHAIN);
    assert Walk(snaps[id := s], id, MAX_CHAIN + 1) == Ok(up + [id]);
    EmptyRowShows(snaps[id := s], up, id);
    MaterialiseFrame(snaps, snaps[id := s], up);
  }

  lemma DeltaHasParent(r: Repo, user: User, device: Device, kind: Kind, parent: Id)
    requires StartAs(r, user, device, kind, parent).0 == Delta
    ensures parent != "" && parent in r.snaps && StartAs(r, user, device, kind, parent).1 == Some(parent)
  {
    hide SnapshotChain;
  }

  lemma EmptyRowShows(snaps: Snaps, up: seq<Id>, id: Id)
    requires (forall x :: x in up ==> x in snaps) && id in snaps && snaps[id].entries == map[] && snaps[id].deletions == {}
    ensures Materialise(snaps, up + [id]) == Materialise(snaps, up)
  {
    assert (up + [id])[..|up|] == up;
    assert Materialise(snaps, up) + map[] - {} == Materialise(snaps, up);
  }

  // ----- over runs -----

  /** A complete snapshot was finished: at some step, from which on it was there and complete, its agent
      reported no error and everything it refers to was stored. */
  lemma {:induction false} WasFinished(states: seq<Repo>, steps: seq<Step>, i: nat, id: Id) returns (k: nat)
    requires IsRun(states, steps) && states[0] == EMPTY && i < |states|
    requires id in states[i].snaps && states[i].snaps[id].status == Complete
    ensures k < i && steps[k] == Completes(id, false)
    ensures id in states[k].snaps && states[k].snaps[id].status == Running
    ensures states[k].snaps[id].refs <= states[k].chunks.Keys
    ensures forall m :: k < m <= i ==> id in states[m].snaps && states[m].snaps[id].status == Complete
                                       && states[m].snaps[id].refs == states[k].snaps[id].refs
                                       && states[m].snaps[id].entries == states[k].snaps[id].entries
                                       && states[m].snaps[id].deletions == states[k].snaps[id].deletions
  {
    hide Apply, Enabled;
    var r, step := states[i - 1], steps[i - 1];
    assert states[i] == Apply(r, step);
    if id !in r.snaps {
      AppearsExactly(r, step, id);
      assert false;
    } else {
      StatusExactly(r, step, id);
      SameContentUnlessTaken(r, step, id);
      if r.snaps[id].status == Complete {
        k := WasFinished(states, steps, i - 1, id);
      } else {
        k := i - 1;
      }
    }
  }

  lemma SameContentUnlessTaken(r: Repo, step: Step, id: Id)
    requires id in r.snaps && id in Apply(r, step).snaps && !IsTaken(r, step, id)
    ensures var s, s' := r.snaps[id], Apply(r, step).snaps[id];
            s'.entries == s.entries && s'.deletions == s.deletions && s'.refs == s.refs && s'.updatedAt == s.updatedAt
  {
    if step.Adds? && step.id == id {
      TakenExactly(r, step, id);
      BatchContent(r, step, id, "", "");
    } else {
      OtherContent(r, step, id);
    }
  }

  /** A failed snapshot was given up: at some step, from which on it was there and failed. */
  lemma {:induction false} WasGivenUp(states: seq<Repo>, steps: seq<Step>, i: nat, id: Id) returns (k: nat)
    requires IsRun(states, steps) && states[0] == EMPTY && i < |states|
    requires id in states[i].snaps && states[i].snaps[id].status == Failed
    ensures k < i && id in states[k].snaps && states[k].snaps[id].status == Running && GivesUp(states[k], steps[k], id)
    ensures forall m :: k < m <= i ==> id in states[m].snaps && states[m].snaps[id].status == Failed
  {
    hide Apply, Enabled;
    var r, step := states[i - 1], steps[i - 1];
    assert states[i] == Apply(r, step);
    if id !in r.snaps {
      AppearsExactly(r, step, id);
      assert false;
    } else {
      StatusExactly(r, step, id);
      if r.snaps[id].status == Failed {
        k := WasGivenUp(states, steps, i - 1, id);
      } else {
        k := i - 1;
      }
    }
  }

  /** The snapshot is there in every state from one to another. */
  predicate There(states: seq<Repo>, a: nat, b: nat, id: Id)
    requires b < |states|
  {
    forall m :: a <= m <= b ==> id in states[m].snaps
  }

  lemma {:induction false} HeardOf(states: seq<Repo>, steps: seq<Step>, j: nat, k: nat, id: Id)
    requires IsRun(states, steps) && j < k < |states| && There(states, j, k, id) && IsTaken(states[j], steps[j], id)
    requires forall m :: j < m < k && IsTaken(states[m], steps[m], id) ==> steps[m].now >= steps[j].now
    ensures states[k].snaps[id].updatedAt >= steps[j].now
    decreases k
  {
    hide Apply, Enabled, IsTaken;
    assert states[k] == Apply(states[k - 1], steps[k - 1]);
    ContentExactly(states[k - 1], steps[k - 1], id, "", "");
    if j < k - 1 {
      HeardOf(states, steps, j, k - 1, id);
    } else {
      assert IsTaken(states[k - 1], steps[k - 1], id);
      TakenAdds(states[k - 1], steps[k - 1], id);
    }
  }

  lemma TakenAdds(r: Repo, step: Step, id: Id)
    requires IsTaken(r, step, id)
    ensures step.Adds?
  {}

  /** A snapshot that a batch was taken for since the cutoff is not swept away as stale, however long ago
      it was started. */
  lemma HeardOfIsSpared(states: seq<Repo>, steps: seq<Step>, j: nat, k: nat, id: Id)
    requires IsRun(states, steps) && j < k < |steps| && There(states, j, k, id) && IsTaken(states[j], steps[j], id)
    requires forall m :: j < m < k && IsTaken(states[m], steps[m], id) ==> steps[m].now >= steps[j].now
    requires steps[k].FailsStale? && steps[k].cutoff <= steps[j].now && states[k].snaps[id].status == Running
    ensures id in states[k + 1].snaps && states[k + 1].snaps[id].status == Running
  {
    hide Apply, Enabled, IsTaken;
    HeardOf(states, steps, j, k, id);
    assert states[k + 1] == Apply(states[k], steps[k]);
    GoneExactly(states[k], steps[k], id);
    StatusExactly(states[k], steps[k], id);
  }

  /** Who set or lifted a pin last decides. */
  lemma {:induction false} LastPinDecides(states: seq<Repo>, steps: seq<Step>, k: nat, i: nat, id: Id)
    requires IsRun(states, steps) && k < i < |states| && There(states, k, i, id)
    requires steps[k].Pins? && steps[k].id == id && steps[k].user == states[k].snaps[id].user
    requires forall m :: k < m < i && steps[m].Pins? && steps[m].id == id ==> steps[m].user != states[k].snaps[id].user
    ensures states[i].snaps[id].pinned == steps[k].pinned && states[i].snaps[id].user == states[k].snaps[id].user
    decreases i
  {
    hide Apply, Enabled;
    var r, step := states[i - 1], steps[i - 1];
    assert states[i] == Apply(r, step);
    PinExactly(r, step, id);
    ContentExactly(r, step, id, "", "");
    if k < i - 1 {
      LastPinDecides(states, steps, k, i - 1, id);
    }
  }

  /** A snapshot refers to exactly the chunks that batches taken since its start named. */
  lemma {:induction false} RefsAreNamed(states: seq<Repo>, steps: seq<Step>, a: nat, i: nat, id: Id, d: Digest)
    requires IsRun(states, steps) && a < i < |states| && id !in states[a].snaps && There(states, a + 1, i, id)
    ensures d in states[i].snaps[id].refs <==> exists k :: a < k < i && Names(states[k], steps[k], id, d)
    decreases i
  {
    hide Apply, Enabled, Names;
    var r, step := states[i - 1], steps[i - 1];
    assert states[i] == Apply(r, step);
    if a == i - 1 {
      AppearsExactly(r, step, id);
    } else {
      RefsAreNamed(states, steps, a, i - 1, id, d);
      ContentExactly(r, step, id, "", d);
      NamesMeans(r, step, id, d);
    }
  }

  /** The step is a batch that is taken and names the chunk. */
  predicate Names(r: Repo, step: Step, id: Id, d: Digest) {
    IsTaken(r, step, id) && exists i :: i in step.items && d in i.entry.chunks
  }

  lemma NamesMeans(r: Repo, step: Step, id: Id, d: Digest)
    ensures Names(r, step, id, d) <==> IsTaken(r, step, id) && exists i :: i in step.items && d in i.entry.chunks
  {}

  // ----- chunks -----

  /** An upload that stores or finds the chunk and writes its rows. */
  predicate Registers(r: Repo, step: Step, d: Digest) {
    step.Puts? && step.digest == d && HexDigest(d) && step.registers && (d in r.blobs || (step.blob != [] && step.accepted))
  }

  predicate Takes(step: Step, d: Digest) {
    step.Collects? && d in step.victims
  }

  /** A row comes by a registering upload and goes by collection; the first row of a chunk stays. */
  lemma RowExactly(r: Repo, step: Step, d: Digest)
    ensures d in Apply(r, step).chunks <==> Registers(r, step, d) || (d in r.chunks && !Takes(step, d))
    ensures d in r.chunks && d in Apply(r, step).chunks ==> Apply(r, step).chunks[d] == r.chunks[d]
    ensures d !in r.chunks && d in Apply(r, step).chunks ==>
              var blob := if d in r.blobs then r.blobs[d] else step.blob;
              Apply(r, step).chunks[d] == ChunkRow(|blob|, if step.plainLen <= 0 then |blob| else step.plainLen,
                                                   d !in r.blobs && step.encrypted)
  {
    hide HexDigest, Apply;
    if step.Puts? {
      PutRowExactly(r, step, d);
    } else if step.Collects? || step.DropsOrphan? {
      TakenRowExactly(r, step);
    } else {
      OthersKeepChunks(r, step);
    }
  }

  /** What an upload does to the rows, one by one. */
  lemma PutRowExactly(r: Repo, step: Step, d: Digest)
    requires step.Puts?
    ensures d in Apply(r, step).chunks <==> d in r.chunks || Registers(r, step, d)
    ensures d in r.chunks ==> Apply(r, step).chunks[d] == r.chunks[d]
    ensures d !in r.chunks && d in Apply(r, step).chunks ==>
              var blob := if d in r.blobs then r.blobs[d] else step.blob;
              Apply(r, step).chunks[d] == ChunkRow(|blob|, if step.plainLen <= 0 then |blob| else step.plainLen,
                                                   d !in r.blobs && step.encrypted)
  {
    hide HexDigest, Apply, PutChunk;
    PutRows(r, step.user, step.digest, step.blob, step.plainLen, step.encrypted, step.accepted, step.registers);
    assert Apply(r, step) ==
           PutChunk(r, step.user, step.digest, step.blob, step.plainLen, step.encrypted, step.accepted, step.registers).repo
      by { ApplyPuts(r, step); }
  }

  lemma ApplyPuts(r: Repo, step: Step)
    requires step.Puts?
    ensures Apply(r, step) ==
            PutChunk(r, step.user, step.digest, step.blob, step.plainLen, step.encrypted, step.accepted, step.registers).repo
  {
    hide PutChunk;
  }

  lemma PutRows(r: Repo, user: User, digest: Digest, blob: Bytes, plainLen: int, encrypted: bool, accepted: bool,
                registers: bool)
    ensures var taken := HexDigest(digest) && registers && (digest in r.blobs || (blob != [] && accepted));
            var held := if digest in r.blobs then r.blobs[digest] else blob;
            var row := ChunkRow(|held|, if plainLen <= 0 then |held| else plainLen, digest !in r.blobs && encrypted);
            PutChunk(r, user, digest, blob, plainLen, encrypted, accepted, registers).repo.chunks ==
              if taken && digest !in r.chunks then r.chunks[digest := row] else r.chunks
  {
    hide HexDigest;
  }

  lemma TakenRowExactly(r: Repo, step: Step)
    requires step.Collects? || step.DropsOrphan?
    ensures Apply(r, step).chunks == r.chunks - if step.Collects? then step.victims else {}
  {
    hide StartSnapshot, AddEntries, CompleteSnapshot, FailStaleSnapshots, SetPinned, DeleteSnapshot,
      DeleteSnapshotCascade, DeleteDevice, Enrol, SetPolicy, PutChunk;
  }

  lemma OthersKeepChunks(r: Repo, step: Step)
    requires !step.Puts? && !step.Collects? && !step.DropsOrphan?
    ensures Apply(r, step).chunks == r.chunks && Apply(r, step).blobs == r.blobs
    ensures Apply(r, step).accountChunks == r.accountChunks
  {
    hide StartAs, ItemTable, PathSet, ItemRefs, Victims, MissingSnapshotChunks, Stale;
  }

  /** The same for what an account is known to have. */
  lemma KnownExactly(r: Repo, step: Step, user: User, d: Digest)
    ensures (user, d) in Apply(r, step).accountChunks <==>
              (Registers(r, step, d) && step.user == user) || ((user, d) in r.accountChunks && !Takes(step, d))
  {
    hide HexDigest, StartSnapshot, AddEntries, CompleteSnapshot, FailStaleSnapshots, SetPinned, DeleteSnapshot,
      DeleteSnapshotCascade, DeleteDevice, Enrol, SetPolicy;
    if !step.Puts? && !step.Collects? && !step.DropsOrphan? {
      OthersKeepChunks(r, step);
    }
  }

  /** A blob comes by an accepted upload, and goes by collection or as an orphan; it is never replaced. */
  lemma BlobExactly(r: Repo, step: Step, d: Digest)
    ensures d in Apply(r, step).blobs <==>
              || (step.Puts? && step.digest == d && HexDigest(d) && step.blob != [] && step.accepted)
              || (d in r.blobs && !Takes(step, d) && !(step.DropsOrphan? && step.digest == d && d !in r.chunks))
    ensures d in Apply(r, step).blobs ==> Apply(r, step).blobs[d] == if d in r.blobs then r.blobs[d] else step.blob
  {
    hide HexDigest, StartSnapshot, AddEntries, CompleteSnapshot, FailStaleSnapshots, SetPinned, DeleteSnapshot,
      DeleteSnapshotCascade, DeleteDevice, Enrol, SetPolicy;
    if !step.Puts? && !step.Collects? && !step.DropsOrphan? {
      OthersKeepChunks(r, step);
    }
  }

  /** Garbage collection may take a chunk exactly when no snapshot, whatever its status, refers to it. */
  lemma CollectableExactly(r: Repo, d: Digest)
    requires d in r.chunks
    ensures Enabled(r, Collects({d})) <==> forall id :: id in r.snaps ==> d !in r.snaps[id].refs
  {}

  /** What a snapshot refers to while it is there stays stored, with the bytes it has. */
  lemma {:induction false} InUseStays(states: seq<Repo>, steps: seq<Step>, j: nat, i: nat, id: Id, d: Digest)
    requires IsRun(states, steps) && j <= i < |states| && There(states, j, i, id)
    requires d in states[j].snaps[id].refs && d in states[j].chunks && d in states[j].blobs
    ensures d in states[i].snaps[id].refs && d in states[i].chunks
    ensures d in states[i].blobs && states[i].blobs[d] == states[j].blobs[d]
    decreases i
  {
    hide Apply;
    if j < i {
      InUseStays(states, steps, j, i - 1, id, d);
      var r, step := states[i - 1], steps[i - 1];
      assert states[i] == Apply(r, step) && Enabled(r, step);
      ContentExactly(r, step, id, "", d);
      RowExactly(r, step, d);
      BlobExactly(r, step, d);
    }
  }

  /** An account is known to have exactly the chunks that it registered and that were not collected since. */
  lemma {:induction false} KnownIsRegistered(states: seq<Repo>, steps: seq<Step>, i: nat, user: User, d: Digest)
    requires IsRun(states, steps) && states[0] == EMPTY && i < |states|
    ensures (user, d) in states[i].accountChunks <==>
              exists k :: 0 <= k < i && Registers(states[k], steps[k], d) && steps[k].user == user
                          && forall m :: k < m < i ==> !Takes(steps[m], d)
  {
    hide Apply, Enabled, Registers, Takes;
    if i > 0 {
      assert states[i] == Apply(states[i - 1], steps[i - 1]);
      KnownIsRegistered(states, steps, i - 1, user, d);
      KnownExactly(states[i - 1], steps[i - 1], user, d);
    }
  }

  // ----- stored paths -----

  lemma TakenPathsAreStored(r: Repo, step: Step, id: Id, p: Path)
    requires IsTaken(r, step, id)
    requires (exists i :: i in step.items && CleanPath(i.path) == Some(p))
          || (exists q :: q in step.deleted && CleanPath(q) == Some(p))
    ensures IsStored(p)
  {
    hide CleanPath, IsStored;
    if i :| i in step.items && CleanPath(i.path) == Some(p) {
      CleanExactly(i.path, p);
    } else {
      var q :| q in step.deleted && CleanPath(q) == Some(p);
      CleanExactly(q, p);
    }
  }

  /** Every path of every snapshot in every state is one that can be stored. */
  lemma {:induction false} PathsAreStored(states: seq<Repo>, steps: seq<Step>, i: nat, id: Id, p: Path)
    requires IsRun(states, steps) && states[0] == EMPTY && i < |states| && id in states[i].snaps
    requires p in states[i].snaps[id].entries || p in states[i].snaps[id].deletions
    ensures IsStored(p)
  {
    hide Apply, Enabled, IsStored, IsTaken, CleanPath;
    var r, step := states[i - 1], steps[i - 1];
    assert states[i] == Apply(r, step);
    if id !in r.snaps {
      AppearsExactly(r, step, id);
      assert false;
    } else {
      ContentExactly(r, step, id, p, "");
      if p in r.snaps[id].entries || p in r.snaps[id].deletions {
        PathsAreStored(states, steps, i - 1, id, p);
      } else {
        TakenAdds(r, step, id);
        TakenPathsAreStored(r, step, id, p);
      }
    }
  }
}
