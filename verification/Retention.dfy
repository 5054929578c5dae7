/** A retention pass: plan on the complete snapshots, then delete the others one cascade at a time. */
module Retention {
  import opened Strings
  import opened Repository
  import opened RepositoryInvariant
  import opened Store
  import opened RetentionPlan
  import opened RetentionWindow

  // ----- the rows the planner sees -----

  function RowFor(r: Repo, id: Id): Row
    requires Inv(r) && id in r.snaps
  {
    var s := r.snaps[id];
    UserExists(r, id);
    Row(id, s.device, if s.parent.Some? then s.parent.value else "", s.startedAt, s.pinned, r.users[s.user])
  }

  lemma UserExists(r: Repo, id: Id)
    requires Inv(r) && id in r.snaps
    ensures r.snaps[id].user in r.users
  {
    assert SnapOK(r, id);
  }

  function CompleteIds(r: Repo): set<Id> {
    set id | id in r.snaps && r.snaps[id].status == Complete
  }

  /** ORDER BY device, newest first. */
  predicate NotAfter(a: Row, b: Row) {
    Less(a.device, b.device) || (a.device == b.device && a.startedAt >= b.startedAt)
  }

  predicate Ordered(rows: seq<Row>) {
    forall i, j :: 0 <= i < j < |rows| ==> NotAfter(rows[i], rows[j])
  }

  /** One row for each complete snapshot. */
  predicate ListsComplete(r: Repo, rows: seq<Row>)
    requires Inv(r)
  {
    && (forall i :: 0 <= i < |rows| ==> rows[i].id in CompleteIds(r) && rows[i] == RowFor(r, rows[i].id))
    && (forall id :: id in CompleteIds(r) ==> RowFor(r, id) in rows)
  }

  lemma {:induction false} FirstExists(r: Repo, ids: set<Id>) returns (f: Id)
    requires Inv(r) && ids != {} && ids <= r.snaps.Keys
    ensures f in ids && forall x :: x in ids ==> NotAfter(RowFor(r, f), RowFor(r, x))
    decreases |ids|
  {
    hide Inv, Less;
    var k :| k in ids;
    if ids == {k} {
      f := k;
    } else {
      var l := FirstExists(r, ids - {k});
      LessTotal(r.snaps[k].device, r.snaps[l].device);
      f := if NotAfter(RowFor(r, k), RowFor(r, l)) then k else l;
      forall x | x in ids ensures NotAfter(RowFor(r, f), RowFor(r, x)) {
        if x != k {
          assert x in ids - {k};
          if f == k && Less(r.snaps[k].device, r.snaps[l].device) && Less(r.snaps[l].device, r.snaps[x].device) {
            LessTransitive(r.snaps[k].device, r.snaps[l].device, r.snaps[x].device);
          }
        }
      }
    }
  }

  /** The rows taken so far, and the snapshots still to be listed after them. */
  ghost predicate Partly(r: Repo, rows: seq<Row>, left: set<Id>)
    requires Inv(r)
  {
    && left <= CompleteIds(r) && Ordered(rows) && DistinctIds(rows)
    && (forall i :: 0 <= i < |rows| ==>
          && rows[i].id in CompleteIds(r) && rows[i].id !in left && rows[i] == RowFor(r, rows[i].id)
          && forall id :: id in left ==> NotAfter(rows[i], RowFor(r, id)))
    && (forall id :: id in CompleteIds(r) && id !in left ==> RowFor(r, id) in rows)
  }

  lemma TakeFirst(r: Repo, rows: seq<Row>, left: set<Id>, f: Id)
    requires Inv(r) && Partly(r, rows, left)
    requires f in left && forall x :: x in left ==> NotAfter(RowFor(r, f), RowFor(r, x))
    ensures Partly(r, rows + [RowFor(r, f)], left - {f})
  {
    hide Inv, NotAfter;
    var after := rows + [RowFor(r, f)];
    assert after[|rows|] == RowFor(r, f) && forall row :: row in rows ==> row in after;
  }

  method SnapshotsForRetention(db: Store) returns (rows: seq<Row>)
    requires Inv(db.State())
    ensures Ordered(rows) && ListsComplete(db.State(), rows) && DistinctIds(rows)
  {
    hide Inv, NotAfter;
    rows := [];
    var left := CompleteIds(db.State());
    while left != {}
      invariant Partly(db.State(), rows, left)
      decreases |left|
    {
      hide Ordered, DistinctIds, RowFor;
      ghost var least := FirstExists(db.State(), left);
      var f :| f in left && forall x :: x in left ==> NotAfter(RowFor(db.State(), f), RowFor(db.State(), x));
      TakeFirst(db.State(), rows, left, f);
      rows := rows + [RowFor(db.State(), f)];
      left := left - {f};
    }
  }

  // ----- chains seen by the planner -----

  lemma RowsById(r: Repo, rows: seq<Row>, id: Id)
    requires Inv(r) && ListsComplete(r, rows)
    ensures id in ById(rows) <==> id in CompleteIds(r)
    ensures id in ById(rows) ==> ById(rows)[id] == RowFor(r, id)
  {
    hide Inv;
    if id in CompleteIds(r) {
      assert RowFor(r, id) in rows;
    }
  }

  lemma {:induction false} ChainEnds(r: Repo, rows: seq<Row>, id: Id, n: nat, hops: nat)
    requires Inv(r) && ListsComplete(r, rows) && ParentsOK(r.snaps)
    requires id in CompleteIds(r) && Walk(r.snaps, id, n).Ok? && n <= hops
    ensures Ends(ById(rows), id, hops)
    decreases n
  {
    hide Inv, ListsComplete, ParentsOK;
    RowsById(r, rows, id);
    assert ParentOK(r.snaps, id) by { ParentsOKAt(r.snaps, id); }
    if r.snaps[id].kind != Full {
      ChainEnds(r, rows, r.snaps[id].parent.value, n - 1, hops - 1);
    }
  }

  lemma ParentsOKAt(snaps: Snaps, id: Id)
    requires ParentsOK(snaps) && id in snaps
    ensures ParentOK(snaps, id)
  {}

  /** In a repository that satisfies the invariant the hop limit of the planner is never reached. */
  lemma ChainsAreShort(r: Repo, rows: seq<Row>)
    requires Inv(r) && ListsComplete(r, rows)
    ensures ShortChains(rows)
  {
    InvParents(r);
    forall row | row in rows ensures Ends(ById(rows), row.id, MAX_HOPS) {
      assert SnapOK(r, row.id);
      ChainEnds(r, rows, row.id, MAX_CHAIN, MAX_HOPS);
    }
  }

  /** The whole chain of a kept complete snapshot is kept. */
  lemma {:induction false} ChainIsKept(r: Repo, rows: seq<Row>, keep: set<Id>, y: Id, n: nat, x: Id)
    requires Inv(r) && ListsComplete(r, rows) && ParentsOK(r.snaps) && Closed(ById(rows), keep)
    requires y in keep && y in CompleteIds(r) && Walk(r.snaps, y, n).Ok? && x in Walk(r.snaps, y, n).value
    ensures x in keep
    decreases n
  {
    hide Inv, ListsComplete, ParentsOK;
    if x != y {
      var parent := r.snaps[y].parent.value;
      RowsById(r, rows, y);
      ParentsOKAt(r.snaps, y);
      assert Walk(r.snaps, y, n).value == Walk(r.snaps, parent, n - 1).value + [y];
      ChainIsKept(r, rows, keep, parent, n - 1, x);
    }
  }

  // ----- the pass -----

  /** How far a pass has come: rows only went away, no kept snapshot did, and the count is right. */
  predicate Thinned(was: Repo, now: Repo, keep: set<Id>, deleted: nat) {
    && now.snaps.Keys <= was.snaps.Keys && now == was.(snaps := now.snaps)
    && (forall x :: x in now.snaps ==> now.snaps[x] == was.snaps[x])
    && (forall x :: x in CompleteIds(was) && x in keep ==> x in now.snaps)
    && deleted == |was.snaps| - |now.snaps|
  }

  lemma ThinnedStart(r: Repo, keep: set<Id>, stuck: set<Id>)
    ensures Thinned(r, r, keep, 0) && OnlyDoomedGone(r, r, keep, stuck)
  {}

  /** Deleting a snapshot that is not kept takes no kept one along. */
  lemma CascadeSparesKept(was: Repo, now: Repo, rows: seq<Row>, keep: set<Id>, deleted: nat, id: Id)
    requires Inv(was) && Inv(now) && ListsComplete(was, rows) && Closed(ById(rows), keep)
    requires Thinned(was, now, keep, deleted) && id !in keep
    ensures Thinned(was, Repository.DeleteSnapshotCascade(now, id).repo, keep, deleted + |Victims(now, id)|)
    ensures id !in Repository.DeleteSnapshotCascade(now, id).repo.snaps
    ensures Repository.DeleteSnapshotCascade(now, id).repo.snaps.Keys <= now.snaps.Keys
  {
    InvParents(was);
    var next := Repository.DeleteSnapshotCascade(now, id).repo;
    forall y | y in CompleteIds(was) && y in keep ensures y !in Victims(now, id) {
      if y in now.snaps {
        SameWalk(was, now, keep, deleted, y);
        if DependsOn(now.snaps, y, id) {
          ChainIsKept(was, rows, keep, y, MAX_CHAIN + 1, id);
        }
      }
    }
    RemovedCount(now.snaps, Victims(now, id));
    SelfDepends(now, id);
  }

  lemma RemovedCount(snaps: Snaps, victims: set<Id>)
    requires victims <= snaps.Keys
    ensures |snaps - victims| == |snaps| - |victims|
  {
    assert (snaps - victims).Keys == snaps.Keys - victims;
    assert snaps.Keys == (snaps.Keys - victims) + victims;
  }

  lemma SameWalk(was: Repo, now: Repo, keep: set<Id>, deleted: nat, y: Id)
    requires Inv(was) && Inv(now) && Thinned(was, now, keep, deleted) && y in now.snaps
    ensures Walk(was.snaps, y, MAX_CHAIN + 1).Ok? && Walk(was.snaps, y, MAX_CHAIN + 1) == Walk(now.snaps, y, MAX_CHAIN + 1)
  {
    ChainNeverFails(now, y);
    hide Inv;
    WalkFrame(now.snaps, was.snaps, y, MAX_CHAIN + 1);
  }

  /** The first `n` rows have been dealt with. */
  predicate Handled(rows: seq<Row>, n: nat, keep: set<Id>, stuck: set<Id>, left: set<Id>)
    requires n <= |rows|
  {
    forall j :: 0 <= j < n && rows[j].id !in keep && rows[j].id !in stuck ==> rows[j].id !in left
  }

  lemma HandledNone(rows: seq<Row>, keep: set<Id>, stuck: set<Id>, left: set<Id>)
    ensures Handled(rows, 0, keep, stuck, left)
  {}

  lemma HandledNext(rows: seq<Row>, n: nat, keep: set<Id>, stuck: set<Id>, left: set<Id>, left': set<Id>)
    requires n < |rows| && Handled(rows, n, keep, stuck, left) && left' <= left
    requires rows[n].id in keep || rows[n].id in stuck || rows[n].id !in left'
    ensures Handled(rows, n + 1, keep, stuck, left')
  {}

  /** The snapshot builds on a complete one, or is one, that is not kept and can be deleted. */
  ghost predicate Doomed(was: Repo, keep: set<Id>, stuck: set<Id>, x: Id) {
    exists y :: y in CompleteIds(was) && y !in keep && y !in stuck && DependsOn(was.snaps, x, y)
  }

  ghost predicate OnlyDoomedGone(was: Repo, now: Repo, keep: set<Id>, stuck: set<Id>) {
    forall x :: x in was.snaps && x !in now.snaps ==> Doomed(was, keep, stuck, x)
  }

  lemma CascadeTakesDoomed(was: Repo, now: Repo, keep: set<Id>, stuck: set<Id>, deleted: nat, id: Id)
    requires Inv(was) && Inv(now) && Thinned(was, now, keep, deleted) && OnlyDoomedGone(was, now, keep, stuck)
    requires id in CompleteIds(was) && id !in keep && id !in stuck
    ensures OnlyDoomedGone(was, Repository.DeleteSnapshotCascade(now, id).repo, keep, stuck)
  {
    hide Inv, CompleteIds, Doomed;
    forall x | x in Victims(now, id) ensures Doomed(was, keep, stuck, x) {
      SameWalk(was, now, keep, deleted, x);
      DoomedBy(was, keep, stuck, x, id);
    }
  }

  lemma DoomedBy(was: Repo, keep: set<Id>, stuck: set<Id>, x: Id, y: Id)
    requires y in CompleteIds(was) && y !in keep && y !in stuck && DependsOn(was.snaps, x, y)
    ensures Doomed(was, keep, stuck, x)
  {}

  /** After the last row exactly the doomed snapshots are gone. */
  lemma DoomedExactly(was: Repo, now: Repo, rows: seq<Row>, keep: set<Id>, stuck: set<Id>, deleted: nat, x: Id)
    requires Inv(was) && Inv(now) && ListsComplete(was, rows) && Thinned(was, now, keep, deleted)
    requires OnlyDoomedGone(was, now, keep, stuck) && Handled(rows, |rows|, keep, stuck, now.snaps.Keys) && x in was.snaps
    ensures x in now.snaps <==> !Doomed(was, keep, stuck, x)
  {
    hide Inv, CompleteIds;
    if x in now.snaps {
      SameWalk(was, now, keep, deleted, x);
      ChainNeverFails(now, x);
      forall y | y in CompleteIds(was) && y !in keep && y !in stuck ensures !DependsOn(was.snaps, x, y) {
        assert RowFor(was, y) in rows by { CompleteRow(was, rows, y); }
      }
    }
  }

  lemma CompleteRow(r: Repo, rows: seq<Row>, y: Id)
    requires Inv(r) && ListsComplete(r, rows) && y in CompleteIds(r)
    ensures y in r.snaps && RowFor(r, y) in rows && RowFor(r, y).id == y
  {}

  lemma RowIsComplete(r: Repo, rows: seq<Row>, i: nat)
    requires Inv(r) && ListsComplete(r, rows) && i < |rows|
    ensures rows[i].id in CompleteIds(r)
  {}

  /** Deletes what the plan does not keep. `stuck` are the snapshots whose deletion fails in this
      pass, and `ends` those at which the context may be seen to have ended. Unless it is, exactly the
      snapshots go that are complete, not kept and not stuck, or build on such a one. */
  method ApplyRetention(db: Store, now: int, cal: Calendar, stuck: set<Id>, ends: set<Id>)
    returns (deleted: nat, cancelled: bool, ghost rows: seq<Row>, ghost keep: set<Id>)
    requires Inv(db.State())
    modifies db
    ensures Inv(db.State())
    ensures Ordered(rows) && ListsComplete(old(db.State()), rows)
    ensures Closed(ById(rows), keep) && forall x :: x in keep <==> Kept(rows, now, cal, x)
    ensures Thinned(old(db.State()), db.State(), keep, deleted)
    ensures cancelled ==> exists x :: x in ends && x in CompleteIds(old(db.State())) && x !in keep
    ensures OnlyDoomedGone(old(db.State()), db.State(), keep, stuck)
    ensures !cancelled ==> forall x :: x in old(db.snaps) ==> (x in db.snaps <==> !Doomed(old(db.State()), keep, stuck, x))
    ensures !cancelled ==> forall x :: x in CompleteIds(db.State()) ==> x in keep || x in stuck
    ensures !cancelled && stuck == {} ==> CompleteIds(db.State()) == CompleteIds(old(db.State())) * keep
  {
    hide Inv, ListsComplete, Thinned, Kept, ShortChains, Closed, Handled, Victims, Ordered, ById, CompleteIds,
      OnlyDoomedGone, Doomed, Repository.DeleteSnapshotCascade;
    cancelled := false;
    ghost var was := db.State();
    var list := SnapshotsForRetention(db);
    rows := list;
    ChainsAreShort(was, rows);
    var kept := PlanRetention(list, now, cal);
    keep := kept;
    deleted := 0;
    ThinnedStart(was, keep, stuck);
    HandledNone(list, kept, stuck, db.snaps.Keys);
    var deletedIds: set<Id> := {};
    for i := 0 to |list|
      invariant Inv(db.State()) && Thinned(was, db.State(), keep, deleted) && OnlyDoomedGone(was, db.State(), keep, stuck)
      invariant deletedIds !! db.snaps.Keys
      invariant Handled(list, i, kept, stuck, db.snaps.Keys)
    {
      var id := list[i].id;
      ghost var left := db.snaps.Keys;
      if id in kept || id in deletedIds || id in stuck {
        HandledNext(list, i, kept, stuck, left, left);
      }
      if id in kept {
        continue;
      }
      if id in deletedIds {
        continue;
      }
      if id in ends {
        RowIsComplete(was, rows, i);
        cancelled := true;
        return;
      }
      if id in stuck {
        continue;
      }
      CascadeSparesKept(was, db.State(), rows, keep, deleted, id);
      RowIsComplete(was, rows, i);
      CascadeTakesDoomed(was, db.State(), keep, stuck, deleted, id);
      var n := db.DeleteSnapshotCascade(id);
      deleted := deleted + n;
      deletedIds := deletedIds + {id};
      HandledNext(list, i, kept, stuck, left, db.snaps.Keys);
    }
    forall x | x in was.snaps ensures x in db.snaps <==> !Doomed(was, keep, stuck, x) {
      DoomedExactly(was, db.State(), rows, keep, stuck, deleted, x);
    }
    OnlyKeptRemain(was, db.State(), rows, keep, stuck, deleted);
  }

  lemma OnlyKeptRemain(was: Repo, now: Repo, rows: seq<Row>, keep: set<Id>, stuck: set<Id>, deleted: nat)
    requires Inv(was) && ListsComplete(was, rows) && Thinned(was, now, keep, deleted)
    requires Handled(rows, |rows|, keep, stuck, now.snaps.Keys)
    ensures forall x :: x in CompleteIds(now) ==> x in keep || x in stuck
    ensures stuck == {} ==> CompleteIds(now) == CompleteIds(was) * keep
  {
    hide Inv;
    forall x | x in CompleteIds(now) ensures x in CompleteIds(was) && (x in keep || x in stuck) {
      assert x in CompleteIds(was) && RowFor(was, x) in rows;
    }
  }

  // ----- what survives a pass, whatever fails in it -----

  predicate NewestFirst(own: seq<Row>) {
    forall i :: 0 <= i < |own| ==> own[0].startedAt >= own[i].startedAt
  }

  lemma {:induction false} FirstIsNewest(rows: seq<Row>, device: Device)
    requires Ordered(rows)
    ensures NewestFirst(DeviceRows(rows, device))
    decreases |rows|
  {
    hide Less;
    if rows == [] {
      assert DeviceRows(rows, device) == [];
    } else {
      var before, last := rows[..|rows| - 1], rows[|rows| - 1];
      FirstIsNewest(before, device);
      var own := DeviceRows(before, device);
      if last.device == device && own != [] {
        assert own[0] in before;
        var k :| 0 <= k < |before| && before[k] == own[0];
        assert NotAfter(rows[k], last);
        LessIrreflexive(device);
      }
    }
  }

  /** Every pinned snapshot survives, and so does a newest snapshot of every device that had one. */
  lemma PinnedAndNewestSurvive(was: Repo, now: Repo, rows: seq<Row>, at: int, cal: Calendar, keep: set<Id>, deleted: nat, id: Id)
    requires Inv(was) && Ordered(rows) && ListsComplete(was, rows) && Thinned(was, now, keep, deleted)
    requires forall x :: x in keep <==> Kept(rows, at, cal, x)
    requires id in CompleteIds(was)
    ensures was.snaps[id].pinned ==> id in now.snaps
    ensures exists newest :: newest in now.snaps && newest in CompleteIds(was)
              && was.snaps[newest].device == was.snaps[id].device && was.snaps[newest].startedAt >= was.snaps[id].startedAt
  {
    hide Less, NotAfter, Kept;
    var own := DeviceRows(rows, was.snaps[id].device);
    assert RowFor(was, id) in rows && SnapOK(was, id);
    var i :| 0 <= i < |own| && own[i] == RowFor(was, id);
    if was.snaps[id].pinned {
      NewestAndPinnedKept(rows, at, cal, was.snaps[id].device, i);
    }
    FirstIsNewest(rows, was.snaps[id].device);
    var newest := own[0].id;
    assert own[0] in rows && SnapOK(was, newest);
    NewestAndPinnedKept(rows, at, cal, was.snaps[id].device, 0);
  }

  lemma RowOf(was: Repo, rows: seq<Row>, id: Id) returns (i: nat)
    requires Inv(was) && ListsComplete(was, rows) && id in CompleteIds(was)
    ensures id in was.snaps && id != ""
    ensures var own := DeviceRows(rows, was.snaps[id].device);
            i < |own| && own[i] == RowFor(was, id) && own[i].id == id && own[i].startedAt == was.snaps[id].startedAt
            && own[i].pinned == was.snaps[id].pinned
  {
    var own := DeviceRows(rows, was.snaps[id].device);
    assert RowFor(was, id) in rows && SnapOK(was, id);
    i :| 0 <= i < |own| && own[i] == RowFor(was, id);
  }

  /** With no counts set every complete snapshot inside the window survives, whatever fails in the pass. */
  lemma RecentSurvive(was: Repo, now: Repo, rows: seq<Row>, at: int, cal: Calendar, keep: set<Id>, deleted: nat, id: Id)
    requires Inv(was) && ListsComplete(was, rows) && DistinctIds(rows) && Thinned(was, now, keep, deleted)
    requires Closed(ById(rows), keep) && forall x :: x in keep <==> Kept(rows, at, cal, x)
    requires id in CompleteIds(was)
    requires DeviceRows(rows, was.snaps[id].device) != []
    requires var p := DeviceRows(rows, was.snaps[id].device)[0].policy;
             NoCounts(p) && (p.retentionDays <= 0 || at - was.snaps[id].startedAt <= p.retentionDays * 86_400_000)
    ensures id in now.snaps
  {
    hide Inv, Kept, DistinctIds, ListsComplete, ById;
    var i := RowOf(was, rows, id);
    KeptExactly(rows, keep, at, cal, was.snaps[id].device, i);
  }

  /** After a pass in which nothing is stuck or cancelled a complete snapshot outside the window is gone,
      unless it is the newest of its device, is pinned, or a kept snapshot builds on it. */
  lemma OldGo(was: Repo, now: Repo, rows: seq<Row>, at: int, cal: Calendar, keep: set<Id>, id: Id)
    requires Inv(was) && ListsComplete(was, rows) && DistinctIds(rows)
    requires Closed(ById(rows), keep) && forall x :: x in keep <==> Kept(rows, at, cal, x)
    requires forall x :: x in was.snaps ==> (x in now.snaps <==> !Doomed(was, keep, {}, x))
    requires id in CompleteIds(was) && !was.snaps[id].pinned && !ChildKept(rows, keep, id)
    requires var own := DeviceRows(rows, was.snaps[id].device);
             && own != [] && own[0].id != id
             && own[0].policy.retentionDays > 0
             && at - was.snaps[id].startedAt > own[0].policy.retentionDays * 86_400_000
    ensures id !in now.snaps
  {
    hide Inv, Kept, DistinctIds, ListsComplete, ById, ChildKept, Closed, Doomed, DependsOn;
    var i := RowOf(was, rows, id);
    if id in keep {
      NothingOldKept(rows, keep, at, cal, was.snaps[id].device, i);
    }
    SelfDepends(was, id);
    DoomedBy(was, keep, {}, id, id);
  }
}
