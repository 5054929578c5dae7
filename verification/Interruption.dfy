/** Garbage collection that deletes a blob and does not get to delete its row, by a crash or because
    the row cannot be deleted. The row stays without its blob, until the next pass, unless a snapshot
    comes to refer to the chunk first. */
module Interruption {
  import opened Repository
  import opened RepositoryInvariant
  import opened Tree

  /** The rows whose blob is gone. */
  function Missing(r: Repo): set<Digest> {
    r.chunks.Keys - r.blobs.Keys
  }

  /** The invariant, except that the blobs of `holes` may be gone. */
  predicate InvBut(r: Repo, holes: set<Digest>) {
    && (forall id :: id in r.snaps ==> SnapOK(r, id))
    && (forall d :: d in r.devices ==> r.devices[d] in r.users)
    && Missing(r) <= holes
    && (forall uc :: uc in r.accountChunks ==> uc.1 in r.chunks)
  }

  lemma InvButNothing(r: Repo)
    ensures InvBut(r, {}) <==> Inv(r)
  {
    assert Missing(r) <= {} <==> r.chunks.Keys <= r.blobs.Keys by {
      assert Missing(r) <= {} ==> forall d :: d in r.chunks ==> d !in Missing(r);
    }
  }

  /** The blobs go and the rows stay. */
  function Interrupt(r: Repo, half: set<Digest>): Repo {
    r.(blobs := r.blobs - half)
  }

  lemma InterruptLeaves(r: Repo, holes: set<Digest>, half: set<Digest>)
    requires InvBut(r, holes)
    ensures InvBut(Interrupt(r, half), holes + half)
  {
    var r' := Interrupt(r, half);
    forall x | x in r'.snaps ensures SnapOK(r', x) {
      assert SnapOK(r, x);
    }
  }

  // ----- every step keeps it -----

  /** The repository with an empty blob put where one is missing. */
  function Healed(r: Repo, holes: set<Digest>): Repo {
    r.(blobs := (map d | d in holes :: []) + r.blobs)
  }

  lemma HealedInv(r: Repo, holes: set<Digest>)
    ensures InvBut(r, holes) <==> Inv(Healed(r, holes))
  {
    var h := Healed(r, holes);
    if InvBut(r, holes) {
      forall x | x in h.snaps ensures SnapOK(h, x) {
        assert SnapOK(r, x);
      }
    }
    if Inv(h) {
      forall x | x in r.snaps ensures SnapOK(r, x) {
        assert SnapOK(h, x);
      }
    }
  }

  lemma BlindStart(
      r: Repo, holes: set<Digest>, id: Id, user: User, device: Device, kind: Kind, parent: Id, startedAt: int, now: int)
    ensures StartSnapshot(Healed(r, holes), id, user, device, kind, parent, startedAt, now).repo
         == Healed(StartSnapshot(r, id, user, device, kind, parent, startedAt, now).repo, holes)
  {
    hide SnapshotChain;
  }

  lemma BlindAdd(r: Repo, holes: set<Digest>, id: Id, items: seq<Item>, deleted: seq<string>, now: int)
    ensures AddEntries(Healed(r, holes), id, items, deleted, now).repo
         == Healed(AddEntries(r, id, items, deleted, now).repo, holes)
  {
    hide ItemTable, PathSet, ItemRefs;
  }

  lemma BlindDelete(r: Repo, holes: set<Digest>, id: Id)
    ensures Victims(Healed(r, holes), id) == Victims(r, id)
    ensures DeleteSnapshotCascade(Healed(r, holes), id).repo == Healed(DeleteSnapshotCascade(r, id).repo, holes)
  {
    hide DependsOn;
  }

  /** Only uploads, collections and the deletion of orphans look at blobs. */
  lemma BlindSteps(r: Repo, holes: set<Digest>, step: Step)
    requires !step.Puts? && !step.Collects? && !step.DropsOrphan?
    ensures Apply(Healed(r, holes), step) == Healed(Apply(r, step), holes)
  {
    hide StartSnapshot, AddEntries, DeleteSnapshotCascade, Victims;
    match step
    case Starts(id, user, kind, device, parent, startedAt, now) =>
      BlindStart(r, holes, id, user, device, kind, parent, startedAt, now);
    case Adds(id, items, deleted, now) => BlindAdd(r, holes, id, items, deleted, now);
    case Completes(id, agentError) =>
      assert MissingSnapshotChunks(Healed(r, holes), id) == MissingSnapshotChunks(r, id);
    case Deletes(_, id) => BlindDelete(r, holes, id);
    case Cascades(id) => BlindDelete(r, holes, id);
    case _ =>
  }

  /** Rows were only added, and every row has its blob or is a hole. */
  lemma MoreRows(r: Repo, r': Repo, holes: set<Digest>)
    requires InvBut(r, holes) && r'.snaps == r.snaps && r'.users == r.users && r'.devices == r.devices
    requires r.chunks.Keys <= r'.chunks.Keys && Missing(r') <= holes
    requires forall uc :: uc in r'.accountChunks ==> uc.1 in r'.chunks
    ensures InvBut(r', holes)
  {
    forall x | x in r'.snaps ensures SnapOK(r', x) {
      assert SnapOK(r, x);
    }
  }

  lemma PutKeepsInvBut(r: Repo, holes: set<Digest>, step: Step)
    requires InvBut(r, holes) && step.Puts?
    ensures InvBut(Apply(r, step), holes) && Missing(Apply(r, step)) <= Missing(r)
  {
    hide InvBut, HexDigest;
    RowsWithBlobs(r, holes);
    MoreRows(r, Apply(r, step), holes);
  }

  lemma RowsWithBlobs(r: Repo, holes: set<Digest>)
    requires InvBut(r, holes)
    ensures Missing(r) <= holes && forall uc :: uc in r.accountChunks ==> uc.1 in r.chunks
  {}

  lemma MissingAfterCollect(r: Repo, victims: set<Digest>)
    ensures Missing(Collect(r, victims)) == Missing(r) - victims
  {
    var r' := Collect(r, victims);
    assert r'.chunks == r.chunks - victims && r'.blobs == r.blobs - victims;
    forall d ensures d in Missing(r') <==> d in Missing(r) - victims {
      assert d in r'.chunks <==> d in r.chunks && d !in victims;
      assert d in r'.blobs <==> d in r.blobs && d !in victims;
    }
  }

  lemma CollectKeepsInvBut(r: Repo, holes: set<Digest>, victims: set<Digest>)
    requires InvBut(r, holes) && victims <= Unreferenced(r)
    ensures InvBut(Collect(r, victims), holes) && Missing(Collect(r, victims)) == Missing(r) - victims
  {
    var r' := Collect(r, victims);
    MissingAfterCollect(r, victims);
    forall x | x in r'.snaps ensures SnapOK(r', x) {
      assert SnapOK(r, x);
      assert forall d :: d in r.snaps[x].refs ==> Referenced(r, d);
    }
  }

  lemma DropKeepsInvBut(r: Repo, holes: set<Digest>, digest: Digest)
    requires InvBut(r, holes)
    ensures InvBut(DropOrphan(r, digest), holes) && Missing(DropOrphan(r, digest)) == Missing(r)
  {
    hide InvBut;
    RowsWithBlobs(r, holes);
    assert forall d :: d in r.chunks && d !in DropOrphan(r, digest).blobs <==> d in Missing(r);
    assert Missing(DropOrphan(r, digest)) == Missing(r);
    MoreRows(r, DropOrphan(r, digest), holes);
  }

  /** Every enabled step keeps it, and makes no blob go missing. */
  lemma StepKeepsInvBut(r: Repo, holes: set<Digest>, step: Step)
    requires InvBut(r, holes) && Enabled(r, step)
    ensures InvBut(Apply(r, step), holes) && Missing(Apply(r, step)) <= Missing(r)
  {
    if step.Puts? {
      PutKeepsInvBut(r, holes, step);
    } else if step.Collects? {
      CollectKeepsInvBut(r, holes, step.victims);
    } else if step.DropsOrphan? {
      DropKeepsInvBut(r, holes, step.digest);
    } else {
      OtherStepKeepsInvBut(r, holes, step);
    }
  }

  lemma OtherStepKeepsInvBut(r: Repo, holes: set<Digest>, step: Step)
    requires InvBut(r, holes) && Enabled(r, step) && !step.Puts? && !step.Collects? && !step.DropsOrphan?
    ensures InvBut(Apply(r, step), holes) && Missing(Apply(r, step)) == Missing(r)
  {
    OtherStepSameChunks(r, step);
    hide InvBut, Inv, Apply;
    HealedInv(r, holes);
    BlindSteps(r, holes, step);
    assert Enabled(Healed(r, holes), step);
    StepKeepsInv(Healed(r, holes), step);
    HealedInv(Apply(r, step), holes);
  }

  lemma OtherStepSameChunks(r: Repo, step: Step)
    requires !step.Puts? && !step.Collects? && !step.DropsOrphan?
    ensures Apply(r, step).chunks == r.chunks && Apply(r, step).blobs == r.blobs
  {
    hide StartAs, ItemTable, PathSet, ItemRefs, Victims, MissingSnapshotChunks;
  }

  // ----- runs with interruptions -----

  datatype Event = Ordinary(step: Step) | Interrupted(digest: Digest)

  /** A collection is interrupted at a chunk that no snapshot references. */
  predicate Possible(r: Repo, e: Event) {
    match e
    case Ordinary(step) => Enabled(r, step)
    case Interrupted(d) => d in Unreferenced(r)
  }

  function AfterEvent(r: Repo, e: Event): Repo {
    match e
    case Ordinary(step) => Apply(r, step)
    case Interrupted(d) => Interrupt(r, {d})
  }

  /** What events in a row lead to, and whether each is possible in its turn. */
  function AfterEvents(r: Repo, events: seq<Event>): Repo {
    if events == [] then r else AfterEvent(AfterEvents(r, events[..|events| - 1]), events[|events| - 1])
  }

  predicate AllPossible(r: Repo, events: seq<Event>) {
    events == [] ||
      var before, last := events[..|events| - 1], events[|events| - 1];
      AllPossible(r, before) && Possible(AfterEvents(r, before), last)
  }

  lemma OneMoreEvent(r: Repo, events: seq<Event>, e: Event)
    requires AllPossible(r, events) && Possible(AfterEvents(r, events), e)
    ensures AllPossible(r, events + [e]) && AfterEvents(r, events + [e]) == AfterEvent(AfterEvents(r, events), e)
  {
    hide Possible, AfterEvent;
    assert (events + [e])[..|events|] == events;
  }

  /** A run goes on with any events that are possible in a row. */
  lemma {:induction false} RunGoesOn(states: seq<Repo>, events: seq<Event>, more: seq<Event>) returns (states': seq<Repo>)
    requires IsInterruptedRun(states, events) && AllPossible(states[|events|], more)
    ensures IsInterruptedRun(states', events + more)
    ensures states'[|events + more|] == AfterEvents(states[|events|], more)
    decreases |more|
  {
    hide Possible, AfterEvent;
    if more == [] {
      assert events + more == events;
      states' := states;
    } else {
      var before, last := more[..|more| - 1], more[|more| - 1];
      var shorter := RunGoesOn(states, events, before);
      assert events + more == events + before + [last];
      states' := shorter + [AfterEvent(shorter[|events + before|], last)];
    }
  }

  ghost predicate IsInterruptedRun(states: seq<Repo>, events: seq<Event>) {
    && |states| == |events| + 1 && states[0] == EMPTY
    && forall i :: 0 <= i < |events| ==> Possible(states[i], events[i]) && states[i + 1] == AfterEvent(states[i], events[i])
  }

  /** The chunks that a collection was interrupted at so far. */
  function Holes(events: seq<Event>, i: nat): set<Digest>
    requires i <= |events|
  {
    if i == 0 then {} else Holes(events, i - 1) + if events[i - 1].Interrupted? then {events[i - 1].digest} else {}
  }

  lemma {:induction false} RunsKeepInvBut(states: seq<Repo>, events: seq<Event>, i: nat)
    requires IsInterruptedRun(states, events) && i < |states|
    ensures InvBut(states[i], Holes(events, i))
  {
    hide InvBut, Apply, Enabled, Interrupt, Unreferenced;
    if i == 0 {
      InvButNothing(EMPTY);
    } else {
      RunsKeepInvBut(states, events, i - 1);
      assert Holes(events, i) == Holes(events, i - 1) + if events[i - 1].Interrupted? then {events[i - 1].digest} else {};
      assert states[i] == AfterEvent(states[i - 1], events[i - 1]) && Possible(states[i - 1], events[i - 1]);
      match events[i - 1]
      case Ordinary(step) =>
        assert Holes(events, i) == Holes(events, i - 1);
        StepKeepsInvBut(states[i - 1], Holes(events, i - 1), step);
      case Interrupted(d) => InterruptLeaves(states[i - 1], Holes(events, i - 1), {d});
    }
  }

  // ----- what an interruption can cost -----

  /** The chunk is one of the file contents of the snapshot's tree. */
  predicate Uses(r: Repo, id: Id, d: Digest) {
    TreeOf(r.snaps, id).Ok? && exists p :: p in TreeOf(r.snaps, id).value && d in TreeOf(r.snaps, id).value[p].chunks
  }

  /** A complete snapshot can be restored exactly when each hole has its blob back or is not used. */
  lemma RestorableBut(r: Repo, holes: set<Digest>, id: Id)
    requires InvBut(r, holes) && id in r.snaps && r.snaps[id].status == Complete
    ensures TreeOf(r.snaps, id).Ok?
    ensures Restorable(r, id) <==> forall d :: d in holes ==> d in r.blobs || !Uses(r, id, d)
  {
    HealedInv(r, holes);
    CompleteIsRestorable(Healed(r, holes), id);
    hide TreeOf, InvBut, Inv;
    var tree := TreeOf(r.snaps, id).value;
    if forall d :: d in holes ==> d in r.blobs || !Uses(r, id, d) {
      forall p, d | p in tree && d in tree[p].chunks ensures d in r.blobs {
        assert d in Healed(r, holes).blobs && Uses(r, id, d);
      }
    }
    forall d | d in holes && d !in r.blobs && Uses(r, id, d) ensures !Restorable(r, id) {
      var p :| p in tree && d in tree[p].chunks;
    }
  }

  /** In every state of every run with interruptions: which complete snapshots can be restored. */
  lemma RunsRestorableBut(states: seq<Repo>, events: seq<Event>, i: nat, id: Id)
    requires IsInterruptedRun(states, events) && i < |states|
    requires id in states[i].snaps && states[i].snaps[id].status == Complete
    ensures Restorable(states[i], id) <==> forall d :: d in Holes(events, i) ==> d in states[i].blobs || !Uses(states[i], id, d)
  {
    RunsKeepInvBut(states, events, i);
    RestorableBut(states[i], Holes(events, i), id);
  }

  // ----- the guard -----

  /** The event adds an entry made of the chunk. */
  predicate Names(e: Event, d: Digest) {
    e.Ordinary? && e.step.Adds? && d in ItemRefs(e.step.items)
  }

  lemma AddsRefer(r: Repo, id: Id, items: seq<Item>, deleted: seq<string>, now: int, d: Digest)
    requires !Referenced(r, d)
    ensures Referenced(AddEntries(r, id, items, deleted, now).repo, d)
       <==> d in ItemRefs(items) && AddEntries(r, id, items, deleted, now).out.Ok?
  {
    hide ItemTable, PathSet, ItemRefs;
    NoItemsNoRefs();
    if d in ItemRefs(items) && AddEntries(r, id, items, deleted, now).out.Ok? {
      assert items != [];
      assert d in AddEntries(r, id, items, deleted, now).repo.snaps[id].refs;
    }
  }

  /** Rows have the references they had, or none. */
  predicate NoNewRefs(a: Snaps, b: Snaps) {
    forall x :: x in b ==> b[x].refs == {} || (x in a && a[x].refs == b[x].refs)
  }

  lemma StatusKeepsRefs(r: Repo, step: Step)
    requires step.Completes? || step.FailsStale? || step.Pins?
    ensures NoNewRefs(r.snaps, Apply(r, step).snaps)
  {
    hide MissingSnapshotChunks;
  }

  lemma OthersKeepRefs(r: Repo, step: Step)
    requires !step.Adds?
    ensures NoNewRefs(r.snaps, Apply(r, step).snaps)
  {
    hide StartAs, Victims, CompleteSnapshot, FailStaleSnapshots, SetPinned, HexDigest;
    if step.Completes? || step.FailsStale? || step.Pins? {
      StatusKeepsRefs(r, step);
    }
  }

  lemma OthersDoNotRefer(r: Repo, e: Event, d: Digest)
    requires !Referenced(r, d) && !(e.Ordinary? && e.step.Adds?)
    ensures !Referenced(AfterEvent(r, e), d)
  {
    hide Apply, Unreferenced;
    if e.Ordinary? {
      OthersKeepRefs(r, e.step);
    }
  }

  /** An unreferenced chunk stays unreferenced until a batch of entries that is accepted names it. */
  lemma OnlyAddsRefer(r: Repo, e: Event, d: Digest)
    requires !Referenced(r, d)
    ensures Referenced(AfterEvent(r, e), d)
       <==> Names(e, d) && AddEntries(r, e.step.id, e.step.items, e.step.deleted, e.step.now).out.Ok?
  {
    hide Referenced, AddEntries, ItemRefs;
    if e.Ordinary? && e.step.Adds? {
      AddsRefer(r, e.step.id, e.step.items, e.step.deleted, e.step.now, d);
    } else {
      OthersDoNotRefer(r, e, d);
    }
  }

  lemma NoItemsNoRefs()
    ensures ItemRefs([]) == {}
  {}

  /** No chunk whose blob is missing is referenced. */
  predicate NoneNeeded(r: Repo) {
    forall d :: d in Missing(r) ==> !Referenced(r, d)
  }

  /** As long as no batch of entries names a chunk whose blob is missing, every complete snapshot can be
      restored in every state. */
  lemma {:induction false} GuardedRunsStayRestorable(states: seq<Repo>, events: seq<Event>, i: nat)
    requires IsInterruptedRun(states, events) && i < |states|
    requires forall k, d :: 0 <= k < i && d in Missing(states[k]) ==> !Names(events[k], d)
    ensures NoneNeeded(states[i])
    ensures forall id :: id in states[i].snaps && states[i].snaps[id].status == Complete ==> Restorable(states[i], id)
  {
    RunsKeepInvBut(states, events, i);
    if i > 0 {
      GuardedRunsStayRestorable(states, events, i - 1);
      RunsKeepInvBut(states, events, i - 1);
      EventKeepsNoneNeeded(states[i - 1], Holes(events, i - 1), events[i - 1]);
    }
    hide InvBut, Missing, Restorable;
    forall id | id in states[i].snaps && states[i].snaps[id].status == Complete ensures Restorable(states[i], id) {
      NoneNeededIsRestorable(states[i], Holes(events, i), id);
    }
  }

  lemma EventKeepsNoneNeeded(r: Repo, holes: set<Digest>, e: Event)
    requires InvBut(r, holes) && NoneNeeded(r) && Possible(r, e) && forall d :: d in Missing(r) ==> !Names(e, d)
    ensures NoneNeeded(AfterEvent(r, e))
  {
    hide InvBut, Apply, Enabled, Names;
    forall d | d in Missing(AfterEvent(r, e)) ensures !Referenced(AfterEvent(r, e), d) {
      match e {
        case Ordinary(step) => StepKeepsInvBut(r, holes, step);
        case Interrupted(_) =>
      }
      OnlyAddsRefer(r, e, d);
    }
  }

  lemma UsedIsReferenced(r: Repo, holes: set<Digest>, id: Id, d: Digest)
    requires InvBut(r, holes) && id in r.snaps && r.snaps[id].status == Complete && Uses(r, id, d)
    ensures Referenced(r, d) && d in r.chunks
  {
    var p :| p in TreeOf(r.snaps, id).value && d in TreeOf(r.snaps, id).value[p].chunks;
    HealedInv(r, holes);
    TreeChunkReferenced(Healed(r, holes), id, p, d);
  }

  lemma NoneNeededIsRestorable(r: Repo, holes: set<Digest>, id: Id)
    requires InvBut(r, holes) && NoneNeeded(r) && id in r.snaps && r.snaps[id].status == Complete
    ensures Restorable(r, id)
  {
    hide InvBut, Uses, Restorable, Referenced;
    RestorableBut(r, holes, id);
    forall d | d in holes && Uses(r, id, d) ensures d in r.blobs {
      UsedIsReferenced(r, holes, id, d);
      assert d !in r.blobs ==> d in Missing(r);
    }
  }

  /** While nothing refers to the chunk the next pass finds it and completes the work. */
  lemma NextPassRepairs(r: Repo, d: Digest)
    requires d in Unreferenced(r)
    ensures d in Unreferenced(Interrupt(r, {d})) && Collect(Interrupt(r, {d}), {d}) == Collect(r, {d})
  {
    assert forall x :: Referenced(Interrupt(r, {d}), x) <==> Referenced(r, x);
    assert r.blobs - {d} - {d} == r.blobs - {d};
  }
}
