/** From reading a file to writing it back: the agent's upload, the server's repository over a whole
    run, and the restore. */
module EndToEnd {
  import opened Wrappers
  import opened Bytes
  import opened Sequences
  import opened Chunking
  import opened Codec
  import opened UploadRestore
  import opened PutHandler
  import opened Paths
  import R = Repository
  import RepositoryInvariant
  import Tree

  /** The record of a file is in the tree of a complete snapshot. */
  ghost predicate BackedUp(p: Primitives, r: R.Repo, id: R.Id, path: R.Path, pieces: seq<Bytes>) {
    && id in r.snaps && r.snaps[id].status == R.Complete && Tree.TreeOf(r.snaps, id).Ok?
    && path in Tree.TreeOf(r.snaps, id).value
    && Tree.TreeOf(r.snaps, id).value[path].chunks == Digests(p, pieces)
  }

  // ----- from the batch of entries to the complete snapshot -----

  /** The row itself has the entry. */
  predicate Has(r: R.Repo, id: R.Id, path: R.Path, entry: R.Entry) {
    && id in r.snaps && path in r.snaps[id].entries && r.snaps[id].entries[path] == entry
    && path !in r.snaps[id].deletions
  }

  /** A batch for the snapshot that has the path among its entries or its deletions. */
  predicate Touches(step: R.Step, id: R.Id, path: R.Path) {
    && step.Adds? && step.id == id
    && ((exists j :: 0 <= j < |step.items| && CleanPath(step.items[j].path) == Some(path))
        || (exists j :: 0 <= j < |step.deleted| && CleanPath(step.deleted[j]) == Some(path)))
  }

  lemma {:induction false} NotAmongItems(items: seq<R.Item>, path: R.Path)
    requires R.ItemTable(items).Some? && forall j :: 0 <= j < |items| ==> CleanPath(items[j].path) != Some(path)
    ensures path !in R.ItemTable(items).value
    decreases |items|
  {
    hide CleanPath;
    if items != [] {
      NotAmongItems(items[..|items| - 1], path);
    }
  }

  lemma {:induction false} NotAmongDeleted(deleted: seq<string>, path: R.Path)
    requires R.PathSet(deleted).Some? && forall j :: 0 <= j < |deleted| ==> CleanPath(deleted[j]) != Some(path)
    ensures path !in R.PathSet(deleted).value
    decreases |deleted|
  {
    hide CleanPath;
    if deleted != [] {
      NotAmongDeleted(deleted[..|deleted| - 1], path);
    }
  }

  lemma AddsKeepEntry(r: R.Repo, step: R.Step, id: R.Id, path: R.Path, entry: R.Entry)
    requires Has(r, id, path, entry) && step.Adds? && !Touches(step, id, path)
    ensures Has(R.AddEntries(r, step.id, step.items, step.deleted, step.now).repo, id, path, entry)
  {
    hide R.ItemTable, R.PathSet, R.ItemRefs, CleanPath;
    if step.id == id && R.ItemTable(step.items).Some? && R.PathSet(step.deleted).Some? {
      NotAmongItems(step.items, path);
      NotAmongDeleted(step.deleted, path);
    }
  }

  lemma StepKeepsEntry(r: R.Repo, step: R.Step, id: R.Id, path: R.Path, entry: R.Entry)
    requires Has(r, id, path, entry) && !Touches(step, id, path) && id in R.Apply(r, step).snaps
    ensures Has(R.Apply(r, step), id, path, entry)
  {
    hide R.StartAs, R.AddEntries, R.Victims, R.MissingSnapshotChunks, R.Stale, R.HexDigest, Touches;
    if step.Adds? {
      AddsKeepEntry(r, step, id, path, entry);
    }
  }

  /** An entry of the row itself is in the tree. */
  lemma HasIsInTree(r: R.Repo, id: R.Id, path: R.Path, entry: R.Entry)
    requires RepositoryInvariant.Inv(r) && Has(r, id, path, entry)
    ensures var tree := Tree.TreeOf(r.snaps, id);
            tree.Ok? && path in tree.value && tree.value[path] == entry
  {
    RepositoryInvariant.ChainNeverFails(r, id);
    hide RepositoryInvariant.Inv, R.SnapshotChain;
  }

  lemma {:induction false} EntryStays(states: seq<R.Repo>, steps: seq<R.Step>, a: nat, b: nat, id: R.Id, path: R.Path,
                                      entry: R.Entry)
    requires R.IsRun(states, steps) && a <= b < |states| && Has(states[a], id, path, entry)
    requires forall k :: a <= k <= b ==> id in states[k].snaps
    requires forall k :: a <= k < b ==> !Touches(steps[k], id, path)
    ensures Has(states[b], id, path, entry)
    decreases b
  {
    hide R.Apply, R.Enabled, Has, Touches;
    if a < b {
      EntryStays(states, steps, a, b - 1, id, path, entry);
      assert states[b] == R.Apply(states[b - 1], steps[b - 1]);
      StepKeepsEntry(states[b - 1], steps[b - 1], id, path, entry);
    }
  }

  /** The step is an accepted batch in which the entry is the last for its path, which the snapshot does
      not delete. */
  predicate Records(r: R.Repo, step: R.Step, id: R.Id, path: R.Path, entry: R.Entry) {
    && step.Adds? && step.id == id && R.AddEntries(r, id, step.items, step.deleted, step.now).out.Ok?
    && (exists j :: 0 <= j < |step.items| && CleanPath(step.items[j].path) == Some(path) && step.items[j].entry == entry
          && forall l :: j < l < |step.items| ==> CleanPath(step.items[l].path) != Some(path))
    && id in R.Apply(r, step).snaps && path !in R.Apply(r, step).snaps[id].deletions
  }

  lemma RecordedIsHad(r: R.Repo, step: R.Step, id: R.Id, path: R.Path, entry: R.Entry)
    requires Records(r, step, id, path, entry)
    ensures Has(R.Apply(r, step), id, path, entry)
  {
    hide R.ItemTable, R.PathSet, R.ItemRefs, CleanPath;
    var j :| 0 <= j < |step.items| && CleanPath(step.items[j].path) == Some(path) && step.items[j].entry == entry
             && forall l :: j < l < |step.items| ==> CleanPath(step.items[l].path) != Some(path);
    RepositoryInvariant.LastItemWins(step.items, j, path);
  }

  lemma CompletesIt(r: R.Repo, id: R.Id, agentError: bool)
    requires R.CompleteSnapshot(r, id, agentError).out.Ok?
    ensures var r' := R.Apply(r, R.Completes(id, agentError)); id in r'.snaps && r'.snaps[id].status == R.Complete
  {}

  /** A file recorded in a batch, and not in a later one, is backed up from the step that completes the
      snapshot on, for as long as the snapshot is there, whatever else runs. */
  lemma RecordedIsBackedUp(p: Primitives, states: seq<R.Repo>, steps: seq<R.Step>, a: nat, b: nat, i: nat,
                           id: R.Id, path: R.Path, entry: R.Entry, agentError: bool, pieces: seq<Bytes>)
    requires R.IsRun(states, steps) && states[0] == R.EMPTY && a < b < i < |states|
    requires forall k :: a < k <= i ==> id in states[k].snaps
    requires Records(states[a], steps[a], id, path, entry) && entry.chunks == Digests(p, pieces)
    requires forall k :: a < k < b ==> !Touches(steps[k], id, path)
    requires steps[b] == R.Completes(id, agentError) && R.CompleteSnapshot(states[b], id, agentError).out.Ok?
    ensures BackedUp(p, states[i], id, path, pieces)
  {
    hide R.Apply, R.Enabled, R.CompleteSnapshot, Records, Has, Touches, RepositoryInvariant.Inv, Tree.TreeOf;
    RecordedIsHad(states[a], steps[a], id, path, entry);
    EntryStays(states, steps, a + 1, b, id, path, entry);
    assert !Touches(steps[b], id, path) by { CompletionTouchesNothing(steps[b], id, path); }
    assert states[b + 1] == R.Apply(states[b], steps[b]);
    StepKeepsEntry(states[b], steps[b], id, path, entry);
    CompletesIt(states[b], id, agentError);
    RepositoryInvariant.RunsKeepInv(states, steps, b + 1);
    HasIsInTree(states[b + 1], id, path, entry);
    Tree.RunsKeepTree(states, steps, b + 1, i, id);
  }

  lemma CompletionTouchesNothing(step: R.Step, id: R.Id, path: R.Path)
    requires step.Completes?
    ensures !Touches(step, id, path)
  {}

  // ----- from the complete snapshot to the file -----

  lemma BackedUpIsStored(p: Primitives, r: R.Repo, id: R.Id, path: R.Path, pieces: seq<Bytes>)
    requires RepositoryInvariant.Inv(r) && BackedUp(p, r, id, path, pieces)
    ensures OnServer(p, pieces, |pieces|, r.blobs.Keys)
  {
    Tree.CompleteIsRestorable(r, id);
    hide RepositoryInvariant.Inv, Tree.TreeOf;
    var chunks := Tree.TreeOf(r.snaps, id).value[path].chunks;
    forall i | 0 <= i < |pieces| ensures p.sum(pieces[i]) in r.blobs {
      assert chunks[i] == p.sum(pieces[i]);
    }
  }

  /** Whatever the agents and the server's answers were: a file of a complete snapshot is restored to
      its content exactly when the blobs of its chunks are readable with the key. */
  lemma BackedUpRestores(p: Primitives, key: Option<Bytes>, states: seq<R.Repo>, steps: seq<R.Step>, i: nat,
                         id: R.Id, path: R.Path, pieces: seq<Bytes>)
    requires Lawful(p) && R.IsRun(states, steps) && states[0] == R.EMPTY && i < |states|
    requires BackedUp(p, states[i], id, path, pieces)
    ensures OnServer(p, pieces, |pieces|, states[i].blobs.Keys)
    ensures Restored(p, key, states[i].blobs, Tree.TreeOf(states[i].snaps, id).value[path].chunks) == Some(Concat(pieces))
       <==> forall k :: 0 <= k < |pieces| ==> Readable(p, key, p.sum(pieces[k]), states[i].blobs[p.sum(pieces[k])])
  {
    hide R.Apply, R.Enabled, Readable, Lawful;
    RepositoryInvariant.RunsKeepInv(states, steps, i);
    BackedUpIsStored(p, states[i], id, path, pieces);
    RestoredExactly(p, key, states[i].blobs, pieces);
  }

  lemma RestoredExactly(p: Primitives, key: Option<Bytes>, blobs: Blobs, pieces: seq<Bytes>)
    requires Lawful(p) && OnServer(p, pieces, |pieces|, blobs.Keys)
    ensures Restored(p, key, blobs, Digests(p, pieces)) == Some(Concat(pieces))
       <==> forall k :: 0 <= k < |pieces| ==> Readable(p, key, p.sum(pieces[k]), blobs[p.sum(pieces[k])])
  {
    hide Readable, Lawful;
    RestoreSucceeds(p, key, blobs, Digests(p, pieces));
    if Restored(p, key, blobs, Digests(p, pieces)).Some? {
      RestoreIsHonest(p, key, blobs, pieces);
    }
    assert forall k :: 0 <= k < |pieces| ==> Digests(p, pieces)[k] == p.sum(pieces[k]);
  }

  // ----- agents that share one key -----

  /** What the handler lets through, from agents that seal with this key or not at all, within what a
      request delivers. */
  ghost predicate Honest(p: Primitives, key: Option<Bytes>, step: R.Step) {
    step.Puts? && step.accepted ==>
      && Genuine(p, step.digest, step.blob) && |step.blob| <= MAX_FETCH
      && (IsEncrypted(step.blob) ==> Sealed(p, key, step.digest, step.blob))
  }

  ghost predicate Sealed(p: Primitives, key: Option<Bytes>, d: Digest, blob: Bytes) {
    exists x :: p.sum(x) == d && |x| <= MAX_PLAINTEXT && Layout(p, key, x, d) == Ok(blob)
  }

  /** An unsealed blob is read without regard to the key. */
  lemma UnsealedIgnoresKey(p: Primitives, key: Option<Bytes>, blob: Bytes)
    requires !IsEncrypted(blob)
    ensures Unpack(p, key, blob) == Unpack(p, None, blob)
  {
    hide Uvarint;
  }

  lemma AcceptedIsReadable(p: Primitives, key: Option<Bytes>, step: R.Step)
    requires Lawful(p) && step.Puts? && step.accepted && Honest(p, key, step)
    ensures Readable(p, key, step.digest, step.blob)
  {
    hide Lawful, Unpack, Layout;
    if IsEncrypted(step.blob) {
      var x :| p.sum(x) == step.digest && |x| <= MAX_PLAINTEXT && Layout(p, key, x, step.digest) == Ok(step.blob);
      MadeIsReadable(p, key, key, x, step.blob);
    } else {
      UnsealedIgnoresKey(p, key, step.blob);
    }
  }

  ghost predicate AllReadable(p: Primitives, key: Option<Bytes>, blobs: Blobs) {
    forall d :: d in blobs ==> Readable(p, key, d, blobs[d])
  }

  lemma RowsLeaveBlobs(r: R.Repo, step: R.Step)
    requires !step.Puts? && !step.Collects? && !step.DropsOrphan?
    ensures R.Apply(r, step).blobs == r.blobs
  {
    hide R.StartAs, R.ItemTable, R.PathSet, R.ItemRefs, R.Victims, R.MissingSnapshotChunks, R.Stale;
    hide R.PutChunk, R.Collect, R.DropOrphan;
  }

  lemma RemovalsAddNoBlobs(r: R.Repo, step: R.Step)
    requires step.Collects? || step.DropsOrphan?
    ensures R.Apply(r, step).blobs.Keys <= r.blobs.Keys
    ensures forall d :: d in R.Apply(r, step).blobs ==> R.Apply(r, step).blobs[d] == r.blobs[d]
  {
    hide R.PutChunk;
  }

  lemma UploadAddsItsBlob(r: R.Repo, user: R.User, digest: R.Digest, blob: Bytes, plainLen: int, encrypted: bool,
                          accepted: bool, registers: bool)
    ensures var blobs := R.PutChunk(r, user, digest, blob, plainLen, encrypted, accepted, registers).repo.blobs;
            blobs == r.blobs || (accepted && blobs == r.blobs[digest := blob])
  {
    hide R.HexDigest;
  }

  lemma UploadStep(r: R.Repo, step: R.Step)
    requires step.Puts?
    ensures R.Apply(r, step) == R.PutChunk(r, step.user, step.digest, step.blob, step.plainLen, step.encrypted,
                                           step.accepted, step.registers).repo
  {
    hide R.PutChunk;
  }

  /** Blobs are only written by uploads. */
  lemma BlobsComeFromUploads(r: R.Repo, step: R.Step, d: R.Digest)
    requires d in R.Apply(r, step).blobs
    ensures (d in r.blobs && R.Apply(r, step).blobs[d] == r.blobs[d])
         || (step.Puts? && step.accepted && d == step.digest && R.Apply(r, step).blobs[d] == step.blob)
  {
    hide R.Apply, R.PutChunk;
    if step.Puts? {
      UploadAddsItsBlob(r, step.user, step.digest, step.blob, step.plainLen, step.encrypted, step.accepted, step.registers);
      UploadStep(r, step);
    } else if step.Collects? || step.DropsOrphan? {
      RemovalsAddNoBlobs(r, step);
    } else {
      RowsLeaveBlobs(r, step);
    }
  }

  lemma {:induction false} HonestRunsStayReadable(
      p: Primitives, key: Option<Bytes>, states: seq<R.Repo>, steps: seq<R.Step>, i: nat)
    requires Lawful(p) && R.IsRun(states, steps) && states[0] == R.EMPTY && i < |states|
    requires forall k :: 0 <= k < i ==> Honest(p, key, steps[k])
    ensures AllReadable(p, key, states[i].blobs)
  {
    hide Lawful, R.Apply, R.Enabled, Readable, Honest;
    if i > 0 {
      HonestRunsStayReadable(p, key, states, steps, i - 1);
      assert states[i] == R.Apply(states[i - 1], steps[i - 1]);
      forall d | d in states[i].blobs ensures Readable(p, key, d, states[i].blobs[d]) {
        BlobsComeFromUploads(states[i - 1], steps[i - 1], d);
        if steps[i - 1].Puts? && steps[i - 1].accepted {
          AcceptedIsReadable(p, key, steps[i - 1]);
        }
      }
    }
  }

  /** The record that an upload of a file returned is in the tree of a complete snapshot. In every state
      of every run in which agents share the key, restoring it yields the file, and the check of the
      whole file passes. */
  lemma FilesComeBack(p: Primitives, key: Option<Bytes>, states: seq<R.Repo>, steps: seq<R.Step>, i: nat,
                      id: R.Id, path: R.Path, config: Config, gear: seq<nat>, content: Bytes, record: FileResult)
    requires Lawful(p) && R.IsRun(states, steps) && states[0] == R.EMPTY && i < |states|
    requires forall k :: 0 <= k < i ==> Honest(p, key, steps[k])
    requires |gear| == 256 && Normalize(config).Ok?
    requires record == FileResult(Digests(p, FilePieces(config, gear, content)), p.sum(content), |content|)
    requires BackedUp(p, states[i], id, path, FilePieces(config, gear, content))
    ensures Restored(p, key, states[i].blobs, record.chunks) == Some(content) && p.sum(content) == record.digest
  {
    hide Lawful, R.Apply, R.Enabled, Honest, Readable, Cut;
    var pieces := FilePieces(config, gear, content);
    BackedUpRestores(p, key, states, steps, i, id, path, pieces);
    HonestRunsStayReadable(p, key, states, steps, i);
    PiecesConcat(MakeCutter(Normalize(config).value, gear), content);
  }

  /** The whole way: an upload of a file returns its record, a batch records it in a running snapshot, the
      snapshot completes, and as long as it is there a restore yields the file, if every agent of the run
      shares the key. Nothing is asked of the server's answers about missing chunks. */
  lemma UploadedFilesComeBack(
      p: Primitives, key: Option<Bytes>, states: seq<R.Repo>, steps: seq<R.Step>, a: nat, b: nat, i: nat,
      id: R.Id, path: R.Path, entry: R.Entry, agentError: bool,
      config: Config, gear: seq<nat>, content: Bytes, record: FileResult)
    requires Lawful(p) && R.IsRun(states, steps) && states[0] == R.EMPTY && a < b < i < |states|
    requires forall k :: 0 <= k < i ==> Honest(p, key, steps[k])
    requires |gear| == 256 && Normalize(config).Ok?
    requires record == FileResult(Digests(p, FilePieces(config, gear, content)), p.sum(content), |content|)
    requires forall k :: a < k <= i ==> id in states[k].snaps
    requires Records(states[a], steps[a], id, path, entry) && entry.chunks == record.chunks
    requires forall k :: a < k < b ==> !Touches(steps[k], id, path)
    requires steps[b] == R.Completes(id, agentError) && R.CompleteSnapshot(states[b], id, agentError).out.Ok?
    ensures var tree := Tree.TreeOf(states[i].snaps, id);
            && states[i].snaps[id].status == R.Complete && tree.Ok? && path in tree.value
            && Restored(p, key, states[i].blobs, tree.value[path].chunks) == Some(content)
  {
    hide Lawful, R.Apply, R.Enabled, R.CompleteSnapshot, Honest, Records, Touches, Cut;
    RecordedIsBackedUp(p, states, steps, a, b, i, id, path, entry, agentError, FilePieces(config, gear, content));
    FilesComeBack(p, key, states, steps, i, id, path, config, gear, content, record);
  }
}
