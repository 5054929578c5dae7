/** The server's repository of snapshots, chunk rows and blobs, and every operation that changes
    it. Each store call and each garbage collection pass is one atomic step. The rows of a
    snapshot in the entries, deletions and snapshot_chunks tables live inside its row here, so
    that they go when it goes, as ON DELETE CASCADE has it. */
module Repository {
  import opened Wrappers
  import opened Bytes
  import opened Paths

  type Id = string
  type User = string
  type Device = string
  type Path = string
  type Digest = string

  datatype Kind = Full | Delta

  datatype Status = Running | Complete | Failed

  datatype EntryType = File | Dir | Symlink

  datatype Entry = Entry(kind: EntryType, size: int, mode: int, mtime: int, digest: string, linkTarget: string,
                         chunks: seq<Digest>)

  datatype Item = Item(path: string, entry: Entry)

  datatype Snap = Snap(user: User, device: Device, kind: Kind, status: Status, parent: Option<Id>,
                       startedAt: int, updatedAt: int, pinned: bool,
                       entries: map<Path, Entry>, deletions: set<Path>, refs: set<Digest>)

  datatype Policy = Policy(retentionDays: int, keepDaily: int, keepWeekly: int, keepMonthly: int)

  datatype ChunkRow = ChunkRow(storedBytes: nat, plainBytes: int, encrypted: bool)

  type Snaps = map<Id, Snap>

  datatype Repo = Repo(users: map<User, Policy>, devices: map<Device, User>, snaps: Snaps,
                       chunks: map<Digest, ChunkRow>, accountChunks: set<(User, Digest)>, blobs: map<Digest, Bytes>)

  const EMPTY := Repo(map[], map[], map[], map[], {}, map[])

  datatype Error = NotFound | Conflict | InvalidPath | NoParent | ChainTooLong | Constraint | MarkedFailed | BadDigest | Rejected
                 | StoreFailed

  /** The repository after an operation and what the operation answered. */
  datatype Done<T> = Done(repo: Repo, out: T)

  // ----- delta chains -----

  const MAX_CHAIN: nat := 64

  /** The snapshots from the full one at the base of the chain up to `id`, within `links` rows. */
  function Walk(snaps: Snaps, id: Id, links: nat): (r: Result<seq<Id>, Error>)
    ensures r.Ok? ==> 0 < |r.value| <= links && r.value[|r.value| - 1] == id
    ensures r.Ok? ==> forall x :: x in r.value ==> x in snaps
    decreases links
  {
    if links == 0 then Err(ChainTooLong)
    else if id !in snaps then Err(NotFound)
    else if snaps[id].kind == Full then Ok([id])
    else if snaps[id].parent.None? || snaps[id].parent.value == "" then Err(NoParent)
    else
      match Walk(snaps, snaps[id].parent.value, links - 1)
      case Err(e) => Err(e)
      case Ok(ids) => Ok(ids + [id])
  }

  function SnapshotChain(snaps: Snaps, id: Id): Result<seq<Id>, Error> {
    if id == "" then Ok([]) else Walk(snaps, id, MAX_CHAIN + 1)
  }

  /** `x` is `id` or builds on it. */
  predicate DependsOn(snaps: Snaps, x: Id, id: Id) {
    Walk(snaps, x, MAX_CHAIN + 1).Ok? && id in Walk(snaps, x, MAX_CHAIN + 1).value
  }

  // ----- snapshots -----

  predicate DeltaParentOK(r: Repo, user: User, device: Device, parent: Id) {
    && parent != "" && parent in r.snaps
    && var p := r.snaps[parent];
       p.user == user && p.device == device && p.status == Complete
  }

  /** The kind and parent a new snapshot gets: a delta only on a complete snapshot of the same
      account and device whose chain has room, and a full snapshot otherwise. */
  function StartAs(r: Repo, user: User, device: Device, kind: Kind, parent: Id): (Kind, Option<Id>) {
    var chain := SnapshotChain(r.snaps, parent);
    if kind == Delta && DeltaParentOK(r, user, device, parent) && chain.Ok? && 0 < |chain.value| < MAX_CHAIN
    then (Delta, Some(parent)) else (Full, None)
  }

  function StartSnapshot(r: Repo, id: Id, user: User, device: Device, kind: Kind, parent: Id, startedAt: int, now: int)
    : Done<Result<Id, Error>>
  {
    var (k, p) := StartAs(r, user, device, kind, parent);
    if id == "" || id in r.snaps || user !in r.users || device !in r.devices then Done(r, Err(Constraint))
    else
      var snap := Snap(user, device, k, Running, p, startedAt, now, false, map[], {}, {});
      Done(r.(snaps := r.snaps[id := snap]), Ok(id))
  }

  /** The rows a batch of entries upserts; the last entry for a path stays. */
  function ItemTable(items: seq<Item>): (t: Option<map<Path, Entry>>)
    ensures t.Some? ==> "" !in t.value
    ensures t.Some? ==> forall p :: p in t.value ==> exists i :: i in items && i.entry == t.value[p]
  {
    if items == [] then Some(map[]) else
      var last := items[|items| - 1];
      match ItemTable(items[..|items| - 1])
      case None => None
      case Some(t) =>
        match CleanPath(last.path)
        case None => None
        case Some(p) => Some(t[p := last.entry])
  }

  function PathSet(paths: seq<string>): Option<set<Path>> {
    if paths == [] then Some({}) else
      match PathSet(paths[..|paths| - 1])
      case None => None
      case Some(t) =>
        match CleanPath(paths[|paths| - 1])
        case None => None
        case Some(p) => Some(t + {p})
  }

  function ItemRefs(items: seq<Item>): set<Digest> {
    set i, d | i in items && d in i.entry.chunks :: d
  }

  /** One transaction: an invalid path anywhere in the batch leaves everything as it was. */
  function AddEntries(r: Repo, id: Id, items: seq<Item>, deleted: seq<string>, now: int): Done<Result<(), Error>> {
    if items == [] && deleted == [] then Done(r, Ok(()))
    else if id !in r.snaps then Done(r, Err(NotFound))
    else if r.snaps[id].status != Running then Done(r, Err(Conflict))
    else if ItemTable(items).None? || PathSet(deleted).None? then Done(r, Err(InvalidPath))
    else
      var s := r.snaps[id];
      var s' := s.(entries := s.entries + ItemTable(items).value,
                   deletions := s.deletions + PathSet(deleted).value,
                   refs := s.refs + ItemRefs(items),
                   updatedAt := now);
      Done(r.(snaps := r.snaps[id := s']), Ok(()))
  }

  /** The referenced digests of a snapshot that have no chunk row. */
  function MissingSnapshotChunks(r: Repo, id: Id): set<Digest> {
    if id in r.snaps then r.snaps[id].refs - r.chunks.Keys else {}
  }

  /** A snapshot becomes complete only when every chunk it references is stored and the agent
      reports no error. */
  function CompleteSnapshot(r: Repo, id: Id, agentError: bool): Done<Result<(), Error>> {
    if id !in r.snaps || r.snaps[id].status != Running then Done(r, Err(NotFound))
    else
      var ok := MissingSnapshotChunks(r, id) == {} && !agentError;
      Done(r.(snaps := r.snaps[id := r.snaps[id].(status := if ok then Complete else Failed)]),
           if ok then Ok(()) else Err(MarkedFailed))
  }

  predicate Stale(s: Snap, cutoff: int) {
    s.status == Running && s.startedAt < cutoff && s.updatedAt < cutoff
  }

  function FailStaleSnapshots(r: Repo, cutoff: int): Done<nat> {
    var stale := set id | id in r.snaps && Stale(r.snaps[id], cutoff);
    Done(r.(snaps := map id | id in r.snaps :: if id in stale then r.snaps[id].(status := Failed) else r.snaps[id]),
         |stale|)
  }

  function SetPinned(r: Repo, user: User, id: Id, pinned: bool): Done<Result<(), Error>> {
    if id !in r.snaps || r.snaps[id].user != user then Done(r, Err(NotFound))
    else Done(r.(snaps := r.snaps[id := r.snaps[id].(pinned := pinned)]), Ok(()))
  }

  /** A snapshot goes together with every snapshot that builds on it. */
  function Victims(r: Repo, id: Id): set<Id> {
    set x | x in r.snaps && DependsOn(r.snaps, x, id)
  }

  function DeleteSnapshotCascade(r: Repo, id: Id): Done<nat> {
    Done(r.(snaps := r.snaps - Victims(r, id)), |Victims(r, id)|)
  }

  function DeleteSnapshot(r: Repo, user: User, id: Id): Done<Result<nat, Error>> {
    if id !in r.snaps || r.snaps[id].user != user then Done(r, Err(NotFound))
    else Done(DeleteSnapshotCascade(r, id).repo, Ok(|Victims(r, id)|))
  }

  // ----- accounts and devices -----

  function SetPolicy(r: Repo, user: User, policy: Policy): Repo {
    r.(users := r.users[user := policy])
  }

  function Enrol(r: Repo, device: Device, user: User): Repo {
    if user in r.users && device !in r.devices then r.(devices := r.devices[device := user]) else r
  }

  function DeleteDevice(r: Repo, user: User, device: Device): Done<Result<(), Error>> {
    if device in r.devices && r.devices[device] == user then
      Done(r.(devices := r.devices - {device},
              snaps := map id | id in r.snaps && r.snaps[id].device != device :: r.snaps[id]), Ok(()))
    else Done(r, Err(NotFound))
  }

  // ----- chunks and blobs -----

  /** A digest as the program writes them: 64 lower-case hexadecimal digits. */
  predicate HexDigest(d: Digest) {
    |d| == 64 && forall i :: 0 <= i < |d| ==> '0' <= d[i] <= '9' || 'a' <= d[i] <= 'f'
  }

  function RegisterChunk(r: Repo, user: User, digest: Digest, row: ChunkRow): Repo {
    r.(chunks := if digest in r.chunks then r.chunks else r.chunks[digest := row],
       accountChunks := r.accountChunks + {(user, digest)})
  }

  /** An upload: a blob that is already there is only registered; a new one is stored before its
      row is written. `accepted` is the verdict of the quota and content checks; `registers` says
      whether the row can be written. When it cannot, a new blob stays behind without one. */
  function PutChunk(r: Repo, user: User, digest: Digest, blob: Bytes, plainLen: int, encrypted: bool,
                    accepted: bool, registers: bool)
    : Done<Result<(), Error>>
  {
    if !HexDigest(digest) then Done(r, Err(BadDigest))
    else if digest !in r.blobs && (blob == [] || !accepted) then Done(r, Err(Rejected))
    else
      var held := if digest in r.blobs then r else r.(blobs := r.blobs[digest := blob]);
      var stored := |held.blobs[digest]|;
      var row := ChunkRow(stored, if plainLen <= 0 then stored else plainLen, digest !in r.blobs && encrypted);
      if registers then Done(RegisterChunk(held, user, digest, row), Ok(())) else Done(held, Err(StoreFailed))
  }

  predicate Referenced(r: Repo, digest: Digest) {
    exists id :: id in r.snaps && digest in r.snaps[id].refs
  }

  function Unreferenced(r: Repo): set<Digest> {
    set d | d in r.chunks && !Referenced(r, d)
  }

  /** Garbage collection of some of the unreferenced chunks: blob, row and account rows go. */
  function Collect(r: Repo, victims: set<Digest>): Repo {
    r.(blobs := r.blobs - victims, chunks := r.chunks - victims,
       accountChunks := set uc | uc in r.accountChunks && uc.1 !in victims)
  }

  /** The integrity check may delete a blob that no row knows. */
  function DropOrphan(r: Repo, digest: Digest): Repo {
    if digest in r.chunks then r else r.(blobs := r.blobs - {digest})
  }

  // ----- runs -----

  datatype Step =
    | Policies(user: User, policy: Policy)
    | Enrols(device: Device, user: User)
    | Starts(id: Id, user: User, kind: Kind, device: Device, parent: Id, startedAt: int, now: int)
    | Adds(id: Id, items: seq<Item>, deleted: seq<string>, now: int)
    | Completes(id: Id, agentError: bool)
    | FailsStale(cutoff: int)
    | Pins(user: User, id: Id, pinned: bool)
    | Deletes(user: User, id: Id)
    | Cascades(id: Id)
    | DeletesDevice(user: User, device: Device)
    | Puts(user: User, digest: Digest, blob: Bytes, plainLen: int, encrypted: bool, accepted: bool, registers: bool)
    | Collects(victims: set<Digest>)
    | DropsOrphan(digest: Digest)

  /** What the query guarantees: collection takes only chunks that no snapshot references. */
  predicate Enabled(r: Repo, step: Step) {
    match step
    case Collects(victims) => victims <= Unreferenced(r)
    case _ => true
  }

  function Apply(r: Repo, step: Step): Repo {
    match step
    case Policies(user, policy) => SetPolicy(r, user, policy)
    case Enrols(device, user) => Enrol(r, device, user)
    case Starts(id, user, kind, device, parent, startedAt, now) =>
      StartSnapshot(r, id, user, device, kind, parent, startedAt, now).repo
    case Adds(id, items, deleted, now) => AddEntries(r, id, items, deleted, now).repo
    case Completes(id, agentError) => CompleteSnapshot(r, id, agentError).repo
    case FailsStale(cutoff) => FailStaleSnapshots(r, cutoff).repo
    case Pins(user, id, pinned) => SetPinned(r, user, id, pinned).repo
    case Deletes(user, id) => DeleteSnapshot(r, user, id).repo
    case Cascades(id) => DeleteSnapshotCascade(r, id).repo
    case DeletesDevice(user, device) => DeleteDevice(r, user, device).repo
    case Puts(user, digest, blob, plainLen, encrypted, accepted, registers) =>
      PutChunk(r, user, digest, blob, plainLen, encrypted, accepted, registers).repo
    case Collects(victims) => Collect(r, victims)
    case DropsOrphan(digest) => DropOrphan(r, digest)
  }

  /** A run is the sequence of its states, each reached from the one before by an enabled step. */
  ghost predicate IsRun(states: seq<Repo>, steps: seq<Step>) {
    && |states| == |steps| + 1
    && forall i :: 0 <= i < |steps| ==> Enabled(states[i], steps[i]) && states[i + 1] == Apply(states[i], steps[i])
  }
}
