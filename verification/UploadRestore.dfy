/** Uploading a file chunk by chunk and restoring it from the chunks on the server. */
module UploadRestore {
  import opened Wrappers
  import opened Bytes
  import opened Sequences
  import opened Chunking
  import opened Codec
  import opened Chunker
  import FlushBatch

  const MAX_BATCH_CHUNKS: nat := 32
  const MAX_BATCH_BYTES: nat := 0x80_0000 // 8 MiB
  const MAX_FETCH: nat := 0x400_0000 // 64 MiB

  type Blobs = map<Digest, Bytes>

  datatype Entry = Entry(digest: Digest, data: Bytes)

  /** A batch that the server was asked about, and how it was sent if the server answered. */
  datatype Attempt = Attempt(chunks: seq<Entry>, flush: Option<FlushBatch.Config>)

  /** What there is to see of the server at one moment. */
  datatype View = View(blobs: Blobs, told: set<Digest>, attempts: seq<Attempt>)

  /** What the server keeps: one blob for each digest. `told` are the digests it said it has; `trouble`
      says that something went wrong by itself while it was talked to: a request failed, a chunk could not
      be encoded, or the caller's context ended; `attempts` are the batches so far. */
  class Server {
    var blobs: Blobs
    ghost var told: set<Digest>
    ghost var trouble: bool
    ghost var attempts: seq<Attempt>

    constructor (b: Blobs)
      ensures blobs == b && told == {} && !trouble && attempts == []
    {
      blobs := b;
      told, trouble, attempts := {}, false, [];
    }

    ghost function Now(): View
      reads this
    {
      View(blobs, told, attempts)
    }

    /** Which of these do you not have? Nothing is known of the answer, and there may be none. */
    method MissingChunks(asked: set<Digest>) returns (needed: Option<set<Digest>>)
      modifies this`told, this`trouble
      ensures needed.Some? ==> told == old(told) + (asked - needed.value) && trouble == old(trouble)
      ensures needed.None? ==> told == old(told) && trouble
    {
      needed := *;
      if needed.Some? {
        told := told + (asked - needed.value);
      } else {
        trouble := true;
      }
    }
  }

  // ----- what an upload may do to the server -----

  /** The blob is the chunk of that digest, encoded with the key. */
  predicate MadeFrom(p: Primitives, key: Option<Bytes>, pieces: seq<Bytes>, d: Digest, blob: Bytes) {
    exists i :: 0 <= i < |pieces| && p.sum(pieces[i]) == d && Layout(p, key, pieces[i], d) == Ok(blob)
  }

  /** Nothing that was there changed, and what is new was made from the pieces. */
  ghost predicate Grew(p: Primitives, key: Option<Bytes>, pieces: seq<Bytes>, was: Blobs, now: Blobs) {
    && (forall d :: d in was ==> d in now && now[d] == was[d])
    && (forall d :: d in now && d !in was ==> MadeFrom(p, key, pieces, d, now[d]))
  }

  /** Growth from a slice of the pieces is growth from all of them. */
  lemma GrewMore(p: Primitives, key: Option<Bytes>, pieces: seq<Bytes>, from: nat, part: seq<Bytes>,
                 was: Blobs, mid: Blobs, now: Blobs)
    requires Grew(p, key, pieces, was, mid) && Grew(p, key, part, mid, now)
    requires from + |part| <= |pieces| && part == pieces[from..from + |part|]
    ensures Grew(p, key, pieces, was, now)
  {
    forall d | d in now && d !in was ensures MadeFrom(p, key, pieces, d, now[d]) {
      if d !in mid {
        var i :| 0 <= i < |part| && p.sum(part[i]) == d && Layout(p, key, part[i], d) == Ok(now[d]);
        assert part[i] == pieces[from + i];
      }
    }
  }

  // ----- batches -----

  /** Chunks that wait for the server to be asked about them. */
  class Batch {
    var chunks: seq<Entry>
    var bytes: nat

    constructor ()
      ensures chunks == [] && bytes == 0
    {
      chunks, bytes := [], 0;
    }

    method Add(digest: Digest, data: Bytes)
      modifies this
      ensures chunks == old(chunks) + [Entry(digest, data)] && bytes == old(bytes) + |data|
    {
      chunks := chunks + [Entry(digest, data)];
      bytes := bytes + |data|;
    }

    predicate Full()
      reads this
    {
      |chunks| >= MAX_BATCH_CHUNKS || bytes >= MAX_BATCH_BYTES
    }

    /** The bytes of the chunks are counted. */
    ghost predicate Valid()
      reads this
    {
      bytes == Weight(chunks)
    }

    method Reset()
      modifies this
      ensures chunks == [] && bytes == 0
    {
      chunks, bytes := [], 0;
    }
  }

  function Weight(chunks: seq<Entry>): nat {
    if chunks == [] then 0 else Weight(chunks[..|chunks| - 1]) + |chunks[|chunks| - 1].data|
  }

  /** 32 chunks, or 8 MiB. */
  predicate IsFull(chunks: seq<Entry>) {
    |chunks| >= 32 || Weight(chunks) >= 8 * 1024 * 1024
  }

  /** A batch is sent no later than when it is full. */
  predicate InTime(chunks: seq<Entry>) {
    chunks != [] && !IsFull(chunks[..|chunks| - 1])
  }

  function Parts(attempts: seq<Attempt>): seq<seq<Entry>> {
    seq(|attempts|, i requires 0 <= i < |attempts| => attempts[i].chunks)
  }

  /** It was sent as it is, with the limit on requests and the throttle that were asked for. */
  predicate AsAsked(a: Attempt, limit: nat, throttled: bool) {
    a.flush.Some? ==>
      a.flush.value.batch == Items(a.chunks) && a.flush.value.concurrency == limit && a.flush.value.throttled == throttled
  }

  /** The entries in their order, in batches of which only the last may be sent before it is full. */
  ghost predicate InBatches(attempts: seq<Attempt>, entries: seq<Entry>, limit: nat, throttled: bool) {
    && Concat(Parts(attempts)) == entries
    && (forall i :: 0 <= i < |attempts| ==> InTime(attempts[i].chunks) && AsAsked(attempts[i], limit, throttled))
    && forall i :: 0 <= i < |attempts| - 1 ==> IsFull(attempts[i].chunks)
  }

  predicate LastFull(attempts: seq<Attempt>) {
    attempts != [] ==> IsFull(attempts[|attempts| - 1].chunks)
  }

  lemma OneMoreBatch(attempts: seq<Attempt>, entries: seq<Entry>, limit: nat, throttled: bool, last: Attempt)
    requires InBatches(attempts, entries, limit, throttled) && LastFull(attempts)
    requires InTime(last.chunks) && AsAsked(last, limit, throttled)
    ensures InBatches(attempts + [last], entries + last.chunks, limit, throttled)
  {
    hide IsFull, InTime, AsAsked;
    assert Parts(attempts + [last]) == Parts(attempts) + [last.chunks];
    ConcatSnoc(Parts(attempts), last.chunks);
  }

  function Entries(p: Primitives, pieces: seq<Bytes>): seq<Entry> {
    seq(|pieces|, i requires 0 <= i < |pieces| => Entry(p.sum(pieces[i]), pieces[i]))
  }

  /** The data of the first chunk with that digest. */
  function DataOf(chunks: seq<Entry>, d: Digest): (data: Option<Bytes>)
    ensures data.None? <==> forall i :: 0 <= i < |chunks| ==> chunks[i].digest != d
    ensures data.Some? ==> Entry(d, data.value) in chunks
  {
    if chunks == [] then None
    else if chunks[0].digest == d then Some(chunks[0].data)
    else DataOf(chunks[1..], d)
  }

  function BlobOf(p: Primitives, key: Option<Bytes>, chunks: seq<Entry>, d: Digest): Bytes {
    match DataOf(chunks, d)
    case None => []
    case Some(data) =>
      match Layout(p, key, data, d)
      case Err(_) => []
      case Ok(blob) => blob
  }

  lemma BlobOfIsMade(p: Primitives, key: Option<Bytes>, pieces: seq<Bytes>, d: Digest)
    requires Lawful(p) && exists i :: 0 <= i < |pieces| && p.sum(pieces[i]) == d
    ensures MadeFrom(p, key, pieces, d, BlobOf(p, key, Entries(p, pieces), d))
  {
    var i :| 0 <= i < |pieces| && p.sum(pieces[i]) == d;
    var chunks := Entries(p, pieces);
    assert chunks[i].digest == d;
    var data := DataOf(chunks, d).value;
    var j :| 0 <= j < |chunks| && chunks[j] == Entry(d, data);
    assert pieces[j] == data && p.sum(data) == d;
    assert Layout(p, key, data, d).Ok?;
  }

  function Asked(chunks: seq<Entry>): set<Digest> {
    set i | 0 <= i < |chunks| :: chunks[i].digest
  }

  function Items(chunks: seq<Entry>): seq<FlushBatch.Item> {
    seq(|chunks|, i requires 0 <= i < |chunks| => FlushBatch.Item(chunks[i].digest, |chunks[i].data|))
  }

  function Received(p: Primitives, key: Option<Bytes>, chunks: seq<Entry>, was: Blobs, at: set<Digest>): Blobs {
    was + map d | d in at && d !in was :: BlobOf(p, key, chunks, d)
  }

  lemma ToSendIsAsked(cfg: FlushBatch.Config, chunks: seq<Entry>)
    requires cfg.batch == Items(chunks)
    ensures FlushBatch.ToSend(cfg) == cfg.needed * Asked(chunks)
  {
    forall d | d in Asked(chunks) ensures d in FlushBatch.DigestsUpTo(cfg, |cfg.batch|) {
      var i :| 0 <= i < |chunks| && chunks[i].digest == d;
      assert cfg.batch[i].digest == d;
    }
  }

  lemma ReceivedGrew(p: Primitives, key: Option<Bytes>, pieces: seq<Bytes>, was: Blobs, at: set<Digest>)
    requires Lawful(p) && at <= was.Keys + Asked(Entries(p, pieces))
    ensures Grew(p, key, pieces, was, Received(p, key, Entries(p, pieces), was, at))
  {
    hide Lawful, Layout, BlobOf;
    var now := Received(p, key, Entries(p, pieces), was, at);
    forall d | d in now && d !in was ensures MadeFrom(p, key, pieces, d, now[d]) {
      var i :| 0 <= i < |pieces| && Entries(p, pieces)[i].digest == d;
      assert p.sum(pieces[i]) == d;
      BlobOfIsMade(p, key, pieces, d);
    }
  }

  /** With everything needed received, each piece is there or the server said it has it. */
  lemma ReceivedAll(p: Primitives, key: Option<Bytes>, pieces: seq<Bytes>, was: Blobs, at: set<Digest>, needed: set<Digest>,
                    told: set<Digest>)
    requires needed * Asked(Entries(p, pieces)) <= at && Asked(Entries(p, pieces)) - needed <= told
    ensures OnServer(p, pieces, |pieces|, Received(p, key, Entries(p, pieces), was, at).Keys + told)
  {
    var now := Received(p, key, Entries(p, pieces), was, at);
    forall i | 0 <= i < |pieces| ensures p.sum(pieces[i]) in now.Keys + told {
      assert Entries(p, pieces)[i].digest == p.sum(pieces[i]);
      assert p.sum(pieces[i]) in Asked(Entries(p, pieces));
    }
  }

  lemma NothingGrew(p: Primitives, key: Option<Bytes>, pieces: seq<Bytes>, was: Blobs)
    ensures Grew(p, key, pieces, was, was)
  {}

  /** What the server keeps after a run of the worker pool over the batch. */
  ghost predicate SentBy(p: Primitives, key: Option<Bytes>, chunks: seq<Entry>, cfg: FlushBatch.Config,
                         actions: seq<FlushBatch.Action>, was: Blobs, now: Blobs, ok: bool) {
    && var end := FlushBatch.Run(cfg, was.Keys, actions);
       end.Some? && end.value.phase.Returned? && (ok <==> end.value.phase.result.None?)
       && now == Received(p, key, chunks, was, end.value.server)
  }

  /** The last attempt is with this batch: if the server did not answer, nothing was sent, and otherwise
      the worker pool sent the batch, with this limit and throttle. */
  ghost predicate Attempted(p: Primitives, key: Option<Bytes>, chunks: seq<Entry>, limit: nat, throttled: bool,
                            was: View, now: View, ok: bool) {
    && |now.attempts| == |was.attempts| + 1 && now.attempts[..|was.attempts|] == was.attempts
    && var last := now.attempts[|was.attempts|];
       && last.chunks == chunks && AsAsked(last, limit, throttled)
       && match last.flush
          case None => !ok && now.blobs == was.blobs && now.told == was.told
          case Some(cfg) =>
            && now.told == was.told + (Asked(chunks) - cfg.needed)
            && exists actions :: SentBy(p, key, chunks, cfg, actions, was.blobs, now.blobs, ok)
  }

  /** Sends what the server says it lacks of a batch, through the worker pool. It fails only when something
      goes wrong by itself. */
  method SendBatch(p: Primitives, key: Option<Bytes>, batch: Batch, server: Server, concurrency: nat, throttled: bool,
                   ghost pieces: seq<Bytes>)
    returns (ok: bool)
    requires Lawful(p) && batch.chunks == Entries(p, pieces)
    modifies server
    ensures Grew(p, key, pieces, old(server.blobs), server.blobs) && old(server.told) <= server.told
    ensures if ok then OnServer(p, pieces, |pieces|, server.blobs.Keys + server.told) else server.trouble
    ensures Attempted(p, key, batch.chunks, concurrency, throttled, old(server.Now()), server.Now(), ok)
  {
    hide Lawful, Grew, Asked, Items, Received, BlobOf, OnServer, FlushBatch.ToSend, FlushBatch.Run;
    var was, chunks := server.blobs, batch.chunks;
    var answer := server.MissingChunks(Asked(chunks));
    if answer.None? {
      NothingGrew(p, key, pieces, was);
      server.attempts := server.attempts + [Attempt(chunks, None)];
      return false;
    }
    var needed := answer.value;
    var cfg := FlushBatch.Config(Items(chunks), needed, concurrency, throttled, d => |BlobOf(p, key, chunks, d)|);
    var result, s, run := FlushBatch.Flush(cfg, was.Keys);
    server.blobs := Received(p, key, chunks, was, s.server);
    server.trouble := server.trouble || exists k :: 0 <= k < |run| && FlushBatch.Trouble(run[k]);
    server.attempts := server.attempts + [Attempt(chunks, Some(cfg))];
    ToSendIsAsked(cfg, chunks);
    ReceivedGrew(p, key, pieces, was, s.server);
    ok := result.None?;
    assert SentBy(p, key, chunks, cfg, run, was, server.blobs, ok);
    if ok {
      ReceivedAll(p, key, pieces, was, s.server, needed, server.told);
    }
  }

  // ----- uploading a file -----

  datatype UploadError = BadConfig | Cancelled | ReadFailed | SendFailed

  datatype FileResult = FileResult(chunks: seq<Digest>, digest: Digest, size: nat)

  function Digests(p: Primitives, pieces: seq<Bytes>): seq<Digest> {
    seq(|pieces|, i requires 0 <= i < |pieces| => p.sum(pieces[i]))
  }

  /** The digests of the first `n` pieces are there. */
  predicate OnServer(p: Primitives, pieces: seq<Bytes>, n: nat, there: set<Digest>)
    requires n <= |pieces|
  {
    forall i :: 0 <= i < n ==> p.sum(pieces[i]) in there
  }

  /** One more chunk is cut: `b` is what the chunker had still to hand out. */
  lemma NextPiece(t: Cutter, pieces: seq<Bytes>, n: nat, b: Bytes, k: nat)
    requires t.Valid() && b != [] && k == Cut(t, b) && k <= |b|
    requires n <= |pieces| && Pieces(t, b) == pieces[n..]
    ensures n < |pieces| && pieces[n] == b[..k] && Pieces(t, b[k..]) == pieces[n + 1..]
  {
    hide Cut;
    assert pieces[n..] == [b[..k]] + Pieces(t, b[k..]);
    assert pieces[n..][0] == b[..k] && pieces[n..][1..] == pieces[n + 1..];
  }

  lemma OneMoreWaits(p: Primitives, pieces: seq<Bytes>, sent: nat, n: nat)
    requires sent <= n < |pieces|
    ensures Entries(p, pieces[sent..n + 1]) == Entries(p, pieces[sent..n]) + [Entry(p.sum(pieces[n]), pieces[n])]
    ensures Digests(p, pieces[..n + 1]) == Digests(p, pieces[..n]) + [p.sum(pieces[n])]
    ensures Total(pieces[..n + 1]) == Total(pieces[..n]) + |pieces[n]|
  {
    assert pieces[..n + 1] == pieces[..n] + [pieces[n]];
    PlacedSnoc(pieces[..n], pieces[n], 0);
  }

  lemma BatchArrived(plan: Plan, sent: nat, n: nat, was: View, mid: View, now: View)
    requires sent < n <= |plan.pieces| && Arrived(plan, sent, was, mid)
    requires Grew(plan.p, plan.key, plan.pieces[sent..n], mid.blobs, now.blobs) && mid.told <= now.told
    requires OnServer(plan.p, plan.pieces[sent..n], n - sent, now.blobs.Keys + now.told)
    requires Asking(plan, n, was, now)
    ensures Arrived(plan, n, was, now)
  {
    hide MadeFrom, InBatches;
    var pieces, p := plan.pieces, plan.p;
    GrewMore(p, plan.key, pieces, sent, pieces[sent..n], was.blobs, mid.blobs, now.blobs);
    forall i | 0 <= i < n ensures p.sum(pieces[i]) in now.blobs.Keys + now.told {
      assert i >= sent ==> pieces[i] == pieces[sent..n][i - sent];
    }
  }

  lemma BatchAsked(plan: Plan, sent: nat, n: nat, was: View, mid: View, now: View, ok: bool)
    requires sent < n <= |plan.pieces| && Asking(plan, sent, was, mid) && LastFull(Since(was, mid))
    requires var chunks := Entries(plan.p, plan.pieces[sent..n]);
             InTime(chunks) && Attempted(plan.p, plan.key, chunks, plan.limit, plan.throttled, mid, now, ok)
    ensures Asking(plan, n, was, now)
    ensures IsFull(Entries(plan.p, plan.pieces[sent..n])) ==> LastFull(Since(was, now))
  {
    hide InBatches, InTime, AsAsked, IsFull, Asked;
    var last := now.attempts[|mid.attempts|];
    assert Since(was, now) == Since(was, mid) + [last];
    OneMoreBatch(Since(was, mid), Entries(plan.p, plan.pieces[..sent]), plan.limit, plan.throttled, last);
    EntriesSplit(plan.p, plan.pieces, sent, n);
  }

  lemma EntriesSplit(p: Primitives, pieces: seq<Bytes>, sent: nat, n: nat)
    requires sent <= n <= |pieces|
    ensures Entries(p, pieces[..n]) == Entries(p, pieces[..sent]) + Entries(p, pieces[sent..n])
  {}

  lemma UploadStarts(plan: Plan, was: View)
    ensures Grew(plan.p, plan.key, plan.pieces, was.blobs, was.blobs) && Underway(plan, 0, 0, [], 0, [], was, was)
    ensures LastFull(Since(was, was)) && plan.pieces == plan.pieces[0..]
  {
    assert Since(was, was) == [] && Parts([]) == [];
    assert Concat<Entry>([]) == Entries(plan.p, plan.pieces[..0]);
  }

  lemma UploadEnds(t: Cutter, content: Bytes, n: nat)
    requires t.Valid() && n <= |Pieces(t, content)| && Pieces(t, []) == Pieces(t, content)[n..]
    ensures n == |Pieces(t, content)| && Pieces(t, content)[..n] == Pieces(t, content) && Total(Pieces(t, content)) == |content|
  {
    hide Cut;
    PiecesConcat(t, content);
    TotalIsLength(Pieces(t, content));
  }

  /** The chunks of a file. */
  function FilePieces(config: Config, gear: seq<nat>, content: Bytes): seq<Bytes>
    requires |gear| == 256
  {
    match Normalize(config)
    case Err(_) => []
    case Ok(c) =>
      assert Normalize(c) == Ok(c);
      Pieces(MakeCutter(c, gear), content)
  }

  lemma PiecesOfFile(config: Config, gear: seq<nat>, content: Bytes)
    requires |gear| == 256
    ensures Normalize(config).Ok? ==>
              var c := Normalize(config).value;
              Normalize(c) == Ok(c) && FilePieces(config, gear, content) == Pieces(MakeCutter(c, gear), content)
  {
    hide Pieces;
  }

  lemma NothingWaits(p: Primitives, pieces: seq<Bytes>, n: nat)
    requires n <= |pieces|
    ensures Entries(p, pieces[n..n]) == []
  {}

  lemma EntriesLength(p: Primitives, pieces: seq<Bytes>)
    ensures |Entries(p, pieces)| == |pieces|
  {}

  /** The pieces to send, and how. */
  datatype Plan = Plan(p: Primitives, key: Option<Bytes>, pieces: seq<Bytes>, limit: nat, throttled: bool)

  function Since(was: View, now: View): seq<Attempt> {
    if |was.attempts| <= |now.attempts| then now.attempts[|was.attempts|..] else []
  }

  /** The server was asked about the first `n` pieces, batch by batch. */
  ghost predicate Asking(plan: Plan, n: nat, was: View, now: View)
    requires n <= |plan.pieces|
  {
    && was.attempts <= now.attempts
    && InBatches(Since(was, now), Entries(plan.p, plan.pieces[..n]), plan.limit, plan.throttled)
  }

  /** And they are all there. */
  ghost predicate Arrived(plan: Plan, n: nat, was: View, now: View)
    requires n <= |plan.pieces|
  {
    && Grew(plan.p, plan.key, plan.pieces, was.blobs, now.blobs) && Asking(plan, n, was, now)
    && OnServer(plan.p, plan.pieces, n, now.blobs.Keys + now.told)
  }

  /** The upload did not get everything there: the server was asked about the beginning of the file only. */
  ghost predicate Halfway(plan: Plan, was: View, now: View) {
    && Grew(plan.p, plan.key, plan.pieces, was.blobs, now.blobs)
    && exists n :: 0 <= n <= |plan.pieces| && Asking(plan, n, was, now)
  }

  /** How far an upload is: `n` pieces are read, of which the first `sent` were sent and the others wait. */
  ghost predicate Underway(plan: Plan, n: nat, sent: nat, chunks: seq<Digest>, size: nat, waiting: seq<Entry>,
                           was: View, now: View)
  {
    && sent <= n <= |plan.pieces| && |chunks| == n
    && chunks == Digests(plan.p, plan.pieces[..n]) && size == Total(plan.pieces[..n])
    && waiting == Entries(plan.p, plan.pieces[sent..n])
    && Arrived(plan, sent, was, now)
  }

  lemma OneMoreUnderway(plan: Plan, n: nat, sent: nat, chunks: seq<Digest>, size: nat, waiting: seq<Entry>,
                        was: View, now: View)
    requires n < |plan.pieces| && Underway(plan, n, sent, chunks, size, waiting, was, now)
    ensures var piece := plan.pieces[n]; var digest := plan.p.sum(piece);
            Underway(plan, n + 1, sent, chunks + [digest], size + |piece|, waiting + [Entry(digest, piece)], was, now)
  {
    hide Digests, Entries, Total, Arrived;
    OneMoreWaits(plan.p, plan.pieces, sent, n);
  }

  lemma UnderwayMeans(plan: Plan, n: nat, sent: nat, chunks: seq<Digest>, size: nat, waiting: seq<Entry>, was: View, now: View)
    requires Underway(plan, n, sent, chunks, size, waiting, was, now)
    ensures sent <= n <= |plan.pieces| && |chunks| == n
    ensures chunks == Digests(plan.p, plan.pieces[..n]) && size == Total(plan.pieces[..n])
    ensures Arrived(plan, sent, was, now) && Halfway(plan, was, now)
  {
    hide Asking, Grew, OnServer, Digests, Entries, Total;
  }

  /** Sends the batch, unless it is empty, and empties it. */
  method SendWaiting(batch: Batch, server: Server, ghost pieces: seq<Bytes>, p: Primitives, key: Option<Bytes>,
                     concurrency: nat, throttled: bool, ghost n: nat, ghost sent: nat, ghost chunks: seq<Digest>,
                     ghost size: nat, ghost was: View)
    returns (ok: bool)
    requires Lawful(p) && LastFull(Since(was, server.Now())) && (batch.chunks == [] || InTime(batch.chunks))
    requires Underway(Plan(p, key, pieces, concurrency, throttled), n, sent, chunks, size, batch.chunks, was, server.Now())
    modifies server, batch
    ensures var plan := Plan(p, key, pieces, concurrency, throttled);
            if ok then Underway(plan, n, n, chunks, size, batch.chunks, was, server.Now())
                       && batch.chunks == [] && (old(batch.Valid()) ==> batch.Valid())
                       && (IsFull(old(batch.chunks)) ==> LastFull(Since(was, server.Now())))
            else server.trouble && Halfway(plan, was, server.Now())
  {
    hide Lawful, Layout, Grew, Entries, OnServer, Digests, Total, Asking, Attempted, LastFull, IsFull, InTime;
    ghost var plan := Plan(p, key, pieces, concurrency, throttled);
    NothingWaits(p, pieces, n);
    EntriesLength(p, pieces[sent..n]);
    if batch.chunks == [] {
      NothingFull();
      return true;
    }
    ghost var mid := server.Now();
    ok := SendBatch(p, key, batch, server, concurrency, throttled, pieces[sent..n]);
    BatchAsked(plan, sent, n, was, mid, server.Now(), ok);
    if ok {
      BatchArrived(plan, sent, n, was, mid, server.Now());
      batch.Reset();
    } else {
      GrewMore(p, key, pieces, sent, pieces[sent..n], was.blobs, mid.blobs, server.blobs);
    }
  }

  lemma NothingFull()
    ensures !IsFull([])
  {}

  /** The chunker has handed out the first `n` pieces of the content, and has the others ahead of it. */
  ghost predicate Ahead(c: Chunker, content: Bytes, pieces: seq<Bytes>, n: nat)
    reads c, c.reader, c.buf
  {
    && c.Valid() && c.reader.seen + c.reader.rest == content
    && n <= |pieces| && Pieces(c.cutter, c.Pending()) == pieces[n..] && pieces == Pieces(c.cutter, content)
  }

  lemma AllAhead(c: Chunker)
    requires c.Valid() && c.reader.seen == [] && c.Pending() == c.reader.rest
    ensures Ahead(c, c.reader.rest, Pieces(c.cutter, c.reader.rest), 0)
  {
    hide Pieces;
    var pieces := Pieces(c.cutter, c.reader.rest);
    assert pieces[0..] == pieces;
  }

  method NextOf(c: Chunker, ghost content: Bytes, ghost pieces: seq<Bytes>, ghost n: nat) returns (out: Outcome)
    requires Ahead(c, content, pieces, n)
    modifies c, c.reader, c.buf
    ensures c.reader.failed <==> old(c.reader.failed) || out.ReadError?
    ensures out.Got? ==> n < |pieces| && out.chunk.data == pieces[n] && Ahead(c, content, pieces, n + 1)
    ensures out.End? ==> c.reader.seen == content && n == |pieces| && pieces[..n] == pieces && Total(pieces) == |content|
  {
    hide Cut, Pieces, Total;
    ghost var pending := c.Pending();
    out := c.Next();
    if out.Got? {
      NextPiece(c.cutter, pieces, n, pending, |out.chunk.data|);
    } else if out.End? {
      UploadEnds(c.cutter, content, n);
    }
  }

  /** Adds a chunk to the batch, and sends the batch when it is full. */
  method AddChunk(batch: Batch, server: Server, ghost pieces: seq<Bytes>, p: Primitives, key: Option<Bytes>,
                  concurrency: nat, throttled: bool, digest: Digest, data: Bytes, ghost n: nat, ghost sent: nat,
                  ghost chunks: seq<Digest>, ghost size: nat, ghost was: View)
    returns (ok: bool, ghost sent': nat)
    requires Lawful(p) && n < |pieces| && data == pieces[n] && digest == p.sum(data)
    requires LastFull(Since(was, server.Now())) && batch.Valid() && !IsFull(batch.chunks)
    requires Underway(Plan(p, key, pieces, concurrency, throttled), n, sent, chunks, size, batch.chunks, was, server.Now())
    modifies server, batch
    ensures var plan := Plan(p, key, pieces, concurrency, throttled);
            if ok then Underway(plan, n + 1, sent', chunks + [digest], size + |data|, batch.chunks, was, server.Now())
                       && LastFull(Since(was, server.Now())) && batch.Valid() && !IsFull(batch.chunks)
            else server.trouble && Halfway(plan, was, server.Now())
  {
    hide Lawful, Underway, Halfway, LastFull;
    OneMoreUnderway(Plan(p, key, pieces, concurrency, throttled), n, sent, chunks, size, batch.chunks, was, server.Now());
    ok, sent' := true, sent;
    ghost var before := batch.chunks;
    batch.Add(digest, data);
    assert batch.chunks[..|batch.chunks| - 1] == before;
    if batch.Full() {
      ok := SendWaiting(batch, server, pieces, p, key, concurrency, throttled, n + 1, sent, chunks + [digest],
                        size + |data|, was);
      sent' := n + 1;
    }
  }

  /** Reads a file in whatever portions it comes, cuts it, and sends the chunks batch by batch. On
      success every chunk of the file is on the server, or the server said it is, and the record lists
      the file's chunks, its digest and its size; at no time does the upload touch a blob that was there.
      The context is seen to have ended before chunk `ends`, if ever. An upload fails only for a bad
      configuration, a context that ended, a read that failed, or trouble with the server. */
  method UploadFile(p: Primitives, key: Option<Bytes>, reader: Reader, config: Config, gear: seq<nat>,
                    server: Server, concurrency: nat, throttled: bool, ends: Option<nat>)
    returns (r: Result<FileResult, UploadError>)
    requires Lawful(p) && |gear| == 256 && reader.seen == []
    modifies reader, server
    ensures r == Err(BadConfig) <==> Normalize(config).Err?
    ensures r == Err(Cancelled) ==> ends.Some? && ends.value <= |FilePieces(config, gear, old(reader.rest))|
    ensures reader.failed <==> old(reader.failed) || r == Err(ReadFailed)
    ensures r == Err(SendFailed) ==> server.trouble
    ensures var pieces := FilePieces(config, gear, old(reader.rest));
            && Grew(p, key, pieces, old(server.blobs), server.blobs)
            && (r.Ok? ==> OnServer(p, pieces, |pieces|, server.blobs.Keys + server.told)
                          && r.value == FileResult(Digests(p, pieces), p.sum(old(reader.rest)), |old(reader.rest)|))
    ensures old(server.attempts) <= server.attempts
    ensures var pieces := FilePieces(config, gear, old(reader.rest));
            exists n :: 0 <= n <= |pieces| && (r.Ok? ==> n == |pieces|)
                        && InBatches(server.attempts[|old(server.attempts)|..], Entries(p, pieces[..n]), concurrency, throttled)
  {
    hide Lawful, Pieces, Ahead, Underway, Arrived, Halfway, LastFull, Digests, Total, Normalize, MakeCutter, FilePieces,
      Grew, OnServer, InBatches, IsFull, InTime;
    ghost var content, was, pieces := reader.rest, server.Now(), FilePieces(config, gear, reader.rest);
    ghost var plan := Plan(p, key, pieces, concurrency, throttled);
    PiecesOfFile(config, gear, reader.rest);
    var normal := Normalize(config);
    UploadStarts(plan, was);
    if normal.Err? {
      UnderwayMeans(plan, 0, 0, [], 0, [], was, was);
      HalfwayMeans(plan, was, was);
      return Err(BadConfig);
    }
    var chunker := new Chunker(reader, normal.value, gear);
    var batch := new Batch();
    var chunks: seq<Digest>, size: nat := [], 0;
    ghost var n: nat, sent: nat := 0, 0;
    AllAhead(chunker);
    NothingFull();
    while true
      invariant Ahead(chunker, content, pieces, n) && reader.failed == old(reader.failed)
      invariant Underway(plan, n, sent, chunks, size, batch.chunks, was, server.Now())
      invariant LastFull(Since(was, server.Now())) && batch.Valid() && !IsFull(batch.chunks)
      decreases |pieces| - n
    {
      UnderwayMeans(plan, n, sent, chunks, size, batch.chunks, was, server.Now());
      HalfwayMeans(plan, was, server.Now());
      if ends == Some(|chunks|) {
        return Err(Cancelled);
      }
      var next := NextOf(chunker, content, pieces, n);
      if next.End? {
        break;
      }
      if next.ReadError? {
        return Err(ReadFailed);
      }
      var data := next.chunk.data;
      var digest := p.sum(data);
      var ok;
      ok, sent := AddChunk(batch, server, pieces, p, key, concurrency, throttled, digest, data, n, sent, chunks, size, was);
      if !ok {
        HalfwayMeans(plan, was, server.Now());
        return Err(SendFailed);
      }
      n, chunks, size := n + 1, chunks + [digest], size + |data|;
    }
    NotFullIsInTime(batch.chunks);
    var ok := SendWaiting(batch, server, pieces, p, key, concurrency, throttled, n, sent, chunks, size, was);
    if !ok {
      HalfwayMeans(plan, was, server.Now());
      return Err(SendFailed);
    }
    UnderwayMeans(plan, n, n, chunks, size, batch.chunks, was, server.Now());
    ArrivedMeans(plan, n, was, server.Now());
    return Ok(FileResult(chunks, p.sum(reader.seen), size));
  }

  lemma HalfwayMeans(plan: Plan, was: View, now: View)
    requires Halfway(plan, was, now)
    ensures Grew(plan.p, plan.key, plan.pieces, was.blobs, now.blobs) && was.attempts <= now.attempts
    ensures exists n :: 0 <= n <= |plan.pieces|
              && InBatches(now.attempts[|was.attempts|..], Entries(plan.p, plan.pieces[..n]), plan.limit, plan.throttled)
  {
    hide Grew, InBatches;
  }

  lemma ArrivedMeans(plan: Plan, n: nat, was: View, now: View)
    requires n <= |plan.pieces| && Arrived(plan, n, was, now)
    ensures Grew(plan.p, plan.key, plan.pieces, was.blobs, now.blobs) && was.attempts <= now.attempts
    ensures OnServer(plan.p, plan.pieces, n, now.blobs.Keys + now.told)
    ensures InBatches(now.attempts[|was.attempts|..], Entries(plan.p, plan.pieces[..n]), plan.limit, plan.throttled)
  {
    hide Grew, InBatches, OnServer;
  }

  /** What is not full yet may be sent any time. */
  lemma NotFullIsInTime(chunks: seq<Entry>)
    requires !IsFull(chunks)
    ensures chunks == [] || InTime(chunks)
  {
    if chunks != [] {
      assert Weight(chunks[..|chunks| - 1]) <= Weight(chunks);
    }
  }

  // ----- restoring a file -----

  datatype RestoreError = Unavailable | NotFound | WrongKey | CannotDecode(error: Codec.Error) | BadChunk | BadFile

  /** What a request for a blob delivers: at most the first 64 MiB of it. */
  function Fetched(blob: Bytes): Bytes {
    if |blob| <= MAX_FETCH then blob else blob[..MAX_FETCH]
  }

  /** A blob that decodes to content with the right digest. */
  predicate Readable(p: Primitives, key: Option<Bytes>, d: Digest, blob: Bytes) {
    Unpack(p, key, Fetched(blob)).Ok? && p.sum(Unpack(p, key, Fetched(blob)).value) == d
  }

  /** The concatenation of the chunks, when all of them can be read. */
  function Restored(p: Primitives, key: Option<Bytes>, blobs: Blobs, chunks: seq<Digest>): Option<Bytes> {
    if chunks == [] then Some([]) else
      var before, last := Restored(p, key, blobs, chunks[..|chunks| - 1]), chunks[|chunks| - 1];
      if before.Some? && last in blobs && Readable(p, key, last, blobs[last])
      then Some(before.value + Unpack(p, key, Fetched(blobs[last])).value) else None
  }

  /** What is wrong with the blob of a chunk, if anything. */
  function Fault(p: Primitives, key: Option<Bytes>, blobs: Blobs, d: Digest): (e: Option<RestoreError>)
    ensures e.None? <==> d in blobs && Readable(p, key, d, blobs[d])
  {
    if d !in blobs then Some(NotFound)
    else
      match Unpack(p, key, Fetched(blobs[d]))
      case Err(e) => Some(if IsEncrypted(Fetched(blobs[d])) then WrongKey else CannotDecode(e))
      case Ok(plain) => if p.sum(plain) == d then None else Some(BadChunk)
  }

  /** The first chunk that cannot be had, and why; `failing` are the requests that fail. */
  predicate StopsAt(p: Primitives, key: Option<Bytes>, blobs: Blobs, chunks: seq<Digest>, failing: set<nat>, i: nat,
                    e: RestoreError)
  {
    && i < |chunks| && (forall j :: 0 <= j < i ==> j !in failing && Fault(p, key, blobs, chunks[j]).None?)
    && Some(e) == if i in failing then Some(Unavailable) else Fault(p, key, blobs, chunks[i])
  }

  /** Fetches, decodes and checks the chunks one by one, then checks the whole. It succeeds exactly when
      no request fails, every chunk can be read and the digest agrees; the error is that of the first chunk
      that cannot be had, or says that the file as a whole is wrong. */
  method RestoreFile(p: Primitives, key: Option<Bytes>, server: Server, chunks: seq<Digest>, digest: Digest,
                     failing: set<nat>)
    returns (r: Result<Bytes, RestoreError>)
    ensures var whole := Restored(p, key, server.blobs, chunks);
            && (r.Ok? <==> whole.Some? && (digest == "" || p.sum(whole.value) == digest)
                           && forall i :: 0 <= i < |chunks| ==> i !in failing)
            && (r.Ok? ==> whole == Some(r.value))
            && (r == Err(BadFile) <==> whole.Some? && digest != "" && p.sum(whole.value) != digest
                                       && forall i :: 0 <= i < |chunks| ==> i !in failing)
            && (r.Err? && r.error != BadFile ==> exists i :: StopsAt(p, key, server.blobs, chunks, failing, i, r.error))
  {
    hide Unpack, Restored;
    var written: Bytes := [];
    NothingRestored(p, key, server.blobs, chunks);
    for i := 0 to |chunks|
      invariant Restored(p, key, server.blobs, chunks[..i]) == Some(written)
      invariant forall j :: 0 <= j < i ==> j !in failing && Fault(p, key, server.blobs, chunks[j]).None?
    {
      if i in failing {
        assert StopsAt(p, key, server.blobs, chunks, failing, i, Unavailable);
        return Err(Unavailable);
      }
      RestoredUpTo(p, key, server.blobs, chunks, i);
      if chunks[i] !in server.blobs {
        assert StopsAt(p, key, server.blobs, chunks, failing, i, NotFound);
        return Err(NotFound);
      }
      var blob := Fetched(server.blobs[chunks[i]]);
      var plain := Decode(p, key, blob);
      if plain.Err? {
        r := if IsEncrypted(blob) then Err(WrongKey) else Err(CannotDecode(plain.error));
        assert StopsAt(p, key, server.blobs, chunks, failing, i, r.error);
        return;
      }
      if p.sum(plain.value) != chunks[i] {
        assert StopsAt(p, key, server.blobs, chunks, failing, i, BadChunk);
        return Err(BadChunk);
      }
      written := written + plain.value;
    }
    assert chunks[..|chunks|] == chunks;
    if digest != "" && p.sum(written) != digest {
      return Err(BadFile);
    }
    return Ok(written);
  }

  lemma NothingRestored(p: Primitives, key: Option<Bytes>, blobs: Blobs, chunks: seq<Digest>)
    ensures Restored(p, key, blobs, chunks[..0]) == Some([])
  {}

  lemma RestoredUpTo(p: Primitives, key: Option<Bytes>, blobs: Blobs, chunks: seq<Digest>, i: nat)
    requires i < |chunks|
    ensures var before := Restored(p, key, blobs, chunks[..i]);
            Restored(p, key, blobs, chunks[..i + 1]) ==
              if before.Some? && chunks[i] in blobs && Readable(p, key, chunks[i], blobs[chunks[i]])
              then Some(before.value + Unpack(p, key, Fetched(blobs[chunks[i]])).value) else None
    ensures Restored(p, key, blobs, chunks[..i + 1]).None? ==> Restored(p, key, blobs, chunks).None?
    decreases |chunks|
  {
    hide Readable, Unpack;
    assert chunks[..i + 1][..i] == chunks[..i];
    if i + 1 == |chunks| {
      assert chunks[..i + 1] == chunks;
    } else {
      var shorter := chunks[..|chunks| - 1];
      RestoredUpTo(p, key, blobs, shorter, i);
      assert shorter[..i + 1] == chunks[..i + 1] && shorter[..i] == chunks[..i];
    }
  }

  // ----- the round trip -----

  /** Whatever the server hands out, a restore that succeeds has written the bytes that were read. */
  lemma {:induction false} RestoreIsHonest(p: Primitives, key: Option<Bytes>, blobs: Blobs, pieces: seq<Bytes>)
    requires Lawful(p) && Restored(p, key, blobs, Digests(p, pieces)).Some?
    ensures Restored(p, key, blobs, Digests(p, pieces)) == Some(Concat(pieces))
    decreases |pieces|
  {
    hide Unpack;
    if pieces != [] {
      var before, last := pieces[..|pieces| - 1], pieces[|pieces| - 1];
      assert Digests(p, pieces)[..|pieces| - 1] == Digests(p, before);
      RestoreIsHonest(p, key, blobs, before);
      ConcatSnoc(before, last);
      assert pieces == before + [last];
      assert p.sum(Unpack(p, key, Fetched(blobs[p.sum(last)])).value) == p.sum(last);
    }
  }

  /** It succeeds exactly when every chunk has a readable blob. */
  lemma {:induction false} RestoreSucceeds(p: Primitives, key: Option<Bytes>, blobs: Blobs, chunks: seq<Digest>)
    ensures Restored(p, key, blobs, chunks).Some?
       <==> forall i :: 0 <= i < |chunks| ==> chunks[i] in blobs && Readable(p, key, chunks[i], blobs[chunks[i]])
    decreases |chunks|
  {
    hide Readable, Unpack;
    if chunks != [] {
      RestoreSucceeds(p, key, blobs, chunks[..|chunks| - 1]);
    }
  }

  /** A blob made from a chunk of at most 64 MiB that a request delivers whole is readable with the same
      key, and one made without a key with any. */
  lemma MadeIsReadable(p: Primitives, written: Option<Bytes>, key: Option<Bytes>, x: Bytes, blob: Bytes)
    requires Lawful(p) && Layout(p, written, x, p.sum(x)) == Ok(blob) && (written.None? || written == key)
    requires |x| <= MAX_PLAINTEXT && |blob| <= MAX_FETCH
    ensures Readable(p, key, p.sum(x), blob)
  {
    hide Layout, Unpack;
    PlaintextFits();
    RoundTrip(p, written, key, x);
  }

  /** A chunk that leaves room for the header is such a one. */
  lemma SmallChunksFit(p: Primitives, written: Option<Bytes>, x: Bytes)
    requires Lawful(p) && |x| + OVERHEAD <= MAX_FETCH
    ensures Layout(p, written, x, p.sum(x)).Ok? && |Layout(p, written, x, p.sum(x)).value| <= MAX_FETCH && |x| <= MAX_PLAINTEXT
  {
    PlaintextFits();
    BlobSize(p, written, x);
  }

  /** Decoding accepts chunks up to 64 MiB, but a request delivers blobs only up to 64 MiB: whatever the
      chunk, compressed or not, sealed or not, its blob is readable exactly when both fit. */
  lemma ReadableExactly(p: Primitives, written: Option<Bytes>, key: Option<Bytes>, x: Bytes, blob: Bytes)
    requires Lawful(p) && Layout(p, written, x, p.sum(x)) == Ok(blob) && (written.None? || written == key)
    ensures Readable(p, key, p.sum(x), blob) <==> |x| <= 64 * 1024 * 1024 && |blob| <= 64 * 1024 * 1024
  {
    hide Layout, Unpack;
    if |x| <= MAX_PLAINTEXT && |blob| <= MAX_FETCH {
      MadeIsReadable(p, written, key, x, blob);
    } else if |x| <= MAX_PLAINTEXT {
      TruncationIsNoticed(p, written, key, x, MAX_FETCH);
    }
    if Readable(p, key, p.sum(x), blob) {
      assert Unpack(p, key, Fetched(blob)).value == x;
    }
  }

  /** What the upload of the pieces made can be delivered and decoded. */
  predicate NewBlobsFit(p: Primitives, pieces: seq<Bytes>, was: Blobs, now: Blobs) {
    forall i :: 0 <= i < |pieces| && p.sum(pieces[i]) in now && p.sum(pieces[i]) !in was ==>
      |pieces[i]| <= MAX_PLAINTEXT && |now[p.sum(pieces[i])]| <= MAX_FETCH
  }

  predicate OldBlobsReadable(p: Primitives, key: Option<Bytes>, pieces: seq<Bytes>, was: Blobs) {
    forall i :: 0 <= i < |pieces| && p.sum(pieces[i]) in was ==> Readable(p, key, p.sum(pieces[i]), was[p.sum(pieces[i])])
  }

  /** Upload, then restore at any later time: `was` is the server before the upload, `now` after it,
      and `later` when the restore runs, the blobs of the file still being there. The restore yields
      the file exactly when those of its chunks that the server had before are readable with the key
      used now, and the blobs that the upload made can be delivered and decoded. */
  lemma UploadThenRestore(p: Primitives, written: Option<Bytes>, key: Option<Bytes>, config: Config, gear: seq<nat>,
                          content: Bytes, was: Blobs, now: Blobs, later: Blobs)
    requires Lawful(p) && |gear| == 256 && Normalize(config).Ok? && (written.None? || written == key)
    requires var pieces := FilePieces(config, gear, content);
             && Grew(p, written, pieces, was, now) && OnServer(p, pieces, |pieces|, now.Keys)
             && forall i :: 0 <= i < |pieces| ==> p.sum(pieces[i]) in later && later[p.sum(pieces[i])] == now[p.sum(pieces[i])]
    ensures var pieces := FilePieces(config, gear, content);
            Restored(p, key, later, Digests(p, pieces)) == Some(content)
            <==> OldBlobsReadable(p, key, pieces, was) && NewBlobsFit(p, pieces, was, now)
  {
    hide Lawful, Readable, MadeFrom, Cut;
    var pieces, t := FilePieces(config, gear, content), MakeCutter(Normalize(config).value, gear);
    PiecesConcat(t, content);
    RestoreSucceeds(p, key, later, Digests(p, pieces));
    if Restored(p, key, later, Digests(p, pieces)).Some? {
      RestoreIsHonest(p, key, later, pieces);
    }
    forall i | 0 <= i < |pieces| && p.sum(pieces[i]) !in was
      ensures Readable(p, key, p.sum(pieces[i]), later[p.sum(pieces[i])])
         <==> |pieces[i]| <= MAX_PLAINTEXT && |now[p.sum(pieces[i])]| <= MAX_FETCH
    {
      NewReadableExactly(p, written, key, pieces, i, now[p.sum(pieces[i])]);
    }
    forall i | 0 <= i < |pieces| ensures Digests(p, pieces)[i] == p.sum(pieces[i]) {}
  }

  lemma NewReadableExactly(p: Primitives, written: Option<Bytes>, key: Option<Bytes>, pieces: seq<Bytes>, i: nat, blob: Bytes)
    requires Lawful(p) && i < |pieces| && MadeFrom(p, written, pieces, p.sum(pieces[i]), blob)
    requires written.None? || written == key
    ensures Readable(p, key, p.sum(pieces[i]), blob) <==> |pieces[i]| <= MAX_PLAINTEXT && |blob| <= MAX_FETCH
  {
    hide Layout, Readable;
    var j :| 0 <= j < |pieces| && p.sum(pieces[j]) == p.sum(pieces[i])
             && Layout(p, written, pieces[j], p.sum(pieces[i])) == Ok(blob);
    assert pieces[j] == pieces[i];
    ReadableExactly(p, written, key, pieces[i], blob);
  }
}
