/** One batch of an upload: a dispatcher, a pool of workers, cancellation and the first error, as a
    state machine whose steps interleave in any order. */
module FlushBatch {
  import opened Wrappers

  type Digest = string

  datatype Item = Item(digest: Digest, size: nat)

  datatype Failure = EncodeFailed(digest: Digest) | PutFailed(digest: Digest) | ContextEnded

  /** `needed` is the server's answer to "which of these do you not have?"; `blobLen` is what a chunk
      weighs once encoded; `throttled` says whether uploads go through a token bucket. */
  datatype Config = Config(batch: seq<Item>, needed: set<Digest>, concurrency: nat, throttled: bool, blobLen: Digest -> nat)

  datatype Worker =
    | Idle
    | Encoding(digest: Digest)
    | Waiting(digest: Digest)
    | Putting(digest: Digest)
    | Failing // has recorded its error, has not cancelled the others yet
    | Exited

  datatype Phase = Dispatching | Closed(aborted: bool) | Returned(result: Option<Failure>)

  /** What became of a chunk that the dispatcher set out to send. */
  datatype Fate = With(worker: nat) | Stored | Lost

  /** `fate` and `calls` are history: `calls` counts the requests made for each digest. */
  datatype State = State(
    next: nat, phase: Phase, workers: seq<Worker>, sent: set<Digest>, firstErr: Option<Failure>,
    callerDone: bool, cancelled: bool, server: set<Digest>, uploaded: nat, skipped: nat,
    fate: map<Digest, Fate>, calls: multiset<Digest>)

  datatype Action =
    | Skip | HandOff(w: nat) | Abort | Close | Return
    | EncodeOk(w: nat) | EncodeFails(w: nat) | WaitOk(w: nat) | WaitEnds(w: nat)
    | PutOk(w: nat) | PutFails(w: nat, landed: bool) | CancelRest(w: nat) | Quit(w: nat)
    | CallerCancels | OthersStore(digest: Digest)

  // ----- the machine -----

  function WorkerCount(cfg: Config): nat {
    var n := if cfg.concurrency < |cfg.needed| then cfg.concurrency else |cfg.needed|;
    if n == 0 then 1 else n
  }

  function Start(cfg: Config, server: set<Digest>): State {
    State(0, Dispatching, seq(WorkerCount(cfg), _ => Idle), {}, None, false, false, server, 0, 0, map[], multiset{})
  }

  predicate ContextDone(s: State) {
    s.callerDone || s.cancelled
  }

  /** The chunk the dispatcher looks at has to be sent. */
  predicate Wanted(cfg: Config, s: State) {
    s.phase.Dispatching? && s.next < |cfg.batch|
    && cfg.batch[s.next].digest in cfg.needed && cfg.batch[s.next].digest !in s.sent
  }

  predicate Job(s: State, w: nat) {
    w < |s.workers| && (s.workers[w].Encoding? || s.workers[w].Waiting? || s.workers[w].Putting?)
  }

  predicate Enabled(cfg: Config, s: State, a: Action) {
    match a
    case Skip => s.phase.Dispatching? && s.next < |cfg.batch| && !Wanted(cfg, s)
    case HandOff(w) => Wanted(cfg, s) && w < |s.workers| && s.workers[w].Idle?
    case Abort => Wanted(cfg, s) && ContextDone(s)
    case Close => s.phase.Dispatching? && s.next >= |cfg.batch|
    case Return => s.phase.Closed? && forall w :: 0 <= w < |s.workers| ==> s.workers[w].Exited?
    case EncodeOk(w) => w < |s.workers| && s.workers[w].Encoding?
    case EncodeFails(w) => w < |s.workers| && s.workers[w].Encoding?
    case WaitOk(w) => w < |s.workers| && s.workers[w].Waiting?
    case WaitEnds(w) => w < |s.workers| && s.workers[w].Waiting? && ContextDone(s)
    case PutOk(w) => w < |s.workers| && s.workers[w].Putting?
    case PutFails(w, _) => w < |s.workers| && s.workers[w].Putting?
    case CancelRest(w) => w < |s.workers| && s.workers[w].Failing?
    case Quit(w) => w < |s.workers| && s.workers[w].Idle? && s.phase.Closed?
    case CallerCancels => !s.callerDone
    case OthersStore(_) => true
  }

  function Record(s: State, e: Failure): Option<Failure> {
    if s.firstErr.None? then Some(e) else s.firstErr
  }

  /** Hands a blob to the transport. */
  function StartPut(s: State, w: nat, d: Digest): State
    requires w < |s.workers|
  {
    s.(workers := s.workers[w := Putting(d)], calls := s.calls + multiset{d})
  }

  function Fail(s: State, w: nat, e: Failure, rest: Worker): State
    requires Job(s, w)
  {
    s.(workers := s.workers[w := rest], firstErr := Record(s, e), fate := s.fate[s.workers[w].digest := Lost])
  }

  function Apply(cfg: Config, s: State, a: Action): State
    requires Enabled(cfg, s, a)
  {
    match a
    case Skip => s.(next := s.next + 1, skipped := s.skipped + cfg.batch[s.next].size)
    case HandOff(w) =>
      var d := cfg.batch[s.next].digest;
      s.(next := s.next + 1, sent := s.sent + {d}, workers := s.workers[w := Encoding(d)], fate := s.fate[d := With(w)])
    case Abort =>
      var d := cfg.batch[s.next].digest;
      s.(sent := s.sent + {d}, phase := Closed(true), fate := s.fate[d := Lost])
    case Close => s.(phase := Closed(false))
    case Return =>
      s.(phase := Returned(if s.phase.aborted && s.firstErr.None? then Some(ContextEnded) else s.firstErr))
    case EncodeOk(w) =>
      if cfg.throttled then s.(workers := s.workers[w := Waiting(s.workers[w].digest)])
      else StartPut(s, w, s.workers[w].digest)
    case EncodeFails(w) => Fail(s, w, EncodeFailed(s.workers[w].digest), Failing)
    case WaitOk(w) => StartPut(s, w, s.workers[w].digest)
    case WaitEnds(w) => Fail(s, w, ContextEnded, Exited)
    case PutOk(w) =>
      var d := s.workers[w].digest;
      s.(server := s.server + {d}, workers := s.workers[w := Idle],
         uploaded := s.uploaded + cfg.blobLen(d), fate := s.fate[d := Stored])
    case PutFails(w, landed) =>
      var d := s.workers[w].digest;
      Fail(if landed then s.(server := s.server + {d}) else s, w, PutFailed(d), Failing)
    case CancelRest(w) => s.(workers := s.workers[w := Exited], cancelled := true)
    case Quit(w) => s.(workers := s.workers[w := Exited])
    case CallerCancels => s.(callerDone := true)
    case OthersStore(d) => s.(server := s.server + {d})
  }

  /** The state a sequence of steps leads to, if each of them is enabled in its turn. */
  function Run(cfg: Config, server: set<Digest>, actions: seq<Action>): Option<State>
    decreases |actions|
  {
    if actions == [] then Some(Start(cfg, server)) else
      var before, last := Run(cfg, server, actions[..|actions| - 1]), actions[|actions| - 1];
      if before.Some? && Enabled(cfg, before.value, last) then Some(Apply(cfg, before.value, last)) else None
  }

  // ----- what a batch asks for -----

  function DigestsUpTo(cfg: Config, n: nat): set<Digest>
    requires n <= |cfg.batch|
  {
    set i | 0 <= i < n :: cfg.batch[i].digest
  }

  /** The first chunk of the batch with a digest the server lacks. */
  predicate FirstUse(cfg: Config, i: nat)
    requires i < |cfg.batch|
  {
    cfg.batch[i].digest in cfg.needed && cfg.batch[i].digest !in DigestsUpTo(cfg, i)
  }

  /** The plaintext that need not be sent. */
  function Duplicates(cfg: Config, n: nat): nat
    requires n <= |cfg.batch|
  {
    if n == 0 then 0 else Duplicates(cfg, n - 1) + if FirstUse(cfg, n - 1) then 0 else cfg.batch[n - 1].size
  }

  /** The encoded size of the first uses among the first `n` chunks whose digest is in `stored`. */
  function BlobBytes(cfg: Config, stored: set<Digest>, n: nat): nat
    requires n <= |cfg.batch|
  {
    if n == 0 then 0 else
      BlobBytes(cfg, stored, n - 1)
      + if FirstUse(cfg, n - 1) && cfg.batch[n - 1].digest in stored then cfg.blobLen(cfg.batch[n - 1].digest) else 0
  }

  function StoredIn(fate: map<Digest, Fate>): set<Digest> {
    set d | d in fate && fate[d] == Stored
  }

  // ----- the invariant -----

  /** Every chunk set out to be sent is with exactly one worker, stored, or lost. */
  ghost predicate Fates(s: State) {
    && s.fate.Keys == s.sent
    && (forall w: nat :: Job(s, w) ==> s.workers[w].digest in s.fate && s.fate[s.workers[w].digest] == With(w))
    && (forall d :: d in s.fate && s.fate[d].With? ==> Job(s, s.fate[d].worker) && s.workers[s.fate[d].worker].digest == d)
  }

  ghost predicate Sent(cfg: Config, s: State) {
    && s.next <= |cfg.batch| && s.sent <= cfg.needed * DigestsUpTo(cfg, |cfg.batch|)
    && cfg.needed * DigestsUpTo(cfg, s.next) <= s.sent
    && (s.phase.Dispatching? ==> s.sent == cfg.needed * DigestsUpTo(cfg, s.next))
    && (s.phase == Closed(false) ==> s.next == |cfg.batch|)
  }

  ghost predicate SomeLost(s: State) {
    exists d :: d in s.fate && s.fate[d] == Lost
  }

  /** A chunk is lost only when there is an error or the dispatcher gave up, and then one is. */
  ghost predicate Losses(s: State) {
    && ((s.firstErr.Some? || s.phase == Closed(true)) ==> SomeLost(s))
    && (SomeLost(s) ==> s.firstErr.Some? || s.phase == Closed(true) || (s.phase.Returned? && s.phase.result.Some?))
  }

  /** An early exit of a worker leaves the context done, and the context ends by itself only for the caller. */
  ghost predicate Contexts(s: State) {
    && (s.cancelled ==> s.firstErr.Some?)
    && (forall w :: 0 <= w < |s.workers| && s.workers[w].Failing? ==> s.firstErr.Some?)
    && (forall w :: 0 <= w < |s.workers| && s.workers[w].Exited? && s.phase.Dispatching? ==> ContextDone(s))
    && (s.firstErr == Some(ContextEnded) ==> s.callerDone)
    && (s.phase == Closed(true) ==> ContextDone(s))
    && (s.phase == Returned(Some(ContextEnded)) ==> s.callerDone)
  }

  /** No digest is asked for twice, and exactly the chunks past that point have been asked for. */
  ghost predicate Calls(s: State) {
    && (forall d :: d in s.calls ==> d in s.sent && s.calls[d] == 1)
    && (forall d :: d in s.fate && s.fate[d] == Stored ==> d in s.calls)
    && (forall w: nat :: Job(s, w) ==> (s.workers[w].Putting? <==> s.workers[w].digest in s.calls))
  }

  ghost predicate Done(cfg: Config, s: State) {
    s.phase.Returned? ==>
      && (forall w :: 0 <= w < |s.workers| ==> s.workers[w].Exited?)
      && (s.phase.result.None? ==> s.next == |cfg.batch| && s.firstErr.None? && !SomeLost(s))
      && (s.phase.result.Some? ==> SomeLost(s))
  }

  ghost predicate Inv(cfg: Config, server: set<Digest>, s: State) {
    && |s.workers| == WorkerCount(cfg) && server + StoredIn(s.fate) <= s.server
    && Fates(s) && Sent(cfg, s) && Losses(s) && Contexts(s) && Calls(s) && Done(cfg, s)
    && s.skipped == Duplicates(cfg, s.next) && s.uploaded == BlobBytes(cfg, StoredIn(s.fate), |cfg.batch|)
  }

  // ----- one step keeps it -----

  /** The worker puts its chunk down for good. */
  lemma JobEnds(s: State, w: nat, rest: Worker, f: Fate)
    requires Fates(s) && Job(s, w) && !f.With? && (rest.Idle? || rest.Failing? || rest.Exited?)
    ensures Fates(s.(workers := s.workers[w := rest], fate := s.fate[s.workers[w].digest := f]))
  {}

  lemma FatesKept(cfg: Config, s: State, a: Action)
    requires Fates(s) && Enabled(cfg, s, a)
    ensures Fates(Apply(cfg, s, a))
  {
    match a
    case EncodeFails(w) => JobEnds(s, w, Failing, Lost);
    case WaitEnds(w) => JobEnds(s, w, Exited, Lost);
    case PutOk(w) => JobEnds(s, w, Idle, Stored);
    case PutFails(w, _) => JobEnds(s, w, Failing, Lost);
    case _ => FatesFrame(cfg, s, a);
  }

  lemma FatesFrame(cfg: Config, s: State, a: Action)
    requires Fates(s) && Enabled(cfg, s, a) && !a.EncodeFails? && !a.WaitEnds? && !a.PutOk? && !a.PutFails?
    ensures Fates(Apply(cfg, s, a))
  {
    var s' := Apply(cfg, s, a);
    forall w: nat | Job(s', w) ensures s'.workers[w].digest in s'.fate && s'.fate[s'.workers[w].digest] == With(w) {
      assert Job(s, w) || (a.HandOff? && w == a.w);
    }
    forall d | d in s'.fate && s'.fate[d].With? ensures Job(s', s'.fate[d].worker) && s'.workers[s'.fate[d].worker].digest == d {
      assert (d in s.fate && s.fate[d] == s'.fate[d]) || a.HandOff?;
    }
  }

  lemma SentKept(cfg: Config, server: set<Digest>, s: State, a: Action)
    requires Inv(cfg, server, s) && Enabled(cfg, s, a)
    ensures Sent(cfg, Apply(cfg, s, a))
  {
    hide Fates, Losses, Contexts, Calls, Done, Duplicates, BlobBytes, StoredIn, SomeLost;
    if s.next < |cfg.batch| {
      assert DigestsUpTo(cfg, s.next + 1) == DigestsUpTo(cfg, s.next) + {cfg.batch[s.next].digest};
    }
  }

  lemma LostStaysLost(cfg: Config, server: set<Digest>, s: State, a: Action)
    requires Inv(cfg, server, s) && Enabled(cfg, s, a)
    ensures SomeLost(Apply(cfg, s, a)) <==> SomeLost(s) || a.Abort? || a.EncodeFails? || a.WaitEnds? || a.PutFails?
  {
    hide Calls, Contexts, Done, Losses, Duplicates, BlobBytes, StoredIn;
    var s' := Apply(cfg, s, a);
    if SomeLost(s) {
      var d :| d in s.fate && s.fate[d] == Lost;
      assert d in s'.fate && s'.fate[d] == Lost;
    }
    if a.Abort? {
      assert s'.fate[cfg.batch[s.next].digest] == Lost;
    } else if a.EncodeFails? || a.WaitEnds? || a.PutFails? {
      assert s'.fate[s.workers[a.w].digest] == Lost;
    }
    if SomeLost(s') && !SomeLost(s) {
      var d :| d in s'.fate && s'.fate[d] == Lost;
      assert d !in s.fate || s.fate[d] != Lost;
    }
  }

  lemma LossesKept(cfg: Config, server: set<Digest>, s: State, a: Action)
    requires Inv(cfg, server, s) && Enabled(cfg, s, a)
    ensures Losses(Apply(cfg, s, a)) && Done(cfg, Apply(cfg, s, a))
  {
    hide Calls, Duplicates, BlobBytes, StoredIn, SomeLost, Fates;
    LostStaysLost(cfg, server, s, a);
  }

  lemma ContextsKept(cfg: Config, server: set<Digest>, s: State, a: Action)
    requires Inv(cfg, server, s) && Enabled(cfg, s, a)
    ensures Contexts(Apply(cfg, s, a))
  {
    hide Fates, Sent, Losses, Calls, Done, Duplicates, BlobBytes, StoredIn, SomeLost;
  }

  lemma PutStarts(s: State, w: nat)
    requires Fates(s) && Calls(s) && Job(s, w) && !s.workers[w].Putting?
    ensures Calls(StartPut(s, w, s.workers[w].digest))
  {
    var d := s.workers[w].digest;
    var calls := s.calls + multiset{d};
    forall x | x in calls ensures x in s.sent && calls[x] == 1 {
      assert x == d || calls[x] == s.calls[x];
    }
    forall v: nat | Job(StartPut(s, w, d), v)
      ensures StartPut(s, w, d).workers[v].Putting? <==> StartPut(s, w, d).workers[v].digest in calls
    {
      assert v != w ==> Job(s, v);
    }
  }

  lemma CallsKept(cfg: Config, s: State, a: Action)
    requires Fates(s) && Calls(s) && Enabled(cfg, s, a)
    ensures Calls(Apply(cfg, s, a))
  {
    match a
    case EncodeOk(w) => PutStarts(s, w);
    case WaitOk(w) => PutStarts(s, w);
    case _ => CallsFrame(cfg, s, a);
  }

  lemma CallsFrame(cfg: Config, s: State, a: Action)
    requires Fates(s) && Calls(s) && Enabled(cfg, s, a) && !a.EncodeOk? && !a.WaitOk?
    ensures Calls(Apply(cfg, s, a))
  {
    var s' := Apply(cfg, s, a);
    assert s'.calls == s.calls && s.sent <= s'.sent;
    JobsCalled(cfg, s, a);
    StoredCalled(cfg, s, a);
  }

  lemma JobsCalled(cfg: Config, s: State, a: Action)
    requires Fates(s) && Calls(s) && Enabled(cfg, s, a) && !a.EncodeOk? && !a.WaitOk?
    ensures var s' := Apply(cfg, s, a);
            forall v: nat :: Job(s', v) ==> (s'.workers[v].Putting? <==> s'.workers[v].digest in s.calls)
  {
    var s' := Apply(cfg, s, a);
    forall v: nat | Job(s', v) ensures s'.workers[v].Putting? <==> s'.workers[v].digest in s.calls {
      assert (Job(s, v) && s'.workers[v] == s.workers[v]) || (a.HandOff? && v == a.w);
    }
  }

  lemma StoredCalled(cfg: Config, s: State, a: Action)
    requires Fates(s) && Calls(s) && Enabled(cfg, s, a) && !a.EncodeOk? && !a.WaitOk?
    ensures var s' := Apply(cfg, s, a); forall d :: d in s'.fate && s'.fate[d] == Stored ==> d in s.calls
  {
    var s' := Apply(cfg, s, a);
    forall d | d in s'.fate && s'.fate[d] == Stored ensures d in s.calls {
      assert (d in s.fate && s.fate[d] == Stored) || (a.PutOk? && Job(s, a.w) && d == s.workers[a.w].digest);
    }
  }

  lemma {:induction false} BlobBytesAdd(cfg: Config, stored: set<Digest>, d: Digest, n: nat)
    requires n <= |cfg.batch| && d in cfg.needed && d !in stored
    ensures BlobBytes(cfg, stored + {d}, n)
         == BlobBytes(cfg, stored, n) + if d in DigestsUpTo(cfg, n) then cfg.blobLen(d) else 0
  {
    if n > 0 {
      BlobBytesAdd(cfg, stored, d, n - 1);
      assert DigestsUpTo(cfg, n) == DigestsUpTo(cfg, n - 1) + {cfg.batch[n - 1].digest};
    }
  }

  lemma StoredAfter(cfg: Config, s: State, a: Action)
    requires Fates(s) && Enabled(cfg, s, a)
    ensures StoredIn(Apply(cfg, s, a).fate) == StoredIn(s.fate) + if a.PutOk? then {s.workers[a.w].digest} else {}
    ensures a.PutOk? ==> s.workers[a.w].digest in s.sent && s.workers[a.w].digest !in StoredIn(s.fate)
  {
    assert a.EncodeFails? || a.WaitEnds? || a.PutOk? || a.PutFails? ==> Job(s, a.w);
  }

  lemma CountersKept(cfg: Config, server: set<Digest>, s: State, a: Action)
    requires Inv(cfg, server, s) && Enabled(cfg, s, a)
    ensures var s' := Apply(cfg, s, a);
            server + StoredIn(s'.fate) <= s'.server && s'.uploaded == BlobBytes(cfg, StoredIn(s'.fate), |cfg.batch|)
  {
    hide Losses, Contexts, Calls, Done, Duplicates, SomeLost;
    StoredAfter(cfg, s, a);
    if a.PutOk? {
      BlobBytesAdd(cfg, StoredIn(s.fate), s.workers[a.w].digest, |cfg.batch|);
    } else {
      assert StoredIn(Apply(cfg, s, a).fate) == StoredIn(s.fate);
    }
  }

  lemma SkippedKept(cfg: Config, server: set<Digest>, s: State, a: Action)
    requires Inv(cfg, server, s) && Enabled(cfg, s, a)
    ensures var s' := Apply(cfg, s, a); s'.next <= |cfg.batch| && s'.skipped == Duplicates(cfg, s'.next)
  {
    hide Fates, Losses, Contexts, Calls, Done, BlobBytes, StoredIn, SomeLost;
  }

  lemma StepKeepsInv(cfg: Config, server: set<Digest>, s: State, a: Action)
    requires Inv(cfg, server, s) && Enabled(cfg, s, a)
    ensures Inv(cfg, server, Apply(cfg, s, a))
  {
    hide Fates, Sent, Losses, Contexts, Calls, Done, Duplicates, BlobBytes, StoredIn;
    FatesKept(cfg, s, a);
    SentKept(cfg, server, s, a);
    LossesKept(cfg, server, s, a);
    ContextsKept(cfg, server, s, a);
    CallsKept(cfg, s, a);
    CountersKept(cfg, server, s, a);
    SkippedKept(cfg, server, s, a);
  }

  lemma StartHasInv(cfg: Config, server: set<Digest>)
    ensures Inv(cfg, server, Start(cfg, server))
  {
    assert StoredIn(map[]) == {};
    NothingStored(cfg, |cfg.batch|);
  }

  lemma {:induction false} NothingStored(cfg: Config, n: nat)
    requires n <= |cfg.batch|
    ensures BlobBytes(cfg, {}, n) == 0
  {
    if n > 0 {
      NothingStored(cfg, n - 1);
    }
  }

  lemma {:induction false} RunsKeepInv(cfg: Config, server: set<Digest>, actions: seq<Action>)
    ensures Run(cfg, server, actions).Some? ==> Inv(cfg, server, Run(cfg, server, actions).value)
    decreases |actions|
  {
    hide Inv, Enabled, Apply;
    if actions == [] {
      StartHasInv(cfg, server);
    } else {
      var before, last := Run(cfg, server, actions[..|actions| - 1]), actions[|actions| - 1];
      RunsKeepInv(cfg, server, actions[..|actions| - 1]);
      if before.Some? && Enabled(cfg, before.value, last) {
        StepKeepsInv(cfg, server, before.value, last);
      }
    }
  }

  // ----- safety -----

  /** What the digests of a batch that have to be sent are. */
  function ToSend(cfg: Config): set<Digest> {
    cfg.needed * DigestsUpTo(cfg, |cfg.batch|)
  }

  /** In every interleaving the batch reports success exactly when every digest that had to be sent
      was acknowledged; then the counters are those of the batch, and each was asked for once. */
  lemma SuccessMeansStored(cfg: Config, server: set<Digest>, actions: seq<Action>, s: State)
    requires Run(cfg, server, actions) == Some(s) && s.phase.Returned?
    ensures s.phase.result.None? <==> StoredIn(s.fate) == ToSend(cfg)
    ensures s.phase.result.None? ==> ToSend(cfg) <= s.server && s.calls == multiset(ToSend(cfg))
    ensures s.phase.result.None? ==>
              s.skipped == Duplicates(cfg, |cfg.batch|) && s.uploaded == BlobBytes(cfg, ToSend(cfg), |cfg.batch|)
  {
    RunsKeepInv(cfg, server, actions);
    hide Contexts, BlobBytes, Duplicates, DigestsUpTo;
    assert Done(cfg, s);
    if s.phase.result.None? {
      forall d | d in s.fate ensures s.fate[d] == Stored {
        assert s.fate[d].With? ==> Job(s, s.fate[d].worker);
      }
      assert StoredIn(s.fate) == s.fate.Keys == ToSend(cfg);
      assert forall d :: d in ToSend(cfg) ==> s.calls[d] == 1;
      assert forall d :: d in s.calls ==> d in ToSend(cfg);
    } else {
      var d :| d in s.fate && s.fate[d] == Lost;
      assert d in ToSend(cfg) && d !in StoredIn(s.fate);
    }
  }

  /** If the server's answer was right about what it has, success means the whole batch is there. */
  lemma WholeBatchIsOnTheServer(cfg: Config, server: set<Digest>, actions: seq<Action>, s: State)
    requires Run(cfg, server, actions) == Some(s) && s.phase == Returned(None)
    requires forall i :: 0 <= i < |cfg.batch| && cfg.batch[i].digest !in cfg.needed ==> cfg.batch[i].digest in server
    ensures forall i :: 0 <= i < |cfg.batch| ==> cfg.batch[i].digest in s.server
  {
    SuccessMeansStored(cfg, server, actions, s);
    RunsKeepInv(cfg, server, actions);
  }

  /** At any moment of any run, whatever fails: no digest was asked for twice, none that the server had. */
  lemma SentAtMostOnce(cfg: Config, server: set<Digest>, actions: seq<Action>, s: State)
    requires Run(cfg, server, actions) == Some(s)
    ensures s.calls <= multiset(ToSend(cfg))
  {
    RunsKeepInv(cfg, server, actions);
    forall d ensures s.calls[d] <= multiset(ToSend(cfg))[d] {
      assert d in s.calls ==> d in s.sent;
    }
  }

  /** A context error is reported only when the context of the caller ended. */
  lemma ContextErrorsAreTheCallers(cfg: Config, server: set<Digest>, actions: seq<Action>, s: State)
    requires Run(cfg, server, actions) == Some(s) && s.phase == Returned(Some(ContextEnded))
    ensures s.callerDone
  {
    RunsKeepInv(cfg, server, actions);
  }

  /** A chunk is given up. */
  predicate Loses(a: Action) {
    a.Abort? || a.EncodeFails? || a.WaitEnds? || a.PutFails?
  }

  /** Something goes wrong by itself: a chunk cannot be encoded, a request fails, or the caller's context ends. */
  predicate Trouble(a: Action) {
    a.EncodeFails? || a.PutFails? || a.CallerCancels?
  }

  lemma {:induction false} LostExactly(cfg: Config, server: set<Digest>, actions: seq<Action>)
    requires Run(cfg, server, actions).Some?
    ensures SomeLost(Run(cfg, server, actions).value) <==> exists k :: 0 <= k < |actions| && Loses(actions[k])
    decreases |actions|
  {
    hide Inv, Enabled, Apply;
    if actions != [] {
      var before := actions[..|actions| - 1];
      LostExactly(cfg, server, before);
      RunsKeepInv(cfg, server, before);
      LostStaysLost(cfg, server, Run(cfg, server, before).value, actions[|actions| - 1]);
      assert forall k :: 0 <= k < |before| ==> before[k] == actions[k];
    }
  }

  /** Nothing has gone wrong so far. */
  predicate Untroubled(s: State) {
    !s.callerDone && !s.cancelled && s.firstErr.None? && s.phase != Closed(true) && (s.phase.Returned? ==> s.phase.result.None?)
  }

  lemma StepUntroubled(cfg: Config, server: set<Digest>, s: State, a: Action)
    requires Inv(cfg, server, s) && Untroubled(s) && Enabled(cfg, s, a) && !Trouble(a)
    ensures Untroubled(Apply(cfg, s, a))
  {
    hide Fates, Sent, Losses, Calls, Done, Duplicates, BlobBytes, StoredIn;
  }

  lemma {:induction false} TroubleFree(cfg: Config, server: set<Digest>, actions: seq<Action>)
    requires Run(cfg, server, actions).Some? && forall k :: 0 <= k < |actions| ==> !Trouble(actions[k])
    ensures Untroubled(Run(cfg, server, actions).value)
    decreases |actions|
  {
    hide Inv, Enabled, Apply;
    if actions != [] {
      var before := actions[..|actions| - 1];
      TroubleFree(cfg, server, before);
      RunsKeepInv(cfg, server, before);
      StepUntroubled(cfg, server, Run(cfg, server, before).value, actions[|actions| - 1]);
    }
  }

  /** A failure is reported exactly when some chunk was given up, and then something went wrong by itself:
      cancelling one another the workers never fail a batch on their own. */
  lemma FailureHasACause(cfg: Config, server: set<Digest>, actions: seq<Action>, s: State)
    requires Run(cfg, server, actions) == Some(s) && s.phase.Returned?
    ensures s.phase.result.Some? <==> exists k :: 0 <= k < |actions| && Loses(actions[k])
    ensures s.phase.result.Some? ==> exists k :: 0 <= k < |actions| && Trouble(actions[k])
  {
    hide Inv, Fates, Sent, Losses, Contexts, Calls, Loses, Trouble;
    LostExactly(cfg, server, actions);
    ReturnMeans(cfg, server, actions, s);
    if forall k :: 0 <= k < |actions| ==> !Trouble(actions[k]) {
      TroubleFree(cfg, server, actions);
    }
  }

  lemma ReturnMeans(cfg: Config, server: set<Digest>, actions: seq<Action>, s: State)
    requires Run(cfg, server, actions) == Some(s) && s.phase.Returned?
    ensures s.phase.result.Some? <==> SomeLost(s)
  {
    RunsKeepInv(cfg, server, actions);
    hide Fates, Sent, Losses, Contexts, Calls, SomeLost, Duplicates, BlobBytes;
  }

  // ----- progress -----

  /** A step of the protocol itself, not of its surroundings. */
  predicate OwnStep(a: Action) {
    !a.CallerCancels? && !a.OthersStore?
  }

  /** Until it returns, the batch is never stuck. */
  lemma NeverStuck(cfg: Config, server: set<Digest>, actions: seq<Action>, s: State) returns (a: Action)
    requires Run(cfg, server, actions) == Some(s) && !s.phase.Returned?
    ensures OwnStep(a) && Enabled(cfg, s, a)
  {
    RunsKeepInv(cfg, server, actions);
    a := OwnStepExists(cfg, server, s);
  }

  lemma OwnStepExists(cfg: Config, server: set<Digest>, s: State) returns (a: Action)
    requires Inv(cfg, server, s) && !s.phase.Returned?
    ensures OwnStep(a) && Enabled(cfg, s, a)
  {
    hide Fates, Sent, Losses, Calls, Done, Duplicates, BlobBytes, StoredIn;
    if w: nat :| w < |s.workers| && !s.workers[w].Idle? && !s.workers[w].Exited? {
      a := match s.workers[w]
        case Encoding(_) => EncodeOk(w)
        case Waiting(_) => WaitOk(w)
        case Putting(_) => PutOk(w)
        case _ => CancelRest(w);
    } else if w: nat :| w < |s.workers| && s.workers[w].Idle? {
      a := if s.phase.Closed? then Quit(w) else if Wanted(cfg, s) then HandOff(w)
           else if s.next < |cfg.batch| then Skip else Close;
    } else {
      assert s.workers[0].Exited?;
      a := if s.phase.Closed? then Return else if Wanted(cfg, s) then Abort
           else if s.next < |cfg.batch| then Skip else Close;
    }
  }

  function Weight(w: Worker): nat {
    match w
    case Idle => 1
    case Encoding(_) => 5
    case Waiting(_) => 4
    case Putting(_) => 3
    case Failing => 2
    case Exited => 0
  }

  function Weights(workers: seq<Worker>): nat {
    if workers == [] then 0 else Weights(workers[..|workers| - 1]) + Weight(workers[|workers| - 1])
  }

  /** A bound on the number of steps that are left. */
  function Remaining(cfg: Config, s: State): nat
    requires s.next <= |cfg.batch|
  {
    5 * (|cfg.batch| - s.next) + Weights(s.workers)
    + (if s.phase.Dispatching? then 2 else if s.phase.Closed? then 1 else 0) + if s.callerDone then 0 else 1
  }

  lemma {:induction false} WeightsUpdate(workers: seq<Worker>, w: nat, x: Worker)
    requires w < |workers|
    ensures Weights(workers[w := x]) == Weights(workers) - Weight(workers[w]) + Weight(x)
  {
    var n := |workers| - 1;
    if w < n {
      WeightsUpdate(workers[..n], w, x);
      assert workers[w := x][..n] == workers[..n][w := x];
    } else {
      assert workers[w := x][..n] == workers[..n];
    }
  }

  /** Every step but a change made by somebody else brings the end nearer. */
  lemma StepsRunOut(cfg: Config, server: set<Digest>, s: State, a: Action)
    requires Inv(cfg, server, s) && Enabled(cfg, s, a) && !a.OthersStore?
    ensures Apply(cfg, s, a).next <= |cfg.batch| && Remaining(cfg, Apply(cfg, s, a)) < Remaining(cfg, s)
  {
    hide Fates, Losses, Contexts, Calls, Done, Duplicates, BlobBytes, StoredIn, Weights, DigestsUpTo;
    match a {
      case HandOff(w) => WeightsUpdate(s.workers, w, Encoding(cfg.batch[s.next].digest));
      case EncodeOk(w) =>
        var d := s.workers[w].digest;
        WeightsUpdate(s.workers, w, if cfg.throttled then Waiting(d) else Putting(d));
      case EncodeFails(w) => WeightsUpdate(s.workers, w, Failing);
      case WaitOk(w) => WeightsUpdate(s.workers, w, Putting(s.workers[w].digest));
      case WaitEnds(w) => WeightsUpdate(s.workers, w, Exited);
      case PutOk(w) => WeightsUpdate(s.workers, w, Idle);
      case PutFails(w, _) => WeightsUpdate(s.workers, w, Failing);
      case CancelRest(w) => WeightsUpdate(s.workers, w, Exited);
      case Quit(w) => WeightsUpdate(s.workers, w, Exited);
      case _ =>
    }
  }

  lemma OnlyTheBatchIsStored(cfg: Config, server: set<Digest>, s: State, a: Action)
    requires Inv(cfg, server, s) && Enabled(cfg, s, a) && !a.OthersStore?
    ensures s.server <= Apply(cfg, s, a).server <= s.server + ToSend(cfg)
  {
    hide Sent, Losses, Contexts, Calls, Done, Duplicates, BlobBytes, StoredIn;
    assert Sent(cfg, s);
    if a.PutOk? || a.PutFails? {
      assert Job(s, a.w);
      SentIsToSend(cfg, s);
    }
  }

  lemma SentIsToSend(cfg: Config, s: State)
    requires Sent(cfg, s)
    ensures s.sent <= ToSend(cfg)
  {}

  /** The whole call under an arbitrary scheduler, cancelled or failing at any point: it always
      returns, and what it returns ends a run. */
  method Flush(cfg: Config, server: set<Digest>) returns (result: Option<Failure>, s: State, ghost actions: seq<Action>)
    ensures Run(cfg, server, actions) == Some(s) && s.phase == Returned(result)
    ensures result.None? <==> StoredIn(s.fate) == ToSend(cfg)
    ensures server <= s.server <= server + ToSend(cfg)
    ensures result.None? ==> ToSend(cfg) <= s.server
    ensures result.Some? ==> exists k :: 0 <= k < |actions| && Trouble(actions[k])
  {
    hide Inv, Enabled, Apply, Remaining, StoredIn, ToSend, Trouble, Loses;
    s, actions := Start(cfg, server), [];
    StartHasInv(cfg, server);
    while !s.phase.Returned?
      invariant Inv(cfg, server, s) && s.next <= |cfg.batch| && Run(cfg, server, actions) == Some(s)
      invariant server <= s.server <= server + ToSend(cfg)
      decreases Remaining(cfg, s)
    {
      ghost var own := NeverStuck(cfg, server, actions, s);
      var a :| Enabled(cfg, s, a) && !a.OthersStore?;
      StepKeepsInv(cfg, server, s, a);
      StepsRunOut(cfg, server, s, a);
      OnlyTheBatchIsStored(cfg, server, s, a);
      ghost var longer := actions + [a];
      assert longer[..|longer| - 1] == actions;
      s, actions := Apply(cfg, s, a), longer;
    }
    result := s.phase.result;
    SuccessMeansStored(cfg, server, actions, s);
    FailureHasACause(cfg, server, actions, s);
  }
}
