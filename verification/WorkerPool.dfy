/** How many uploads run at once, who hears of an error, and that uploads wait for their turn. */
module WorkerPool {
  import opened Wrappers
  import opened FlushBatch

  lemma OneMore(cfg: Config, server: set<Digest>, actions: seq<Action>, s: State, a: Action)
    requires Run(cfg, server, actions) == Some(s) && Enabled(cfg, s, a)
    ensures Run(cfg, server, actions + [a]) == Some(Apply(cfg, s, a))
  {
    hide Enabled, Apply;
    assert (actions + [a])[..|actions|] == actions;
  }

  // ----- at most so many -----

  /** The workers that have a chunk in hand. */
  function Busy(s: State): set<nat> {
    set w: nat | w < |s.workers| && Job(s, w)
  }

  /** The workers that have a request under way. */
  function Uploading(s: State): set<nat> {
    set w: nat | w < |s.workers| && s.workers[w].Putting?
  }

  lemma {:induction false} UpTo(ws: set<nat>, n: nat)
    requires forall w :: w in ws ==> w < n
    ensures |ws| <= n
    decreases n
  {
    if n > 0 {
      UpTo(ws - {n - 1}, n - 1);
      assert ws <= (ws - {n - 1}) + {n - 1};
      Smaller(ws, (ws - {n - 1}) + {n - 1});
    } else {
      assert ws == {};
    }
  }

  lemma Smaller<T>(a: set<T>, b: set<T>)
    requires a <= b
    ensures |a| <= |b|
  {
    assert b == a + (b - a);
  }

  /** Workers with different chunks are at most as many as there are chunks. */
  lemma {:induction false} OneEach(s: State, ws: set<nat>, ds: set<Digest>)
    requires forall w :: w in ws ==> Job(s, w) && s.workers[w].digest in ds
    requires forall v, w :: v in ws && w in ws && v != w && Job(s, v) && Job(s, w) ==>
                              s.workers[v].digest != s.workers[w].digest
    ensures |ws| <= |ds|
    decreases ws
  {
    if w :| w in ws {
      OneEach(s, ws - {w}, ds - {s.workers[w].digest});
    }
  }

  lemma BusyAreApart(cfg: Config, server: set<Digest>, s: State)
    requires Inv(cfg, server, s)
    ensures forall w :: w in Busy(s) ==> Job(s, w) && s.workers[w].digest in ToSend(cfg)
    ensures forall v, w :: v in Busy(s) && w in Busy(s) && v != w && Job(s, v) && Job(s, w) ==>
                             s.workers[v].digest != s.workers[w].digest
    ensures |s.workers| == WorkerCount(cfg)
  {
    hide Losses, Contexts, Calls, Done, Duplicates, BlobBytes, StoredIn, DigestsUpTo;
  }

  /** At any moment of any run no more chunks are in hand, and so no more requests under way, than the
      limit allows, and never more than there are chunks to send. */
  lemma PoolIsBounded(cfg: Config, server: set<Digest>, actions: seq<Action>, s: State)
    requires Run(cfg, server, actions) == Some(s)
    ensures Uploading(s) <= Busy(s)
    ensures |Busy(s)| <= if cfg.concurrency > 1 then cfg.concurrency else 1
    ensures |Busy(s)| <= |ToSend(cfg)|
  {
    hide Inv;
    RunsKeepInv(cfg, server, actions);
    BusyAreApart(cfg, server, s);
    UpTo(Busy(s), |s.workers|);
    OneEach(s, Busy(s), ToSend(cfg));
    assert forall w: nat :: w < |s.workers| && s.workers[w].Putting? ==> Job(s, w) by { PuttingIsJob(s); }
  }

  lemma PuttingIsJob(s: State)
    ensures forall w: nat :: w < |s.workers| && s.workers[w].Putting? ==> Job(s, w)
  {}

  // ----- and so many -----

  /** The first `j` workers have a chunk in hand, the others none, and nothing has gone wrong. */
  predicate Handed(cfg: Config, s: State, j: nat) {
    && s.phase.Dispatching? && j <= |s.workers| == WorkerCount(cfg) && |s.sent| == j
    && forall w :: 0 <= w < |s.workers| ==> if w < j then s.workers[w].Encoding? else s.workers[w].Idle?
  }

  predicate Quiet(actions: seq<Action>) {
    forall k :: 0 <= k < |actions| ==> !Trouble(actions[k]) && !actions[k].WaitEnds?
  }

  lemma SentSoFar(cfg: Config, server: set<Digest>, s: State)
    requires Inv(cfg, server, s) && s.phase.Dispatching?
    ensures s.next <= |cfg.batch| && s.sent == cfg.needed * DigestsUpTo(cfg, s.next) && s.sent <= ToSend(cfg)
  {
    hide Fates, Losses, Contexts, Calls, Done, Duplicates, BlobBytes, StoredIn;
  }

  lemma SkipsKeepHanded(cfg: Config, s: State, j: nat)
    requires Handed(cfg, s, j) && Enabled(cfg, s, Skip)
    ensures Handed(cfg, Apply(cfg, s, Skip), j) && Apply(cfg, s, Skip).next == s.next + 1
  {}

  lemma HandOffAdds(cfg: Config, s: State, j: nat)
    requires Handed(cfg, s, j) && j < |s.workers| && Wanted(cfg, s)
    ensures Enabled(cfg, s, HandOff(j)) && Handed(cfg, Apply(cfg, s, HandOff(j)), j + 1)
  {}

  lemma NobodyHanded(cfg: Config, server: set<Digest>)
    ensures Handed(cfg, Start(cfg, server), 0) && Run(cfg, server, []) == Some(Start(cfg, server))
  {}

  lemma CanSkip(cfg: Config, s: State, j: nat)
    requires Handed(cfg, s, j) && !Wanted(cfg, s) && s.next < |cfg.batch|
    ensures Enabled(cfg, s, Skip)
  {}

  lemma HandedMeans(cfg: Config, s: State, j: nat)
    requires Handed(cfg, s, j)
    ensures s.phase.Dispatching? && |s.workers| == WorkerCount(cfg) && |s.sent| == j
  {}

  /** With `j` chunks handed over and more to send, the dispatcher gets to the next one. */
  lemma NextWanted(cfg: Config, server: set<Digest>, j: nat, before: seq<Action>, s0: State)
    returns (actions: seq<Action>, s: State)
    requires Run(cfg, server, before) == Some(s0) && Handed(cfg, s0, j) && Quiet(before) && j < |ToSend(cfg)|
    ensures Run(cfg, server, actions) == Some(s) && Handed(cfg, s, j) && Quiet(actions) && Wanted(cfg, s)
  {
    hide Inv, WorkerCount, Run, ToSend, Enabled, Apply, Handed, Wanted;
    actions, s := before, s0;
    RunsKeepInv(cfg, server, actions);
    HandedMeans(cfg, s, j);
    SentSoFar(cfg, server, s);
    while !Wanted(cfg, s)
      invariant Run(cfg, server, actions) == Some(s) && Handed(cfg, s, j) && Quiet(actions)
      invariant Inv(cfg, server, s) && s.next <= |cfg.batch| && s.phase.Dispatching?
      decreases |cfg.batch| - s.next
    {
      SentSoFar(cfg, server, s);
      HandedMeans(cfg, s, j);
      if s.next == |cfg.batch| {
        AllSent(cfg, s);
      }
      CanSkip(cfg, s, j);
      OneMore(cfg, server, actions, s, Skip);
      StepKeepsInv(cfg, server, s, Skip);
      SkipsKeepHanded(cfg, s, j);
      actions, s := actions + [Skip], Apply(cfg, s, Skip);
      HandedMeans(cfg, s, j);
    }
  }

  lemma {:induction false} HandOver(cfg: Config, server: set<Digest>, j: nat) returns (actions: seq<Action>, s: State)
    requires j <= |ToSend(cfg)| && j <= WorkerCount(cfg)
    ensures Run(cfg, server, actions) == Some(s) && Handed(cfg, s, j) && Quiet(actions)
    decreases j
  {
    hide Inv, WorkerCount, Run, ToSend, Enabled, Apply, Handed, Wanted;
    NobodyHanded(cfg, server);
    if j == 0 {
      actions, s := [], Start(cfg, server);
    } else {
      actions, s := HandOver(cfg, server, j - 1);
      actions, s := NextWanted(cfg, server, j - 1, actions, s);
      HandedMeans(cfg, s, j - 1);
      HandOffAdds(cfg, s, j - 1);
      OneMore(cfg, server, actions, s, HandOff(j - 1));
      actions, s := actions + [HandOff(j - 1)], Apply(cfg, s, HandOff(j - 1));
    }
  }

  lemma AllSent(cfg: Config, s: State)
    requires s.next == |cfg.batch| && s.sent == cfg.needed * DigestsUpTo(cfg, s.next)
    ensures s.sent == ToSend(cfg)
  {}

  /** Of `k` workers with a chunk in hand the first `m` have requests under way. */
  predicate Started(cfg: Config, s: State, m: nat, k: nat) {
    && m <= k <= |s.workers|
    && forall w :: 0 <= w < k ==> if w < m then s.workers[w].Putting? else s.workers[w].Encoding?
  }

  lemma {:induction false} StartPuts(cfg: Config, server: set<Digest>, m: nat, k: nat, before: seq<Action>, s0: State)
    returns (actions: seq<Action>, s: State)
    requires Run(cfg, server, before) == Some(s0) && Started(cfg, s0, 0, k) && Quiet(before) && m <= k
    ensures Run(cfg, server, actions) == Some(s) && Started(cfg, s, m, k) && Quiet(actions)
    decreases m
  {
    hide Run;
    if m == 0 {
      actions, s := before, s0;
    } else {
      actions, s := StartPuts(cfg, server, m - 1, k, before, s0);
      OneMore(cfg, server, actions, s, EncodeOk(m - 1));
      actions, s := actions + [EncodeOk(m - 1)], Apply(cfg, s, EncodeOk(m - 1));
      if cfg.throttled {
        OneMore(cfg, server, actions, s, WaitOk(m - 1));
        actions, s := actions + [WaitOk(m - 1)], Apply(cfg, s, WaitOk(m - 1));
      }
    }
  }

  lemma NeededAtLeast(cfg: Config)
    ensures |ToSend(cfg)| <= |cfg.needed|
  {
    hide DigestsUpTo;
    Smaller(ToSend(cfg), cfg.needed);
  }

  lemma {:induction false} Below(n: nat) returns (ws: set<nat>)
    ensures |ws| == n && forall w: nat :: w in ws <==> w < n
  {
    if n == 0 {
      ws := {};
    } else {
      ws := Below(n - 1);
      ws := ws + {n - 1};
    }
  }

  /** The limit is used: without anything going wrong as many requests can be under way at once as it
      allows, or as there are chunks to send if they are fewer. */
  lemma PoolIsUsed(cfg: Config, server: set<Digest>) returns (actions: seq<Action>, s: State)
    ensures Run(cfg, server, actions) == Some(s) && Quiet(actions)
    ensures var limit := if cfg.concurrency > 1 then cfg.concurrency else 1;
            |Uploading(s)| >= if limit < |ToSend(cfg)| then limit else |ToSend(cfg)|
  {
    hide Run, ToSend;
    NeededAtLeast(cfg);
    var limit := if cfg.concurrency > 1 then cfg.concurrency else 1;
    var k := if limit < |ToSend(cfg)| then limit else |ToSend(cfg)|;
    actions, s := HandOver(cfg, server, k);
    actions, s := StartPuts(cfg, server, k, k, actions, s);
    var ws := Below(k);
    assert ws <= Uploading(s);
    Smaller(ws, Uploading(s));
  }

  // ----- errors -----

  /** The error that an action runs into. */
  function ErrorOf(s: State, a: Action): Option<Failure> {
    match a
    case EncodeFails(w) => if w < |s.workers| && s.workers[w].Encoding? then Some(EncodeFailed(s.workers[w].digest)) else None
    case PutFails(w, _) => if w < |s.workers| && s.workers[w].Putting? then Some(PutFailed(s.workers[w].digest)) else None
    case WaitEnds(_) => Some(ContextEnded)
    case _ => None
  }

  /** The first error of a run. */
  function FirstError(cfg: Config, server: set<Digest>, actions: seq<Action>): Option<Failure>
    requires Run(cfg, server, actions).Some?
    decreases |actions|
  {
    if actions == [] then None else
      var before, last := actions[..|actions| - 1], actions[|actions| - 1];
      var first := FirstError(cfg, server, before);
      if first.Some? then first else ErrorOf(Run(cfg, server, before).value, last)
  }

  lemma StepRecords(cfg: Config, s: State, a: Action)
    requires Enabled(cfg, s, a)
    ensures Apply(cfg, s, a).firstErr == if s.firstErr.Some? then s.firstErr else ErrorOf(s, a)
    ensures Apply(cfg, s, a).phase.Returned? ==>
              if a.Return? then Reports(s.firstErr, Apply(cfg, s, a).phase.result)
              else s.phase == Apply(cfg, s, a).phase
    ensures s.phase.Returned? && (forall w :: 0 <= w < |s.workers| ==> s.workers[w].Exited?) ==> ErrorOf(s, a).None?
    ensures a.Return? ==> ErrorOf(s, a).None?
  {}

  predicate Reports(first: Option<Failure>, result: Option<Failure>) {
    result == first || (first.None? && result == Some(ContextEnded))
  }

  lemma AllExited(cfg: Config, server: set<Digest>, s: State)
    requires Inv(cfg, server, s) && s.phase.Returned?
    ensures forall w :: 0 <= w < |s.workers| ==> s.workers[w].Exited?
  {}

  lemma {:induction false} FirstIsRecorded(cfg: Config, server: set<Digest>, actions: seq<Action>)
    requires Run(cfg, server, actions).Some?
    ensures Run(cfg, server, actions).value.firstErr == FirstError(cfg, server, actions)
    ensures var s := Run(cfg, server, actions).value;
            s.phase.Returned? ==> Reports(s.firstErr, s.phase.result)
    decreases |actions|
  {
    hide Apply, Enabled, ErrorOf, Inv;
    if actions != [] {
      var before := actions[..|actions| - 1];
      FirstIsRecorded(cfg, server, before);
      RunsKeepInv(cfg, server, before);
      var s := Run(cfg, server, before).value;
      StepRecords(cfg, s, actions[|actions| - 1]);
      if s.phase.Returned? {
        AllExited(cfg, server, s);
      }
    }
  }

  /** The call reports the first error that a worker ran into, and the end of the context only when no
      worker ran into one. */
  lemma FirstErrorWins(cfg: Config, server: set<Digest>, actions: seq<Action>, s: State)
    requires Run(cfg, server, actions) == Some(s) && s.phase.Returned?
    ensures FirstError(cfg, server, actions).Some? ==> s.phase.result == FirstError(cfg, server, actions)
    ensures FirstError(cfg, server, actions).None? ==> s.phase.result.None? || s.phase.result == Some(ContextEnded)
  {
    FirstIsRecorded(cfg, server, actions);
  }

  /** From any state some run gets to the end of the call, and an error that was met by then is its result. */
  lemma GetsToTheEnd(cfg: Config, server: set<Digest>, before: seq<Action>, s0: State) returns (actions: seq<Action>, s: State)
    requires Run(cfg, server, before) == Some(s0)
    ensures Run(cfg, server, actions) == Some(s) && s.phase.Returned? && before <= actions
    ensures s0.firstErr.Some? ==> s.phase.result == s0.firstErr
    ensures s0.server <= s.server
  {
    hide Run, Enabled, Apply, Inv;
    actions, s := before, s0;
    RunsKeepInv(cfg, server, actions);
    NextInBatch(cfg, server, s);
    while !s.phase.Returned?
      invariant Run(cfg, server, actions) == Some(s) && before <= actions && s.next <= |cfg.batch| && Inv(cfg, server, s)
      invariant (s0.firstErr.Some? ==> s.firstErr == s0.firstErr) && s0.server <= s.server
      decreases Remaining(cfg, s)
    {
      var a := NeverStuck(cfg, server, actions, s);
      OneMore(cfg, server, actions, s, a);
      StepKeepsInv(cfg, server, s, a);
      StepsRunOut(cfg, server, s, a);
      StepRecords(cfg, s, a);
      ServerGrows(cfg, s, a);
      actions, s := actions + [a], Apply(cfg, s, a);
    }
    FirstIsRecorded(cfg, server, actions);
  }

  lemma NextInBatch(cfg: Config, server: set<Digest>, s: State)
    requires Inv(cfg, server, s)
    ensures s.next <= |cfg.batch|
  {
    hide Fates, Losses, Contexts, Calls, Done, Duplicates, BlobBytes, StoredIn;
  }

  lemma ServerGrows(cfg: Config, s: State, a: Action)
    requires Enabled(cfg, s, a)
    ensures s.server <= Apply(cfg, s, a).server
  {}

  lemma {:induction false} QuietHasNoError(cfg: Config, server: set<Digest>, actions: seq<Action>)
    requires Run(cfg, server, actions).Some? && Quiet(actions)
    ensures Run(cfg, server, actions).value.firstErr.None?
    decreases |actions|
  {
    hide Apply, Enabled;
    if actions != [] {
      QuietHasNoError(cfg, server, actions[..|actions| - 1]);
      StepRecords(cfg, Run(cfg, server, actions[..|actions| - 1]).value, actions[|actions| - 1]);
    }
  }

  lemma FailsThere(cfg: Config, server: set<Digest>, before: seq<Action>, s: State, a: Action)
    returns (actions: seq<Action>, end: State)
    requires Run(cfg, server, before) == Some(s) && Quiet(before) && Enabled(cfg, s, a) && ErrorOf(s, a).Some?
    ensures Run(cfg, server, actions) == Some(end) && end.phase == Returned(ErrorOf(s, a))
    ensures Apply(cfg, s, a).server <= end.server
  {
    hide Run, Enabled, Apply, ErrorOf;
    QuietHasNoError(cfg, server, before);
    OneMore(cfg, server, before, s, a);
    StepRecords(cfg, s, a);
    actions, end := GetsToTheEnd(cfg, server, before + [a], Apply(cfg, s, a));
  }

  /** When there is anything to send, the call can fail for a chunk that cannot be encoded, and for a
      request that fails, whether the server got the blob or not. */
  lemma EveryFailureHappens(cfg: Config, server: set<Digest>, landed: bool)
    returns (encode: seq<Action>, put: seq<Action>, d: Digest, d': Digest, end: State, end': State)
    requires ToSend(cfg) != {}
    ensures Run(cfg, server, encode) == Some(end) && end.phase == Returned(Some(EncodeFailed(d)))
    ensures Run(cfg, server, put) == Some(end') && end'.phase == Returned(Some(PutFailed(d')))
    ensures landed ==> d' in end'.server
  {
    hide Run, ToSend;
    assert |ToSend(cfg)| > 0;
    NeededAtLeast(cfg);
    var actions, s := HandOver(cfg, server, 1);
    d := s.workers[0].digest;
    encode, end := FailsThere(cfg, server, actions, s, EncodeFails(0));
    actions, s := StartPuts(cfg, server, 1, 1, actions, s);
    d' := s.workers[0].digest;
    put, end' := FailsThere(cfg, server, actions, s, PutFails(0, landed));
  }

  /** A worker that ran into an error takes no more chunks, and before it leaves it ends the context of
      the others, unless the end of the context was the error. */
  predicate Stopped(s: State, w: nat) {
    w < |s.workers| && (s.workers[w].Failing? || s.workers[w].Exited?)
  }

  lemma {:induction false} FailedWorkerStops(cfg: Config, server: set<Digest>, actions: seq<Action>, k: nat, n: nat)
    requires k < n <= |actions| && Run(cfg, server, actions[..n]).Some?
    requires Run(cfg, server, actions[..k]).Some? && Run(cfg, server, actions[..k + 1]).Some?
    requires actions[k].EncodeFails? || actions[k].PutFails?
    ensures Stops(Run(cfg, server, actions[..n]).value, actions[k].w)
    decreases n
  {
    hide Apply, Enabled, Stopped;
    assert actions[..n][..n - 1] == actions[..n - 1] && actions[..n][n - 1] == actions[n - 1];
    var s := Run(cfg, server, actions[..n - 1]).value;
    if k < n - 1 {
      FailedWorkerStops(cfg, server, actions, k, n - 1);
      StaysStopped(cfg, s, actions[n - 1], actions[k].w);
    } else {
      StopsThere(cfg, s, actions[k]);
    }
  }

  /** Has failed and, if it left, ended the context. */
  predicate Stops(s: State, w: nat) {
    Stopped(s, w) && (s.workers[w].Exited? ==> s.cancelled)
  }

  lemma StaysStopped(cfg: Config, s: State, a: Action, w: nat)
    requires Stops(s, w) && Enabled(cfg, s, a)
    ensures Stops(Apply(cfg, s, a), w)
  {}

  lemma StopsThere(cfg: Config, s: State, a: Action)
    requires Enabled(cfg, s, a) && (a.EncodeFails? || a.PutFails?)
    ensures Stops(Apply(cfg, s, a), a.w)
  {}

  // ----- the throttle -----

  function CountTurns(actions: seq<Action>): nat {
    if actions == [] then 0 else
      CountTurns(actions[..|actions| - 1]) + if actions[|actions| - 1].WaitOk? then 1 else 0
  }

  function CountEncoded(actions: seq<Action>): nat {
    if actions == [] then 0 else
      CountEncoded(actions[..|actions| - 1]) + if actions[|actions| - 1].EncodeOk? then 1 else 0
  }

  /** With a throttle each request was let through by it; without one each encoded chunk is a request. */
  lemma {:induction false} RequestsWaitTheirTurn(cfg: Config, server: set<Digest>, actions: seq<Action>)
    requires Run(cfg, server, actions).Some?
    ensures |Run(cfg, server, actions).value.calls| == if cfg.throttled then CountTurns(actions) else CountEncoded(actions)
    ensures !cfg.throttled ==> NobodyWaits(Run(cfg, server, actions).value)
    decreases |actions|
  {
    hide Apply, Enabled;
    if actions != [] {
      var before := actions[..|actions| - 1];
      RequestsWaitTheirTurn(cfg, server, before);
      TurnStep(cfg, Run(cfg, server, before).value, actions[|actions| - 1]);
    }
  }

  lemma TurnStep(cfg: Config, s: State, a: Action)
    requires Enabled(cfg, s, a) && (!cfg.throttled ==> NobodyWaits(s))
    ensures |Apply(cfg, s, a).calls| == |s.calls| + if (if cfg.throttled then a.WaitOk? else a.EncodeOk?) then 1 else 0
    ensures !cfg.throttled ==> NobodyWaits(Apply(cfg, s, a))
  {}

  predicate NobodyWaits(s: State) {
    forall w :: 0 <= w < |s.workers| ==> !s.workers[w].Waiting?
  }
}
