/** The file watcher's event loop: changes gather in a map, a timer that every change pushes back
    sends them off as a batch, and an overflow signal asks for a full rescan when changes are lost. */
module Watcher {
  import opened Wrappers

  const MAX_PENDING: nat := 50000
  const QUEUE: nat := 8
  const STRETCH: nat := 10

  datatype Change = Change(path: string, removed: bool, isDir: bool)

  /** A file system event with what the watcher finds out about it: whether it only concerns the
      mode, whether it lies outside the roots or is ignored, and, while the entry exists, whether
      it is a directory. `tree` are the files found below a new directory. */
  datatype Event = Event(name: string, chmodOnly: bool, ignored: bool, create: bool, gone: bool,
                         isDir: Option<bool>, tree: seq<string>)

  datatype Occurrence =
    | FileEvent(event: Event, at: int)
    | WatchError
    | TimerFires(at: int)
    | EngineTakesBatch
    | EngineRescans

  /** The timer of Run, and until when changes may still push it back. */
  datatype Timer = Timer(running: bool, due: int, stretchUntil: int)

  /** What the watcher holds between two occurrences. */
  datatype State = Holding(pending: map<string, Change>, timer: Timer, overflow: bool, changes: seq<seq<Change>>, clock: int)

  /** What an occurrence came to: changes were recorded, or dropped with all that was pending; the timer
      handed the pending paths over, or kept them since the engine was behind; the engine rescanned. */
  datatype Record =
    | Seen(paths: set<string>)
    | Dropped(paths: set<string>)
    | Handed(paths: set<string>)
    | Kept(paths: set<string>)
    | Rescanned
    | Nothing

  function ChangeOf(e: Event): Change {
    Change(e.name, e.gone && e.isDir.None?, e.isDir == Some(true))
  }

  /** The files that come with a new directory. */
  function NewFiles(e: Event): seq<string> {
    if e.isDir == Some(true) && e.create then e.tree else []
  }

  predicate Counts(e: Event) {
    !e.chmodOnly && !e.ignored
  }

  function Set(files: seq<string>): set<string> {
    set f | f in files
  }

  /** The pending map with the files of a new directory. */
  function Queued(pending: map<string, Change>, files: seq<string>): map<string, Change> {
    if files == [] then pending else
      var last := files[|files| - 1];
      Queued(pending, files[..|files| - 1])[last := Change(last, false, false)]
  }

  lemma {:induction false} QueuedMeans(pending: map<string, Change>, files: seq<string>)
    requires Keyed(pending)
    ensures Keyed(Queued(pending, files)) && Queued(pending, files).Keys == pending.Keys + Set(files)
  {
    if files != [] {
      QueuedMeans(pending, files[..|files| - 1]);
      assert Set(files) == Set(files[..|files| - 1]) + {files[|files| - 1]};
    }
  }

  predicate Keyed(pending: map<string, Change>) {
    forall p :: p in pending ==> pending[p].path == p
  }

  /** The batch holds exactly the pending changes. */
  ghost predicate IsBatch(batch: seq<Change>, pending: map<string, Change>) {
    forall c :: c in batch <==> c.path in pending && pending[c.path] == c
  }

  /** The map after a batch was put back: entries that were there stay. */
  ghost predicate PutBackOn(now: map<string, Change>, before: map<string, Change>, batch: seq<Change>) {
    && Keyed(now)
    && (forall p :: p in before ==> p in now && now[p] == before[p])
    && (forall p :: p in now <==> p in before || exists c :: c in batch && c.path == p)
    && (forall p :: p in now && p !in before ==> now[p] in batch)
  }

  predicate Waiting(pending: map<string, Change>) {
    |pending| > 0
  }

  /** What an event that counts is about: its own path and the files of a new directory. */
  function PathsOf(e: Event): set<string> {
    {e.name} + Set(NewFiles(e))
  }

  /** The pending map after an event that counts. */
  function WithEvent(pending: map<string, Change>, e: Event): map<string, Change> {
    Queued(pending, NewFiles(e))[e.name := ChangeOf(e)]
  }

  /** The timer after an accepted change: started, or pushed back unless that would exceed the stretch. */
  function Pushed(t: Timer, debounce: int, at: int): Timer {
    if !t.running then Timer(true, at + debounce, at + STRETCH * debounce)
    else if at + debounce < t.stretchUntil then t.(due := at + debounce) else t
  }

  class Watcher {
    const debounce: int
    var pending: map<string, Change>
    var timer: Timer
    var overflow: bool
    var changes: seq<seq<Change>>
    var clock: int

    function State(): State
      reads this
    {
      Holding(pending, timer, overflow, changes, clock)
    }

    ghost predicate Valid()
      reads this
    {
      Good(debounce, State())
    }

    constructor (d: int, now: int)
      ensures Valid() && pending == map[] && !timer.running && !overflow && changes == []
      ensures debounce == if d <= 0 then 15 else d
    {
      debounce := if d <= 0 then 15 else d;
      pending, timer, overflow, changes, clock := map[], Timer(false, now, now), false, [], now;
    }

    /** Queues a signal unless one is queued already. */
    method SignalOverflow()
      modifies this`overflow
      ensures overflow
    {
      if !overflow {
        overflow := true;
      }
    }

    /** Queues the files below a new directory. */
    method AddNewTree(files: seq<string>)
      modifies this`pending
      ensures pending == Queued(old(pending), files)
    {
      for i := 0 to |files|
        invariant pending == Queued(old(pending), files[..i])
      {
        assert files[..i + 1][..i] == files[..i];
        pending := pending[files[i] := Change(files[i], false, false)];
      }
      assert files[..|files|] == files;
    }

    /** Records an event; the answer is whether it starts or prolongs a batch. */
    method HandleEvent(e: Event) returns (accepted: bool)
      requires Keyed(pending)
      modifies this`pending, this`overflow
      ensures Keyed(pending)
      ensures !Counts(e) ==> !accepted && pending == old(pending) && overflow == old(overflow)
      ensures Counts(e) ==>
                && accepted == (|WithEvent(old(pending), e)| <= MAX_PENDING)
                && if accepted then pending == WithEvent(old(pending), e) && overflow == old(overflow)
                   else pending == map[] && overflow
    {
      hide Keyed, Set, Queued;
      if e.chmodOnly || e.ignored {
        return false;
      }
      EventKeyed(pending, e);
      if e.isDir == Some(true) && e.create {
        AddNewTree(e.tree);
      } else {
        QueuedNothing(pending);
      }
      pending := pending[e.name := ChangeOf(e)];
      if |pending| > MAX_PENDING {
        pending := map[];
        NothingKeyed();
        SignalOverflow();
        return false;
      }
      return true;
    }

    /** A change arrives. It restarts the quiet period unless that would exceed the stretch. */
    method OnEvent(e: Event, at: int) returns (ghost r: Record)
      requires Valid() && at >= clock
      modifies this
      ensures Valid() && EventMoves(debounce, old(State()), e, at, r, State())
    {
      hide Keyed, Set, Queued, PathsOf;
      ghost var before := State();
      clock := at;
      var accepted := HandleEvent(e);
      r := if !Counts(e) then Nothing else if accepted then Seen(PathsOf(e)) else Dropped(PathsOf(e));
      if accepted {
        if !timer.running {
          timer := Timer(true, at + debounce, at + STRETCH * debounce);
        } else if at + debounce < timer.stretchUntil {
          timer := timer.(due := at + debounce);
        }
      }
      EventKeepsGood(debounce, before, e, at, r, State());
    }

    /** Events were dropped by the kernel. */
    method OnError()
      requires Valid()
      modifies this`overflow
      ensures Valid() && State() == old(State()).(overflow := true)
    {
      SignalOverflow();
    }

    /** Takes all pending changes, in any order. */
    method Drain() returns (batch: seq<Change>)
      requires Keyed(pending)
      modifies this`pending
      ensures pending == map[] && Keyed(pending) && !Waiting(pending) && (Waiting(old(pending)) <==> |batch| > 0)
      ensures IsBatch(batch, old(pending))
      ensures !Waiting(old(pending)) ==> old(pending) == map[]
    {
      batch := [];
      var left := pending;
      ghost var all := pending;
      while left != map[]
        invariant forall p :: p in left ==> p in all && left[p] == all[p]
        invariant forall c :: c in batch <==> c.path in all && c.path !in left && all[c.path] == c
        invariant |batch| + |left| == |all|
        decreases |left|
      {
        var p :| p in left;
        Smaller(left, p);
        ghost var before, had := batch, left;
        batch := batch + [left[p]];
        left := left - {p};
        assert forall c :: c in batch <==> c in before || c == all[p];
      }
      pending := map[];
    }

    /** Puts a batch back, except where something newer is pending. */
    method Restore(batch: seq<Change>)
      requires Keyed(pending)
      modifies this`pending
      ensures PutBackOn(pending, old(pending), batch)
    {
      for i := 0 to |batch|
        invariant Keyed(pending)
        invariant forall p :: p in old(pending) ==> p in pending && pending[p] == old(pending)[p]
        invariant forall p :: p in pending <==> p in old(pending) || exists j :: 0 <= j < i && batch[j].path == p
        invariant forall p :: p in pending && p !in old(pending) ==> pending[p] in batch
      {
        if batch[i].path !in pending {
          pending := pending[batch[i].path := batch[i]];
        }
      }
    }

    /** The quiet period is over: everything pending goes to the engine as one batch, or, when the
        engine is behind, stays pending for another period. */
    method OnTimer(at: int) returns (ghost r: Record)
      requires Valid() && timer.running && at >= timer.due && at >= clock
      modifies this
      ensures Valid() && TimerMoves(debounce, old(State()), at, r, State())
    {
      hide Keyed, IsBatch, PutBackOn;
      ghost var before, all := State(), pending;
      clock := at;
      timer := timer.(running := false);
      var batch := Drain();
      if |batch| == 0 {
        return Nothing;
      }
      if |changes| < QUEUE {
        changes := changes + [batch];
        r := Handed(all.Keys);
        assert changes[|changes| - 1] == batch;
      } else {
        Restore(batch);
        PutBack(pending, all, batch);
        timer := timer.(running := true, due := at + debounce);
        r := Kept(all.Keys);
      }
    }

    /** The engine takes the oldest batch. */
    method OnTake() returns (batch: Option<seq<Change>>)
      requires Valid()
      modifies this`changes
      ensures Valid() && (batch.None? <==> old(changes) == []) && (batch.Some? ==> batch.value == old(changes)[0])
      ensures State() == old(State()).(changes := if old(changes) == [] then [] else old(changes)[1..])
    {
      if changes == [] {
        return None;
      }
      batch := Some(changes[0]);
      changes := changes[1..];
    }

    /** The engine takes the overflow signal and rescans everything. */
    method OnRescan()
      requires Valid() && overflow
      modifies this`overflow
      ensures Valid() && State() == old(State()).(overflow := false)
    {
      overflow := false;
    }

    /** One pass of the loop, or the engine's doing. What cannot happen is passed over: a time before the
        clock, a timer that is not due, an overflow signal that is not there. */
    method Step(o: Occurrence) returns (ghost r: Record)
      requires Valid()
      modifies this
      ensures Valid() && Moves(debounce, old(State()), o, r, State())
    {
      hide Keyed, EventMoves, TimerMoves;
      r := Nothing;
      match o {
        case FileEvent(e, at) =>
          if at >= clock {
            r := OnEvent(e, at);
          }
        case WatchError => OnError();
        case TimerFires(at) =>
          if timer.running && at >= timer.due && at >= clock {
            r := OnTimer(at);
          }
        case EngineTakesBatch => var batch := OnTake();
        case EngineRescans =>
          if overflow {
            OnRescan();
            r := Rescanned;
          }
      }
    }

    /** Any run before shutdown, as a sequence of occurrences, with the states it goes through and what
        each occurrence came to. No change that was recorded or dropped is forgotten: it is pending, an
        overflow signal is queued, or it was handed over or covered by a rescan later. */
    method Run(script: seq<Occurrence>) returns (ghost states: seq<State>, ghost log: seq<Record>)
      requires Valid()
      modifies this
      ensures Valid() && IsRun(debounce, states, script, log)
      ensures states[0] == old(State()) && states[|script|] == State()
      ensures forall i, path :: 0 <= i < |script| && path in Recorded(log[i]) ==>
                path in pending || overflow || Answered(log, i, |script|, path)
    {
      hide Good, Moves, Answered, Recorded;
      states, log := [State()], [];
      for i := 0 to |script|
        invariant Valid() && |states| == i + 1 && |log| == i && states[0] == old(State()) && states[i] == State()
        invariant forall k :: 0 <= k < i ==> Moves(debounce, states[k], script[k], log[k], states[k + 1])
      {
        ghost var r := Step(script[i]);
        states, log := states + [State()], log + [r];
      }
      forall i, path | 0 <= i < |script| && path in Recorded(log[i])
        ensures path in pending || overflow || Answered(log, i, |script|, path)
      {
        NothingForgotten(debounce, states, script, log, i, |script|, path);
      }
    }
  }

  // ----- one occurrence -----

  /** The timer runs while something waits, and is never further than ten quiet periods ahead. */
  predicate Good(debounce: int, s: State) {
    && debounce > 0 && Keyed(s.pending) && |s.pending| <= MAX_PENDING && |s.changes| <= QUEUE
    && (Waiting(s.pending) ==> s.timer.running)
    && s.timer.stretchUntil <= s.clock + STRETCH * debounce
    && (s.timer.running ==> s.timer.due <= s.clock + STRETCH * debounce)
  }

  predicate EventMoves(debounce: int, s: State, e: Event, at: int, r: Record, s': State) {
    if !Counts(e) then s' == s.(clock := at) && r == Nothing
    else if |WithEvent(s.pending, e)| <= MAX_PENDING then
      && s' == s.(clock := at, pending := WithEvent(s.pending, e), timer := Pushed(s.timer, debounce, at))
      && r == Seen(PathsOf(e))
    else s' == s.(clock := at, pending := map[], overflow := true) && r == Dropped(PathsOf(e))
  }

  ghost predicate TimerMoves(debounce: int, s: State, at: int, r: Record, s': State) {
    if !Waiting(s.pending) then s' == s.(clock := at, timer := s.timer.(running := false)) && r == Nothing
    else if |s.changes| < QUEUE then
      && |s'.changes| == |s.changes| + 1 && IsBatch(s'.changes[|s.changes|], s.pending)
      && s' == s.(clock := at, timer := s.timer.(running := false), pending := map[],
                  changes := s.changes + [s'.changes[|s.changes|]])
      && r == Handed(s.pending.Keys)
    else s' == s.(clock := at, timer := s.timer.(due := at + debounce)) && r == Kept(s.pending.Keys)
  }

  ghost predicate Moves(debounce: int, s: State, o: Occurrence, r: Record, s': State) {
    match o
    case FileEvent(e, at) => if at >= s.clock then EventMoves(debounce, s, e, at, r, s') else s' == s && r == Nothing
    case WatchError => s' == s.(overflow := true) && r == Nothing
    case TimerFires(at) =>
      if s.timer.running && at >= s.timer.due && at >= s.clock then TimerMoves(debounce, s, at, r, s')
      else s' == s && r == Nothing
    case EngineTakesBatch => s' == s.(changes := if s.changes == [] then [] else s.changes[1..]) && r == Nothing
    case EngineRescans => s' == s.(overflow := false) && r == if s.overflow then Rescanned else Nothing
  }

  ghost predicate IsRun(debounce: int, states: seq<State>, script: seq<Occurrence>, log: seq<Record>) {
    && |states| == |script| + 1 && |log| == |script|
    && forall i :: 0 <= i < |script| ==> Moves(debounce, states[i], script[i], log[i], states[i + 1])
  }

  lemma EventKeyed(pending: map<string, Change>, e: Event)
    requires Keyed(pending)
    ensures Keyed(WithEvent(pending, e)) && WithEvent(pending, e).Keys == pending.Keys + PathsOf(e)
  {
    QueuedMeans(pending, NewFiles(e));
    hide Queued, Set;
  }

  lemma NothingKeyed()
    ensures Keyed(map[])
  {}

  lemma EventKeepsGood(debounce: int, s: State, e: Event, at: int, r: Record, s': State)
    requires Good(debounce, s) && at >= s.clock && EventMoves(debounce, s, e, at, r, s')
    ensures Good(debounce, s')
  {
    EventKeyed(s.pending, e);
    hide Keyed, WithEvent, PathsOf;
    NothingKeyed();
  }

  // ----- runs -----

  /** The paths that an occurrence reported. */
  function Recorded(r: Record): set<string> {
    if r.Seen? || r.Dropped? then r.paths else {}
  }

  /** The path was handed over, or everything rescanned, after `i`. */
  predicate Answered(log: seq<Record>, i: nat, n: nat, path: string)
    requires n <= |log|
  {
    exists j :: i < j < n && (log[j].Rescanned? || (log[j].Handed? && path in log[j].paths))
  }

  /** Putting a whole batch back on an empty map gives what was pending before. */
  lemma PutBack(now: map<string, Change>, all: map<string, Change>, batch: seq<Change>)
    requires Keyed(all) && IsBatch(batch, all) && PutBackOn(now, map[], batch)
    ensures now == all
  {
    forall p ensures p in now <==> p in all {
      assert p in all ==> all[p] in batch;
    }
  }

  lemma QueuedNothing(pending: map<string, Change>)
    ensures Queued(pending, []) == pending
  {}

  lemma Smaller<K, V>(m: map<K, V>, k: K)
    requires k in m
    ensures |m - {k}| == |m| - 1
  {
    assert m.Keys == (m - {k}).Keys + {k};
    assert |m.Keys| == |(m - {k}).Keys| + 1;
    assert |m| == |m.Keys| && |m - {k}| == |(m - {k}).Keys|;
  }

  // ----- what holds of every run -----

  lemma MoveKeepsGood(debounce: int, s: State, o: Occurrence, r: Record, s': State)
    requires Good(debounce, s) && Moves(debounce, s, o, r, s')
    ensures Good(debounce, s')
  {
    hide Keyed, EventMoves;
    NothingKeyed();
    if o.FileEvent? && o.at >= s.clock {
      EventKeepsGood(debounce, s, o.event, o.at, r, s');
    }
  }

  lemma {:induction false} RunsStayGood(debounce: int, states: seq<State>, script: seq<Occurrence>, log: seq<Record>, n: nat)
    requires IsRun(debounce, states, script, log) && Good(debounce, states[0]) && n < |states|
    ensures Good(debounce, states[n])
  {
    hide Good, Moves;
    if n > 0 {
      RunsStayGood(debounce, states, script, log, n - 1);
      MoveKeepsGood(debounce, states[n - 1], script[n - 1], log[n - 1], states[n]);
    }
  }

  /** What an occurrence does to a path that is pending. */
  lemma PendingMoves(debounce: int, s: State, o: Occurrence, r: Record, s': State, path: string)
    requires Keyed(s.pending) && Moves(debounce, s, o, r, s')
    ensures path in s'.pending <==>
              path in Recorded(r) * s'.pending.Keys || (path in s.pending && !r.Dropped? && !r.Handed?)
    ensures r.Seen? ==> r.paths <= s'.pending.Keys
    ensures r.Dropped? ==> s'.overflow
    ensures r.Dropped? || r.Handed? ==> s'.pending == map[]
    ensures r.Handed? || r.Kept? ==> r.paths == s.pending.Keys
    ensures s.overflow && !r.Rescanned? ==> s'.overflow
  {
    hide Keyed, WithEvent, PathsOf, IsBatch;
    if o.FileEvent? {
      EventKeyed(s.pending, o.event);
    }
  }

  /** In every run: what was reported is pending, an overflow signal is queued, or it was handed over or
      covered by a rescan later. */
  lemma {:induction false} NothingForgotten(debounce: int, states: seq<State>, script: seq<Occurrence>, log: seq<Record>,
                                            i: nat, n: nat, path: string)
    requires IsRun(debounce, states, script, log) && Good(debounce, states[0]) && i < n < |states|
    requires path in Recorded(log[i])
    ensures path in states[n].pending || states[n].overflow || Answered(log, i, n, path)
    decreases n
  {
    hide Good, Moves;
    GoodIsKeyed(debounce, states, script, log, n - 1);
    PendingMoves(debounce, states[n - 1], script[n - 1], log[n - 1], states[n], path);
    if i < n - 1 {
      NothingForgotten(debounce, states, script, log, i, n - 1, path);
    }
  }

  lemma GoodIsKeyed(debounce: int, states: seq<State>, script: seq<Occurrence>, log: seq<Record>, n: nat)
    requires IsRun(debounce, states, script, log) && Good(debounce, states[0]) && n < |states|
    ensures Keyed(states[n].pending)
  {
    RunsStayGood(debounce, states, script, log, n);
  }

  /** Nothing is pending, and so nothing handed over, that was not reported since it was last handed over
      or dropped. */
  lemma {:induction false} NothingInvented(debounce: int, states: seq<State>, script: seq<Occurrence>, log: seq<Record>,
                                           n: nat, path: string)
    requires IsRun(debounce, states, script, log) && Good(debounce, states[0]) && states[0].pending == map[]
    requires n < |states| && path in states[n].pending
    ensures exists i :: 0 <= i < n && log[i].Seen? && path in log[i].paths
                        && forall k :: i < k < n ==> !log[k].Handed? && !log[k].Dropped?
    decreases n
  {
    hide Good, Moves;
    if n > 0 {
      GoodIsKeyed(debounce, states, script, log, n - 1);
      PendingMoves(debounce, states[n - 1], script[n - 1], log[n - 1], states[n], path);
      if !(log[n - 1].Seen? && path in log[n - 1].paths) {
        NothingInvented(debounce, states, script, log, n - 1, path);
      }
    }
  }

  // ----- how long a change can wait -----

  /** The path went to the engine, or was dropped for a rescan, or the engine was behind. */
  predicate Settled(r: Record, path: string) {
    r.Dropped? || ((r.Handed? || r.Kept?) && path in r.paths)
  }

  predicate SettledBetween(log: seq<Record>, i: nat, n: nat, path: string)
    requires n <= |log|
  {
    exists k :: i < k < n && Settled(log[k], path)
  }

  /** The timer fires by then, however many changes arrive. */
  predicate FiresBy(s: State, path: string, latest: int) {
    path in s.pending && s.timer.running && s.timer.due <= latest && s.timer.stretchUntil <= latest
  }

  lemma MoveKeepsFiring(debounce: int, s: State, o: Occurrence, r: Record, s': State, path: string, latest: int)
    requires Keyed(s.pending) && Moves(debounce, s, o, r, s') && FiresBy(s, path, latest)
    ensures Settled(r, path) || FiresBy(s', path, latest)
  {
    hide Keyed, WithEvent, PathsOf, IsBatch;
    if o.FileEvent? {
      EventKeyed(s.pending, o.event);
    }
  }

  lemma StartsFiring(debounce: int, s: State, o: Occurrence, r: Record, s': State, path: string)
    requires Good(debounce, s) && Moves(debounce, s, o, r, s') && (r.Seen? || r.Kept?) && path in r.paths
    ensures FiresBy(s', path, s'.clock + STRETCH * debounce)
  {
    hide Keyed, WithEvent, PathsOf, IsBatch;
    if o.FileEvent? {
      EventKeyed(s.pending, o.event);
    }
  }

  lemma {:induction false} FiringLasts(debounce: int, states: seq<State>, script: seq<Occurrence>, log: seq<Record>,
                                       i: nat, n: nat, path: string)
    requires IsRun(debounce, states, script, log) && Good(debounce, states[0]) && i < n < |states|
    requires (log[i].Seen? || log[i].Kept?) && path in log[i].paths
    ensures SettledBetween(log, i, n, path) || FiresBy(states[n], path, states[i + 1].clock + STRETCH * debounce)
    decreases n
  {
    hide Good, Moves, Settled, FiresBy;
    RunsStayGood(debounce, states, script, log, n - 1);
    if i == n - 1 {
      StartsFiring(debounce, states[i], script[i], log[i], states[n], path);
    } else {
      FiringLasts(debounce, states, script, log, i, n - 1, path);
      GoodIsKeyed(debounce, states, script, log, n - 1);
      if FiresBy(states[n - 1], path, states[i + 1].clock + STRETCH * debounce) {
        MoveKeepsFiring(debounce, states[n - 1], script[n - 1], log[n - 1], states[n], path,
                        states[i + 1].clock + STRETCH * debounce);
      }
    }
  }

  /** However fast changes keep coming, a change goes to the engine at the latest when the timer event
      comes ten quiet periods after it, unless the engine is behind, and then ten periods after that, and
      so on; or everything was dropped and a rescan asked for. */
  lemma DeliveredInTime(debounce: int, states: seq<State>, script: seq<Occurrence>, log: seq<Record>,
                        i: nat, j: nat, path: string)
    requires IsRun(debounce, states, script, log) && Good(debounce, states[0]) && i < j < |script|
    requires (log[i].Seen? || log[i].Kept?) && path in log[i].paths
    requires script[j].TimerFires? && script[j].at >= states[j].clock
    requires script[j].at >= states[i + 1].clock + STRETCH * debounce
    ensures SettledBetween(log, i, j + 1, path)
  {
    hide Good, IsBatch;
    FiringLasts(debounce, states, script, log, i, j, path);
    if !SettledBetween(log, i, j, path) {
      assert Moves(debounce, states[j], script[j], log[j], states[j + 1]);
      assert Waiting(states[j].pending) by { assert path in states[j].pending.Keys; }
      assert Settled(log[j], path);
    }
  }

  // ----- when changes are dropped or kept back -----

  /** Everything is dropped exactly when more than 50000 paths would be pending, and a batch is kept back
      exactly when eight batches wait for the engine. */
  lemma LimitsExactly(debounce: int, s: State, o: Occurrence, r: Record, s': State)
    requires Keyed(s.pending) && Moves(debounce, s, o, r, s')
    ensures r.Dropped? <==>
              o.FileEvent? && o.at >= s.clock && Counts(o.event) && |s.pending.Keys + PathsOf(o.event)| > 50_000
    ensures r.Kept? <==>
              && o.TimerFires? && s.timer.running && o.at >= s.timer.due && o.at >= s.clock
              && s.pending != map[] && |s.changes| >= 8
    ensures r.Dropped? ==> s'.pending == map[] && s'.overflow
  {
    hide Keyed, WithEvent, IsBatch, PathsOf;
    if o.FileEvent? {
      EventKeyed(s.pending, o.event);
      assert |WithEvent(s.pending, o.event)| == |WithEvent(s.pending, o.event).Keys|;
    }
    assert |s.pending| == |s.pending.Keys|;
  }

  // ----- what a change says -----

  /** A path of an event's own, with what was found there, or a file of the new directory. */
  function Told(e: Event, path: string): Change {
    if path == e.name then Change(path, e.gone && e.isDir.None?, e.isDir == Some(true)) else Change(path, false, false)
  }

  lemma {:induction false} QueuedAt(pending: map<string, Change>, files: seq<string>, path: string)
    ensures path in Queued(pending, files) <==> path in pending || path in Set(files)
    ensures path in Set(files) ==> Queued(pending, files)[path] == Change(path, false, false)
    ensures path !in Set(files) && path in pending ==> Queued(pending, files)[path] == pending[path]
  {
    if files != [] {
      QueuedAt(pending, files[..|files| - 1], path);
      assert Set(files) == Set(files[..|files| - 1]) + {files[|files| - 1]};
    }
  }

  lemma ChangeMoves(debounce: int, s: State, o: Occurrence, r: Record, s': State, path: string)
    requires Moves(debounce, s, o, r, s')
    ensures r.Seen? && path in r.paths ==> o.FileEvent? && path in s'.pending && s'.pending[path] == Told(o.event, path)
    ensures path in s.pending && !r.Handed? && !r.Dropped? && !(r.Seen? && path in r.paths) ==>
              path in s'.pending && s'.pending[path] == s.pending[path]
  {
    hide Queued, Set, IsBatch;
    if o.FileEvent? {
      QueuedAt(s.pending, NewFiles(o.event), path);
    }
  }

  /** A change that is pending says what the last event about its path found. */
  lemma {:induction false} LastEventDecides(debounce: int, states: seq<State>, script: seq<Occurrence>, log: seq<Record>,
                                            i: nat, n: nat, path: string)
    requires IsRun(debounce, states, script, log) && i < n < |states|
    requires log[i].Seen? && path in log[i].paths
    requires forall k :: i < k < n ==> !log[k].Handed? && !log[k].Dropped? && !(log[k].Seen? && path in log[k].paths)
    ensures script[i].FileEvent? && path in states[n].pending
    ensures states[n].pending[path] == Told(script[i].event, path)
    decreases n
  {
    hide Moves, Told;
    ChangeMoves(debounce, states[n - 1], script[n - 1], log[n - 1], states[n], path);
    if i < n - 1 {
      LastEventDecides(debounce, states, script, log, i, n - 1, path);
    }
  }

  // ----- how long a batch waits for quiet -----

  /** Since a change at `at` the timer is at least one period away from it, unless the change came too late
      in the stretch that ends at `stretch`. */
  predicate Waits(debounce: int, s: State, at: int, stretch: int) {
    && s.clock >= at
    && (s.timer.running ==> s.timer.due >= at + debounce || at + debounce >= stretch)
  }

  lemma MoveKeepsWaiting(debounce: int, s: State, o: Occurrence, r: Record, s': State, at: int, stretch: int)
    requires Moves(debounce, s, o, r, s') && Waits(debounce, s, at, stretch) && debounce > 0
    ensures Waits(debounce, s', at, stretch)
  {
    hide IsBatch, WithEvent;
  }

  lemma {:induction false} WaitingLasts(debounce: int, states: seq<State>, script: seq<Occurrence>, log: seq<Record>,
                                        i: nat, n: nat)
    requires IsRun(debounce, states, script, log) && debounce > 0 && i < n < |states| && log[i].Seen?
    ensures Waits(debounce, states[n], states[i + 1].clock, states[i + 1].timer.stretchUntil)
    decreases n
  {
    hide Moves;
    assert Moves(debounce, states[n - 1], script[n - 1], log[n - 1], states[n]);
    if i < n - 1 {
      WaitingLasts(debounce, states, script, log, i, n - 1);
      MoveKeepsWaiting(debounce, states[n - 1], script[n - 1], log[n - 1], states[n], states[i + 1].clock,
                       states[i + 1].timer.stretchUntil);
    } else {
      SeenWaits(debounce, states[i], script[i], log[i], states[n]);
    }
  }

  lemma SeenWaits(debounce: int, s: State, o: Occurrence, r: Record, s': State)
    requires Moves(debounce, s, o, r, s') && r.Seen? && debounce > 0
    ensures s'.timer.running && Waits(debounce, s', s'.clock, s'.timer.stretchUntil)
  {
    hide IsBatch, WithEvent;
  }

  /** The timer runs since it was started, and the stretch ends ten periods after that. */
  predicate RunsSince(debounce: int, states: seq<State>, log: seq<Record>, m: nat, n: nat) {
    && m < n < |states| && m < |log| && log[m].Seen? && !states[m].timer.running
    && (forall k :: m < k <= n ==> states[k].timer.running)
    && states[n].timer.stretchUntil == states[m + 1].clock + STRETCH * debounce
  }

  /** The change came nine periods or more after the change that started the timer. */
  predicate CameLate(debounce: int, states: seq<State>, log: seq<Record>, m: nat, i: nat) {
    RunsSince(debounce, states, log, m, i + 1) && states[i + 1].clock >= states[m + 1].clock + (STRETCH - 1) * debounce
  }

  lemma TimerMoved(debounce: int, s: State, o: Occurrence, r: Record, s': State)
    requires Moves(debounce, s, o, r, s') && s'.timer.running
    ensures s.timer.running ==> s'.timer.stretchUntil == s.timer.stretchUntil
    ensures !s.timer.running ==> r.Seen? && s'.timer.stretchUntil == s'.clock + STRETCH * debounce
  {
    hide IsBatch, WithEvent;
  }

  lemma {:induction false} StartedBy(debounce: int, states: seq<State>, script: seq<Occurrence>, log: seq<Record>, n: nat)
    returns (m: nat)
    requires IsRun(debounce, states, script, log) && !states[0].timer.running
    requires n < |states| && states[n].timer.running
    ensures RunsSince(debounce, states, log, m, n)
    decreases n
  {
    hide Moves;
    TimerMoved(debounce, states[n - 1], script[n - 1], log[n - 1], states[n]);
    if states[n - 1].timer.running {
      m := StartedBy(debounce, states, script, log, n - 1);
    } else {
      m := n - 1;
    }
  }

  lemma HandedOnTime(debounce: int, s: State, o: Occurrence, r: Record, s': State)
    requires Moves(debounce, s, o, r, s') && (r.Handed? || r.Kept?)
    ensures o.TimerFires? && s.timer.running && o.at >= s.timer.due
  {
    hide IsBatch;
  }

  /** A batch is handed over no sooner than one period after the last change in it, so that nothing is
      uploaded while it is being written, unless the change came nine periods or more after the change that
      started the timer. */
  lemma HandedAfterQuiet(debounce: int, states: seq<State>, script: seq<Occurrence>, log: seq<Record>, i: nat, j: nat)
    requires IsRun(debounce, states, script, log) && debounce > 0 && !states[0].timer.running
    requires i < j < |script| && log[i].Seen? && log[j].Handed?
    ensures script[j].TimerFires?
    ensures script[j].at >= states[i + 1].clock + debounce
         || exists m :: CameLate(debounce, states, log, m, i)
  {
    hide Moves, RunsSince;
    WaitingLasts(debounce, states, script, log, i, j);
    HandedOnTime(debounce, states[j], script[j], log[j], states[j + 1]);
    SeenWaits(debounce, states[i], script[i], log[i], states[i + 1]);
    if states[i + 1].clock + debounce >= states[i + 1].timer.stretchUntil {
      var m := StartedBy(debounce, states, script, log, i + 1);
      StretchIs(debounce, states, log, m, i + 1);
      assert CameLate(debounce, states, log, m, i);
    }
  }

  lemma StretchIs(debounce: int, states: seq<State>, log: seq<Record>, m: nat, n: nat)
    requires RunsSince(debounce, states, log, m, n)
    ensures m + 1 < |states| && n < |states|
    ensures states[n].timer.stretchUntil == states[m + 1].clock + STRETCH * debounce
  {}
}
