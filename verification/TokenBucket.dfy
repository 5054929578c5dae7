/** The upload throttle: a token bucket in bytes, over exact reals. A rate of zero means no limit. */
module TokenBucket {
  import opened Wrappers

  function Min(a: real, b: real): real {
    if a <= b then a else b
  }

  /** What flows in during a stretch of time. */
  function Inflow(rate: real, time: real): real {
    time * rate
  }

  /** The tokens at a later time. */
  function Refilled(rate: real, tokens: real, last: real, now: real): real {
    if now > last then Min(tokens + Inflow(rate, now - last), rate) else tokens
  }

  /** What a request takes: a chunk larger than the bucket takes all of it. */
  function Need(rate: real, n: nat): real {
    Min(n as real, rate)
  }

  /** A bucket that was never used starts counting now. */
  function Since(last: Option<real>, now: real): real {
    if last.Some? then last.value else now
  }

  /** How long the missing tokens take. */
  function Delay(rate: real, missing: real): real
    requires rate > 0.0
  {
    missing / rate
  }

  lemma DelayFills(rate: real, missing: real)
    requires rate > 0.0 && missing > 0.0
    ensures Delay(rate, missing) > 0.0 && Inflow(rate, Delay(rate, missing)) == missing
  {}

  lemma InflowIs(rate: real, time: real)
    ensures Inflow(rate, time) == time * rate
    ensures time == 0.0 ==> Inflow(rate, time) == 0.0
  {}

  lemma InflowAdds(rate: real, a: real, b: real)
    ensures Inflow(rate, a) + Inflow(rate, b) == Inflow(rate, a + b)
  {}

  lemma InflowPositive(rate: real, time: real)
    requires rate > 0.0 && time > 0.0
    ensures Inflow(rate, time) > 0.0
  {}

  lemma InflowGrows(rate: real, a: real, b: real)
    requires rate > 0.0
    ensures a <= b <==> Inflow(rate, a) <= Inflow(rate, b)
  {
    hide Inflow;
    InflowAdds(rate, a, b - a);
    InflowAdds(rate, b, a - b);
    if a < b {
      InflowPositive(rate, b - a);
    } else if b < a {
      InflowPositive(rate, a - b);
    }
  }

  datatype State = State(tokens: real, last: real)

  datatype Request = Request(at: real, n: nat)

  predicate Full(rate: real, s: State) {
    0.0 <= s.tokens <= rate
  }

  /** One request, as Reserve treats it. */
  function After(rate: real, s: State, q: Request): (State, bool) {
    var had, need := Refilled(rate, s.tokens, s.last, q.at), Need(rate, q.n);
    (State(if had >= need then had - need else had, if q.at > s.last then q.at else s.last), had >= need)
  }

  /** A bucket that is in use, and what can happen to it. */
  datatype Level = Level(rate: real, s: State)

  datatype Event = Ask(at: real, n: nat) | Limit(bytesPerSec: int)

  /** A change of the limit adds no tokens, but time that has not been credited yet will be credited at the
      new rate. */
  function Next(l: Level, e: Event): (Level, bool) {
    match e
    case Ask(at, n) => var (s, ok) := After(l.rate, l.s, Request(at, n)); (Level(l.rate, s), ok)
    case Limit(b) => (Level(b as real, State(Min(l.s.tokens, b as real), l.s.last)), false)
  }

  class Bucket {
    var rate: real
    var capacity: real
    var tokens: real
    var last: Option<real>

    predicate Valid()
      reads this
    {
      0.0 <= tokens <= capacity && capacity == rate
    }

    constructor (bytesPerSec: int, now: real)
      ensures Valid() && rate == if bytesPerSec <= 0 then 0.0 else bytesPerSec as real
      ensures tokens == capacity
    {
      rate, capacity, tokens, last := 0.0, 0.0, 0.0, None;
      new;
      SetRate(bytesPerSec, now);
    }

    /** Changes the limit. Tokens are never handed out by it, except when the bucket is first used. */
    method SetRate(bytesPerSec: int, now: real)
      requires Valid()
      modifies this
      ensures Valid() && rate == if bytesPerSec <= 0 then 0.0 else bytesPerSec as real
      ensures tokens == if old(last).None? then rate else Min(old(tokens), rate)
      ensures last == if old(last).None? && bytesPerSec > 0 then Some(now) else old(last)
      ensures bytesPerSec > 0 && old(last).Some? ==>
                Level(rate, State(tokens, last.value))
                == Next(Level(old(rate), State(old(tokens), old(last).value)), Limit(bytesPerSec)).0
    {
      if bytesPerSec <= 0 {
        rate, capacity, tokens := 0.0, 0.0, 0.0;
        return;
      }
      rate := bytesPerSec as real;
      capacity := bytesPerSec as real;
      if tokens > capacity {
        tokens := capacity;
      }
      if last.None? {
        last := Some(now);
        tokens := capacity;
      }
    }

    /** Takes what the request needs, or says how long to wait. */
    method Reserve(n: nat, now: real) returns (delay: real, ok: bool)
      requires Valid() && n > 0
      modifies this`tokens, this`last
      ensures Valid()
      ensures rate == 0.0 ==> ok && tokens == old(tokens) && last == old(last)
      ensures rate > 0.0 ==>
                && last.Some?
                && After(rate, State(old(tokens), Since(old(last), now)), Request(now, n)) == (State(tokens, last.value), ok)
                && (!ok ==> delay == Delay(rate, Need(rate, n) - tokens))
    {
      hide Delay, Inflow;
      if rate == 0.0 {
        return 0.0, true;
      }
      if last.None? {
        last := Some(now);
      }
      var elapsed := now - last.value;
      if elapsed > 0.0 {
        InflowPositive(rate, elapsed);
        tokens := tokens + Inflow(rate, elapsed);
        if tokens > capacity {
          tokens := capacity;
        }
        last := Some(now);
      }
      var need := n as real;
      if need > capacity {
        need := capacity;
      }
      if tokens >= need {
        tokens := tokens - need;
        return 0.0, true;
      }
      var missing := need - tokens;
      return Delay(rate, missing), false;
    }

    /** Waits for a request, with nobody else taking tokens meanwhile, under a context that ends at
        `ends`. It is admitted at once when the tokens are there, else at the moment they are, unless
        the context ends no later than that; an ended context does not stop a request that need not
        wait. A refused request leaves the tokens in the bucket. */
    method Wait(n: int, start: real, ends: Option<real>) returns (admitted: bool, now: real)
      requires Valid() && (last.Some? ==> start >= last.value)
      modifies this`tokens, this`last
      ensures Valid()
      ensures n <= 0 ==> (admitted <==> !Ended(ends, start)) && now == start && tokens == old(tokens)
      ensures n > 0 && rate == 0.0 ==> admitted && now == start && tokens == old(tokens)
      ensures n > 0 && rate > 0.0 ==>
                var had := Refilled(rate, old(tokens), Since(old(last), start), start);
                WaitEnds(rate, had, Need(rate, n), start, ends, admitted, now, tokens)
    {
      hide Delay, Inflow, Refilled;
      now := start;
      if n <= 0 {
        admitted := !(ends.Some? && ends.value <= start);
        return;
      }
      ghost var t0, l0 := tokens, last;
      ghost var had := Refilled(rate, t0, Since(l0, start), start);
      ghost var waited := false;
      while true
        invariant Valid()
        invariant !waited ==> tokens == t0 && last == l0 && now == start
        invariant waited ==>
                    && rate > 0.0 && had < Need(rate, n) && last == Some(start) && tokens == had
                    && now == start + Delay(rate, Need(rate, n) - had) && now >= start
                    && Refilled(rate, had, start, now) == Need(rate, n)
                    && (ends.Some? ==> ends.value >= now)
        decreases !waited
      {
        var delay, ok := Reserve(n, now);
        if ok {
          return true, now;
        }
        Waited(rate, t0, Since(l0, start), start, Need(rate, n));
        var atOnce: bool := *;  // which of two events at the same time is seen first
        if ends.Some? && (ends.value < now + delay || (ends.value == now + delay && atOnce)) {
          return false, if ends.value > now then ends.value else now;
        }
        now, waited := now + delay, true;
      }
    }
  }

  predicate Ended(ends: Option<real>, now: real) {
    ends.Some? && ends.value <= now
  }

  /** How a wait for `need` tokens ends when `had` of them are there at the start. */
  predicate WaitEnds(
      rate: real, had: real, need: real, start: real, ends: Option<real>, admitted: bool, now: real, tokens: real)
    requires rate > 0.0
  {
    if had >= need then admitted && now == start && tokens == had - need
    else
      var due := start + Delay(rate, need - had);
      if admitted then now == due && tokens == 0.0 && (ends.Some? ==> ends.value >= due)
      else Ended(ends, due) && now == (if ends.value > start then ends.value else start) && tokens == had
  }

  /** After the delay the bucket holds exactly what is needed. */
  lemma Waited(rate: real, tokens: real, last: real, now: real, need: real)
    requires rate > 0.0 && 0.0 <= tokens <= rate && last <= now && need <= rate
    requires Refilled(rate, tokens, last, now) < need
    ensures var delay := Delay(rate, need - Refilled(rate, tokens, last, now));
            && delay > 0.0 && Refilled(rate, tokens, last, now + delay) == need
            && Refilled(rate, Refilled(rate, tokens, last, now), now, now + delay) == need
  {
    hide Inflow, Delay;
    var missing := need - Refilled(rate, tokens, last, now);
    var delay := Delay(rate, missing);
    DelayFills(rate, missing);
    InflowAdds(rate, now - last, delay);
    InflowIs(rate, 0.0);
    assert now - last + delay == now + delay - last;
  }

  // ----- runs -----

  function AfterAll(l: Level, events: seq<Event>): Level {
    if events == [] then l else Next(AfterAll(l, events[..|events| - 1]), events[|events| - 1]).0
  }

  /** What the admitted requests took. */
  function Admitted(l: Level, events: seq<Event>): real {
    if events == [] then 0.0 else
      var before, last := AfterAll(l, events[..|events| - 1]), events[|events| - 1];
      Admitted(l, events[..|events| - 1]) + if last.Ask? && Next(before, last).1 then Need(before.rate, last.n) else 0.0
  }

  /** Requests come in the order of time, and no limit is above `most`, nor lifted. */
  predicate Orderly(most: real, l: Level, events: seq<Event>) {
    events == [] ||
      var before, last := events[..|events| - 1], events[|events| - 1];
      && Orderly(most, l, before)
      && if last.Ask? then last.n > 0 && last.at >= AfterAll(l, before).s.last else 0.0 < last.bytesPerSec as real <= most
  }

  /** When the first request comes. */
  function FirstAsk(events: seq<Event>): Option<real> {
    if events == [] then None else
      var first, last := FirstAsk(events[..|events| - 1]), events[|events| - 1];
      if first.None? && last.Ask? then Some(last.at) else first
  }

  lemma RefillBounds(rate: real, tokens: real, last: real, now: real)
    requires rate > 0.0 && 0.0 <= tokens <= rate && last <= now
    ensures 0.0 <= Refilled(rate, tokens, last, now) <= rate
    ensures Refilled(rate, tokens, last, now) <= tokens + Inflow(rate, now - last)
  {
    hide Inflow;
    InflowIs(rate, 0.0);
    InflowGrows(rate, 0.0, now - last);
  }

  lemma NeedBounds(rate: real, n: nat)
    requires rate > 0.0
    ensures 0.0 <= Need(rate, n) <= rate
  {}

  lemma FasterInflow(rate: real, most: real, time: real)
    requires rate <= most && time >= 0.0
    ensures Inflow(rate, time) <= Inflow(most, time)
  {
    assert time * (most - rate) >= 0.0;
  }

  /** One request: what it takes and what is left are what was there and what flowed in. */
  lemma AskBalance(most: real, l: Level, at: real, n: nat)
    requires 0.0 < l.rate <= most && Full(l.rate, l.s) && n > 0 && at >= l.s.last
    ensures var (l', ok) := Next(l, Ask(at, n));
            var took := if ok then Need(l.rate, n) else 0.0;
            && l'.rate == l.rate && Full(l.rate, l'.s) && l'.s.last == at
            && took + l'.s.tokens <= most && took + l'.s.tokens <= l.s.tokens + Inflow(most, at - l.s.last)
  {
    hide Inflow, Refilled, Need;
    RefillBounds(l.rate, l.s.tokens, l.s.last, at);
    NeedBounds(l.rate, n);
    FasterInflow(l.rate, most, at - l.s.last);
  }

  /** All that was taken since the first request, and what is left, is at most one bucket and what flowed in. */
  ghost predicate Balanced(most: real, l: Level, events: seq<Event>) {
    var end := AfterAll(l, events);
    && 0.0 < end.rate <= most && Full(end.rate, end.s)
    && match FirstAsk(events)
       case None => Admitted(l, events) == 0.0
       case Some(f) => Admitted(l, events) + end.s.tokens <= most + Inflow(most, end.s.last - f)
  }

  lemma {:induction false} Balance(most: real, l: Level, events: seq<Event>)
    requires 0.0 < l.rate <= most && Full(l.rate, l.s) && Orderly(most, l, events)
    ensures Balanced(most, l, events)
    decreases |events|
  {
    hide Inflow;
    if events != [] {
      var before, last := events[..|events| - 1], events[|events| - 1];
      Balance(most, l, before);
      BalanceNext(most, l, events);
    }
  }

  lemma BalanceNext(most: real, l: Level, events: seq<Event>)
    requires events != [] && Orderly(most, l, events) && Balanced(most, l, events[..|events| - 1])
    ensures Balanced(most, l, events)
  {
    var before, last := events[..|events| - 1], events[|events| - 1];
    var mid := AfterAll(l, before);
    match last
    case Limit(_) =>
    case Ask(at, n) =>
      AskBalance(most, mid, at, n);
      hide Next, Inflow;
      InflowIs(most, 0.0);
      if FirstAsk(before).Some? {
        var f := FirstAsk(before).value;
        InflowAdds(most, mid.s.last - f, at - mid.s.last);
        assert mid.s.last - f + (at - mid.s.last) == at - f;
      } else {
        assert at - at == 0.0;
      }
  }

  /** The bytes that the admitted requests asked for, each counted up to the rate of its time. */
  function Bytes(l: Level, events: seq<Event>): real {
    if events == [] then 0.0 else
      var before, last := AfterAll(l, events[..|events| - 1]), events[|events| - 1];
      Bytes(l, events[..|events| - 1])
      + if last.Ask? && Next(before, last).1 then if last.n as real <= before.rate then last.n as real else before.rate
        else 0.0
  }

  lemma {:induction false} BytesAreTaken(l: Level, events: seq<Event>)
    ensures Bytes(l, events) == Admitted(l, events)
    decreases |events|
  {
    hide Next;
    if events != [] {
      BytesAreTaken(l, events[..|events| - 1]);
    }
  }

  /** However the limit is changed, as long as it stays at most `most`: in any stretch of time of length
      `t` the admitted requests are of at most so many bytes as one bucket holds and flow in meanwhile, at
      that rate, where a request larger than a bucket counts as one. */
  lemma Throughput(most: real, l: Level, events: seq<Event>, first: real, t: real)
    requires 0.0 < l.rate <= most && Full(l.rate, l.s) && Orderly(most, l, events)
    requires FirstAsk(events) == Some(first) && AfterAll(l, events).s.last <= first + t
    ensures Bytes(l, events) <= most + t * most
  {
    hide Bytes, Admitted, AfterAll, Orderly, Inflow, FirstAsk;
    BytesAreTaken(l, events);
    Balance(most, l, events);
    InflowGrows(most, AfterAll(l, events).s.last - first, t);
    InflowIs(most, t);
  }

  /** Nothing is lost below a full bucket: as long as it does not fill up, what was taken and what is left
      are what was there and all that flowed in. */
  lemma NothingLost(rate: real, s: State, n: nat, at: real)
    requires rate > 0.0 && Full(rate, s) && at >= s.last && n > 0
    ensures var (s', ok) := After(rate, s, Request(at, n));
            var bytes := if n as real <= rate then n as real else rate;
            var there := s.tokens + (at - s.last) * rate;
            && s'.last == at
            && (ok <==> (if there <= rate then there else rate) >= bytes)
            && s'.tokens == (if there <= rate then there else rate) - (if ok then bytes else 0.0)
  {
    hide Inflow;
    InflowIs(rate, at - s.last);
  }

  /** After a second without requests any request is admitted. */
  lemma ASecondFillsTheBucket(rate: real, s: State, n: nat, at: real)
    requires rate > 0.0 && Full(rate, s) && at >= s.last + 1.0 && n > 0
    ensures After(rate, s, Request(at, n)).1
  {
    hide After;
    NothingLost(rate, s, n, at);
    InflowGrows(rate, 1.0, at - s.last);
    InflowIs(rate, 1.0);
    InflowIs(rate, at - s.last);
  }

  /** A refused request is admitted from the returned delay on, and not before, if nobody else asks. */
  lemma DelayIsExact(rate: real, s: State, n: nat, now: real, later: real)
    requires rate > 0.0 && Full(rate, s) && s.last <= now && n > 0 && !After(rate, s, Request(now, n)).1 && now <= later
    ensures var refused := After(rate, s, Request(now, n)).0;
            var delay := Delay(rate, Need(rate, n) - refused.tokens);
            After(rate, refused, Request(later, n)).1 <==> later >= now + delay
  {
    hide Delay, Inflow;
    var refused := After(rate, s, Request(now, n)).0;
    var missing := Need(rate, n) - refused.tokens;
    DelayFills(rate, missing);
    InflowGrows(rate, Delay(rate, missing), later - now);
  }
}
