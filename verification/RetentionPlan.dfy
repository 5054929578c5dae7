/** Which snapshots retention keeps: per device the newest and the pinned ones, what is inside the
    window, thinned to one per day, week and month when counts are set, and every ancestor of these. */
module RetentionPlan {
  import opened Repository

  const DAY := 24 * 60 * 60 * 1000
  const MAX_HOPS: nat := 1000

  /** `parent` is "" for a full snapshot. */
  datatype Row = Row(id: Id, device: Device, parent: Id, startedAt: int, pinned: bool, policy: Policy)

  /** How a time is named by its day, its ISO week and its month. */
  datatype Calendar = Calendar(day: int -> string, week: int -> string, month: int -> string)

  // ----- the rows of one device, newest first -----

  function DeviceRows(rows: seq<Row>, device: Device): (own: seq<Row>)
    ensures forall i :: 0 <= i < |own| ==> own[i] in rows && own[i].device == device
    ensures forall row :: row in rows && row.device == device ==> row in own
  {
    if rows == [] then [] else
      var last, before := rows[|rows| - 1], DeviceRows(rows[..|rows| - 1], device);
      assert rows == rows[..|rows| - 1] + [last];
      if last.device == device then before + [last] else before
  }

  function ById(rows: seq<Row>): (m: map<Id, Row>)
    ensures forall id :: id in m ==> m[id] in rows && m[id].id == id
    ensures forall row :: row in rows ==> row.id in m
  {
    if rows == [] then map[] else
      var last := rows[|rows| - 1];
      assert rows == rows[..|rows| - 1] + [last];
      ById(rows[..|rows| - 1])[last.id := last]
  }

  // ----- what one device's rows are judged by -----

  predicate Thinning(p: Policy) {
    p.keepDaily > 0 || p.keepWeekly > 0 || p.keepMonthly > 0
  }

  predicate Forced(own: seq<Row>, i: nat)
    requires i < |own|
  {
    i == 0 || own[i].pinned
  }

  predicate InWindow(own: seq<Row>, i: nat, now: int)
    requires i < |own|
  {
    var days := own[0].policy.retentionDays;
    days <= 0 || now - own[i].startedAt <= days * DAY
  }

  predicate Considered(own: seq<Row>, i: nat, now: int)
    requires i < |own|
  {
    Forced(own, i) || InWindow(own, i, now)
  }

  /** The buckets that considered rows before `i` fall into. */
  function Buckets(own: seq<Row>, i: nat, now: int, bucket: int -> string): set<string>
    requires i <= |own|
  {
    if i == 0 then {}
    else Buckets(own, i - 1, now, bucket) + if Considered(own, i - 1, now) then {bucket(own[i - 1].startedAt)} else {}
  }

  /** Row `i` is the newest considered row of its bucket, and the bucket is one of the first `count`. */
  predicate FillsSlot(own: seq<Row>, i: nat, now: int, bucket: int -> string, count: int)
    requires i < |own|
  {
    && Considered(own, i, now)
    && bucket(own[i].startedAt) !in Buckets(own, i, now, bucket) && |Buckets(own, i, now, bucket)| < count
  }

  predicate SlotTaken(own: seq<Row>, i: nat, now: int, cal: Calendar)
    requires i < |own|
  {
    var p := own[0].policy;
    || FillsSlot(own, i, now, cal.day, p.keepDaily)
    || FillsSlot(own, i, now, cal.week, p.keepWeekly)
    || FillsSlot(own, i, now, cal.month, p.keepMonthly)
  }

  /** Row `i` is kept for its own sake. */
  predicate Taken(own: seq<Row>, i: nat, now: int, cal: Calendar)
    requires i < |own|
  {
    Considered(own, i, now) && (Thinning(own[0].policy) ==> Forced(own, i) || SlotTaken(own, i, now, cal))
  }

  // ----- ancestors -----

  /** The row ids from `id` up its parent links, at most `hops` of them. */
  function Up(byId: map<Id, Row>, id: Id, hops: nat): set<Id>
    decreases hops
  {
    if id == "" || hops == 0 then {}
    else {id} + if id in byId then Up(byId, byId[id].parent, hops - 1) else {}
  }

  /** The walk up from `id` ends before the hops run out. */
  predicate Ends(byId: map<Id, Row>, id: Id, hops: nat)
    decreases hops
  {
    id == "" || (hops > 0 && (id in byId ==> Ends(byId, byId[id].parent, hops - 1)))
  }

  predicate ShortChains(rows: seq<Row>) {
    forall row :: row in rows ==> Ends(ById(rows), row.id, MAX_HOPS)
  }

  predicate Closed(byId: map<Id, Row>, keep: set<Id>) {
    forall id :: id in keep && id in byId && byId[id].parent != "" ==> byId[id].parent in keep
  }

  lemma {:induction false} ClosedHoldsUp(byId: map<Id, Row>, keep: set<Id>, id: Id, hops: nat)
    requires Closed(byId, keep) && id in keep
    ensures Up(byId, id, hops) <= keep
    decreases hops
  {
    if id != "" && hops > 0 && id in byId && byId[id].parent != "" {
      ClosedHoldsUp(byId, keep, byId[id].parent, hops - 1);
    }
  }

  // ----- the plan -----

  /** `x` is kept for the sake of a taken row of this device: it is that row or an ancestor. */
  predicate KeptFor(byId: map<Id, Row>, own: seq<Row>, n: nat, now: int, cal: Calendar, x: Id)
    requires n <= |own|
  {
    exists i :: 0 <= i < n && Taken(own, i, now, cal) && x in Up(byId, own[i].id, MAX_HOPS)
  }

  predicate KeptOnDevice(rows: seq<Row>, device: Device, now: int, cal: Calendar, x: Id) {
    var own := DeviceRows(rows, device);
    KeptFor(ById(rows), own, |own|, now, cal, x)
  }

  ghost predicate Kept(rows: seq<Row>, now: int, cal: Calendar, x: Id) {
    exists device :: KeptOnDevice(rows, device, now, cal, x)
  }

  /** The ids marked for the first `n` rows of a device. */
  function Marks(byId: map<Id, Row>, own: seq<Row>, n: nat, now: int, cal: Calendar): set<Id>
    requires n <= |own|
  {
    if n == 0 then {}
    else Marks(byId, own, n - 1, now, cal) +
         if Taken(own, n - 1, now, cal) then Up(byId, own[n - 1].id, MAX_HOPS) else {}
  }

  lemma {:induction false} MarksMeans(byId: map<Id, Row>, own: seq<Row>, n: nat, now: int, cal: Calendar, x: Id)
    requires n <= |own|
    ensures x in Marks(byId, own, n, now, cal) <==> KeptFor(byId, own, n, now, cal, x)
  {
    if n > 0 {
      MarksMeans(byId, own, n - 1, now, cal, x);
    }
  }

  /** Follows the parent links from `id`, stopping at an id already kept. */
  method MarkKept(byId: map<Id, Row>, was: set<Id>, start: Id) returns (keep: set<Id>)
    ensures was <= keep && (start != "" ==> start in keep)
    ensures Ends(byId, start, MAX_HOPS) && Closed(byId, was) ==>
              keep == was + Up(byId, start, MAX_HOPS) && Closed(byId, keep)
  {
    keep := was;
    var id := start;
    ghost var ends := Ends(byId, start, MAX_HOPS) && Closed(byId, was);
    for hops := 0 to MAX_HOPS
      invariant was <= keep && if hops == 0 then id == start && keep == was else start != "" ==> start in keep
      invariant ends ==> Ends(byId, id, MAX_HOPS - hops)
      invariant ends ==> keep + Up(byId, id, MAX_HOPS - hops) == was + Up(byId, start, MAX_HOPS)
      invariant ends ==> forall k :: k in keep && k in byId && byId[k].parent != "" ==>
                           byId[k].parent in keep || byId[k].parent == id
    {
      if id == "" {
        return;
      }
      if id in keep {
        if ends {
          ClosedHoldsUp(byId, keep, id, MAX_HOPS - hops);
        }
        return;
      }
      keep := keep + {id};
      if id !in byId {
        return;
      }
      id := byId[id].parent;
    }
  }

  /** What the loop over one device has seen of one kind of bucket. */
  predicate Counted(own: seq<Row>, i: nat, now: int, bucket: int -> string, count: int, seen: set<string>, used: int)
    requires i <= |own|
  {
    count > 0 ==>
      var buckets := Buckets(own, i, now, bucket);
      seen == buckets && used == if |buckets| < count then |buckets| else count
  }

  /** One bucket counter: claims a slot for the first row of a bucket while slots are left. */
  method Claim(seen: set<string>, used: int, key: string, count: int, ghost own: seq<Row>, ghost i: nat, ghost now: int,
               ghost bucket: int -> string)
    returns (seen': set<string>, used': int, take: bool)
    requires i < |own| && Considered(own, i, now) && key == bucket(own[i].startedAt)
    requires Counted(own, i, now, bucket, count, seen, used)
    ensures Counted(own, i + 1, now, bucket, count, seen', used')
    ensures take <==> FillsSlot(own, i, now, bucket, count)
  {
    seen', used', take := seen, used, false;
    if count > 0 {
      if key !in seen {
        seen' := seen + {key};
        if used < count {
          used' := used + 1;
          take := true;
        }
      } else {
        assert Buckets(own, i + 1, now, bucket) == seen;
      }
    }
  }

  lemma SkippedNotCounted(own: seq<Row>, i: nat, now: int, bucket: int -> string, count: int, seen: set<string>, used: int)
    requires i < |own| && !Considered(own, i, now) && Counted(own, i, now, bucket, count, seen, used)
    ensures Counted(own, i + 1, now, bucket, count, seen, used)
  {
    assert Buckets(own, i + 1, now, bucket) == Buckets(own, i, now, bucket);
  }

  /** The counters of the three kinds of bucket. */
  datatype Counters = Counters(seenDay: set<string>, dailyUsed: int, seenWeek: set<string>, weeklyUsed: int,
                               seenMonth: set<string>, monthlyUsed: int)

  predicate CountedAll(own: seq<Row>, i: nat, now: int, cal: Calendar, c: Counters)
    requires own != [] && i <= |own|
  {
    var p := own[0].policy;
    && Counted(own, i, now, cal.day, p.keepDaily, c.seenDay, c.dailyUsed)
    && Counted(own, i, now, cal.week, p.keepWeekly, c.seenWeek, c.weeklyUsed)
    && Counted(own, i, now, cal.month, p.keepMonthly, c.seenMonth, c.monthlyUsed)
  }

  lemma NoneCounted(own: seq<Row>, now: int, cal: Calendar)
    requires own != []
    ensures CountedAll(own, 0, now, cal, Counters({}, 0, {}, 0, {}, 0))
  {}

  lemma SkippedNotCountedAll(own: seq<Row>, i: nat, now: int, cal: Calendar, c: Counters)
    requires i < |own| && !Considered(own, i, now) && CountedAll(own, i, now, cal, c)
    ensures CountedAll(own, i + 1, now, cal, c)
  {
    var p := own[0].policy;
    SkippedNotCounted(own, i, now, cal.day, p.keepDaily, c.seenDay, c.dailyUsed);
    SkippedNotCounted(own, i, now, cal.week, p.keepWeekly, c.seenWeek, c.weeklyUsed);
    SkippedNotCounted(own, i, now, cal.month, p.keepMonthly, c.seenMonth, c.monthlyUsed);
  }

  method ClaimAll(own: seq<Row>, i: nat, cal: Calendar, c: Counters, ghost now: int) returns (c': Counters, take: bool)
    requires i < |own| && Considered(own, i, now) && CountedAll(own, i, now, cal, c)
    ensures CountedAll(own, i + 1, now, cal, c')
    ensures take <==> SlotTaken(own, i, now, cal)
  {
    hide Counted, FillsSlot, Considered;
    var p, at := own[0].policy, own[i].startedAt;
    var seenDay, dailyUsed, day := Claim(c.seenDay, c.dailyUsed, cal.day(at), p.keepDaily, own, i, now, cal.day);
    var seenWeek, weeklyUsed, week := Claim(c.seenWeek, c.weeklyUsed, cal.week(at), p.keepWeekly, own, i, now, cal.week);
    var seenMonth, monthlyUsed, month :=
      Claim(c.seenMonth, c.monthlyUsed, cal.month(at), p.keepMonthly, own, i, now, cal.month);
    return Counters(seenDay, dailyUsed, seenWeek, weeklyUsed, seenMonth, monthlyUsed), day || week || month;
  }

  lemma NextMark(byId: map<Id, Row>, own: seq<Row>, i: nat, now: int, cal: Calendar)
    requires i < |own|
    ensures Marks(byId, own, 0, now, cal) == {}
    ensures Marks(byId, own, i + 1, now, cal) ==
            Marks(byId, own, i, now, cal) + if Taken(own, i, now, cal) then Up(byId, own[i].id, MAX_HOPS) else {}
  {}

  /** The rows of one device. */
  method PlanDevice(byId: map<Id, Row>, own: seq<Row>, now: int, cal: Calendar, was: set<Id>) returns (keep: set<Id>)
    requires own != []
    ensures was <= keep
    ensures Closed(byId, was) && (forall row :: row in own ==> Ends(byId, row.id, MAX_HOPS)) ==>
              keep == was + Marks(byId, own, |own|, now, cal) && Closed(byId, keep)
  {
    hide CountedAll, SlotTaken, Up, Ends, Closed, Marks;
    NextMark(byId, own, 0, now, cal);
    NoneCounted(own, now, cal);
    keep := was;
    ghost var ends := Closed(byId, was) && forall row :: row in own ==> Ends(byId, row.id, MAX_HOPS);
    var policy := own[0].policy;
    var gfs := policy.keepDaily > 0 || policy.keepWeekly > 0 || policy.keepMonthly > 0;
    var window := policy.retentionDays * DAY;
    var counters := Counters({}, 0, {}, 0, {}, 0);
    for i := 0 to |own|
      invariant was <= keep
      invariant gfs ==> CountedAll(own, i, now, cal, counters)
      invariant ends ==> keep == was + Marks(byId, own, i, now, cal) && Closed(byId, keep)
    {
      NextMark(byId, own, i, now, cal);
      var row := own[i];
      var forced := i == 0 || row.pinned;
      if !forced && policy.retentionDays > 0 && now - row.startedAt > window {
        if gfs {
          SkippedNotCountedAll(own, i, now, cal, counters);
        }
        continue;
      }
      if !gfs {
        if forced || policy.retentionDays <= 0 || now - row.startedAt <= window {
          keep := MarkKept(byId, keep, row.id);
        }
        continue;
      }
      var take;
      counters, take := ClaimAll(own, i, cal, counters, now);
      if forced || take {
        keep := MarkKept(byId, keep, row.id);
      }
    }
  }

  /** Devices in the order they first come. */
  method DeviceOrder(rows: seq<Row>) returns (order: seq<Device>)
    ensures forall row :: row in rows ==> row.device in order
    ensures forall d :: d in order ==> DeviceRows(rows, d) != []
  {
    order := [];
    for i := 0 to |rows|
      invariant forall j :: 0 <= j < i ==> rows[j].device in order
      invariant forall d :: d in order ==> exists j :: 0 <= j < i && rows[j].device == d
    {
      if rows[i].device !in order {
        order := order + [rows[i].device];
      }
    }
    forall d | d in order ensures DeviceRows(rows, d) != [] {
      var j :| 0 <= j < |rows| && rows[j].device == d;
      assert rows[j] in DeviceRows(rows, d);
    }
  }

  function DeviceMarks(rows: seq<Row>, device: Device, now: int, cal: Calendar): set<Id> {
    var own := DeviceRows(rows, device);
    Marks(ById(rows), own, |own|, now, cal)
  }

  function AllMarks(rows: seq<Row>, order: seq<Device>, k: nat, now: int, cal: Calendar): set<Id>
    requires k <= |order|
  {
    if k == 0 then {} else AllMarks(rows, order, k - 1, now, cal) + DeviceMarks(rows, order[k - 1], now, cal)
  }

  lemma {:induction false} AllMarksMeans(rows: seq<Row>, order: seq<Device>, k: nat, now: int, cal: Calendar, x: Id)
    requires k <= |order|
    ensures x in AllMarks(rows, order, k, now, cal) <==> exists j :: 0 <= j < k && x in DeviceMarks(rows, order[j], now, cal)
  {
    hide DeviceMarks;
    if k > 0 {
      AllMarksMeans(rows, order, k - 1, now, cal, x);
    }
  }

  lemma KeptMeans(rows: seq<Row>, now: int, cal: Calendar, order: seq<Device>, x: Id)
    requires forall row :: row in rows ==> row.device in order
    ensures Kept(rows, now, cal, x) <==> x in AllMarks(rows, order, |order|, now, cal)
  {
    hide AllMarks;
    AllMarksMeans(rows, order, |order|, now, cal, x);
    if Kept(rows, now, cal, x) {
      var device :| KeptOnDevice(rows, device, now, cal, x);
      var own := DeviceRows(rows, device);
      MarksMeans(ById(rows), own, |own|, now, cal, x);
      assert own != [] && own[0] in rows;
      var j :| 0 <= j < |order| && order[j] == device;
      assert x in DeviceMarks(rows, order[j], now, cal);
    }
    if j :| 0 <= j < |order| && x in DeviceMarks(rows, order[j], now, cal) {
      var own := DeviceRows(rows, order[j]);
      MarksMeans(ById(rows), own, |own|, now, cal, x);
      assert KeptOnDevice(rows, order[j], now, cal, x);
    }
  }

  /** The planner. With chains shorter than the hop limit it keeps exactly what Kept says, and what it
      keeps is closed under parents. */
  method PlanRetention(rows: seq<Row>, now: int, cal: Calendar) returns (keep: set<Id>)
    ensures ShortChains(rows) ==> Closed(ById(rows), keep) && forall x :: x in keep <==> Kept(rows, now, cal, x)
  {
    hide Marks, Taken, Up, Ends, Kept;
    var byId := ById(rows);
    var order := DeviceOrder(rows);
    keep := {};
    ghost var short := ShortChains(rows);
    for k := 0 to |order|
      invariant short ==> Closed(byId, keep) && keep == AllMarks(rows, order, k, now, cal)
    {
      var own := DeviceRows(rows, order[k]);
      keep := PlanDevice(byId, own, now, cal, keep);
    }
    if short {
      forall x ensures x in keep <==> Kept(rows, now, cal, x) {
        KeptMeans(rows, now, cal, order, x);
      }
    }
  }

  // ----- what the plan promises -----

  /** Taken rows are kept, with their ancestors. */
  lemma TakenIsKept(rows: seq<Row>, now: int, cal: Calendar, device: Device, i: nat)
    requires i < |DeviceRows(rows, device)| && Taken(DeviceRows(rows, device), i, now, cal)
    requires DeviceRows(rows, device)[i].id != ""
    ensures Kept(rows, now, cal, DeviceRows(rows, device)[i].id)
  {
    hide Taken;
    var own := DeviceRows(rows, device);
    assert own[i].id in Up(ById(rows), own[i].id, MAX_HOPS);
    assert KeptFor(ById(rows), own, |own|, now, cal, own[i].id);
    assert KeptOnDevice(rows, device, now, cal, own[i].id);
  }

  /** Every device keeps its newest snapshot, and every pinned snapshot is kept. */
  lemma NewestAndPinnedKept(rows: seq<Row>, now: int, cal: Calendar, device: Device, i: nat)
    requires i < |DeviceRows(rows, device)| && DeviceRows(rows, device)[i].id != ""
    requires i == 0 || DeviceRows(rows, device)[i].pinned
    ensures Kept(rows, now, cal, DeviceRows(rows, device)[i].id)
  {
    TakenIsKept(rows, now, cal, device, i);
  }

  /** The newest considered row of each of the first so many days, weeks and months is kept. */
  lemma FirstBucketsKept(rows: seq<Row>, now: int, cal: Calendar, device: Device, i: nat)
    requires i < |DeviceRows(rows, device)| && DeviceRows(rows, device)[i].id != ""
    requires var own := DeviceRows(rows, device);
             && Considered(own, i, now)
             && (|| (cal.day(own[i].startedAt) !in Buckets(own, i, now, cal.day)
                     && |Buckets(own, i, now, cal.day)| < own[0].policy.keepDaily)
                 || (cal.week(own[i].startedAt) !in Buckets(own, i, now, cal.week)
                     && |Buckets(own, i, now, cal.week)| < own[0].policy.keepWeekly)
                 || (cal.month(own[i].startedAt) !in Buckets(own, i, now, cal.month)
                     && |Buckets(own, i, now, cal.month)| < own[0].policy.keepMonthly))
    ensures Kept(rows, now, cal, DeviceRows(rows, device)[i].id)
  {
    TakenIsKept(rows, now, cal, device, i);
  }

  function Slots(count: int): nat {
    if count > 0 then count else 0
  }

  /** How many of the first `n` rows fill a slot. */
  function SlotCount(own: seq<Row>, n: nat, now: int, bucket: int -> string, count: int): nat
    requires n <= |own|
  {
    if n == 0 then 0
    else SlotCount(own, n - 1, now, bucket, count) + if FillsSlot(own, n - 1, now, bucket, count) then 1 else 0
  }

  lemma {:induction false} SlotsAreBounded(own: seq<Row>, n: nat, now: int, bucket: int -> string, count: int)
    requires n <= |own|
    ensures SlotCount(own, n, now, bucket, count) <= |Buckets(own, n, now, bucket)|
    ensures SlotCount(own, n, now, bucket, count) <= Slots(count)
  {
    if n > 0 {
      SlotsAreBounded(own, n - 1, now, bucket, count);
      var before, after := Buckets(own, n - 1, now, bucket), Buckets(own, n, now, bucket);
      var key := bucket(own[n - 1].startedAt);
      if FillsSlot(own, n - 1, now, bucket, count) {
        assert after == before + {key} && |after| == |before| + 1;
      } else if Considered(own, n - 1, now) && key in before {
        assert after == before;
      } else if Considered(own, n - 1, now) {
        assert |after| == |before| + 1;
      }
    }
  }

  /** How many of the first `n` rows are kept for their own sake without being forced. */
  function UnforcedCount(own: seq<Row>, n: nat, now: int, cal: Calendar): nat
    requires n <= |own|
  {
    if n == 0 then 0
    else UnforcedCount(own, n - 1, now, cal) +
         if Taken(own, n - 1, now, cal) && !Forced(own, n - 1) then 1 else 0
  }

  lemma {:induction false} UnforcedFillSlots(own: seq<Row>, n: nat, now: int, cal: Calendar)
    requires 0 < |own| && n <= |own| && Thinning(own[0].policy)
    ensures var p := own[0].policy;
            UnforcedCount(own, n, now, cal) <=
            SlotCount(own, n, now, cal.day, p.keepDaily) + SlotCount(own, n, now, cal.week, p.keepWeekly)
            + SlotCount(own, n, now, cal.month, p.keepMonthly)
  {
    hide Buckets, Considered, FillsSlot;
    if n > 0 {
      UnforcedFillSlots(own, n - 1, now, cal);
    }
  }

  /** With counts set, a device keeps at most so many snapshots that are neither forced nor an ancestor. */
  lemma UnforcedAreBounded(own: seq<Row>, now: int, cal: Calendar)
    requires 0 < |own| && Thinning(own[0].policy)
    ensures var p := own[0].policy;
            UnforcedCount(own, |own|, now, cal) <= Slots(p.keepDaily) + Slots(p.keepWeekly) + Slots(p.keepMonthly)
  {
    var p := own[0].policy;
    UnforcedFillSlots(own, |own|, now, cal);
    SlotsAreBounded(own, |own|, now, cal.day, p.keepDaily);
    SlotsAreBounded(own, |own|, now, cal.week, p.keepWeekly);
    SlotsAreBounded(own, |own|, now, cal.month, p.keepMonthly);
  }

  // ----- the bound on what the plan keeps -----

  predicate DistinctIds(rows: seq<Row>) {
    forall i, j :: 0 <= i < j < |rows| ==> rows[i].id != rows[j].id
  }

  /** A taken row, of any device, other than `x` itself builds on `x`. */
  ghost predicate Supports(rows: seq<Row>, now: int, cal: Calendar, x: Id) {
    exists device, i :: BuildsOn(rows, device, i, now, cal, x)
  }

  predicate BuildsOn(rows: seq<Row>, device: Device, i: nat, now: int, cal: Calendar, x: Id) {
    var own := DeviceRows(rows, device);
    i < |own| && own[i].id != x && Taken(own, i, now, cal) && x in Up(ById(rows), own[i].id, MAX_HOPS)
  }

  lemma {:induction false} OwnIdsDistinct(rows: seq<Row>, device: Device)
    requires DistinctIds(rows)
    ensures DistinctIds(DeviceRows(rows, device))
    decreases |rows|
  {
    if rows != [] {
      var before, last := rows[..|rows| - 1], rows[|rows| - 1];
      assert DistinctIds(before);
      OwnIdsDistinct(before, device);
      var own := DeviceRows(before, device);
      forall i | 0 <= i < |own| ensures own[i].id != last.id {
        assert own[i] in before;
        var k :| 0 <= k < |before| && before[k] == own[i];
        assert rows[k].id != rows[|rows| - 1].id;
      }
    }
  }

  lemma SameRow(rows: seq<Row>, device: Device, i: nat, other: Device, j: nat)
    requires DistinctIds(rows) && i < |DeviceRows(rows, device)| && j < |DeviceRows(rows, other)|
    requires DeviceRows(rows, device)[i].id == DeviceRows(rows, other)[j].id
    ensures device == other && i == j
  {
    OwnIdsDistinct(rows, device);
    var a, b := DeviceRows(rows, device)[i], DeviceRows(rows, other)[j];
    assert a in rows && b in rows;
    var k :| 0 <= k < |rows| && rows[k] == a;
    var l :| 0 <= l < |rows| && rows[l] == b;
    assert k == l;
  }

  /** A kept row that no other taken row builds on is taken itself. */
  lemma KeptForItself(rows: seq<Row>, now: int, cal: Calendar, device: Device, i: nat)
    requires DistinctIds(rows) && i < |DeviceRows(rows, device)|
    requires Kept(rows, now, cal, DeviceRows(rows, device)[i].id) && !Supports(rows, now, cal, DeviceRows(rows, device)[i].id)
    ensures Taken(DeviceRows(rows, device), i, now, cal)
  {
    hide Taken, Up, ById, DistinctIds;
    var x := DeviceRows(rows, device)[i].id;
    var other :| KeptOnDevice(rows, other, now, cal, x);
    var own := DeviceRows(rows, other);
    var j: nat :| j < |own| && Taken(own, j, now, cal) && x in Up(ById(rows), own[j].id, MAX_HOPS);
    assert own[j].id != x ==> BuildsOn(rows, other, j, now, cal, x);
    SameRow(rows, device, i, other, j);
  }

  /** Positions of the rows of a device that are kept, not forced, and not for the sake of another. */
  ghost function Spared(rows: seq<Row>, keep: set<Id>, now: int, cal: Calendar, device: Device, n: nat): set<nat>
    requires n <= |DeviceRows(rows, device)|
  {
    var own := DeviceRows(rows, device);
    set i: nat | i < n && IsSpared(rows, keep, now, cal, own, i)
  }

  ghost predicate IsSpared(rows: seq<Row>, keep: set<Id>, now: int, cal: Calendar, own: seq<Row>, i: nat)
    requires i < |own|
  {
    own[i].id in keep && !Forced(own, i) && !Supports(rows, now, cal, own[i].id)
  }

  lemma SparedNext(rows: seq<Row>, keep: set<Id>, now: int, cal: Calendar, device: Device, n: nat)
    requires n < |DeviceRows(rows, device)|
    ensures |Spared(rows, keep, now, cal, device, n + 1)|
         == |Spared(rows, keep, now, cal, device, n)|
            + if IsSpared(rows, keep, now, cal, DeviceRows(rows, device), n) then 1 else 0
  {
    hide IsSpared;
    var before, after := Spared(rows, keep, now, cal, device, n), Spared(rows, keep, now, cal, device, n + 1);
    if IsSpared(rows, keep, now, cal, DeviceRows(rows, device), n) {
      assert after == before + {n};
    } else {
      assert after == before;
    }
  }

  lemma {:induction false} SparedAreTaken(rows: seq<Row>, keep: set<Id>, now: int, cal: Calendar, device: Device, n: nat)
    requires DistinctIds(rows) && n <= |DeviceRows(rows, device)|
    requires forall x :: x in keep <==> Kept(rows, now, cal, x)
    ensures |Spared(rows, keep, now, cal, device, n)| <= UnforcedCount(DeviceRows(rows, device), n, now, cal)
  {
    hide Taken, Forced, Kept, Supports, DistinctIds, Spared;
    if n == 0 {
      assert Spared(rows, keep, now, cal, device, 0) == {} by { NoneSpared(rows, keep, now, cal, device); }
    } else {
      SparedAreTaken(rows, keep, now, cal, device, n - 1);
      SparedNext(rows, keep, now, cal, device, n - 1);
      if IsSpared(rows, keep, now, cal, DeviceRows(rows, device), n - 1) {
        KeptForItself(rows, now, cal, device, n - 1);
      }
    }
  }

  lemma NoneSpared(rows: seq<Row>, keep: set<Id>, now: int, cal: Calendar, device: Device)
    ensures Spared(rows, keep, now, cal, device, 0) == {}
  {}

  /** With counts set, the plan keeps at most so many rows of a device that are neither forced nor
      needed by another row that is kept for its own sake. */
  lemma KeptAreBounded(rows: seq<Row>, keep: set<Id>, now: int, cal: Calendar, device: Device)
    requires DistinctIds(rows) && forall x :: x in keep <==> Kept(rows, now, cal, x)
    requires DeviceRows(rows, device) != [] && Thinning(DeviceRows(rows, device)[0].policy)
    ensures var own, p := DeviceRows(rows, device), DeviceRows(rows, device)[0].policy;
            |Spared(rows, keep, now, cal, device, |own|)| <= Slots(p.keepDaily) + Slots(p.keepWeekly) + Slots(p.keepMonthly)
  {
    hide Kept, Supports, DistinctIds, Forced, Taken;
    var own := DeviceRows(rows, device);
    SparedAreTaken(rows, keep, now, cal, device, |own|);
    UnforcedAreBounded(own, now, cal);
  }
}
