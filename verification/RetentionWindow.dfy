/** The plan in the words of the policy: which rows are kept, over their start times, their pins and the
    numbers of the policy. */
module RetentionWindow {
  import opened Repository
  import opened RetentionPlan

  /** The first row of a device is its newest; its policy is the policy of the device. */
  predicate Recent(own: seq<Row>, j: nat, now: int)
    requires j < |own|
  {
    own[0].policy.retentionDays <= 0 || now - own[j].startedAt <= own[0].policy.retentionDays * 86_400_000
  }

  /** The days, weeks or months of the rows before `i` that are recent, pinned, or the newest. */
  function Seen(own: seq<Row>, i: nat, now: int, bucket: int -> string): set<string>
    requires i <= |own|
  {
    set j | 0 <= j < i && (j == 0 || own[j].pinned || Recent(own, j, now)) :: bucket(own[j].startedAt)
  }

  /** The row is the first of its day, week or month, and fewer than `count` came before. */
  predicate Opens(own: seq<Row>, i: nat, now: int, bucket: int -> string, count: int)
    requires i < |own|
  {
    bucket(own[i].startedAt) !in Seen(own, i, now, bucket) && |Seen(own, i, now, bucket)| < count
  }

  predicate NoCounts(p: Policy) {
    p.keepDaily <= 0 && p.keepWeekly <= 0 && p.keepMonthly <= 0
  }

  /** The newest and the pinned rows are wanted; of the others only recent ones, and these all when no
      counts are set, and otherwise the first of so many days, weeks and months. */
  predicate Wanted(own: seq<Row>, i: nat, now: int, cal: Calendar)
    requires i < |own|
  {
    var p := own[0].policy;
    || i == 0 || own[i].pinned
    || (Recent(own, i, now)
        && (NoCounts(p) || Opens(own, i, now, cal.day, p.keepDaily) || Opens(own, i, now, cal.week, p.keepWeekly)
            || Opens(own, i, now, cal.month, p.keepMonthly)))
  }

  lemma {:induction false} SeenIsBuckets(own: seq<Row>, i: nat, now: int, bucket: int -> string)
    requires i <= |own|
    ensures Seen(own, i, now, bucket) == Buckets(own, i, now, bucket)
  {
    if i > 0 {
      SeenIsBuckets(own, i - 1, now, bucket);
      assert Considered(own, i - 1, now) <==> i - 1 == 0 || own[i - 1].pinned || Recent(own, i - 1, now);
      assert Seen(own, i, now, bucket)
          == Seen(own, i - 1, now, bucket) + if Considered(own, i - 1, now) then {bucket(own[i - 1].startedAt)} else {};
    } else {
      assert Seen(own, 0, now, bucket) == {};
    }
  }

  lemma OpensFillsSlot(own: seq<Row>, i: nat, now: int, bucket: int -> string, count: int)
    requires i < |own| && Considered(own, i, now)
    ensures Opens(own, i, now, bucket, count) <==> FillsSlot(own, i, now, bucket, count)
    ensures count <= 0 ==> !Opens(own, i, now, bucket, count)
  {
    hide Seen, Buckets;
    SeenIsBuckets(own, i, now, bucket);
  }

  lemma WantedIsTaken(own: seq<Row>, i: nat, now: int, cal: Calendar)
    requires i < |own|
    ensures Wanted(own, i, now, cal) <==> Taken(own, i, now, cal)
  {
    hide Opens, FillsSlot;
    assert Considered(own, i, now) <==> i == 0 || own[i].pinned || Recent(own, i, now);
    if Considered(own, i, now) {
      OpensFillsSlot(own, i, now, cal.day, own[0].policy.keepDaily);
      OpensFillsSlot(own, i, now, cal.week, own[0].policy.keepWeekly);
      OpensFillsSlot(own, i, now, cal.month, own[0].policy.keepMonthly);
    }
  }

  // ----- what is kept -----

  /** A kept snapshot builds directly on `x`. */
  predicate ChildKept(rows: seq<Row>, keep: set<Id>, x: Id) {
    exists y :: y in keep && y in ById(rows) && ById(rows)[y].parent == x
  }

  lemma {:induction false} AboveHasChild(byId: map<Id, Row>, z: Id, hops: nat, x: Id) returns (y: Id)
    requires x in Up(byId, z, hops) && x != z
    ensures y in Up(byId, z, hops) && y in byId && byId[y].parent == x
    decreases hops
  {
    if byId[z].parent == x {
      y := z;
    } else {
      y := AboveHasChild(byId, byId[z].parent, hops - 1, x);
    }
  }

  /** A row is kept exactly when it is wanted for itself or a kept snapshot builds directly on it. */
  lemma KeptExactly(rows: seq<Row>, keep: set<Id>, now: int, cal: Calendar, device: Device, i: nat)
    requires DistinctIds(rows) && Closed(ById(rows), keep) && forall x :: x in keep <==> Kept(rows, now, cal, x)
    requires i < |DeviceRows(rows, device)| && DeviceRows(rows, device)[i].id != ""
    ensures var own := DeviceRows(rows, device);
            own[i].id in keep <==> Wanted(own, i, now, cal) || ChildKept(rows, keep, own[i].id)
  {
    hide Taken, Wanted, DistinctIds, Up, ById;
    var own := DeviceRows(rows, device);
    var x := own[i].id;
    WantedIsTaken(own, i, now, cal);
    if Wanted(own, i, now, cal) {
      TakenIsKept(rows, now, cal, device, i);
    }
    if x in keep && !Wanted(own, i, now, cal) {
      KeptHasChild(rows, keep, now, cal, device, i);
    }
  }

  lemma KeptHasChild(rows: seq<Row>, keep: set<Id>, now: int, cal: Calendar, device: Device, i: nat)
    requires DistinctIds(rows) && forall x :: x in keep <==> Kept(rows, now, cal, x)
    requires i < |DeviceRows(rows, device)| && !Taken(DeviceRows(rows, device), i, now, cal)
    requires DeviceRows(rows, device)[i].id in keep
    ensures ChildKept(rows, keep, DeviceRows(rows, device)[i].id)
  {
    hide Taken, DistinctIds, Up, ById;
    var x := DeviceRows(rows, device)[i].id;
    var other :| KeptOnDevice(rows, other, now, cal, x);
    var own := DeviceRows(rows, other);
    var j: nat :| j < |own| && Taken(own, j, now, cal) && x in Up(ById(rows), own[j].id, MAX_HOPS);
    if own[j].id == x {
      SameRow(rows, device, i, other, j);
    }
    var y := AboveHasChild(ById(rows), own[j].id, MAX_HOPS, x);
    UpIsKept(rows, now, cal, other, j, y);
  }

  lemma UpIsKept(rows: seq<Row>, now: int, cal: Calendar, device: Device, j: nat, y: Id)
    requires j < |DeviceRows(rows, device)| && Taken(DeviceRows(rows, device), j, now, cal)
    requires y in Up(ById(rows), DeviceRows(rows, device)[j].id, MAX_HOPS)
    ensures Kept(rows, now, cal, y)
  {
    hide Taken, Up, ById;
    var own := DeviceRows(rows, device);
    assert KeptFor(ById(rows), own, |own|, now, cal, y);
    assert KeptOnDevice(rows, device, now, cal, y);
  }

  /** With no counts set, a row that is not the newest, not pinned, and that nothing kept builds on is kept
      exactly when it is inside the window. */
  lemma WindowExactly(rows: seq<Row>, keep: set<Id>, now: int, cal: Calendar, device: Device, i: nat)
    requires DistinctIds(rows) && Closed(ById(rows), keep) && forall x :: x in keep <==> Kept(rows, now, cal, x)
    requires 0 < i < |DeviceRows(rows, device)| && DeviceRows(rows, device)[i].id != ""
    requires NoCounts(DeviceRows(rows, device)[0].policy)
    requires !DeviceRows(rows, device)[i].pinned && !ChildKept(rows, keep, DeviceRows(rows, device)[i].id)
    ensures var own := DeviceRows(rows, device);
            var days := own[0].policy.retentionDays;
            own[i].id in keep <==> days <= 0 || now - own[i].startedAt <= days * 86_400_000
  {
    hide DistinctIds, Closed, Kept, ChildKept, DeviceRows, Opens;
    KeptExactly(rows, keep, now, cal, device, i);
  }

  /** Whatever the counts, nothing older than the window is kept unless it is the newest, is pinned, or a
      kept snapshot builds on it. */
  lemma NothingOldKept(rows: seq<Row>, keep: set<Id>, now: int, cal: Calendar, device: Device, i: nat)
    requires DistinctIds(rows) && Closed(ById(rows), keep) && forall x :: x in keep <==> Kept(rows, now, cal, x)
    requires i < |DeviceRows(rows, device)| && DeviceRows(rows, device)[i].id in keep && DeviceRows(rows, device)[i].id != ""
    requires var own := DeviceRows(rows, device);
             own[0].policy.retentionDays > 0 && now - own[i].startedAt > own[0].policy.retentionDays * 86_400_000
    ensures i == 0 || DeviceRows(rows, device)[i].pinned || ChildKept(rows, keep, DeviceRows(rows, device)[i].id)
  {
    hide DistinctIds, Closed, Kept, ChildKept, DeviceRows, Opens;
    KeptExactly(rows, keep, now, cal, device, i);
  }
}
