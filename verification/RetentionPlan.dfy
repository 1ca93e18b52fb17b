/** Building a retention plan from a scan and deleting what it lists. */
module RetentionPlan {
  import opened Basics
  import opened IsoCalendar
  import opened Retention

  datatype Refusal = BadCounts

  datatype Plan = Plan(records: seq<Backup>, kept: seq<Backup>, deletable: seq<Backup>, invalid: seq<Backup>,
                       reference: Option<int>) {
    predicate Blocked() {
      invalid != []
    }
  }

  datatype Outcome = Blocked | Failed(deleted: seq<Name>, at: Name) | Deleted(names: seq<Name>)

  function All(s: seq<Backup>): set<Backup> {
    set b | b in s
  }

  function NamesOf(s: set<Backup>): set<Name> {
    set b | b in s :: b.name
  }

  predicate ByName(a: Backup, b: Backup) {
    a.name.rank <= b.name.rank
  }

  ghost predicate NameOrder(s: seq<Backup>) {
    forall i, j :: 0 <= i < j < |s| ==> s[i].name.rank < s[j].name.rank
  }

  /** A list of records as scans give it: names are distinct, and equal timestamps come in name order. */
  ghost predicate Listed(s: seq<Backup>) {
    forall i, j :: 0 <= i < j < |s| ==>
      s[i].name != s[j].name && (s[i].time == s[j].time ==> s[i].name.rank < s[j].name.rank)
  }

  lemma ListedIsDistinct(s: seq<Backup>)
    requires Listed(s)
    ensures DistinctNames(All(s))
  {
  }

  /** `sorted`: the elements of `s` from the least. */
  function InOrder(s: set<Backup>, le: (Backup, Backup) -> bool): (r: seq<Backup>)
    requires TotalOn(s, le)
    ensures forall b :: b in r <==> b in s
  {
    if s == {} then []
    else
      var b := First(s, le).value;
      [b] + InOrder(s - {b}, le)
  }

  lemma {:induction false} ScanIsOrdered(s: set<Backup>)
    requires DistinctNames(s)
    ensures NameOrder(InOrder(s, ByName))
  {
    if s != {} {
      ScanIsOrdered(s - {First(s, ByName).value});
    }
  }

  function NewestFirst(s: set<Backup>): (r: seq<Backup>)
    requires DistinctNames(s)
    ensures forall b :: b in r <==> b in s
  {
    InOrder(s, Newer)
  }

  /** The first `n` of the sorted list, fewer if it is shorter. */
  function Slice(s: seq<Backup>, n: nat): seq<Backup> {
    if n <= |s| then s[..n] else s
  }

  lemma NewestStep(s: set<Backup>)
    requires DistinctNames(s) && s != {}
    ensures NewestFirst(s) == [Newest(s).value] + NewestFirst(s - {Newest(s).value})
  {
  }

  lemma SliceOfCons(x: Backup, t: seq<Backup>, n: nat)
    requires n > 0
    ensures All(Slice([x] + t, n)) == {x} + All(Slice(t, n - 1))
  {
    assert Slice([x] + t, n) == [x] + Slice(t, n - 1);
  }

  lemma {:induction false} SliceIsTop(s: set<Backup>, n: nat)
    requires DistinctNames(s)
    ensures All(Slice(NewestFirst(s), n)) == Top(s, n)
  {
    if n > 0 && s != {} {
      var newest := Newest(s).value;
      NewestStep(s);
      SliceIsTop(s - {newest}, n - 1);
      SliceOfCons(newest, NewestFirst(s - {newest}), n);
    }
  }

  lemma {:induction false} LastIsOldest(s: set<Backup>)
    requires DistinctNames(s) && s != {}
    ensures NewestFirst(s) != [] && Oldest(s) == Some(NewestFirst(s)[|NewestFirst(s)| - 1])
  {
    var newest := Newest(s).value;
    var rest := s - {newest};
    NewestStep(s);
    if rest == {} {
      assert NewestFirst(rest) == [];
      assert s == {newest};
    } else {
      LastIsOldest(rest);
      assert Oldest(rest).value in s;
      if Oldest(s).value != newest {
        NewerIsStrict(Oldest(s).value, Oldest(rest).value, s);
      } else {
        NewerIsStrict(newest, Oldest(rest).value, s);
      }
    }
  }

  lemma NamesOfUnion(a: set<Backup>, b: set<Backup>)
    ensures NamesOf(a + b) == NamesOf(a) + NamesOf(b)
  {
  }

  /** `_latest_in` over the members of a bucket, added to the names kept so far. */
  method KeepNewest(valid: set<Backup>, members: set<Backup>, ghost buckets: set<Bucket>, ghost k: Bucket,
                    keep: set<Name>)
    returns (more: set<Name>)
    requires DistinctNames(valid) && members == Members(valid, k) && keep == NamesOf(Picks(valid, buckets))
    ensures more == NamesOf(Picks(valid, buckets + {k}))
  {
    var selected := Newest(members);
    PicksOfMore(valid, buckets, k);
    NamesOfUnion(Picks(valid, buckets), PickOf(valid, k));
    more := keep;
    if selected.Some? {
      more := more + {selected.value.name};
    }
  }

  lemma NoPicks(valid: set<Backup>)
    requires DistinctNames(valid)
    ensures NamesOf(Picks(valid, {})) == {}
  {
    assert Picks(valid, {}) == {};
  }

  lemma EachStep(n: nat, bucketAt: nat -> Bucket)
    ensures Each(0, bucketAt) == {}
    ensures Each(n + 1, bucketAt) == Each(n, bucketAt) + {bucketAt(n)}
  {
  }

  method KeepDaily(valid: set<Backup>, day: Day, daily: nat) returns (keep: set<Name>)
    requires DistinctNames(valid)
    ensures keep == NamesOf(Picks(valid, Each(daily, DayAt(day))))
  {
    NoPicks(valid);
    EachStep(0, DayAt(day));
    keep := {};
    for offset := 0 to daily
      invariant keep == NamesOf(Picks(valid, Each(offset, DayAt(day))))
    {
      EachStep(offset, DayAt(day));
      var members := set b | b in valid && DayOf(b.time) == day - offset;
      assert members == Members(valid, DayAt(day)(offset));
      keep := KeepNewest(valid, members, Each(offset, DayAt(day)), DayAt(day)(offset), keep);
    }
  }

  function KeyAt(weekKey: Day -> WeekKey, day: Day, i: nat): WeekKey {
    weekKey(day - 7 * i)
  }

  /** The same key never comes up twice, also across the end of a year. */
  lemma KeysDiffer(weekKey: Day -> WeekKey, day: Day, i: nat, j: nat)
    requires TellsWeeks(weekKey) && i != j
    ensures KeyAt(weekKey, day, i) != KeyAt(weekKey, day, j)
  {
    MondaysApart(day - 7 * i, day - 7 * j, j - i);
  }

  lemma NewKey(weekKey: Day -> WeekKey, day: Day, keys: seq<WeekKey>)
    requires TellsWeeks(weekKey) && forall j :: 0 <= j < |keys| ==> keys[j] == KeyAt(weekKey, day, j)
    ensures KeyAt(weekKey, day, |keys|) !in keys
  {
    forall j | 0 <= j < |keys|
      ensures keys[j] != KeyAt(weekKey, day, |keys|)
    {
      KeysDiffer(weekKey, day, j, |keys|);
    }
  }

  /** The keys of the reference week and of the ones before it: all different, so none is skipped. */
  method WeekKeys(weekKey: Day -> WeekKey, day: Day, weekly: nat) returns (keys: seq<WeekKey>)
    requires TellsWeeks(weekKey)
    ensures |keys| == weekly && forall i :: 0 <= i < weekly ==> keys[i] == KeyAt(weekKey, day, i)
  {
    keys := [];
    var cursor := day;
    for i := 0 to weekly
      invariant cursor == day - 7 * i
      invariant |keys| == i && forall j :: 0 <= j < i ==> keys[j] == KeyAt(weekKey, day, j)
    {
      var key := weekKey(cursor);
      NewKey(weekKey, day, keys);
      if key !in keys {
        keys := keys + [key];
      }
      cursor := cursor - 7;
    }
  }

  function WithKey(s: set<Backup>, weekKey: Day -> WeekKey, key: WeekKey): set<Backup> {
    set b | b in s && weekKey(DayOf(b.time)) == key
  }

  /** The backups with the same week key are those of the same Monday-to-Sunday week. */
  lemma KeyedMembers(s: set<Backup>, weekKey: Day -> WeekKey, day: Day, i: nat)
    requires TellsWeeks(weekKey)
    ensures WithKey(s, weekKey, KeyAt(weekKey, day, i)) == Members(s, WeekAt(day)(i))
  {
    MondaysApart(day - 7 * i, day, 0 - i);
  }

  method KeepWeekly(valid: set<Backup>, weekKey: Day -> WeekKey, day: Day, weekly: nat) returns (keep: set<Name>)
    requires DistinctNames(valid) && TellsWeeks(weekKey)
    ensures keep == NamesOf(Picks(valid, Each(weekly, WeekAt(day))))
  {
    var keys := WeekKeys(weekKey, day, weekly);
    NoPicks(valid);
    EachStep(0, WeekAt(day));
    keep := {};
    for i := 0 to |keys|
      invariant keep == NamesOf(Picks(valid, Each(i, WeekAt(day))))
    {
      EachStep(i, WeekAt(day));
      KeyedMembers(valid, weekKey, day, i);
      keep := KeepNewest(valid, WithKey(valid, weekKey, keys[i]), Each(i, WeekAt(day)), WeekAt(day)(i), keep);
    }
  }

  // ---------------------------------------------------------------- the plan

  lemma PicksOfUnion(s: set<Backup>, a: set<Bucket>, c: set<Bucket>)
    requires DistinctNames(s)
    ensures Picks(s, a + c) == Picks(s, a) + Picks(s, c)
  {
    forall b | b in s
      ensures IsPick(s, a + c, b) <==> IsPick(s, a, b) || IsPick(s, c, b)
    {
    }
  }

  method KeepBuckets(valid: set<Backup>, reference: Option<int>, st: Settings) returns (keep: set<Name>)
    requires DistinctNames(valid) && st.Valid()
    ensures keep == NamesOf(Picks(valid, BucketsFor(reference, st)))
  {
    if reference.None? {
      NoPicks(valid);
      return {};
    }
    var day := DayOf(reference.value);
    var daily := KeepDaily(valid, day, st.daily);
    IsoKeysTellWeeks();
    var weekly := KeepWeekly(valid, WeekOf, day, st.weekly);
    PicksOfUnion(valid, Each(st.daily, DayAt(day)), Each(st.weekly, WeekAt(day)));
    NamesOfUnion(Picks(valid, Each(st.daily, DayAt(day))), Picks(valid, Each(st.weekly, WeekAt(day))));
    keep := daily + weekly;
  }

  ghost function Keepers(records: set<Backup>, st: Settings, asOf: Option<int>): set<Backup>
    requires DistinctNames(records) && st.Valid()
  {
    set b | b in records && Kept(records, st, asOf, b)
  }

  lemma PickIsMember(s: set<Backup>, buckets: set<Bucket>, b: Backup)
    requires DistinctNames(s) && IsPick(s, buckets, b)
    ensures b in s
  {
    var k :| k in buckets && Newest(Members(s, k)) == Some(b);
    assert b in Members(s, k);
  }

  lemma KeeperIs(records: set<Backup>, st: Settings, asOf: Option<int>, b: Backup)
    requires DistinctNames(records) && st.Valid()
    ensures var valid := ValidOnes(records);
            b in Keepers(records, st, asOf) <==>
            || b in Pinned(records)
            || b in Top(valid, st.latest)
            || b in AsSet(Oldest(valid))
            || b in Picks(valid, BucketsFor(Reference(records, asOf), st))
  {
    var valid, buckets := ValidOnes(records), BucketsFor(Reference(records, asOf), st);
    TopGrows(valid, st.latest);
    if IsPick(valid, buckets, b) {
      PickIsMember(valid, buckets, b);
    }
  }

  lemma KeepersAre(records: set<Backup>, st: Settings, asOf: Option<int>)
    requires DistinctNames(records) && st.Valid()
    ensures var valid := ValidOnes(records);
            Keepers(records, st, asOf) ==
            Pinned(records) + Top(valid, st.latest) + AsSet(Oldest(valid)) +
            Picks(valid, BucketsFor(Reference(records, asOf), st))
  {
    var valid := ValidOnes(records);
    var pinned, top, oldest := Pinned(records), Top(valid, st.latest), AsSet(Oldest(valid));
    var picks, keepers := Picks(valid, BucketsFor(Reference(records, asOf), st)), Keepers(records, st, asOf);
    forall b
      ensures b in keepers <==> b in pinned || b in top || b in oldest || b in picks
    {
      KeeperIs(records, st, asOf, b);
    }
    assert keepers == pinned + top + oldest + picks;
  }

  lemma LastName(s: set<Backup>)
    requires DistinctNames(s)
    ensures var sorted := NewestFirst(s);
            NamesOf(AsSet(Oldest(s))) == if sorted == [] then {} else {sorted[|sorted| - 1].name}
  {
    if s == {} {
      assert NewestFirst(s) == [];
    } else {
      LastIsOldest(s);
    }
  }

  lemma PinnedNames(records: seq<Backup>)
    ensures NamesOf(Pinned(All(records))) == set b | b in records && b.isPinned :: b.name
  {
  }

  /** The pinned backups, the newest ones and the earliest valid one. */
  method KeepBaseline(records: seq<Backup>, valid: seq<Backup>, latest: nat) returns (keep: set<Name>)
    requires DistinctNames(All(records)) && valid == NewestFirst(ValidOnes(All(records)))
    ensures var some := ValidOnes(All(records));
            keep == NamesOf(Pinned(All(records)) + Top(some, latest) + AsSet(Oldest(some)))
  {
    ghost var pinned, some := Pinned(All(records)), ValidOnes(All(records));
    keep := set b | b in records && b.isPinned :: b.name;
    PinnedNames(records);
    SliceIsTop(some, latest);
    NamesOfUnion(pinned, Top(some, latest));
    keep := keep + NamesOf(All(Slice(valid, latest)));
    NamesOfUnion(pinned + Top(some, latest), AsSet(Oldest(some)));
    LastName(some);
    if valid != [] {
      keep := keep + {valid[|valid| - 1].name};
    }
  }

  method KeepNames(records: seq<Backup>, valid: seq<Backup>, reference: Option<int>, st: Settings,
                   ghost asOf: Option<int>)
    returns (keep: set<Name>)
    requires st.Valid() && DistinctNames(All(records))
    requires valid == NewestFirst(ValidOnes(All(records))) && reference == Reference(All(records), asOf)
    ensures keep == NamesOf(Keepers(All(records), st, asOf))
  {
    ghost var all, some := All(records), ValidOnes(All(records));
    var baseline := KeepBaseline(records, valid, st.latest);
    assert All(valid) == some;
    var more := KeepBuckets(All(valid), reference, st);
    NamesOfUnion(Pinned(all) + Top(some, st.latest) + AsSet(Oldest(some)), Picks(some, BucketsFor(reference, st)));
    KeepersAre(all, st, asOf);
    keep := baseline + more;
  }

  lemma NamedMeansKept(records: set<Backup>, st: Settings, asOf: Option<int>, b: Backup)
    requires DistinctNames(records) && st.Valid() && b in records
    ensures b.name in NamesOf(Keepers(records, st, asOf)) <==> Kept(records, st, asOf, b)
  {
    if Kept(records, st, asOf, b) {
      assert b in Keepers(records, st, asOf);
    }
  }

  /** What a plan says about a scan. */
  ghost predicate Plans(plan: Plan, records: seq<Backup>, st: Settings, asOf: Option<int>)
    requires st.Valid() && DistinctNames(All(records))
  {
    && plan.records == records && plan.reference == Reference(All(records), asOf)
    && (forall b :: b in plan.kept <==> b in records && Kept(All(records), st, asOf, b))
    && (forall b :: b in plan.deletable <==> b in Deletable(All(records), st, asOf))
    && (forall b :: b in plan.invalid <==> b in records && !b.isValid)
    && NameOrder(plan.kept) && NameOrder(plan.deletable) && NameOrder(plan.invalid)
  }

  /** `make_plan`; what it lists comes out in name order. */
  method MakePlan(records: seq<Backup>, st: Settings, asOf: Option<int>) returns (r: Result<Plan, Refusal>)
    requires Listed(records)
    ensures DistinctNames(All(records))
    ensures r.Err? <==> !st.Valid()
    ensures r.Ok? ==> Plans(r.value, records, st, asOf)
  {
    ListedIsDistinct(records);
    if st.latest < 1 || st.daily < 0 || st.weekly < 0 {
      return Err(BadCounts);
    }
    var valid := NewestFirst(ValidOnes(All(records)));
    var reference := if asOf.Some? then asOf else if valid != [] then Some(valid[0].time) else None;
    FirstIsNewest(records);
    var keep := KeepNames(records, valid, reference, st, asOf);
    var kept, deletable, invalid := Select(records, keep);
    r := Ok(Plan(records, kept, deletable, invalid, reference));
    SelectedByName(r.value, keep, st, asOf);
  }

  lemma SelectedByName(plan: Plan, keep: set<Name>, st: Settings, asOf: Option<int>)
    requires st.Valid() && DistinctNames(All(plan.records))
    requires plan.reference == Reference(All(plan.records), asOf) &&
             keep == NamesOf(Keepers(All(plan.records), st, asOf))
    requires Selected(plan.records, keep, plan.kept, plan.deletable, plan.invalid)
    ensures Plans(plan, plan.records, st, asOf)
  {
    forall b | b in plan.records
      ensures b.name in keep <==> Kept(All(plan.records), st, asOf, b)
    {
      NamedMeansKept(All(plan.records), st, asOf, b);
    }
  }

  ghost predicate Selected(records: seq<Backup>, keep: set<Name>, kept: seq<Backup>, deletable: seq<Backup>,
                           invalid: seq<Backup>) {
    && NameOrder(kept) && NameOrder(deletable) && NameOrder(invalid)
    && (forall b :: b in kept <==> b in records && b.name in keep)
    && (forall b :: b in deletable <==> b in records && b.isValid && b.name !in keep && !b.isPinned)
    && (forall b :: b in invalid <==> b in records && !b.isValid)
  }

  lemma FirstIsNewest(records: seq<Backup>)
    requires DistinctNames(All(records))
    ensures var valid := ValidOnes(All(records));
            && (NewestFirst(valid) != [] <==> Newest(valid).Some?)
            && (NewestFirst(valid) != [] ==> NewestFirst(valid)[0] == Newest(valid).value)
  {
    var valid := ValidOnes(All(records));
    if valid != {} {
      NewestStep(valid);
    }
  }

  method Select(records: seq<Backup>, keep: set<Name>)
    returns (kept: seq<Backup>, deletable: seq<Backup>, invalid: seq<Backup>)
    requires DistinctNames(All(records))
    ensures Selected(records, keep, kept, deletable, invalid)
  {
    var keptOnes := set b | b in records && b.name in keep;
    var deletableOnes := set b | b in records && b.isValid && b.name !in keep && !b.isPinned;
    var invalidOnes := set b | b in records && !b.isValid;
    ScanIsOrdered(keptOnes);
    ScanIsOrdered(deletableOnes);
    ScanIsOrdered(invalidOnes);
    kept, deletable, invalid := InOrder(keptOnes, ByName), InOrder(deletableOnes, ByName), InOrder(invalidOnes, ByName);
  }

  // ---------------------------------------------------------------- applying the plan

  function NameList(s: seq<Backup>): (r: seq<Name>)
    ensures |r| == |s| && forall i :: 0 <= i < |s| ==> r[i] == s[i].name
  {
    seq(|s|, i requires 0 <= i < |s| => s[i].name)
  }

  /** The names that fail the second look before anything is deleted. */
  method Recheck(deletable: seq<Backup>, changed: set<Name>) returns (failures: seq<Name>)
    ensures failures != [] <==> exists b :: b in deletable && b.name in changed
  {
    failures := [];
    for i := 0 to |deletable|
      invariant failures != [] <==> exists b :: b in deletable[..i] && b.name in changed
    {
      assert deletable[..i + 1] == deletable[..i] + [deletable[i]];
      if deletable[i].name in changed {
        assert deletable[i] in deletable[..i + 1];
        failures := failures + [deletable[i].name];
      }
    }
    assert deletable[..|deletable|] == deletable;
  }

  /** Something keeps the whole plan from being applied. */
  ghost predicate Obstructed(files: set<Backup>, st: Settings, asOf: Option<int>, scanFails: bool, changed: set<Name>)
    requires DistinctNames(files) && st.Valid()
  {
    || scanFails
    || (exists b :: b in files && !b.isValid)
    || (exists b :: b in Deletable(files, st, asOf) && b.name in changed)
  }

  /** The plan's lists say what obstructs it, what it deletes and what stands in the way of that. */
  lemma PlanTells(plan: Plan, records: seq<Backup>, st: Settings, asOf: Option<int>, scanFails: bool,
                  changed: set<Name>, stuck: set<Name>)
    requires st.Valid() && DistinctNames(All(records)) && Plans(plan, records, st, asOf)
    ensures All(plan.deletable) == Deletable(All(records), st, asOf)
    ensures Obstructed(All(records), st, asOf, scanFails, changed) <==>
            plan.Blocked() || scanFails || exists b :: b in plan.deletable && b.name in changed
    ensures (forall b :: b in Deletable(All(records), st, asOf) ==> b.name !in stuck) <==>
            forall b :: b in plan.deletable ==> b.name !in stuck
  {
    if plan.Blocked() {
      assert plan.invalid[0] in plan.invalid;
    }
  }

  lemma StoppedAt(deletable: seq<Backup>, n: nat, before: set<Backup>, after: set<Backup>, doomed: set<Backup>)
    requires n < |deletable| && All(deletable) == doomed && after == before - All(deletable[..n])
    ensures before - doomed <= after <= before && deletable[n] in doomed
  {
    assert forall b :: b in deletable[..n] ==> b in deletable;
  }

  class BackupDir {
    var files: set<Backup>

    /**
     * `apply_plan`. `scanFails`, `changed` and `stuck` are what the file system answers: whether the
     * rescan raises, which files no longer pass validation, and which files cannot be unlinked.
     */
    method ApplyPlan(plan: Plan, scanFails: bool, changed: set<Name>, stuck: set<Name>) returns (r: Outcome)
      requires DistinctNames(files) && NameOrder(plan.deletable) && All(plan.deletable) <= All(plan.records)
      modifies this
      ensures r.Blocked? <==> plan.Blocked() || scanFails || old(files) != All(plan.records) ||
                              exists b :: b in plan.deletable && b.name in changed
      ensures r.Blocked? ==> files == old(files)
      ensures r.Failed? ==> exists n ::
                0 <= n < |plan.deletable| && r.at == plan.deletable[n].name && r.at in stuck &&
                r.deleted == NameList(plan.deletable[..n]) && files == old(files) - All(plan.deletable[..n])
      ensures r.Deleted? ==> r.names == NameList(plan.deletable) && files == old(files) - All(plan.deletable)
      ensures r.Deleted? ==> forall b :: b in plan.deletable ==> b.name !in stuck
    {
      if plan.Blocked() || scanFails || files != All(plan.records) {
        return Blocked;
      }
      var failures := Recheck(plan.deletable, changed);
      if failures != [] {
        return Blocked;
      }
      var deleted: seq<Name> := [];
      for i := 0 to |plan.deletable|
        invariant files == old(files) - All(plan.deletable[..i])
        invariant deleted == NameList(plan.deletable[..i])
        invariant forall b :: b in plan.deletable[..i] ==> b.name !in stuck
      {
        var record := plan.deletable[i];
        if record.name in stuck {
          return Failed(deleted, record.name);
        }
        Unlink(record);
        deleted := deleted + [record.name];
        assert plan.deletable[..i + 1] == plan.deletable[..i] + [record];
      }
      assert plan.deletable[..|plan.deletable|] == plan.deletable;
      r := Deleted(deleted);
    }

    /**
     * Scan, plan and apply. Nothing the plan keeps is ever lost, whatever fails on the way, and a run that
     * completes leaves exactly the survivors.
     */
    method Run(st: Settings, asOf: Option<int>, scanFails: bool, changed: set<Name>, stuck: set<Name>)
      returns (r: Result<Outcome, Refusal>)
      requires DistinctNames(files)
      modifies this
      ensures r.Err? <==> !st.Valid()
      ensures r.Err? || r.value.Blocked? ==> files == old(files)
      ensures st.Valid() ==> PartlyApplied(old(files), files, st, asOf)
      ensures r.Ok? && r.value.Deleted? ==> files == Survivors(old(files), st, asOf)
      ensures r == Ok(Blocked) <==> st.Valid() && Obstructed(old(files), st, asOf, scanFails, changed)
      ensures r.Ok? && r.value.Deleted? <==>
              && st.Valid() && !Obstructed(old(files), st, asOf, scanFails, changed)
              && forall b :: b in Deletable(old(files), st, asOf) ==> b.name !in stuck
    {
      var records := InOrder(files, ByName);
      ScanIsOrdered(files);
      assert All(records) == files;
      var plan := MakePlan(records, st, asOf);
      if plan.Err? {
        return Err(plan.reason);
      }
      PlanTells(plan.value, records, st, asOf, scanFails, changed, stuck);
      ghost var before := files;
      var outcome := ApplyPlan(plan.value, scanFails, changed, stuck);
      if outcome.Failed? {
        ghost var n :| 0 <= n < |plan.value.deletable| && outcome.at == plan.value.deletable[n].name &&
                       outcome.at in stuck && files == before - All(plan.value.deletable[..n]);
        StoppedAt(plan.value.deletable, n, before, files, Deletable(before, st, asOf));
      }
      r := Ok(outcome);
    }

    /** `os.unlink` of the record's path. */
    method Unlink(record: Backup)
      requires DistinctNames(files)
      modifies this
      ensures record in old(files) ==> files == old(files) - {record}
      ensures DistinctNames(files)
    {
      files := set f | f in files && f.name != record.name;
    }
  }
}
