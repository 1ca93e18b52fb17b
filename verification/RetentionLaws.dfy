/** What a retention plan keeps and deletes, by the timestamps of the backups. */
module RetentionLaws {
  import opened Basics
  import opened IsoCalendar
  import opened Retention

  /** The valid backups taken at or after a time, or strictly after it. */
  function Since(s: set<Backup>, time: int): set<Backup> {
    set v | v in s && v.isValid && v.time >= time
  }

  function After(s: set<Backup>, time: int): set<Backup> {
    set v | v in s && v.isValid && v.time > time
  }

  /** Without a given time, the reference is the time of the latest valid backup. */
  lemma ReferenceIsLatest(records: set<Backup>, asOf: Option<int>)
    requires DistinctNames(records)
    ensures asOf.Some? ==> Reference(records, asOf) == asOf
    ensures asOf.None? && Reference(records, asOf).None? ==> forall b :: b in records ==> !b.isValid
    ensures asOf.None? && Reference(records, asOf).Some? ==>
              && (exists b :: b in records && b.isValid && b.time == Reference(records, asOf).value)
              && (forall b :: b in records && b.isValid ==> b.time <= Reference(records, asOf).value)
  {
    var valid := ValidOnes(records);
    if asOf.None? && Newest(valid).Some? {
      assert Newest(valid).value in records;
      forall b | b in records && b.isValid
        ensures b.time <= Newest(valid).value.time
      {
        assert b in valid;
      }
    } else {
      assert asOf.None? ==> valid == {};
      forall b | asOf.None? && b in records
        ensures !b.isValid
      {
        assert b !in valid;
      }
    }
  }

  /** Only valid, unpinned backups go, and only if enough later ones and an earlier one stay. */
  lemma DeletedIsOutdated(records: set<Backup>, st: Settings, asOf: Option<int>, b: Backup)
    requires DistinctNames(records) && st.Valid() && b in Deletable(records, st, asOf)
    ensures b.isValid && !b.isPinned
    ensures |Since(Survivors(records, st, asOf), b.time)| >= st.latest
    ensures exists v :: v in Survivors(records, st, asOf) && v.isValid && v.time <= b.time
  {
    var rest := Survivors(records, st, asOf);
    DeletedIsSuperseded(records, st, asOf, b);
    SubsetSize((set v | v in rest && v.isValid && Newer(v, b)), Since(rest, b.time));
  }

  // ---------------------------------------------------------------- days and weeks

  lemma {:induction false} EachMeans(n: nat, bucketAt: nat -> Bucket, i: nat)
    requires i < n
    ensures bucketAt(i) in Each(n, bucketAt)
  {
    if i < n - 1 {
      EachMeans(n - 1, bucketAt, i);
    }
  }

  lemma {:induction false} EachIndex(n: nat, bucketAt: nat -> Bucket, k: Bucket) returns (i: nat)
    requires k in Each(n, bucketAt)
    ensures i < n && bucketAt(i) == k
  {
    if k == bucketAt(n - 1) {
      i := n - 1;
    } else {
      i := EachIndex(n - 1, bucketAt, k);
    }
  }

  /** `v` is a valid survivor among the latest of the days from `first` to `last`. */
  ghost predicate LatestOf(records: set<Backup>, rest: set<Backup>, v: Backup, first: int, last: int) {
    && v in rest && v.isValid && first <= v.time / 86400 <= last
    && forall c :: c in records && c.isValid && first <= c.time / 86400 <= last ==> c.time <= v.time
  }

  lemma PickIsLatest(records: set<Backup>, st: Settings, asOf: Option<int>, k: Bucket, first: int, last: int, b: Backup)
    returns (v: Backup)
    requires DistinctNames(records) && st.Valid() && k in BucketsFor(Reference(records, asOf), st)
    requires forall c :: c in records ==> (InBucket(c, k) <==> first <= c.time / 86400 <= last)
    requires b in records && b.isValid && first <= b.time / 86400 <= last
    ensures LatestOf(records, Survivors(records, st, asOf), v, first, last)
  {
    var valid := ValidOnes(records);
    var members := Members(valid, k);
    assert b in members;
    v := Newest(members).value;
    assert IsPick(valid, BucketsFor(Reference(records, asOf), st), v);
    forall c | c in records && c.isValid && first <= c.time / 86400 <= last
      ensures c.time <= v.time
    {
      assert c in members;
    }
  }

  /** Each of the last `daily` calendar days, the reference day included, keeps its latest valid backup. */
  lemma DayKeepsLatest(records: set<Backup>, st: Settings, asOf: Option<int>, now: int, i: nat, b: Backup)
    returns (v: Backup)
    requires DistinctNames(records) && st.Valid() && Reference(records, asOf) == Some(now) && i < st.daily
    requires b in records && b.isValid && b.time / 86400 == now / 86400 - i
    ensures LatestOf(records, Survivors(records, st, asOf), v, now / 86400 - i, now / 86400 - i)
  {
    var day := now / 86400;
    EachMeans(st.daily, DayAt(day), i);
    v := PickIsLatest(records, st, asOf, DayAt(day)(i), day - i, day - i, b);
  }

  /** Days are in one calendar week exactly if they lie between its Monday and its Sunday; day 1 was a Monday. */
  lemma WeekOfDay(d: Day, monday: Day)
    requires (monday - 1) % 7 == 0
    ensures Monday(d) == monday <==> monday <= d <= monday + 6
  {
    var q := MondayIndex(d);
  }

  /** Each of the last `weekly` calendar weeks, the one of the reference included, keeps its latest valid backup. */
  lemma WeekKeepsLatest(records: set<Backup>, st: Settings, asOf: Option<int>, now: int, i: nat, monday: Day, b: Backup)
    returns (v: Backup)
    requires DistinctNames(records) && st.Valid() && Reference(records, asOf) == Some(now) && i < st.weekly
    requires (monday - 1) % 7 == 0 && monday <= now / 86400 - 7 * i <= monday + 6
    requires b in records && b.isValid && monday <= b.time / 86400 <= monday + 6
    ensures LatestOf(records, Survivors(records, st, asOf), v, monday, monday + 6)
  {
    var day := now / 86400;
    EachMeans(st.weekly, WeekAt(day), i);
    WeekOfDay(day - 7 * i, monday);
    MondaysApart(day - 7 * i, day, 0 - i);
    forall c | c in records
      ensures InBucket(c, WeekAt(day)(i)) <==> monday <= c.time / 86400 <= monday + 6
    {
      WeekOfDay(c.time / 86400, monday);
    }
    v := PickIsLatest(records, st, asOf, WeekAt(day)(i), monday, monday + 6, b);
  }

  // ---------------------------------------------------------------- nothing is kept without a reason

  ghost predicate LatestOfDay(records: set<Backup>, b: Backup, day: int) {
    && b.time / 86400 == day
    && forall c :: c in records && c.isValid && c.time / 86400 == day ==> c.time <= b.time
  }

  ghost predicate LatestOfWeek(records: set<Backup>, b: Backup, monday: Day) {
    && (monday - 1) % 7 == 0 && monday <= b.time / 86400 <= monday + 6
    && forall c :: c in records && c.isValid && monday <= c.time / 86400 <= monday + 6 ==> c.time <= b.time
  }

  /** One of the reasons a valid backup may be kept for, given the reference time. */
  ghost predicate HasReason(records: set<Backup>, st: Settings, reference: Option<int>, b: Backup)
    requires st.Valid()
  {
    || b.isPinned
    || |After(records, b.time)| < st.latest
    || (forall c :: c in records && c.isValid ==> b.time <= c.time)
    || (reference.Some? && var today := reference.value / 86400;
        || (exists day :: today - st.daily < day <= today && LatestOfDay(records, b, day))
        || (exists monday :: today - 7 * st.weekly + 1 <= monday <= today && LatestOfWeek(records, b, monday)))
  }

  lemma TopIsRecent(records: set<Backup>, n: nat, b: Backup)
    requires DistinctNames(records) && b in ValidOnes(records) && b in Top(ValidOnes(records), n)
    ensures |After(records, b.time)| < n
  {
    var valid := ValidOnes(records);
    TopMeans(valid, n, b);
    SubsetSize(After(records, b.time), Before(valid, b));
  }

  lemma PickHasReason(records: set<Backup>, st: Settings, now: int, k: Bucket, b: Backup)
    requires DistinctNames(records) && st.Valid() && k in BucketsFor(Some(now), st)
    requires b in ValidOnes(records) && Newest(Members(ValidOnes(records), k)) == Some(b)
    ensures HasReason(records, st, Some(now), b)
  {
    var day, members := now / 86400, Members(ValidOnes(records), k);
    assert b in members;
    if k in Each(st.daily, DayAt(day)) {
      var i := EachIndex(st.daily, DayAt(day), k);
      forall c | c in records && c.isValid && c.time / 86400 == day - i
        ensures c.time <= b.time
      {
        assert c in members;
      }
      assert LatestOfDay(records, b, day - i);
    } else {
      var i := EachIndex(st.weekly, WeekAt(day), k);
      var monday := Monday(day) - 7 * i;
      MondayIsMonday(day, i);
      WeekOfDay(b.time / 86400, monday);
      forall c | c in records && c.isValid && monday <= c.time / 86400 <= monday + 6
        ensures c.time <= b.time
      {
        WeekOfDay(c.time / 86400, monday);
        assert c in members;
      }
      assert LatestOfWeek(records, b, monday);
    }
  }

  lemma MondayIsMonday(day: Day, i: nat)
    ensures var monday := Monday(day) - 7 * i;
            (monday - 1) % 7 == 0 && monday <= day - 7 * i <= monday + 6
  {
    var q := MondayIndex(day);
    assert Monday(day) - 7 * i - 1 == 7 * (q - i);
  }

  /** Every valid backup that stays is pinned, recent, the earliest, or the latest of a day or week in the window. */
  lemma KeptHasReason(records: set<Backup>, st: Settings, asOf: Option<int>, b: Backup)
    requires DistinctNames(records) && st.Valid() && b in Survivors(records, st, asOf) && b.isValid
    ensures HasReason(records, st, Reference(records, asOf), b)
  {
    var valid := ValidOnes(records);
    assert b in valid && Kept(records, st, asOf, b);
    if b in Top(valid, st.latest) {
      TopIsRecent(records, st.latest, b);
    } else if Oldest(valid) == Some(b) {
      forall c | c in records && c.isValid
        ensures b.time <= c.time
      {
        assert c in valid;
      }
    } else if !b.isPinned {
      var k :| k in BucketsFor(Reference(records, asOf), st) && Newest(Members(valid, k)) == Some(b);
      PickHasReason(records, st, Reference(records, asOf).value, k, b);
    }
  }
}
