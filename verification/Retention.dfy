/** Which backups a retention plan keeps, as a function of the set of backups found. */
module Retention {
  import opened Basics
  import opened IsoCalendar

  /** File names are distinct and ordered by `rank`, their text order. */
  datatype Name = Name(rank: int)

  /** `time` counts seconds, so that a day is 86400 of them and day numbers are ordinals. */
  datatype Backup = Backup(name: Name, time: int, isValid: bool, isPinned: bool, fingerprint: int)

  datatype Settings = Settings(latest: int, daily: int, weekly: int) {
    predicate Valid() {
      latest >= 1 && daily >= 0 && weekly >= 0
    }
  }

  /** A calendar day, or a calendar week from Monday to Sunday. */
  datatype Bucket = DayBucket(day: Day) | WeekBucket(monday: Day)

  function DayOf(time: int): Day {
    time / 86400
  }

  predicate InBucket(b: Backup, k: Bucket) {
    match k
    case DayBucket(day) => DayOf(b.time) == day
    case WeekBucket(monday) => Monday(DayOf(b.time)) == monday
  }

  ghost predicate DistinctNames(s: set<Backup>) {
    forall a, b :: a in s && b in s && a.name == b.name ==> a == b
  }

  /** Newest first; equal timestamps keep the name order of the scan. */
  predicate Newer(a: Backup, b: Backup) {
    a.time > b.time || (a.time == b.time && a.name.rank <= b.name.rank)
  }

  function Newest(s: set<Backup>): (r: Option<Backup>)
    requires DistinctNames(s)
    ensures r.None? <==> s == {}
    ensures r.Some? ==> r.value in s && forall b :: b in s ==> Newer(r.value, b)
  {
    First(s, Newer)
  }

  function Oldest(s: set<Backup>): (r: Option<Backup>)
    requires DistinctNames(s)
    ensures r.None? <==> s == {}
    ensures r.Some? ==> r.value in s && forall b :: b in s ==> Newer(b, r.value)
  {
    First(s, (a: Backup, b: Backup) => Newer(b, a))
  }

  function ValidOnes(records: set<Backup>): set<Backup> {
    set b | b in records && b.isValid
  }

  function Pinned(records: set<Backup>): set<Backup> {
    set b | b in records && b.isPinned
  }

  /** The `n` newest. */
  function Top(s: set<Backup>, n: nat): set<Backup>
    requires DistinctNames(s)
  {
    if n == 0 || s == {} then {}
    else
      var b := Newest(s).value;
      {b} + Top(s - {b}, n - 1)
  }

  function DayAt(day: Day): nat -> Bucket {
    i => DayBucket(day - i)
  }

  function WeekAt(day: Day): nat -> Bucket {
    i => WeekBucket(Monday(day) - 7 * i)
  }

  /** The buckets at offsets 0 to n - 1. */
  function Each(n: nat, bucketAt: nat -> Bucket): set<Bucket> {
    if n == 0 then {} else Each(n - 1, bucketAt) + {bucketAt(n - 1)}
  }

  function Members(s: set<Backup>, k: Bucket): set<Backup> {
    set b | b in s && InBucket(b, k)
  }

  /** The newest backup of each bucket. */
  ghost function Picks(s: set<Backup>, buckets: set<Bucket>): set<Backup>
    requires DistinctNames(s)
  {
    set b | b in s && IsPick(s, buckets, b)
  }

  ghost predicate IsPick(s: set<Backup>, buckets: set<Bucket>, b: Backup)
    requires DistinctNames(s)
  {
    exists k :: k in buckets && Newest(Members(s, k)) == Some(b)
  }

  function Reference(records: set<Backup>, asOf: Option<int>): Option<int>
    requires DistinctNames(records)
  {
    if asOf.Some? then asOf
    else if Newest(ValidOnes(records)).Some? then Some(Newest(ValidOnes(records)).value.time)
    else None
  }

  function BucketsFor(reference: Option<int>, st: Settings): set<Bucket>
    requires st.Valid()
  {
    if reference.None? then {}
    else Each(st.daily, DayAt(DayOf(reference.value))) + Each(st.weekly, WeekAt(DayOf(reference.value)))
  }

  ghost predicate Kept(records: set<Backup>, st: Settings, asOf: Option<int>, b: Backup)
    requires DistinctNames(records) && st.Valid()
  {
    var valid := ValidOnes(records);
    && b in records
    && (|| b.isPinned
        || b in Top(valid, st.latest)
        || Oldest(valid) == Some(b)
        || IsPick(valid, BucketsFor(Reference(records, asOf), st), b))
  }

  ghost function Deletable(records: set<Backup>, st: Settings, asOf: Option<int>): set<Backup>
    requires DistinctNames(records) && st.Valid()
  {
    set b | b in records && b.isValid && !Kept(records, st, asOf, b)
  }

  /** What a complete application of the plan leaves. */
  ghost function Survivors(records: set<Backup>, st: Settings, asOf: Option<int>): set<Backup>
    requires DistinctNames(records) && st.Valid()
  {
    records - Deletable(records, st, asOf)
  }

  // ---------------------------------------------------------------- the newest ones

  lemma NewerIsStrict(a: Backup, b: Backup, s: set<Backup>)
    requires DistinctNames(s) && a in s && b in s && Newer(a, b) && Newer(b, a)
    ensures a == b
  {
  }

  lemma NewestOfSubset(s: set<Backup>, t: set<Backup>)
    requires DistinctNames(s) && t <= s && Newest(s).Some? && Newest(s).value in t
    ensures Newest(t) == Newest(s)
  {
    NewerIsStrict(Newest(s).value, Newest(t).value, s);
  }

  lemma {:induction false} TopGrows(s: set<Backup>, n: nat)
    requires DistinctNames(s)
    ensures Top(s, n) <= Top(s, n + 1) <= s
  {
    if n > 0 && s != {} {
      TopGrows(s - {Newest(s).value}, n - 1);
    }
  }

  /** The others that are newer than `b`. */
  function Before(s: set<Backup>, b: Backup): set<Backup> {
    set c | c in s && c != b && Newer(c, b)
  }

  lemma BeforeNewest(s: set<Backup>, b: Backup)
    requires DistinctNames(s) && b in s
    ensures Newest(s) == Some(b) ==> Before(s, b) == {}
    ensures Newest(s) != Some(b) ==> |Before(s, b)| == |Before(s - {Newest(s).value}, b)| + 1
  {
    var newest := Newest(s).value;
    if b == newest {
      forall c | c in s && Newer(c, b)
        ensures c == b
      {
        NewerIsStrict(b, c, s);
      }
    } else {
      assert Before(s, b) == Before(s - {newest}, b) + {newest};
    }
  }

  /** A backup is among the `n` newest if and only if fewer than `n` others are newer. */
  lemma {:induction false} TopMeans(s: set<Backup>, n: nat, b: Backup)
    requires DistinctNames(s) && b in s
    ensures b in Top(s, n) <==> |Before(s, b)| < n
  {
    BeforeNewest(s, b);
    if n > 0 && Newest(s) != Some(b) {
      TopMeans(s - {Newest(s).value}, n - 1, b);
    }
  }

  /** A backup among the newest stays among the newest when others go. */
  lemma TopOfSubset(s: set<Backup>, t: set<Backup>, n: nat, b: Backup)
    requires DistinctNames(s) && t <= s && b in t && b in Top(s, n)
    ensures b in Top(t, n)
  {
    TopMeans(s, n, b);
    TopMeans(t, n, b);
    SubsetSize(Before(t, b), Before(s, b));
  }

  lemma TopStep(s: set<Backup>, n: nat)
    requires DistinctNames(s) && n > 0 && s != {}
    ensures |Top(s, n)| == |Top(s - {Newest(s).value}, n - 1)| + 1
  {
    var newest := Newest(s).value;
    TopGrows(s - {newest}, n - 1);
    assert newest !in Top(s - {newest}, n - 1);
  }

  lemma {:induction false} TopSize(s: set<Backup>, n: nat)
    requires DistinctNames(s)
    ensures |Top(s, n)| == if n <= |s| then n else |s|
  {
    if n > 0 && s != {} {
      TopStep(s, n);
      TopSize(s - {Newest(s).value}, n - 1);
    }
  }

  lemma BeforeNewer(s: set<Backup>, a: Backup, b: Backup)
    requires DistinctNames(s) && a in s && b in s && Newer(a, b)
    ensures |Before(s, a)| <= |Before(s, b)|
  {
    forall c | c in Before(s, a)
      ensures c in Before(s, b)
    {
      if c == b {
        NewerIsStrict(a, b, s);
      }
    }
    SubsetSize(Before(s, a), Before(s, b));
  }

  /** The newest `n` are newer than all the others. */
  lemma TopIsNewer(s: set<Backup>, n: nat, t: Backup, b: Backup)
    requires DistinctNames(s) && b in s && t in s && t in Top(s, n) && b !in Top(s, n)
    ensures Newer(t, b)
  {
    TopMeans(s, n, t);
    TopMeans(s, n, b);
    if !Newer(t, b) {
      BeforeNewer(s, b, t);
    }
  }

  /** A backup outside the newest `n` has `n` newer ones before it. */
  lemma OutsideTop(s: set<Backup>, n: nat, b: Backup)
    requires DistinctNames(s) && b in s && b !in Top(s, n)
    ensures |Top(s, n)| == n && forall t :: t in Top(s, n) ==> Newer(t, b)
  {
    TopGrows(s, n);
    TopSize(s, n);
    SubsetSize(Top(s, n) + {b}, s);
    forall t | t in Top(s, n)
      ensures Newer(t, b)
    {
      TopIsNewer(s, n, t, b);
    }
  }

  // ---------------------------------------------------------------- planning again

  lemma PickOfSubset(s: set<Backup>, t: set<Backup>, buckets: set<Bucket>, b: Backup)
    requires DistinctNames(s) && t <= s && b in t && IsPick(s, buckets, b)
    ensures IsPick(t, buckets, b)
  {
    var k :| k in buckets && Newest(Members(s, k)) == Some(b);
    assert Members(t, k) <= Members(s, k);
    NewestOfSubset(Members(s, k), Members(t, k));
  }

  lemma OldestOfSubset(s: set<Backup>, t: set<Backup>, b: Backup)
    requires DistinctNames(s) && t <= s && b in t && Oldest(s) == Some(b)
    ensures Oldest(t) == Some(b)
  {
    NewerIsStrict(Oldest(t).value, b, s);
  }

  /** A kept backup is still kept when other backups are gone. */
  lemma KeptInSubset(records: set<Backup>, rest: set<Backup>, st: Settings, asOf: Option<int>, b: Backup)
    requires DistinctNames(records) && st.Valid() && rest <= records && b in rest
    requires Reference(rest, asOf) == Reference(records, asOf) && Kept(records, st, asOf, b)
    ensures Kept(rest, st, asOf, b)
  {
    var valid, left := ValidOnes(records), ValidOnes(rest);
    assert left <= valid;
    if !b.isPinned {
      if b in Top(valid, st.latest) {
        TopGrows(valid, st.latest);
        TopOfSubset(valid, left, st.latest, b);
      } else if Oldest(valid) == Some(b) {
        OldestOfSubset(valid, left, b);
      } else {
        var buckets := BucketsFor(Reference(records, asOf), st);
        var k :| k in buckets && Newest(Members(valid, k)) == Some(b);
        assert b in Members(valid, k);
        PickOfSubset(valid, left, buckets, b);
      }
    }
  }

  /** Some of the deletable backups are gone and nothing else is. */
  ghost predicate PartlyApplied(records: set<Backup>, rest: set<Backup>, st: Settings, asOf: Option<int>)
    requires DistinctNames(records) && st.Valid()
  {
    Survivors(records, st, asOf) <= rest <= records
  }

  /** The newest valid backup survives, so a plan without `as_of` keeps its reference. */
  lemma SameReference(records: set<Backup>, rest: set<Backup>, st: Settings, asOf: Option<int>)
    requires DistinctNames(records) && st.Valid() && PartlyApplied(records, rest, st, asOf)
    ensures Reference(rest, asOf) == Reference(records, asOf)
  {
    var valid, left := ValidOnes(records), ValidOnes(rest);
    assert left <= valid;
    if valid != {} {
      var newest := Newest(valid).value;
      assert newest in Top(valid, st.latest);
      assert newest in Survivors(records, st, asOf);
      NewestOfSubset(valid, left);
    }
  }

  lemma NotInTopOfRest(records: set<Backup>, rest: set<Backup>, st: Settings, asOf: Option<int>, b: Backup)
    requires DistinctNames(records) && st.Valid() && PartlyApplied(records, rest, st, asOf)
    requires b in rest && b.isValid && b !in Top(ValidOnes(records), st.latest)
    ensures b !in Top(ValidOnes(rest), st.latest)
  {
    var top, left := Top(ValidOnes(records), st.latest), ValidOnes(rest);
    OutsideTop(ValidOnes(records), st.latest, b);
    TopGrows(ValidOnes(records), st.latest);
    assert top <= Survivors(records, st, asOf);
    SubsetSize(top, Before(left, b));
    TopMeans(left, st.latest, b);
  }

  lemma NotPickOfRest(records: set<Backup>, rest: set<Backup>, st: Settings, asOf: Option<int>, b: Backup)
    requires DistinctNames(records) && st.Valid() && PartlyApplied(records, rest, st, asOf)
    requires b in rest && b.isValid && !IsPick(ValidOnes(records), BucketsFor(Reference(records, asOf), st), b)
    ensures !IsPick(ValidOnes(rest), BucketsFor(Reference(records, asOf), st), b)
  {
    var valid, left := ValidOnes(records), ValidOnes(rest);
    var buckets := BucketsFor(Reference(records, asOf), st);
    forall k | k in buckets
      ensures Newest(Members(left, k)) != Some(b)
    {
      var all := Members(valid, k);
      assert Members(left, k) <= all;
      if Newest(all).Some? {
        assert IsPick(valid, buckets, Newest(all).value);
        assert Newest(all).value in Survivors(records, st, asOf);
        NewestOfSubset(all, Members(left, k));
      }
    }
  }

  lemma NotOldestOfRest(records: set<Backup>, rest: set<Backup>, st: Settings, asOf: Option<int>, b: Backup)
    requires DistinctNames(records) && st.Valid() && PartlyApplied(records, rest, st, asOf)
    requires b in rest && b.isValid && Oldest(ValidOnes(records)) != Some(b)
    ensures Oldest(ValidOnes(rest)) != Some(b)
  {
    assert b in ValidOnes(records);
    var oldest := Oldest(ValidOnes(records)).value;
    assert oldest in Survivors(records, st, asOf);
    OldestOfSubset(ValidOnes(records), ValidOnes(rest), oldest);
  }

  /** After any part of a plan has been applied, a new plan keeps exactly what the first one kept. */
  lemma KeptIsStable(records: set<Backup>, rest: set<Backup>, st: Settings, asOf: Option<int>, b: Backup)
    requires DistinctNames(records) && st.Valid() && PartlyApplied(records, rest, st, asOf)
    requires b in rest && b.isValid
    ensures Kept(rest, st, asOf, b) <==> Kept(records, st, asOf, b)
  {
    SameReference(records, rest, st, asOf);
    if Kept(records, st, asOf, b) {
      KeptInSubset(records, rest, st, asOf, b);
    } else {
      NotInTopOfRest(records, rest, st, asOf, b);
      NotPickOfRest(records, rest, st, asOf, b);
      NotOldestOfRest(records, rest, st, asOf, b);
    }
  }

  /**
   * Planning and applying again after an interrupted deletion ends in the same place; after a
   * complete one (`rest` being the survivors) there is nothing left to delete.
   */
  lemma RetryConverges(records: set<Backup>, rest: set<Backup>, st: Settings, asOf: Option<int>)
    requires DistinctNames(records) && st.Valid() && PartlyApplied(records, rest, st, asOf)
    ensures DistinctNames(rest)
    ensures Deletable(rest, st, asOf) == Deletable(records, st, asOf) * rest
    ensures Survivors(rest, st, asOf) == Survivors(records, st, asOf)
  {
    forall b | b in rest && b.isValid
      ensures Kept(rest, st, asOf, b) <==> Kept(records, st, asOf, b)
    {
      KeptIsStable(records, rest, st, asOf, b);
    }
  }

  // ---------------------------------------------------------------- how much is kept

  lemma UnionSize<T>(a: set<T>, b: set<T>)
    ensures |a + b| <= |a| + |b|
  {
    assert |a + b| == |a| + |b| - |a * b|;
  }

  lemma {:induction false} EachCount(n: nat, bucketAt: nat -> Bucket)
    ensures |Each(n, bucketAt)| <= n
  {
    if n > 0 {
      EachCount(n - 1, bucketAt);
      UnionSize(Each(n - 1, bucketAt), {bucketAt(n - 1)});
    }
  }

  lemma {:induction false} PicksSize(s: set<Backup>, buckets: set<Bucket>)
    requires DistinctNames(s)
    ensures |Picks(s, buckets)| <= |buckets|
  {
    if buckets == {} {
      assert Picks(s, buckets) == {};
    } else {
      var k :| k in buckets;
      var rest := buckets - {k};
      PicksSize(s, rest);
      PicksOfMore(s, rest, k);
      assert buckets == rest + {k};
      UnionSize(Picks(s, rest), PickOf(s, k));
    }
  }

  function PickOf(s: set<Backup>, k: Bucket): (r: set<Backup>)
    requires DistinctNames(s)
    ensures |r| <= 1
  {
    if Newest(Members(s, k)).Some? then {Newest(Members(s, k)).value} else {}
  }

  /** One more bucket adds at most its own pick. */
  lemma PicksOfMore(s: set<Backup>, buckets: set<Bucket>, k: Bucket)
    requires DistinctNames(s)
    ensures Picks(s, buckets + {k}) == Picks(s, buckets) + PickOf(s, k)
  {
    forall b | b in s
      ensures IsPick(s, buckets + {k}, b) <==> IsPick(s, buckets, b) || Newest(Members(s, k)) == Some(b)
    {
      if Newest(Members(s, k)) == Some(b) {
        assert k in buckets + {k};
      }
    }
  }

  function AsSet(o: Option<Backup>): (r: set<Backup>)
    ensures |r| <= 1
  {
    if o.Some? then {o.value} else {}
  }

  /** At most latest + 1 + daily + weekly unpinned valid backups survive. */
  lemma RetainedBound(records: set<Backup>, st: Settings, asOf: Option<int>)
    requires DistinctNames(records) && st.Valid()
    ensures |set b | b in Survivors(records, st, asOf) && b.isValid && !b.isPinned|
            <= st.latest + 1 + st.daily + st.weekly
  {
    var valid, buckets := ValidOnes(records), BucketsFor(Reference(records, asOf), st);
    var top, oldest, picks := Top(valid, st.latest), AsSet(Oldest(valid)), Picks(valid, buckets);
    TopSize(valid, st.latest);
    PicksSize(valid, buckets);
    BucketTotal(Reference(records, asOf), st);
    UnionSize(top, oldest);
    UnionSize(top + oldest, picks);
    SubsetSize((set b | b in Survivors(records, st, asOf) && b.isValid && !b.isPinned), top + oldest + picks);
  }

  lemma BucketTotal(reference: Option<int>, st: Settings)
    requires st.Valid()
    ensures |BucketsFor(reference, st)| <= st.daily + st.weekly
  {
    if reference.Some? {
      var day := DayOf(reference.value);
      EachCount(st.daily, DayAt(day));
      EachCount(st.weekly, WeekAt(day));
      UnionSize(Each(st.daily, DayAt(day)), Each(st.weekly, WeekAt(day)));
    }
  }

  /**
   * Every deleted backup is superseded: at least `latest` newer valid backups and an older one
   * survive, and the survivor of each of its buckets in the window is newer.
   */
  lemma DeletedIsSuperseded(records: set<Backup>, st: Settings, asOf: Option<int>, b: Backup)
    requires DistinctNames(records) && st.Valid() && b in Deletable(records, st, asOf)
    ensures |set v | v in Survivors(records, st, asOf) && v.isValid && Newer(v, b)| >= st.latest
    ensures exists v :: v in Survivors(records, st, asOf) && v.isValid && Newer(b, v)
    ensures forall k :: k in BucketsFor(Reference(records, asOf), st) && InBucket(b, k) ==>
              exists v :: v in Survivors(records, st, asOf) && v.isValid && InBucket(v, k) && Newer(v, b)
  {
    var valid, rest := ValidOnes(records), Survivors(records, st, asOf);
    OutsideTop(valid, st.latest, b);
    TopGrows(valid, st.latest);
    SubsetSize(Top(valid, st.latest), (set v | v in rest && v.isValid && Newer(v, b)));
    assert Oldest(valid).value in rest;
    forall k | k in BucketsFor(Reference(records, asOf), st) && InBucket(b, k)
      ensures exists v :: v in rest && v.isValid && InBucket(v, k) && Newer(v, b)
    {
      assert b in Members(valid, k);
      var v := Newest(Members(valid, k)).value;
      assert IsPick(valid, BucketsFor(Reference(records, asOf), st), v);
    }
  }
}
