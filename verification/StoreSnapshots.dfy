/** Backfilling statement snapshots from finance profiles that provably came first. */
module StoreSnapshots {
  import opened Basics

  datatype StatementId = StatementId(n: int)
  datatype ProfileId = ProfileId(rank: int)
  datatype BatchId = BatchId(n: int)
  datatype StoreId = StoreId(n: int)
  type Time = int

  /** Months count from year zero, so that the text order of `YYYY-MM` is the order of numbers. */
  const FIRST_MONTH := 2026 * 12 + 8

  const BASIC := 1

  datatype Profile = Profile(
    store: StoreId, kind: int, version: int, createdAt: Time,
    storeName: string, sapCode: Option<string>, batch: Option<BatchId>)

  datatype Batch = Batch(status: int, committedAt: Option<Time>, submittedAt: Time)

  datatype Status = LiveCaptured | BackfilledProfile | Unresolved

  datatype Statement = Statement(
    store: StoreId, month: int, createdAt: Time,
    storeName: Option<string>, sapCode: Option<string>, status: Status, profile: Option<ProfileId>)

  datatype Reason = NoPriorBasicProfile | ProfileNotCommittedBeforeStatement | AmbiguousProfileTime |
                    InvalidProfileVersionOrder

  type Statements = map<StatementId, Statement>
  type Profiles = map<ProfileId, Profile>

  datatype Facts = Facts(profiles: Profiles, batches: map<BatchId, Batch>)

  predicate InScope(st: Statement) {
    st.month >= FIRST_MONTH
  }

  predicate IsBasic(p: Profile, st: Statement) {
    p.store == st.store && p.kind == BASIC
  }

  predicate IsPrior(p: Profile, st: Statement) {
    IsBasic(p, st) && p.createdAt < st.createdAt
  }

  /** Two prior profiles whose versions and creation times disagree. */
  predicate Inverted(f: Facts, st: Statement) {
    exists a, b :: a in f.profiles && b in f.profiles && IsPrior(f.profiles[a], st) && IsPrior(f.profiles[b], st) &&
                   f.profiles[b].version > f.profiles[a].version && f.profiles[b].createdAt < f.profiles[a].createdAt
  }

  /** The profile's import was final before the statement existed. */
  predicate CommittedBefore(f: Facts, p: Profile, st: Statement) {
    && p.batch.Some? && p.batch.value in f.batches
    && var b := f.batches[p.batch.value];
       && (b.status == 5 || b.status == 8 || b.status == 9)
       && b.committedAt.GetOr(b.submittedAt) < st.createdAt
  }

  predicate Eligible(f: Facts, id: ProfileId, st: Statement) {
    id in f.profiles && IsPrior(f.profiles[id], st) && CommittedBefore(f, f.profiles[id], st)
  }

  function Candidates(f: Facts, st: Statement): set<ProfileId> {
    if InScope(st) && !Inverted(f, st) then set id | id in f.profiles && Eligible(f, id, st) else {}
  }

  /** `ORDER BY version_no DESC, gmt_create DESC, profile_id DESC` */
  predicate RanksBefore(ps: Profiles, a: ProfileId, b: ProfileId) {
    if a !in ps || b !in ps then a.rank >= b.rank
    else if ps[a].version != ps[b].version then ps[a].version > ps[b].version
    else if ps[a].createdAt != ps[b].createdAt then ps[a].createdAt > ps[b].createdAt
    else a.rank >= b.rank
  }

  /** The profile with row number 1. */
  function Chosen(f: Facts, st: Statement): (r: Option<ProfileId>)
    ensures r.None? <==> Candidates(f, st) == {}
    ensures r.Some? ==> r.value in Candidates(f, st) &&
                        forall q :: q in Candidates(f, st) ==> RanksBefore(f.profiles, r.value, q)
  {
    First(Candidates(f, st), (a: ProfileId, b: ProfileId) => RanksBefore(f.profiles, a, b))
  }

  /** The reason the exception insert records, in the order of its CASE. */
  function ReasonFor(f: Facts, st: Statement): Reason {
    if Inverted(f, st) then InvalidProfileVersionOrder
    else if exists p :: p in f.profiles && IsBasic(f.profiles[p], st) && f.profiles[p].createdAt == st.createdAt
      then AmbiguousProfileTime
    else if exists p :: p in f.profiles && IsPrior(f.profiles[p], st) then ProfileNotCommittedBeforeStatement
    else NoPriorBasicProfile
  }

  class StatementTable {
    var statements: Statements
    var exceptions: map<StatementId, Reason>

    /** Fill, from the latest eligible profile, every statement in scope that has one and no disordered history. */
    method BackfillSnapshots(f: Facts)
      modifies this
      ensures statements.Keys == old(statements).Keys
      ensures forall id :: id in statements ==> statements[id] == Resolved(f, old(statements)[id])
      ensures forall id :: id in statements ==>
                if HasSnapshot(f, old(statements)[id]) then FilledFrom(f, old(statements)[id], statements[id])
                else statements[id] == old(statements)[id]
      ensures exceptions == old(exceptions)
    {
      statements := map id | id in statements ::
        var st := statements[id];
        var chosen := Chosen(f, st);
        if chosen.None? then st
        else st.(storeName := Some(f.profiles[chosen.value].storeName), sapCode := f.profiles[chosen.value].sapCode,
                 profile := chosen, status := BackfilledProfile);
      forall id | id in statements
        ensures if HasSnapshot(f, old(statements)[id]) then FilledFrom(f, old(statements)[id], statements[id])
                else statements[id] == old(statements)[id]
      {
        FillMeans(f, old(statements)[id]);
      }
    }

    /**
     * Record one exception for every statement in scope that is still unresolved, with the only reason that applies.
     */
    method RecordExceptions(f: Facts)
      requires exceptions == map[]
      modifies this
      ensures statements == old(statements)
      ensures exceptions.Keys ==
              set id | id in statements && InScope(statements[id]) && statements[id].status == Unresolved
      ensures forall id :: id in exceptions ==> exceptions[id] == ReasonFor(f, statements[id])
      ensures forall id, reason :: id in exceptions && !HasSnapshot(f, statements[id]) ==>
                (Justified(f, statements[id], reason) <==> reason == exceptions[id])
    {
      exceptions := map id | id in statements && InScope(statements[id]) && statements[id].status == Unresolved ::
        ReasonFor(f, statements[id]);
      forall id, reason | id in exceptions && !HasSnapshot(f, statements[id])
        ensures Justified(f, statements[id], reason) <==> reason == exceptions[id]
      {
        SnapshotIff(f, statements[id]);
        OnlyReason(f, statements[id], reason);
      }
    }

    /**
     * The two statements in order give every unresolved statement in scope exactly one outcome. The update does not
     * ask for the status, so a statement in scope that was not unresolved is filled as well if it has a snapshot.
     */
    method Upgrade(f: Facts)
      requires exceptions == map[]
      modifies this
      ensures statements.Keys == old(statements).Keys
      ensures forall id :: id in statements && InScope(statements[id]) && old(statements)[id].status == Unresolved ==>
                ExactlyOneOutcome(f, old(statements)[id], statements[id],
                                  if id in exceptions then Some(exceptions[id]) else None)
      ensures forall id :: id in statements && old(statements)[id].status != Unresolved ==>
                && id !in exceptions
                && if HasSnapshot(f, old(statements)[id]) then FilledFrom(f, old(statements)[id], statements[id])
                   else statements[id] == old(statements)[id]
      ensures forall id :: id in statements && !InScope(statements[id]) ==>
                             statements[id] == old(statements)[id] && id !in exceptions
    {
      BackfillSnapshots(f);
      RecordExceptions(f);
      forall id | id in statements && InScope(statements[id]) && old(statements)[id].status == Unresolved
        ensures ExactlyOneOutcome(f, old(statements)[id], statements[id],
                                  if id in exceptions then Some(exceptions[id]) else None)
      {
        OutcomeOf(f, old(statements)[id]);
      }
    }
  }

  /** The statement as it is after the snapshot update. */
  function Resolved(f: Facts, st: Statement): Statement {
    match Chosen(f, st)
    case None => st
    case Some(p) => Statement(st.store, st.month, st.createdAt, Some(f.profiles[p].storeName), f.profiles[p].sapCode,
                              BackfilledProfile, Some(p))
  }

  // ---------------------------------------------------------------- what the outcomes mean

  /** No eligible profile is a better snapshot: none has a higher version or a later creation time. */
  ghost predicate IsLatest(f: Facts, id: ProfileId, st: Statement) {
    && Eligible(f, id, st)
    && forall q :: Eligible(f, q, st) ==>
                     f.profiles[q].version <= f.profiles[id].version &&
                     f.profiles[q].createdAt <= f.profiles[id].createdAt
  }

  /** There is a profile to fill the statement from. */
  ghost predicate HasSnapshot(f: Facts, st: Statement) {
    InScope(st) && !Inverted(f, st) && exists id :: Eligible(f, id, st)
  }

  /** Name, code and profile come from a latest eligible profile; nothing else of the statement changes. */
  ghost predicate FilledFrom(f: Facts, before: Statement, after: Statement) {
    && after.profile.Some? && IsLatest(f, after.profile.value, before)
    && after == before.(storeName := Some(f.profiles[after.profile.value].storeName), profile := after.profile,
                        sapCode := f.profiles[after.profile.value].sapCode, status := BackfilledProfile)
  }

  lemma SnapshotIff(f: Facts, st: Statement)
    ensures HasSnapshot(f, st) <==> Chosen(f, st).Some?
  {
    if HasSnapshot(f, st) {
      var id :| Eligible(f, id, st);
      assert id in Candidates(f, st);
    }
  }

  lemma FillMeans(f: Facts, st: Statement)
    ensures if HasSnapshot(f, st) then FilledFrom(f, st, Resolved(f, st)) else Resolved(f, st) == st
  {
    SnapshotIff(f, st);
    if HasSnapshot(f, st) {
      ChosenIsLatest(f, st);
    }
  }

  /** What must hold for a reason to be the right one, said without the order of the CASE. */
  ghost predicate Justified(f: Facts, st: Statement, reason: Reason) {
    var sameInstant := exists p :: p in f.profiles && IsBasic(f.profiles[p], st) &&
                                   f.profiles[p].createdAt == st.createdAt;
    match reason
    case InvalidProfileVersionOrder => Inverted(f, st)
    case AmbiguousProfileTime => sameInstant && NoneEligible(f, st) && !Inverted(f, st)
    case ProfileNotCommittedBeforeStatement =>
      && !Inverted(f, st) && !sameInstant
      && (exists p :: p in f.profiles && IsPrior(f.profiles[p], st))
      && forall p :: p in f.profiles && IsPrior(f.profiles[p], st) ==> !CommittedBefore(f, f.profiles[p], st)
    case NoPriorBasicProfile =>
      forall p :: p in f.profiles && IsBasic(f.profiles[p], st) ==> f.profiles[p].createdAt > st.createdAt
  }

  ghost predicate NoneEligible(f: Facts, st: Statement) {
    forall p :: p in f.profiles ==> !Eligible(f, p, st)
  }

  ghost predicate ExactlyOneOutcome(f: Facts, before: Statement, after: Statement, reason: Option<Reason>) {
    if after.status == BackfilledProfile then
      && reason.None?
      && after.profile.Some? && IsLatest(f, after.profile.value, before)
      && after.storeName == Some(f.profiles[after.profile.value].storeName)
      && after.sapCode == f.profiles[after.profile.value].sapCode
    else
      && after == before
      && reason.Some? && Justified(f, before, reason.value)
      && forall other :: Justified(f, before, other) ==> other == reason.value
  }

  lemma ChosenIsLatest(f: Facts, st: Statement)
    requires Chosen(f, st).Some?
    ensures IsLatest(f, Chosen(f, st).value, st)
  {
    var id := Chosen(f, st).value;
    forall q | Eligible(f, q, st)
      ensures f.profiles[q].version <= f.profiles[id].version && f.profiles[q].createdAt <= f.profiles[id].createdAt
    {
      assert q in Candidates(f, st);
      assert RanksBefore(f.profiles, id, q);
    }
  }

  lemma OnlyReason(f: Facts, st: Statement, other: Reason)
    requires InScope(st) && Chosen(f, st).None?
    ensures Justified(f, st, other) <==> other == ReasonFor(f, st)
  {
    if !Inverted(f, st) {
      forall p | p in f.profiles
        ensures !Eligible(f, p, st)
      {
        assert p !in Candidates(f, st);
      }
    }
  }

  lemma OutcomeOf(f: Facts, st: Statement)
    requires InScope(st) && st.status == Unresolved
    ensures ExactlyOneOutcome(f, st, Resolved(f, st),
              if Resolved(f, st).status == Unresolved then Some(ReasonFor(f, st)) else None)
  {
    if Chosen(f, st).Some? {
      ChosenIsLatest(f, st);
    } else {
      forall other
        ensures Justified(f, st, other) <==> other == ReasonFor(f, st)
      {
        OnlyReason(f, st, other);
      }
    }
  }

  // ---------------------------------------------------------------- the conditions by columns

  /** Statements from August 2026 on are in scope. */
  lemma ScopeMeans(st: Statement, year: int, month: int)
    requires 1 <= month <= 12 && st.month == 12 * year + month
    ensures InScope(st) <==> year > 2026 || (year == 2026 && month >= 8)
  {
  }

  /**
   * An eligible profile is a basic one of the store that was created, and whose import in a final state was
   * committed, or submitted if no commit is noted, before the statement.
   */
  lemma EligibleMeans(f: Facts, id: ProfileId, st: Statement)
    ensures Eligible(f, id, st) <==>
            && id in f.profiles && f.profiles[id].store == st.store && f.profiles[id].kind == 1
            && f.profiles[id].createdAt < st.createdAt
            && exists b :: f.profiles[id].batch == Some(b) && b in f.batches && f.batches[b].status in {5, 8, 9} &&
                           (if f.batches[b].committedAt.Some? then f.batches[b].committedAt.value
                            else f.batches[b].submittedAt) < st.createdAt
  {
  }

  /** Two earlier basic profiles of the store are out of order: the higher version was created first. */
  ghost predicate OutOfOrder(f: Facts, st: Statement, a: ProfileId, b: ProfileId) {
    && a in f.profiles && b in f.profiles
    && f.profiles[a].store == st.store && f.profiles[a].kind == 1 && f.profiles[a].createdAt < st.createdAt
    && f.profiles[b].store == st.store && f.profiles[b].kind == 1 && f.profiles[b].createdAt < st.createdAt
    && f.profiles[a].version < f.profiles[b].version && f.profiles[b].createdAt < f.profiles[a].createdAt
  }

  lemma InvertedMeans(f: Facts, st: Statement)
    ensures Inverted(f, st) <==> exists a, b :: OutOfOrder(f, st, a, b)
  {
    if Inverted(f, st) {
      var a, b :| a in f.profiles && b in f.profiles && IsPrior(f.profiles[a], st) && IsPrior(f.profiles[b], st) &&
                  f.profiles[b].version > f.profiles[a].version && f.profiles[b].createdAt < f.profiles[a].createdAt;
      assert OutOfOrder(f, st, a, b);
    }
  }

  /** A basic profile of the statement's store. */
  ghost predicate BasicOf(f: Facts, st: Statement, p: ProfileId) {
    p in f.profiles && f.profiles[p].store == st.store && f.profiles[p].kind == 1
  }

  /** The reason recorded for a statement without a snapshot, by the profiles of its store. */
  lemma ReasonMeans(f: Facts, st: Statement)
    ensures ReasonFor(f, st) == InvalidProfileVersionOrder <==> exists a, b :: OutOfOrder(f, st, a, b)
    ensures ReasonFor(f, st) == NoPriorBasicProfile <==>
            forall p :: BasicOf(f, st, p) ==> f.profiles[p].createdAt > st.createdAt
    ensures ReasonFor(f, st) == AmbiguousProfileTime <==>
            && (forall a, b :: !OutOfOrder(f, st, a, b))
            && exists p :: BasicOf(f, st, p) && f.profiles[p].createdAt == st.createdAt
  {
    InvertedMeans(f, st);
    if p :| BasicOf(f, st, p) && f.profiles[p].createdAt == st.createdAt {
      assert IsBasic(f.profiles[p], st);
    }
    if p :| BasicOf(f, st, p) && f.profiles[p].createdAt < st.createdAt {
      assert IsPrior(f.profiles[p], st);
    }
  }
}
