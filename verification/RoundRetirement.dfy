/**
 * The migration that retires legacy clue rounds and the downgrade that brings them back.
 * Tables are maps keyed by their primary key and SQL NULL is None; columns that no statement
 * reads or writes are carried in `rest`.
 */
module RoundRetirement {
  import opened Basics

  datatype RoundId = RoundId(rank: int)
  datatype OrderId = OrderId(n: int)
  datatype LeadKey = LeadKey(n: int)
  datatype RecordId = RecordId(n: int)
  type Time = int

  datatype Mode = Legacy | Formal | Trial | UnknownMode(name: string)
  datatype RoundStatus = ActiveUnfollowed | ActiveFollowed | ClosedReassigned | OtherRoundStatus(code: int)
  datatype Reason = LegacyEngineRetired | InHeadquartersPool | OtherReason(code: int)
  datatype CenterStatus = Headquarters | PendingAllocation | OtherCenterStatus(code: int)
  datatype Source = ClueProjection | OtherSource(code: int)
  datatype Pool = StoreFollowUpPool | HeadquartersPool | OtherPool(code: int)

  datatype Round = Round(
    order: OrderId,
    lead: Option<LeadKey>,
    roundNo: int,
    store: Option<string>,
    followed: bool,
    status: RoundStatus,
    mode: Mode,
    terminalReason: Option<Reason>,
    reassignReason: Option<Reason>,
    reassignedAt: Option<Time>,
    autoExpiry: Option<bool>,
    createdAt: Time,
    updatedAt: Time,
    rest: int)
  {
    predicate IsActive() {
      status == ActiveUnfollowed || status == ActiveFollowed
    }
  }

  datatype Center = Center(
    leadStatus: CenterStatus,
    current: Option<RoundId>,
    roundNo: int,
    roundStatus: CenterStatus,
    assignedAt: Option<Time>,
    assignedAtSource: Source,
    store: Option<string>,
    storeName: Option<string>,
    city: Option<string>,
    province: Option<string>,
    expiresAt: Option<Time>,
    reassignReason: Option<Reason>,
    updatedAt: Time,
    rest: int)

  datatype Lead = Lead(
    order: Option<OrderId>,
    current: Option<RoundId>,
    lifecycleActive: bool,
    orderActive: bool,
    pool: Option<Pool>,
    isAssigned: bool)

  datatype FollowUp = FollowUp(round: RoundId, order: OrderId, roundNo: int, store: Option<string>)

  type Rounds = map<RoundId, Round>
  type Centers = map<OrderId, Center>

  datatype Db = Db(
    rounds: Rounds,
    centers: Centers,
    leads: map<LeadKey, Lead>,
    followUps: map<RecordId, FollowUp>,
    decisions: set<RoundId>,
    cycleItems: set<RoundId>,
    poolEntries: set<RoundId>)

  // ---------------------------------------------------------------- predicates of the guard

  /** Two rounds compete for one place in the (lead, mode, number) namespace; NULL leads never do. */
  predicate SameSlot(a: Round, b: Round) {
    a.lead.Some? && a.lead == b.lead && a.roundNo == b.roundNo
  }

  /** The formal rounds already in a legacy round's slot. */
  function Occupants(rounds: Rounds, round: Round): set<RoundId> {
    set f | f in rounds && rounds[f].mode == Formal && SameSlot(rounds[f], round)
  }

  predicate RankLe(a: RoundId, b: RoundId) {
    a.rank <= b.rank
  }

  function Retained(rounds: Rounds, round: Round): Option<RoundId> {
    First(Occupants(rounds, round), RankLe)
  }

  predicate FollowedUp(db: Db, id: RoundId) {
    exists rec :: rec in db.followUps && db.followUps[rec].round == id
  }

  /** A follow-up record, decision, cycle item or pool entry names the round. */
  predicate Recorded(db: Db, id: RoundId) {
    FollowedUp(db, id) || id in db.decisions || id in db.cycleItems || id in db.poolEntries
  }

  predicate LeadPoints(db: Db, id: RoundId) {
    exists k :: k in db.leads && db.leads[k].current == Some(id)
  }

  predicate CenterPoints(db: Db, id: RoundId) {
    exists o :: o in db.centers && db.centers[o].current == Some(id)
  }

  predicate LeadContradictsStale(lead: Lead, order: OrderId) {
    || lead.order != Some(order)
    || lead.current.Some?
    || !lead.lifecycleActive
    || !lead.orderActive
    || lead.pool == Some(StoreFollowUpPool)
    || lead.isAssigned
  }

  /** An untouched active round that nothing relies on any more. */
  predicate SafeStale(db: Db, id: RoundId)
    requires id in db.rounds
  {
    var r := db.rounds[id];
    && r.status == ActiveUnfollowed
    && !r.followed
    && !Recorded(db, id)
    && !LeadPoints(db, id)
    && (forall o :: o in db.centers && db.centers[o].current == Some(id) ==> o == r.order)
    && (r.lead.Some? && r.lead.value in db.leads ==> !LeadContradictsStale(db.leads[r.lead.value], r.order))
  }

  predicate IsBlank(s: string) {
    forall i :: 0 <= i < |s| ==> s[i] == ' '
  }

  /** One row of the guard's join of an active round with a center (or none) fails a check. */
  predicate BadOwnership(db: Db, id: RoundId, center: Option<OrderId>)
    requires id in db.rounds
  {
    var r := db.rounds[id];
    || r.lead.None?
    || r.lead.value !in db.leads
    || r.store.None? || IsBlank(r.store.value)
    || center != Some(r.order)
    || (var lead := db.leads[r.lead.value];
        || lead.order != Some(r.order)
        || lead.current != Some(id)
        || !lead.lifecycleActive
        || !lead.orderActive
        || (lead.pool.Some? && lead.pool.value != StoreFollowUpPool)  // a NULL pool is not flagged
        || !lead.isAssigned)
  }

  /** The left join yields one row per center pointing at the round, or one row without a center. */
  predicate InvalidActive(db: Db, id: RoundId)
    requires id in db.rounds
  {
    && db.rounds[id].mode == Legacy
    && db.rounds[id].IsActive()
    && Occupants(db.rounds, db.rounds[id]) == {}
    && !SafeStale(db, id)
    && ((!CenterPoints(db, id) && BadOwnership(db, id, None))
        || exists o :: o in db.centers && db.centers[o].current == Some(id) && BadOwnership(db, id, Some(o)))
  }

  predicate UnsafeCollision(db: Db, id: RoundId)
    requires id in db.rounds
  {
    && db.rounds[id].mode == Legacy
    && exists f :: f in Occupants(db.rounds, db.rounds[id]) &&
         (db.rounds[f].order != db.rounds[id].order || Recorded(db, id) || LeadPoints(db, id) || CenterPoints(db, id))
  }

  predicate CompetingActive(db: Db, id: RoundId)
    requires id in db.rounds
  {
    db.rounds[id].mode == Legacy && db.rounds[id].IsActive() && db.rounds[id].lead.Some? && !SafeStale(db, id)
  }

  predicate Inconsistent(db: Db, rec: RecordId)
    requires rec in db.followUps
  {
    var f := db.followUps[rec];
    || f.round !in db.rounds
    || f.order != db.rounds[f.round].order
    || f.roundNo != db.rounds[f.round].roundNo
    || f.store.GetOr("") != db.rounds[f.round].store.GetOr("")
  }

  predicate Guard(db: Db) {
    && (forall id :: id in db.rounds ==> !db.rounds[id].mode.UnknownMode?)
    && (forall id :: id in db.rounds ==> !UnsafeCollision(db, id))
    && (forall id :: id in db.rounds ==> !InvalidActive(db, id))
    && (forall a, b :: a in db.rounds && b in db.rounds && a != b && CompetingActive(db, a) && CompetingActive(db, b)
          ==> db.rounds[a].lead != db.rounds[b].lead)
    && (forall rec :: rec in db.followUps ==> !Inconsistent(db, rec))
  }

  /** The unique constraint on (lead_key, execution_mode, round_no), which ignores NULL leads. */
  ghost predicate SlotsUnique(rounds: Rounds) {
    forall a, b :: a in rounds && b in rounds && a != b && rounds[a].mode == rounds[b].mode
      ==> !SameSlot(rounds[a], rounds[b])
  }

  // ---------------------------------------------------------------- the upgrade, row by row

  datatype Retired = Retired(round: Round, retained: Option<RoundId>, stale: bool)
  type RoundLog = map<RoundId, Retired>
  type CenterLog = map<OrderId, Center>

  /** One log row for every legacy round. */
  function LogOf(db: Db): RoundLog {
    map id | id in db.rounds && db.rounds[id].mode == Legacy ::
      Retired(db.rounds[id], Retained(db.rounds, db.rounds[id]), SafeStale(db, id))
  }

  /** The round a center points at is being closed as stale. */
  predicate LosesRound(log: RoundLog, center: Center) {
    && center.current.Some? && center.current.value in log
    && log[center.current.value].retained.None? && log[center.current.value].stale
  }

  /** `INSERT` into the center log: a join of the centers with the round log. */
  function LogCenters(centers: Centers, log: RoundLog): CenterLog {
    map o | o in centers && LosesRound(log, centers[o]) :: centers[o]
  }

  function CenterLogOf(db: Db): CenterLog {
    LogCenters(db.centers, LogOf(db))
  }

  /** The lead behind a round waits in the headquarters pool. */
  predicate AtHeadquarters(db: Db, id: RoundId) {
    && id in db.rounds && db.rounds[id].lead.Some? && db.rounds[id].lead.value in db.leads
    && db.leads[db.rounds[id].lead.value].pool == Some(HeadquartersPool)
  }

  function ReleasedCenter(db: Db, center: Center, now: Time): Center {
    var hq := center.current.Some? && AtHeadquarters(db, center.current.value);
    var status := if hq then Headquarters else PendingAllocation;
    Center(status, None, 0, status, None, ClueProjection, None, None, None, None, None,
           Some(if hq then InHeadquartersPool else LegacyEngineRetired), now, center.rest)
  }

  function ClosedRound(r: Round): Round {
    r.(status := ClosedReassigned, terminalReason := Some(LegacyEngineRetired),
       reassignReason := Some(LegacyEngineRetired),
       reassignedAt := if r.reassignedAt.Some? then r.reassignedAt else Some(r.updatedAt),
       autoExpiry := Some(false))
  }

  function FormalRound(r: Round): Round {
    r.(mode := Formal, autoExpiry := if r.IsActive() then Some(false) else r.autoExpiry)
  }

  function UpgradedRound(log: RoundLog, id: RoundId, r: Round): Round {
    if id !in log then r
    else if log[id].stale then FormalRound(ClosedRound(r))
    else FormalRound(r)
  }

  function UpgradedRounds(db: Db): Rounds {
    var log := LogOf(db);
    map id | id in db.rounds && (id in log ==> log[id].retained.None?) :: UpgradedRound(log, id, db.rounds[id])
  }

  function UpgradedCenters(db: Db, now: Time): Centers {
    map o | o in db.centers ::
      if LosesRound(LogOf(db), db.centers[o]) then ReleasedCenter(db, db.centers[o], now) else db.centers[o]
  }

  function Upgraded(db: Db, now: Time): Db {
    db.(rounds := UpgradedRounds(db), centers := UpgradedCenters(db, now))
  }

  // ---------------------------------------------------------------- the downgrade, row by row

  /** A formal round other than the retained one has taken a retired round's slot. */
  predicate NamespaceConflict(rounds: Rounds, log: RoundLog) {
    exists id, f :: id in log && f in rounds && rounds[f].mode == Formal && SameSlot(rounds[f], log[id].round) &&
                    f != id && log[id].retained != Some(f)
  }

  predicate CenterConflict(centers: Centers, log: CenterLog) {
    exists o :: o in log && o in centers && centers[o].current.Some? &&
                log[o].current.Some? && centers[o].current != log[o].current
  }

  function RestoredRound(r: Round, was: Round): Round {
    r.(mode := Legacy, autoExpiry := was.autoExpiry, status := was.status,
       terminalReason := was.terminalReason, reassignReason := was.reassignReason, reassignedAt := was.reassignedAt)
  }

  function DowngradedRounds(rounds: Rounds, log: RoundLog): Rounds {
    map id | id in rounds.Keys + (set x | x in log && log[x].retained.Some?) ::
      if id !in rounds then log[id].round
      else if id in log && log[id].retained.None? then RestoredRound(rounds[id], log[id].round)
      else rounds[id]
  }

  function DowngradedCenters(centers: Centers, log: CenterLog): Centers {
    map o | o in centers :: if o in log then log[o].(rest := centers[o].rest) else centers[o]
  }

  // ---------------------------------------------------------------- the round trip

  lemma LogIsLegacy(db: Db, id: RoundId)
    requires id in db.rounds && db.rounds[id].mode == Legacy
    ensures id in LogOf(db)
    ensures LogOf(db)[id] == Retired(db.rounds[id], Retained(db.rounds, db.rounds[id]), SafeStale(db, id))
    ensures LogOf(db)[id].retained.None? <==> Occupants(db.rounds, db.rounds[id]) == {}
  {
  }

  /**
   * The log tells what the upgrade does to each legacy round: it is deleted exactly if a formal round is named as
   * kept instead, which then holds its slot; else it is closed if logged as stale and keeps its status if not; and
   * no other formal round is in its slot.
   */
  lemma LogTellsFate(db: Db, id: RoundId)
    requires SlotsUnique(db.rounds) && id in db.rounds && db.rounds[id].mode == Legacy
    ensures id in LogOf(db)
    ensures var entry, after := LogOf(db)[id], UpgradedRounds(db);
            && (entry.retained.Some? <==> id !in after)
            && (entry.retained.Some? ==>
                  entry.retained.value in after && after[entry.retained.value] == db.rounds[entry.retained.value] &&
                  SameSlot(after[entry.retained.value], entry.round))
            && (id in after ==>
                  after[id].mode == Formal && after[id].lead == entry.round.lead &&
                  after[id].roundNo == entry.round.roundNo)
            && (id in after && entry.stale ==> after[id].status == ClosedReassigned)
            && (id in after && !entry.stale ==> after[id].status == entry.round.status)
            && (forall f :: f in after && after[f].mode == Formal && SameSlot(after[f], entry.round) ==>
                  f == id || entry.retained == Some(f))
  {
    LogIsLegacy(db, id);
    NoNamespaceConflict(db);
    assert !NamespaceConflict(UpgradedRounds(db), LogOf(db));
  }

  /** After the upgrade, a retired round's slot holds at most that round or the formal round kept instead. */
  lemma NoNamespaceConflict(db: Db)
    requires SlotsUnique(db.rounds)
    ensures !NamespaceConflict(UpgradedRounds(db), LogOf(db))
  {
    var log, rounds := LogOf(db), UpgradedRounds(db);
    forall id, f | id in log && f in rounds && rounds[f].mode == Formal && SameSlot(rounds[f], log[id].round) && f != id
      ensures log[id].retained == Some(f)
    {
      var r := db.rounds[id];
      assert SameSlot(db.rounds[f], r);
      if db.rounds[f].mode == Formal {
        assert f in Occupants(db.rounds, r);
        var kept := log[id].retained.value;
        assert kept in Occupants(db.rounds, r);
        assert kept != f ==> SameSlot(db.rounds[kept], db.rounds[f]);
      }
    }
  }

  lemma RoundsRestored(db: Db)
    ensures DowngradedRounds(UpgradedRounds(db), LogOf(db)) == db.rounds
  {
    var log := LogOf(db);
    var back := DowngradedRounds(UpgradedRounds(db), log);
    forall id | id in db.rounds
      ensures id in back && back[id] == db.rounds[id]
    {
      if id in log && log[id].retained.None? {
        assert back[id] == RestoredRound(UpgradedRound(log, id, db.rounds[id]), db.rounds[id]);
      }
    }
    assert back.Keys <= db.rounds.Keys;
  }

  lemma CentersRestored(db: Db, now: Time)
    ensures !CenterConflict(UpgradedCenters(db, now), CenterLogOf(db))
    ensures DowngradedCenters(UpgradedCenters(db, now), CenterLogOf(db)) == db.centers
  {
  }

  /**
   * Running the downgrade right after the upgrade passes both of its conflict checks and gives
   * back every round and every center exactly.
   */
  lemma RoundTrip(db: Db, now: Time)
    requires SlotsUnique(db.rounds)
    ensures !NamespaceConflict(UpgradedRounds(db), LogOf(db))
    ensures !CenterConflict(UpgradedCenters(db, now), CenterLogOf(db))
    ensures DowngradedRounds(UpgradedRounds(db), LogOf(db)) == db.rounds
    ensures DowngradedCenters(UpgradedCenters(db, now), CenterLogOf(db)) == db.centers
  {
    NoNamespaceConflict(db);
    RoundsRestored(db);
    CentersRestored(db, now);
  }

  // ---------------------------------------------------------------- what the upgrade preserves

  /** A legacy round whose slot a formal round already holds is deleted. */
  lemma Displaced(db: Db, id: RoundId, f: RoundId)
    requires id in db.rounds && db.rounds[id].mode == Legacy
    requires f in db.rounds && db.rounds[f].mode == Formal && SameSlot(db.rounds[f], db.rounds[id])
    ensures id !in UpgradedRounds(db)
  {
    assert f in Occupants(db.rounds, db.rounds[id]);
  }

  lemma SlotKept(db: Db, a: RoundId, b: RoundId)
    requires SlotsUnique(db.rounds) && a != b
    requires a in UpgradedRounds(db) && b in UpgradedRounds(db) &&
             UpgradedRounds(db)[a].mode == UpgradedRounds(db)[b].mode
    ensures !SameSlot(UpgradedRounds(db)[a], UpgradedRounds(db)[b])
  {
    var x, y := db.rounds[a], db.rounds[b];
    if x.mode == Legacy && y.mode == Formal && SameSlot(y, x) {
      Displaced(db, a, b);
    } else if x.mode == Formal && y.mode == Legacy && SameSlot(x, y) {
      Displaced(db, b, a);
    }
  }

  /** No round is legacy any more. */
  lemma NoLegacyLeft(db: Db, id: RoundId)
    requires Guard(db) && id in UpgradedRounds(db)
    ensures UpgradedRounds(db)[id].mode == Formal || UpgradedRounds(db)[id].mode == Trial
  {
    assert !db.rounds[id].mode.UnknownMode?;
  }

  /** No legacy round is left, and the namespace constraint still holds. */
  lemma NamespaceKept(db: Db)
    requires Guard(db) && SlotsUnique(db.rounds)
    ensures forall id :: id in UpgradedRounds(db) ==>
                           UpgradedRounds(db)[id].mode == Formal || UpgradedRounds(db)[id].mode == Trial
    ensures SlotsUnique(UpgradedRounds(db))
  {
    var after := UpgradedRounds(db);
    forall id | id in after
      ensures after[id].mode == Formal || after[id].mode == Trial
    {
      NoLegacyLeft(db, id);
    }
    forall a, b | a in after && b in after && a != b && after[a].mode == after[b].mode
      ensures !SameSlot(after[a], after[b])
    {
      SlotKept(db, a, b);
    }
  }

  /** Every round that anything still points at survives the deletions. */
  lemma NothingDangles(db: Db, now: Time, id: RoundId)
    requires Guard(db) && id in db.rounds
    requires var after := Upgraded(db, now); Recorded(after, id) || LeadPoints(after, id) || CenterPoints(after, id)
    ensures id in UpgradedRounds(db)
  {
    var after := Upgraded(db, now);
    assert FollowedUp(db, id) == FollowedUp(after, id);
    assert LeadPoints(db, id) == LeadPoints(after, id);
    if CenterPoints(after, id) {
      var o :| o in after.centers && after.centers[o].current == Some(id);
      assert db.centers[o].current == Some(id);
    }
    assert !UnsafeCollision(db, id);
  }

  /** No center is left pointing at a legacy round that was closed or deleted. */
  lemma CentersPointAtKeptRounds(db: Db, now: Time, o: OrderId, id: RoundId)
    requires Guard(db) && id in db.rounds && db.rounds[id].mode == Legacy
    requires o in db.centers && UpgradedCenters(db, now)[o].current == Some(id)
    ensures id in UpgradedRounds(db) && UpgradedRounds(db)[id].status == db.rounds[id].status
  {
    assert CenterPoints(Upgraded(db, now), id);
    NothingDangles(db, now, id);
    LogIsLegacy(db, id);
  }

  /** A round is the current one of its own order and of its own lead. */
  ghost predicate IsCurrent(db: Db, id: RoundId)
    requires id in db.rounds
  {
    var r := db.rounds[id];
    && r.order in db.centers && db.centers[r.order].current == Some(id)
    && r.lead.Some? && r.lead.value in db.leads
    && db.leads[r.lead.value].current == Some(id) && db.leads[r.lead.value].order == Some(r.order)
  }

  /** A converted round that is still active is current, so a lead has at most one. */
  lemma ActiveIsCurrent(db: Db, now: Time, id: RoundId)
    requires Guard(db) && id in db.rounds && db.rounds[id].mode == Legacy
    requires id in UpgradedRounds(db) && UpgradedRounds(db)[id].IsActive()
    ensures IsCurrent(Upgraded(db, now), id)
  {
    LogIsLegacy(db, id);
    assert !SafeStale(db, id);
    assert !InvalidActive(db, id);
    assert CenterPoints(db, id);
    var o :| o in db.centers && db.centers[o].current == Some(id);
    assert !BadOwnership(db, id, Some(o));
    assert !LosesRound(LogOf(db), db.centers[o]);
  }

  lemma OneActivePerLead(db: Db, now: Time, a: RoundId, b: RoundId)
    requires Guard(db) && a in db.rounds && b in db.rounds
    requires db.rounds[a].mode == Legacy && a in UpgradedRounds(db) && UpgradedRounds(db)[a].IsActive()
    requires db.rounds[b].mode == Legacy && b in UpgradedRounds(db) && UpgradedRounds(db)[b].IsActive()
    requires UpgradedRounds(db)[a].lead == UpgradedRounds(db)[b].lead
    ensures a == b
  {
    ActiveIsCurrent(db, now, a);
    ActiveIsCurrent(db, now, b);
  }

  // ---------------------------------------------------------------- the statements themselves

  /** `DELETE` of the legacy rounds whose slot a formal round keeps. */
  function DeleteDisplaced(rounds: Rounds, log: RoundLog): Rounds {
    map id | id in rounds && !(id in log && log[id].retained.Some?) :: rounds[id]
  }

  /** `UPDATE` closing the stale rounds that stay. */
  function CloseStale(rounds: Rounds, log: RoundLog): Rounds {
    map id | id in rounds ::
      if id in log && log[id].retained.None? && log[id].stale then ClosedRound(rounds[id]) else rounds[id]
  }

  /** `UPDATE` turning every remaining legacy round formal. */
  function ConvertLegacy(rounds: Rounds): Rounds {
    map id | id in rounds :: if rounds[id].mode == Legacy then FormalRound(rounds[id]) else rounds[id]
  }

  /** `UPDATE` giving kept rounds their logged state back. */
  function RestoreKept(rounds: Rounds, log: RoundLog): Rounds {
    map id | id in rounds ::
      if id in log && log[id].retained.None? then RestoredRound(rounds[id], log[id].round) else rounds[id]
  }

  /** `INSERT` of the deleted rounds that are not there. */
  function ReinsertDisplaced(rounds: Rounds, log: RoundLog): Rounds {
    rounds + map id | id in log && log[id].retained.Some? && id !in rounds :: log[id].round
  }

  /** `UPDATE` of the centers named in the center log. */
  function ReleaseLogged(db: Db, log: CenterLog, now: Time): Centers {
    map o | o in db.centers :: if o in log then ReleasedCenter(db, db.centers[o], now) else db.centers[o]
  }

  /** The upgrade keeps the legacy round a center points at, but closes it as stale. */
  ghost predicate ClosedAsStale(db: Db, current: Option<RoundId>) {
    && current.Some? && current.value in db.rounds && db.rounds[current.value].mode == Legacy
    && SafeStale(db, current.value) && current.value in UpgradedRounds(db)
  }

  /** The center statements log and release exactly the centers whose round is closed as stale. */
  lemma CenterStatements(db: Db, now: Time)
    ensures forall o :: o in db.centers ==> (o in CenterLogOf(db) <==> ClosedAsStale(db, db.centers[o].current))
    ensures ReleaseLogged(db, CenterLogOf(db), now) == UpgradedCenters(db, now)
  {
    forall o | o in db.centers
      ensures o in CenterLogOf(db) <==> LosesRound(LogOf(db), db.centers[o])
    {
    }
  }

  lemma RoundStatement(db: Db, id: RoundId)
    requires id in db.rounds
    ensures var closed := CloseStale(DeleteDisplaced(db.rounds, LogOf(db)), LogOf(db));
            && (id in UpgradedRounds(db) <==> id in closed)
            && (id in closed ==> ConvertLegacy(closed)[id] == UpgradedRounds(db)[id])
  {
  }

  /** The round statements together do to each row what UpgradedRound says. */
  lemma UpgradeStatements(db: Db)
    ensures ConvertLegacy(CloseStale(DeleteDisplaced(db.rounds, LogOf(db)), LogOf(db))) == UpgradedRounds(db)
  {
    var closed := CloseStale(DeleteDisplaced(db.rounds, LogOf(db)), LogOf(db));
    var after, expected := ConvertLegacy(closed), UpgradedRounds(db);
    assert after.Keys == closed.Keys && closed.Keys <= db.rounds.Keys;
    forall id | id in db.rounds
      ensures (id in expected <==> id in closed) && (id in closed ==> after[id] == expected[id])
    {
      RoundStatement(db, id);
    }
  }

  lemma DowngradeStatements(rounds: Rounds, log: RoundLog)
    ensures ReinsertDisplaced(RestoreKept(rounds, log), log) == DowngradedRounds(rounds, log)
  {
  }

  const PROJECTION_COLUMNS := 13

  /** `UPDATE ... SET column = logged column` for one projection column. */
  function CopyColumn(to: Center, from: Center, column: nat): Center {
    match column
    case 0 => to.(leadStatus := from.leadStatus)
    case 1 => to.(current := from.current)
    case 2 => to.(roundNo := from.roundNo)
    case 3 => to.(roundStatus := from.roundStatus)
    case 4 => to.(assignedAt := from.assignedAt)
    case 5 => to.(assignedAtSource := from.assignedAtSource)
    case 6 => to.(store := from.store)
    case 7 => to.(storeName := from.storeName)
    case 8 => to.(city := from.city)
    case 9 => to.(province := from.province)
    case 10 => to.(expiresAt := from.expiresAt)
    case 11 => to.(reassignReason := from.reassignReason)
    case 12 => to.(updatedAt := from.updatedAt)
    case _ => to
  }

  /** `c` is `to` with its first `n` projection columns taken from `from`. */
  ghost predicate CopiedUpTo(n: nat, c: Center, to: Center, from: Center) {
    && c.leadStatus == (if n > 0 then from else to).leadStatus
    && c.current == (if n > 1 then from else to).current
    && c.roundNo == (if n > 2 then from else to).roundNo
    && c.roundStatus == (if n > 3 then from else to).roundStatus
    && c.assignedAt == (if n > 4 then from else to).assignedAt
    && c.assignedAtSource == (if n > 5 then from else to).assignedAtSource
    && c.store == (if n > 6 then from else to).store
    && c.storeName == (if n > 7 then from else to).storeName
    && c.city == (if n > 8 then from else to).city
    && c.province == (if n > 9 then from else to).province
    && c.expiresAt == (if n > 10 then from else to).expiresAt
    && c.reassignReason == (if n > 11 then from else to).reassignReason
    && c.updatedAt == (if n > 12 then from else to).updatedAt
    && c.rest == to.rest
  }

  /** One `UPDATE` per projection column restores the logged centers and nothing else of them. */
  method RestoreColumns(was: Centers, log: CenterLog) returns (centers: Centers)
    ensures centers == DowngradedCenters(was, log)
  {
    centers := was;
    for column := 0 to PROJECTION_COLUMNS
      invariant centers.Keys == was.Keys
      invariant forall o :: o in was ==>
                  if o in log then CopiedUpTo(column, centers[o], was[o], log[o]) else centers[o] == was[o]
    {
      centers := map o | o in centers :: if o in log then CopyColumn(centers[o], log[o], column) else centers[o];
    }
  }

  class ClueDatabase {
    var rounds: Rounds
    var centers: Centers
    var leads: map<LeadKey, Lead>
    var followUps: map<RecordId, FollowUp>
    var decisions: set<RoundId>
    var cycleItems: set<RoundId>
    var poolEntries: set<RoundId>
    var roundLog: RoundLog
    var centerLog: CenterLog

    function Tables(): Db
      reads this
    {
      Db(rounds, centers, leads, followUps, decisions, cycleItems, poolEntries)
    }

    /** Statement by statement, the upgrade does to each row what UpgradedRound and ReleasedCenter say. */
    method Upgrade(now: Time) returns (accepted: bool)
      modifies this
      ensures accepted == Guard(old(Tables()))
      ensures Tables() == if accepted then Upgraded(old(Tables()), now) else old(Tables())
      ensures roundLog == if accepted then LogOf(old(Tables())) else old(roundLog)
      ensures centerLog == if accepted then CenterLogOf(old(Tables())) else old(centerLog)
    {
      accepted := Guard(Tables());
      if accepted {
        ghost var before := Tables();
        ReleaseCenters(now);
        RetireRounds(before);
      }
    }

    /** The statements on the logs and the centers. */
    method ReleaseCenters(now: Time)
      modifies this
      ensures Tables() == old(Tables()).(centers := UpgradedCenters(old(Tables()), now))
      ensures roundLog == LogOf(old(Tables())) && centerLog == CenterLogOf(old(Tables()))
    {
      CenterStatements(Tables(), now);
      roundLog := LogOf(Tables());
      centerLog := LogCenters(centers, roundLog);
      centers := ReleaseLogged(Tables(), centerLog, now);
    }

    /** The statements on the rounds. */
    method RetireRounds(ghost before: Db)
      requires roundLog == LogOf(before) && rounds == before.rounds
      modifies this`rounds
      ensures rounds == UpgradedRounds(before)
    {
      UpgradeStatements(before);
      rounds := DeleteDisplaced(rounds, roundLog);
      rounds := CloseStale(rounds, roundLog);
      rounds := ConvertLegacy(rounds);
    }

    /** Refuse on a conflict; otherwise restore rounds and, column by column, centers. */
    method Downgrade() returns (accepted: bool)
      modifies this
      ensures accepted <==>
                !NamespaceConflict(old(rounds), old(roundLog)) && !CenterConflict(old(centers), old(centerLog))
      ensures rounds == if accepted then DowngradedRounds(old(rounds), old(roundLog)) else old(rounds)
      ensures centers == if accepted then DowngradedCenters(old(centers), old(centerLog)) else old(centers)
      ensures Tables() == old(Tables()).(rounds := rounds, centers := centers)
    {
      accepted := !NamespaceConflict(rounds, roundLog) && !CenterConflict(centers, centerLog);
      if !accepted {
        return;
      }
      DowngradeStatements(rounds, roundLog);
      rounds := RestoreKept(rounds, roundLog);
      rounds := ReinsertDisplaced(rounds, roundLog);
      centers := RestoreColumns(centers, centerLog);
      roundLog, centerLog := map[], map[];
    }

    /** Upgrade and then downgrade: the downgrade is accepted and every table is as it was. */
    method UpgradeThenDowngrade(now: Time) returns (upgraded: bool, downgraded: bool)
      requires SlotsUnique(rounds)
      modifies this
      ensures upgraded == Guard(old(Tables())) && (upgraded ==> downgraded)
      ensures Tables() == old(Tables())
    {
      ghost var before := Tables();
      downgraded := false;
      upgraded := Upgrade(now);
      if upgraded {
        RoundTrip(before, now);
        downgraded := Downgrade();
      }
    }
  }
}
