/**
 * Any number of ops agent processes working on one command table: every interleaving of their
 * transactions, of request submission, of clock ticks and of crashes is a run of this system.
 * A process reads the clock before it opens a transaction, so a transaction that takes effect at
 * `now` works with a reading `at` that may be any amount older.
 */
module LeaseProtocol {
  import opened Basics
  import opened CommandTable
  import opened CommandLaws

  datatype ProcId = ProcId(n: nat)

  /** How far one `run_once` has come, with the claim it remembers. */
  datatype Phase =
    | Idle
    | Claimed(envelope: Envelope)    // claim committed, checks and first lookup under way
    | Renewed(envelope: Envelope)    // first renewal committed, second lookup under way
    | Armed(envelope: Envelope)      // second renewal committed, restart not yet sent
    | Restarted(envelope: Envelope)  // restart sent, waiting for the replacement heartbeat

  datatype Process = Process(cfg: Config, phase: Phase)

  datatype System = System(rows: Rows, procs: map<ProcId, Process>, now: Time)

  datatype Event =
    | Tick(to: Time)
    | Boot(p: ProcId, cfg: Config)
    | Crash(p: ProcId)
    | Submit(id: CommandId, row: Row)
    | ClaimNext(p: ProcId, at: Time)
    | RenewFirst(p: ProcId, at: Time)
    | RenewSecond(p: ProcId, at: Time)
    | SendRestart(p: ProcId)
    | Finish(p: ProcId, at: Time, status: Status, code: ResultCode)

  predicate Enabled(s: System, ev: Event) {
    match ev
    case Tick(to) => s.now <= to
    case Boot(p, cfg) => p !in s.procs && cfg.Valid()
    case Crash(p) => p in s.procs
    case Submit(id, row) => id !in s.rows && IsRequest(row) && NoActive(s.rows, row.target)
    case ClaimNext(p, at) => p in s.procs && s.procs[p].phase.Idle? && at <= s.now
    case RenewFirst(p, at) => p in s.procs && s.procs[p].phase.Claimed? && at <= s.now
    case RenewSecond(p, at) => p in s.procs && s.procs[p].phase.Renewed? && at <= s.now
    case SendRestart(p) => p in s.procs && s.procs[p].phase.Armed?
    case Finish(p, at, status, _) =>
      && p in s.procs
      && at <= s.now
      && !status.Active()
      && (s.procs[p].phase.Restarted? ||
          ((s.procs[p].phase.Claimed? || s.procs[p].phase.Renewed?) && status != Success))
  }

  function MoveTo(s: System, p: ProcId, phase: Phase): System
    requires p in s.procs
  {
    s.(procs := s.procs[p := s.procs[p].(phase := phase)])
  }

  /** A renewal transaction of process `p`, which advances it or sends it back to idle. */
  function Renewal(s: System, p: ProcId, at: Time, includeLookup: bool): System
    requires p in s.procs && !s.procs[p].phase.Idle?
  {
    var e := s.procs[p].phase.envelope;
    var seconds := RemainingLease(s.procs[p].cfg, e.target, includeLookup);
    if Owns(s.rows, e, at) then
      var e' := RenewEnvelope(e, seconds, at);
      MoveTo(s.(rows := s.rows[e.id := RenewRow(s.rows[e.id], seconds, at)]), p,
             if includeLookup then Renewed(e') else Armed(e'))
    else MoveTo(s, p, Idle)
  }

  function Next(s: System, ev: Event): System
    requires Enabled(s, ev)
  {
    match ev
    case Tick(to) => s.(now := to)
    case Boot(p, cfg) => s.(procs := s.procs[p := Process(cfg, Idle)])
    case Crash(p) => s.(procs := s.procs - {p})
    case Submit(id, row) => s.(rows := s.rows[id := row])
    case ClaimNext(p, at) =>
      var (rows, result) := Claim(s.rows, s.procs[p].cfg, at);
      MoveTo(s.(rows := rows), p, if result.Granted? then Claimed(result.envelope) else Idle)
    case RenewFirst(p, at) => Renewal(s, p, at, true)
    case RenewSecond(p, at) => Renewal(s, p, at, false)
    case SendRestart(p) => MoveTo(s, p, Restarted(s.procs[p].phase.envelope))
    case Finish(p, at, status, code) =>
      var e := s.procs[p].phase.envelope;
      if Owns(s.rows, e, at) then
        MoveTo(s.(rows := s.rows[e.id := FinishRow(s.rows[e.id], status, code, at)]), p, Idle)
      else MoveTo(s, p, Idle)
  }

  /**
   * A claim starts a process on a command. Each renewal it wins takes it one phase on with enough time for what
   * is still to come: ten seconds for the lookup and the restart, then the restart. One it loses sends it back.
   */
  lemma RenewalLeads(s: System, p: ProcId, at: Time)
    requires p in s.procs && at <= s.now
    ensures s.procs[p].phase.Claimed? ==>
              && Enabled(s, RenewFirst(p, at))
              && var e, after := s.procs[p].phase.envelope, Next(s, RenewFirst(p, at)).procs[p].phase;
                 if Owns(s.rows, e, at) then
                   && after.Renewed? && SameCommand(after.envelope, e)
                   && after.envelope.expiresAt >= at + 10.0 + RestartSeconds(s.procs[p].cfg, e.target)
                 else after.Idle?
    ensures s.procs[p].phase.Renewed? ==>
              && Enabled(s, RenewSecond(p, at))
              && var e, after := s.procs[p].phase.envelope, Next(s, RenewSecond(p, at)).procs[p].phase;
                 if Owns(s.rows, e, at) then
                   && after.Armed? && SameCommand(after.envelope, e)
                   && after.envelope.expiresAt >= at + RestartSeconds(s.procs[p].cfg, e.target)
                 else after.Idle?
  {
    if !s.procs[p].phase.Idle? {
      LeaseSeconds(s.procs[p].cfg, s.procs[p].phase.envelope.target);
    }
  }

  ghost predicate SameCommand(a: Envelope, b: Envelope) {
    a == b.(expiresAt := a.expiresAt)
  }

  // ---------------------------------------------------------------- the invariant

  ghost predicate OneActivePerTarget(rows: Rows) {
    forall a, b :: a in rows && b in rows && a != b && rows[a].target == rows[b].target
      ==> !(rows[a].status.Active() && rows[b].status.Active())
  }

  ghost predicate RunningIsOwned(rows: Rows) {
    forall a :: a in rows ==>
      && (rows[a].status == Running ==> rows[a].claimedBy.Some? && rows[a].epoch.Some? && rows[a].startedAt.Some?)
      && (rows[a].epoch.Some? ==> rows[a].epoch.value > 0)
  }

  /** Once claimed, a command stays past its target's cooldown for as long as it is active. */
  ghost predicate ClaimedIsCool(rows: Rows, now: Time) {
    forall a :: a in rows && rows[a].status.Active() && rows[a].epoch.Some? ==>
      CooldownElapsed(rows, rows[a].target, now)
  }

  /** A running command was past its target's cooldown when it was claimed, before its lease ends. */
  ghost predicate RunningWasCool(rows: Rows) {
    forall a :: a in rows && rows[a].status == Running && rows[a].startedAt.Some? ==>
      rows[a].startedAt.value <= rows[a].expiresAt && CooldownElapsed(rows, rows[a].target, rows[a].startedAt.value)
  }

  ghost predicate TableInv(rows: Rows, now: Time) {
    OneActivePerTarget(rows) && RunningIsOwned(rows) && ClaimedIsCool(rows, now) && RunningWasCool(rows)
  }

  /** The lease an envelope describes is the one in force on its row. */
  ghost predicate InForce(rows: Rows, e: Envelope) {
    e.id in rows && rows[e.id].status == Running && rows[e.id].epoch == Some(e.epoch)
  }

  /** An envelope is never ahead of its row, and agrees with it while its lease is in force. */
  ghost predicate Faithful(rows: Rows, e: Envelope) {
    && e.id in rows
    && rows[e.id].target == e.target
    && rows[e.id].epoch.Some?
    && e.epoch <= rows[e.id].epoch.value
    && (InForce(rows, e) ==> rows[e.id].claimedBy == Some(e.claimedBy) && rows[e.id].expiresAt == e.expiresAt)
  }

  ghost predicate Holds(s: System, p: ProcId) {
    p in s.procs && !s.procs[p].phase.Idle?
  }

  ghost function Held(s: System, p: ProcId): Envelope
    requires Holds(s, p)
  {
    s.procs[p].phase.envelope
  }

  ghost predicate SameLease(e: Envelope, f: Envelope) {
    e.id == f.id && e.epoch == f.epoch
  }

  ghost predicate AllFaithful(s: System) {
    forall p :: Holds(s, p) ==> Faithful(s.rows, Held(s, p))
  }

  /** No two processes remember the same lease. */
  ghost predicate DistinctLeases(s: System) {
    forall p, q :: Holds(s, p) && Holds(s, q) && p != q ==> !SameLease(Held(s, p), Held(s, q))
  }

  /** Until the expiry it remembers, a process is never fenced off. */
  ghost predicate Protected(s: System) {
    forall p :: Holds(s, p) && s.now < Held(s, p).expiresAt ==> InForce(s.rows, Held(s, p))
  }

  ghost predicate Inv(s: System) {
    && TableInv(s.rows, s.now)
    && (forall p :: p in s.procs ==> s.procs[p].cfg.Valid())
    && AllFaithful(s)
    && DistinctLeases(s)
    && Protected(s)
  }

  // ---------------------------------------------------------------- what one transaction does to a row

  /** Every row keeps its target, and its epoch never falls; a finished row is frozen. */
  ghost predicate Evolves(before: Rows, after: Rows) {
    forall c :: c in before ==>
      && c in after
      && after[c].target == before[c].target
      && (before[c].epoch.Some? ==> after[c].epoch.Some? && before[c].epoch.value <= after[c].epoch.value)
      && (!before[c].status.Active() ==> after[c] == before[c])
  }

  /** Taking back a lapsed lease touches one running row, which becomes pending with its epoch kept. */
  lemma ReclaimEffect(rows: Rows, cfg: Config, now: Time)
    ensures var after := Reclaim(rows, cfg, now);
            && after.Keys == rows.Keys
            && forall c :: c in rows ==>
                 if ReclaimPick(rows, now) == Some(c)
                 then rows[c].status == Running && rows[c].expiresAt <= now && after[c].status == Pending
                      && after[c].epoch == rows[c].epoch && after[c].target == rows[c].target
                 else after[c] == rows[c]
  {
  }

  lemma ReclaimKeeps(rows: Rows, cfg: Config, at: Time, now: Time)
    requires TableInv(rows, now)
    ensures TableInv(Reclaim(rows, cfg, at), now)
  {
    ReclaimEffect(rows, cfg, at);
    var after := Reclaim(rows, cfg, at);
    assert forall c :: c in rows ==> (after[c].status.Active() <==> rows[c].status.Active());
  }

  /** The command whose lease was just taken back can be claimed in the same transaction, however old its reading. */
  lemma ReclaimedIsClaimable(rows: Rows, cfg: Config, at: Time, now: Time, id: CommandId)
    requires TableInv(rows, now) && cfg.Valid() && ReclaimPick(rows, at) == Some(id)
    ensures id in Claimable(Reclaim(rows, cfg, at), at)
  {
    var after := Reclaim(rows, cfg, at);
    ReclaimEffect(rows, cfg, at);
    assert after[id].expiresAt > at;
    assert CooldownElapsed(rows, rows[id].target, rows[id].startedAt.value);
  }

  /** A granted lease is new, fenced by a fresh epoch and past its target's cooldown. */
  ghost predicate FreshGrant(rows: Rows, after: Rows, e: Envelope, at: Time) {
    && e.id in rows
    && e.epoch == rows[e.id].epoch.GetOr(0) + 1
    && CooldownElapsed(rows, e.target, at)
    && Faithful(after, e)
    && InForce(after, e)
  }

  /**
   * A claim transaction, seen from outside: every running lease except a lapsed one it takes back
   * survives untouched, and any lease it starts is the fresh grant it returns.
   */
  ghost predicate ClaimRel(rows: Rows, after: Rows, lapsed: Option<CommandId>, result: ClaimResult, at: Time) {
    && Evolves(rows, after)
    && after.Keys == rows.Keys
    && (forall c :: c in rows && rows[c].status == Running && lapsed != Some(c) ==> after[c] == rows[c])
    && (forall c :: c in rows && after[c].status == Running && after[c] != rows[c]
          ==> result.Granted? && result.envelope.id == c)
    && (result.Granted? ==>
          && FreshGrant(rows, after, result.envelope, at)
          && (rows[result.envelope.id].status == Pending || lapsed == Some(result.envelope.id)))
  }

  lemma ExpireEffect(rows: Rows, id: CommandId, at: Time, now: Time)
    requires TableInv(rows, now)
    requires id in rows && rows[id].status == Pending
    ensures TableInv(rows[id := ExpireRow(rows[id], at)], now)
    ensures ClaimRel(rows, rows[id := ExpireRow(rows[id], at)], None, ExpiredOne(id), at)
  {
  }

  lemma GrantEffect(rows: Rows, id: CommandId, cfg: Config, at: Time, now: Time)
    requires TableInv(rows, now) && at <= now && cfg.Valid()
    requires id in Claimable(rows, at)
    ensures TableInv(rows[id := GrantRow(rows[id], cfg, at)], now)
    ensures ClaimRel(rows, rows[id := GrantRow(rows[id], cfg, at)], None,
                     Granted(EnvelopeOf(id, rows[id], cfg, at)), at)
  {
  }

  lemma ExpireOrGrantEffect(rows: Rows, cfg: Config, at: Time, now: Time)
    requires TableInv(rows, now) && at <= now && cfg.Valid()
    ensures TableInv(ExpireOrGrant(rows, cfg, at).0, now)
    ensures ClaimRel(rows, ExpireOrGrant(rows, cfg, at).0, None, ExpireOrGrant(rows, cfg, at).1, at)
  {
    var stale := FirstCreated(rows, Lapsed(rows, Pending, at));
    if stale.Some? {
      ExpireEffect(rows, stale.value, at, now);
    } else {
      var next := FirstCreated(rows, Claimable(rows, at));
      if next.Some? {
        GrantEffect(rows, next.value, cfg, at, now);
      }
    }
  }

  /** Taking a lease back first only adds the taken row to what may change. */
  lemma AfterReclaim(rows: Rows, cfg: Config, after: Rows, result: ClaimResult, at: Time)
    requires ClaimRel(Reclaim(rows, cfg, at), after, None, result, at)
    ensures ClaimRel(rows, after, ReclaimPick(rows, at), result, at)
  {
    ReclaimEffect(rows, cfg, at);
  }

  lemma ClaimEffect(rows: Rows, cfg: Config, at: Time, now: Time)
    requires TableInv(rows, now) && at <= now && cfg.Valid()
    ensures TableInv(Claim(rows, cfg, at).0, now)
    ensures ClaimRel(rows, Claim(rows, cfg, at).0, ReclaimPick(rows, at), Claim(rows, cfg, at).1, at)
  {
    ReclaimKeeps(rows, cfg, at, now);
    ExpireOrGrantEffect(Reclaim(rows, cfg, at), cfg, at, now);
    AfterReclaim(rows, cfg, Claim(rows, cfg, at).0, Claim(rows, cfg, at).1, at);
  }

  // ---------------------------------------------------------------- every step keeps the invariant

  /** Processes whose claims are all inherited from the previous state stay distinct. */
  lemma Inherit(s: System, s': System)
    requires DistinctLeases(s)
    requires forall q :: Holds(s', q) ==> Holds(s, q) && SameLease(Held(s', q), Held(s, q))
    ensures DistinctLeases(s')
  {
  }

  /** A claim that process `q` remembers stays faithful, protected and distinct across another's claim. */
  lemma BystanderKeeps(rows: Rows, after: Rows, lapsed: Option<CommandId>, result: ClaimResult,
                       at: Time, now: Time, e: Envelope)
    requires ClaimRel(rows, after, lapsed, result, at)
    requires lapsed.Some? ==> lapsed.value in rows && rows[lapsed.value].expiresAt <= now
    requires Faithful(rows, e)
    requires now < e.expiresAt ==> InForce(rows, e)
    ensures Faithful(after, e)
    ensures now < e.expiresAt ==> InForce(after, e)
    ensures result.Granted? ==> !SameLease(e, result.envelope)
  {
  }

  /** Letting one process go idle, and then giving it a lease nobody else holds, keeps leases distinct. */
  lemma HandOver(s: System, s': System, p: ProcId)
    requires DistinctLeases(s)
    requires forall q :: Holds(s', q) && q != p ==> Holds(s, q) && Held(s', q) == Held(s, q)
    requires forall q :: Holds(s', q) && q != p && Holds(s', p) ==> !SameLease(Held(s', q), Held(s', p))
    ensures DistinctLeases(s')
  {
  }

  lemma ClaimKeeps(s: System, p: ProcId, at: Time)
    requires Inv(s) && Enabled(s, ClaimNext(p, at))
    ensures Inv(Next(s, ClaimNext(p, at)))
    ensures Evolves(s.rows, Next(s, ClaimNext(p, at)).rows)
  {
    var cfg := s.procs[p].cfg;
    var (after, result) := Claim(s.rows, cfg, at);
    var s' := Next(s, ClaimNext(p, at));
    ClaimEffect(s.rows, cfg, at, s.now);
    forall q | Holds(s', q) && q != p
      ensures Holds(s, q) && Held(s', q) == Held(s, q)
      ensures Faithful(after, Held(s', q))
      ensures s.now < Held(s', q).expiresAt ==> InForce(after, Held(s', q))
      ensures result.Granted? ==> !SameLease(Held(s', q), result.envelope)
    {
      BystanderKeeps(s.rows, after, ReclaimPick(s.rows, at), result, at, s.now, Held(s, q));
    }
    HandOver(s, s', p);
  }

  lemma RenewTable(rows: Rows, id: CommandId, seconds: int, at: Time, now: Time)
    requires TableInv(rows, now) && id in rows && rows[id].status == Running
    ensures TableInv(rows[id := RenewRow(rows[id], seconds, at)], now)
    ensures Evolves(rows, rows[id := RenewRow(rows[id], seconds, at)])
  {
  }

  lemma RenewalKeeps(s: System, p: ProcId, at: Time, includeLookup: bool)
    requires Inv(s) && Holds(s, p)
    ensures Inv(Renewal(s, p, at, includeLookup))
    ensures Evolves(s.rows, Renewal(s, p, at, includeLookup).rows)
  {
    var s' := Renewal(s, p, at, includeLookup);
    var seconds := RemainingLease(s.procs[p].cfg, Held(s, p).target, includeLookup);
    if Owns(s.rows, Held(s, p), at) {
      RenewTable(s.rows, Held(s, p).id, seconds, at, s.now);
    }
    assert Faithful(s.rows, Held(s, p));
    forall q | Holds(s', q)
      ensures Holds(s, q) && SameLease(Held(s', q), Held(s, q))
      ensures Faithful(s'.rows, Held(s', q))
      ensures s'.now < Held(s', q).expiresAt ==> InForce(s'.rows, Held(s', q))
    {
      assert Faithful(s.rows, Held(s, q));
      assert q != p ==> Held(s', q) == Held(s, q) && !SameLease(Held(s, q), Held(s, p));
    }
    Inherit(s, s');
  }

  lemma FinishTable(rows: Rows, id: CommandId, status: Status, code: ResultCode, at: Time, now: Time)
    requires TableInv(rows, now)
    requires id in rows && rows[id].status == Running && !status.Active()
    ensures TableInv(rows[id := FinishRow(rows[id], status, code, at)], now)
    ensures Evolves(rows, rows[id := FinishRow(rows[id], status, code, at)])
  {
  }

  lemma FinishKeeps(s: System, p: ProcId, at: Time, status: Status, code: ResultCode)
    requires Inv(s) && Enabled(s, Finish(p, at, status, code))
    ensures Inv(Next(s, Finish(p, at, status, code)))
    ensures Evolves(s.rows, Next(s, Finish(p, at, status, code)).rows)
  {
    var s' := Next(s, Finish(p, at, status, code));
    if Owns(s.rows, Held(s, p), at) {
      FinishTable(s.rows, Held(s, p).id, status, code, at, s.now);
    }
    forall q | Holds(s', q)
      ensures Holds(s, q) && Held(s', q) == Held(s, q)
      ensures Faithful(s'.rows, Held(s', q))
      ensures s'.now < Held(s', q).expiresAt ==> InForce(s'.rows, Held(s', q))
    {
      assert Faithful(s.rows, Held(s, q));
      assert !SameLease(Held(s, q), Held(s, p));
    }
    Inherit(s, s');
  }

  lemma ProcessStepKeeps(s: System, ev: Event)
    requires Inv(s) && Enabled(s, ev)
    requires ev.Tick? || ev.Boot? || ev.Crash? || ev.SendRestart? || ev.Submit?
    ensures Inv(Next(s, ev))
    ensures Evolves(s.rows, Next(s, ev).rows)
  {
    var s' := Next(s, ev);
    forall q | Holds(s', q)
      ensures Holds(s, q) && Held(s', q) == Held(s, q)
      ensures Faithful(s'.rows, Held(s', q))
      ensures s'.now < Held(s', q).expiresAt ==> InForce(s'.rows, Held(s', q))
    {
      assert Faithful(s.rows, Held(s, q));
    }
    Inherit(s, s');
  }

  lemma StepKeeps(s: System, ev: Event)
    requires Inv(s) && Enabled(s, ev)
    ensures Inv(Next(s, ev))
    ensures Evolves(s.rows, Next(s, ev).rows)
    ensures s.now <= Next(s, ev).now
  {
    match ev
    case ClaimNext(p, at) => ClaimKeeps(s, p, at);
    case RenewFirst(p, at) => RenewalKeeps(s, p, at, true);
    case RenewSecond(p, at) => RenewalKeeps(s, p, at, false);
    case Finish(p, at, status, code) => FinishKeeps(s, p, at, status, code);
    case _ => ProcessStepKeeps(s, ev);
  }
}
