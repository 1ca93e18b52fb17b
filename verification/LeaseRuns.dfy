/** Safety of the lease protocol over whole runs. */
module LeaseRuns {
  import opened Basics
  import opened CommandTable
  import opened LeaseProtocol

  /** `events[i]` leads from `states[i]` to `states[i + 1]`. */
  datatype Run = Run(states: seq<System>, events: seq<Event>)

  ghost predicate StepAt(r: Run, i: nat)
    requires i < |r.events| && |r.states| == |r.events| + 1
  {
    Enabled(r.states[i], r.events[i]) && r.states[i + 1] == Next(r.states[i], r.events[i])
  }

  ghost predicate IsRun(r: Run) {
    && |r.states| == |r.events| + 1
    && r.states[0].rows == map[]
    && r.states[0].procs == map[]
    && forall i: nat :: i < |r.events| ==> StepAt(r, i)
  }

  /** Every reachable state satisfies the invariant. */
  lemma {:induction false} Reachable(r: Run, i: nat)
    requires IsRun(r) && i < |r.states|
    ensures Inv(r.states[i])
  {
    if i > 0 {
      Reachable(r, i - 1);
      assert StepAt(r, i - 1);
      StepKeeps(r.states[i - 1], r.events[i - 1]);
    }
  }

  lemma StepEvolves(r: Run, k: nat)
    requires IsRun(r) && k < |r.events|
    ensures Evolves(r.states[k].rows, r.states[k + 1].rows) && r.states[k].now <= r.states[k + 1].now
  {
    Reachable(r, k);
    assert StepAt(r, k);
    StepKeeps(r.states[k], r.events[k]);
  }

  lemma EvolvesOn(a: Rows, b: Rows, c: Rows)
    requires Evolves(a, b) && Evolves(b, c)
    ensures Evolves(a, c)
  {
  }

  /** From any state of a run to any later one: finished rows frozen, epochs and time never falling. */
  lemma {:induction false} RunEvolves(r: Run, i: nat, j: nat)
    requires IsRun(r) && i <= j < |r.states|
    ensures Evolves(r.states[i].rows, r.states[j].rows)
    ensures r.states[i].now <= r.states[j].now
    decreases j
  {
    if i < j {
      RunEvolves(r, i, j - 1);
      StepEvolves(r, j - 1);
      EvolvesOn(r.states[i].rows, r.states[j - 1].rows, r.states[j].rows);
    }
  }

  // ---------------------------------------------------------------- how leases begin and end

  /** The event grants the lease described by `e`. */
  ghost predicate Grants(s: System, ev: Event, e: Envelope)
    requires Enabled(s, ev)
  {
    ev.ClaimNext? && Claim(s.rows, s.procs[ev.p].cfg, ev.at).1 == Granted(e)
  }

  /** The event finishes the command under the lease `e`. */
  ghost predicate Finishes(s: System, ev: Event, e: Envelope)
    requires Enabled(s, ev)
  {
    ev.Finish? && Owns(s.rows, Held(s, ev.p), ev.at) && SameLease(Held(s, ev.p), e)
  }

  /** The event takes the lease `e` back, its recorded expiry having passed. */
  ghost predicate Lapses(s: System, ev: Event, e: Envelope)
    requires Enabled(s, ev)
  {
    && ev.ClaimNext?
    && ReclaimPick(s.rows, ev.at) == Some(e.id)
    && InForce(s.rows, e)
    && s.rows[e.id].expiresAt <= ev.at
  }

  ghost predicate Ends(s: System, ev: Event, e: Envelope)
    requires Enabled(s, ev)
  {
    Finishes(s, ev, e) || Lapses(s, ev, e)
  }

  /** A lease in force stays in force until a finish or a lapse ends it. */
  lemma LeaseStep(s: System, ev: Event, e: Envelope)
    requires Inv(s) && Enabled(s, ev) && InForce(s.rows, e)
    ensures InForce(Next(s, ev).rows, e) || Ends(s, ev, e)
  {
    if ev.ClaimNext? {
      ClaimEffect(s.rows, s.procs[ev.p].cfg, ev.at, s.now);
      ReclaimEffect(s.rows, s.procs[ev.p].cfg, ev.at);
    } else if ev.Finish? {
      assert Faithful(s.rows, Held(s, ev.p));
    }
  }

  /** What holds around a granting step. */
  lemma GrantStep(s: System, ev: Event, e: Envelope)
    requires Inv(s) && Enabled(s, ev) && Grants(s, ev, e)
    ensures e.id in s.rows && e.epoch == s.rows[e.id].epoch.GetOr(0) + 1
    ensures CooldownElapsed(s.rows, e.target, ev.at)
    ensures InForce(Next(s, ev).rows, e) && Next(s, ev).rows[e.id].target == e.target
  {
    ClaimEffect(s.rows, s.procs[ev.p].cfg, ev.at, s.now);
  }

  /** A grant on a target whose earlier lease is still in force takes that lease back first. */
  lemma GrantOverLease(s: System, ev: Event, e: Envelope, f: Envelope)
    requires Inv(s) && Enabled(s, ev) && Grants(s, ev, f)
    requires InForce(s.rows, e) && s.rows[e.id].target == f.target
    ensures Lapses(s, ev, e)
  {
    ClaimEffect(s.rows, s.procs[ev.p].cfg, ev.at, s.now);
    ReclaimEffect(s.rows, s.procs[ev.p].cfg, ev.at);
  }

  ghost predicate EndedBetween(r: Run, e: Envelope, i: nat, j: nat)
    requires IsRun(r) && j <= |r.events|
  {
    exists k: nat :: i < k < j && StepAt(r, k) && Ends(r.states[k], r.events[k], e)
  }

  lemma EndsAt(r: Run, e: Envelope, i: nat, k: nat)
    requires IsRun(r) && i < k < |r.events| && StepAt(r, k)
    requires EndedBetween(r, e, i, k) || Ends(r.states[k], r.events[k], e)
    ensures EndedBetween(r, e, i, k + 1)
  {
  }

  lemma {:induction false} LeaseHistory(r: Run, e: Envelope, i: nat, j: nat)
    requires IsRun(r) && i < j < |r.states|
    requires StepAt(r, i) && Grants(r.states[i], r.events[i], e)
    ensures InForce(r.states[j].rows, e) || EndedBetween(r, e, i, j)
    decreases j
  {
    if j == i + 1 {
      Reachable(r, i);
      GrantStep(r.states[i], r.events[i], e);
    } else {
      var k := j - 1;
      LeaseHistory(r, e, i, k);
      assert StepAt(r, k);
      if InForce(r.states[k].rows, e) {
        Reachable(r, k);
        LeaseStep(r.states[k], r.events[k], e);
      }
      if !InForce(r.states[j].rows, e) {
        EndsAt(r, e, i, k);
      }
    }
  }

  /** What a grant leaves behind at every later state of the run. */
  lemma AfterGrant(r: Run, e: Envelope, i: nat, j: nat)
    requires IsRun(r) && i < j < |r.states|
    requires StepAt(r, i) && Grants(r.states[i], r.events[i], e)
    ensures e.id in r.states[j].rows
    ensures r.states[j].rows[e.id].target == e.target
    ensures r.states[j].rows[e.id].epoch.Some? && e.epoch <= r.states[j].rows[e.id].epoch.value
  {
    Reachable(r, i);
    GrantStep(r.states[i], r.events[i], e);
    RunEvolves(r, i + 1, j);
  }

  /** What a finish leaves behind at every later state of the run. */
  lemma AfterFinish(r: Run, e: Envelope, i: nat, j: nat)
    requires IsRun(r) && i < j < |r.states|
    requires StepAt(r, i) && Finishes(r.states[i], r.events[i], e)
    ensures e.id in r.states[i + 1].rows && e.id in r.states[j].rows
    ensures r.states[j].rows[e.id] == r.states[i + 1].rows[e.id]
    ensures !r.states[j].rows[e.id].status.Active()
    ensures r.states[j].rows[e.id].target == Held(r.states[i], r.events[i].p).target
    ensures r.states[j].rows[e.id].cooldownUntil == Some(r.events[i].at + COOLDOWN)
  {
    Reachable(r, i);
    assert Faithful(r.states[i].rows, Held(r.states[i], r.events[i].p));
    RunEvolves(r, i + 1, j);
  }

  // ---------------------------------------------------------------- mutual exclusion

  /**
   * Leases on one target never overlap: before a second claim of a target is granted, the first
   * lease was finished or its expiry had passed, for the same command or another one.
   */
  lemma LeasesNeverOverlap(r: Run, i: nat, j: nat, e: Envelope, f: Envelope)
    requires IsRun(r) && i < j < |r.events|
    requires StepAt(r, i) && Grants(r.states[i], r.events[i], e)
    requires StepAt(r, j) && Grants(r.states[j], r.events[j], f)
    requires e.target == f.target
    ensures EndedBetween(r, e, i, j) || Lapses(r.states[j], r.events[j], e)
  {
    LeaseHistory(r, e, i, j);
    if !EndedBetween(r, e, i, j) {
      AfterGrant(r, e, i, j);
      Reachable(r, j);
      GrantOverLease(r.states[j], r.events[j], e, f);
    }
  }

  /** At any moment at most one process can renew or finish a command of a given target, whatever the readings. */
  lemma OneOwnerPerTarget(r: Run, i: nat, p: ProcId, q: ProcId, at: Time, at': Time)
    requires IsRun(r) && i < |r.states|
    requires Holds(r.states[i], p) && Owns(r.states[i].rows, Held(r.states[i], p), at)
    requires Holds(r.states[i], q) && Owns(r.states[i].rows, Held(r.states[i], q), at')
    requires Held(r.states[i], p).target == Held(r.states[i], q).target
    ensures p == q
  {
    Reachable(r, i);
    assert Faithful(r.states[i].rows, Held(r.states[i], p));
    assert Faithful(r.states[i].rows, Held(r.states[i], q));
  }

  /**
   * Before the expiry it remembers, a process can renew or finish with any reading. With an up-to-date reading it
   * can do so exactly until then; with an older one also later, as long as nobody has taken its lease back. While
   * the lease is in force, the remembered expiry is the one on its row.
   */
  lemma OwnsUntilExpiry(r: Run, i: nat, p: ProcId, at: Time)
    requires IsRun(r) && i < |r.states| && Holds(r.states[i], p) && at <= r.states[i].now
    ensures var s := r.states[i];
            var e := Held(s, p);
            && (s.now < e.expiresAt ==> Owns(s.rows, e, at))
            && (Owns(s.rows, e, s.now) <==> s.now < e.expiresAt)
            && (Owns(s.rows, e, at) <==> InForce(s.rows, e) && at < e.expiresAt)
            && (InForce(s.rows, e) ==> s.rows[e.id].expiresAt == e.expiresAt)
  {
    Reachable(r, i);
    assert Faithful(r.states[i].rows, Held(r.states[i], p));
  }

  // ---------------------------------------------------------------- fencing

  /** Each claim of a command carries a higher epoch than every earlier claim of it. */
  lemma EpochsRise(r: Run, i: nat, j: nat, e: Envelope, f: Envelope)
    requires IsRun(r) && i < j < |r.events|
    requires StepAt(r, i) && Grants(r.states[i], r.events[i], e)
    requires StepAt(r, j) && Grants(r.states[j], r.events[j], f)
    requires e.id == f.id
    ensures e.epoch < f.epoch
  {
    AfterGrant(r, e, i, j);
    Reachable(r, j);
    GrantStep(r.states[j], r.events[j], f);
  }

  /** Once a command is claimed again, no envelope of an earlier claim can renew or finish it, whoever holds it. */
  lemma StaleLeaseIsFenced(r: Run, i: nat, j: nat, m: nat, e: Envelope, f: Envelope, stale: Envelope, at: Time)
    requires IsRun(r) && i < j < m < |r.states|
    requires StepAt(r, i) && Grants(r.states[i], r.events[i], e)
    requires StepAt(r, j) && Grants(r.states[j], r.events[j], f)
    requires e.id == f.id && SameLease(stale, e)
    ensures !Owns(r.states[m].rows, stale, at)
  {
    EpochsRise(r, i, j, e, f);
    AfterGrant(r, f, j, m);
  }

  /** A command is finished at most once, and a finished row never changes again. */
  lemma FinishedOnce(r: Run, i: nat, j: nat, e: Envelope, f: Envelope)
    requires IsRun(r) && i < j < |r.events|
    requires StepAt(r, i) && Finishes(r.states[i], r.events[i], e)
    requires StepAt(r, j) && e.id == f.id
    ensures !Finishes(r.states[j], r.events[j], f)
    ensures e.id in r.states[i + 1].rows && e.id in r.states[j + 1].rows
    ensures r.states[j + 1].rows[e.id] == r.states[i + 1].rows[e.id]
  {
    AfterFinish(r, e, i, j);
    AfterFinish(r, e, i, j + 1);
  }

  // ---------------------------------------------------------------- cooldown

  /**
   * After a finish, no command on the same target is claimed for 300 seconds, from one transaction's reading of
   * the clock to the other's. A finish that took effect late shortens the pause after it by that delay.
   */
  lemma CooldownRespected(r: Run, i: nat, j: nat, e: Envelope, f: Envelope)
    requires IsRun(r) && i < j < |r.events|
    requires StepAt(r, i) && Finishes(r.states[i], r.events[i], e)
    requires StepAt(r, j) && Grants(r.states[j], r.events[j], f)
    requires Held(r.states[i], r.events[i].p).target == f.target
    ensures r.events[i].at + COOLDOWN <= r.events[j].at
    ensures r.states[i].now + COOLDOWN - (r.states[i].now - r.events[i].at) <= r.states[j].now
  {
    AfterFinish(r, e, i, j);
    Reachable(r, j);
    GrantStep(r.states[j], r.events[j], f);
  }

  /** Rows only come into being active. */
  lemma NewRowsAreActive(s: System, ev: Event, c: CommandId)
    requires Inv(s) && Enabled(s, ev) && c in Next(s, ev).rows && c !in s.rows
    ensures Next(s, ev).rows[c].status.Active()
  {
    if ev.ClaimNext? {
      ClaimEffect(s.rows, s.procs[ev.p].cfg, ev.at, s.now);
    }
  }

  /** While one command of a target is active, nothing touches the finished commands of that target. */
  lemma FinishedStay(rows: Rows, after: Rows, id: CommandId, since: Time)
    requires OneActivePerTarget(rows) && Evolves(rows, after) && id in rows && after[id].status.Active()
    requires CooldownElapsed(rows, rows[id].target, since)
    requires forall c :: c in after && c !in rows ==> after[c].status.Active()
    ensures CooldownElapsed(after, rows[id].target, since)
  {
    assert rows[id].status.Active();
    forall c | c in after && after[c].target == rows[id].target && !after[c].status.Active()
      ensures c in rows && after[c] == rows[c]
    {
      assert c in rows && rows[c].target == rows[id].target && c != id;
    }
  }

  lemma CooledStep(r: Run, k: nat, id: CommandId, since: Time)
    requires IsRun(r) && k < |r.events| && id in r.states[k].rows
    requires CooldownElapsed(r.states[k].rows, r.states[k].rows[id].target, since)
    requires id in r.states[k + 1].rows && r.states[k + 1].rows[id].status.Active()
    ensures CooldownElapsed(r.states[k + 1].rows, r.states[k].rows[id].target, since)
  {
    Reachable(r, k);
    assert StepAt(r, k);
    StepKeeps(r.states[k], r.events[k]);
    forall c | c in r.states[k + 1].rows && c !in r.states[k].rows
      ensures r.states[k + 1].rows[c].status.Active()
    {
      NewRowsAreActive(r.states[k], r.events[k], c);
    }
    FinishedStay(r.states[k].rows, r.states[k + 1].rows, id, since);
  }

  lemma WasActive(r: Run, k: nat, id: CommandId)
    requires IsRun(r) && k < |r.events| && id in r.states[k].rows
    requires id in r.states[k + 1].rows && r.states[k + 1].rows[id].status.Active()
    ensures r.states[k].rows[id].status.Active()
  {
    RunEvolves(r, k, k + 1);
  }

  lemma CooledByGrant(r: Run, i: nat, e: Envelope)
    requires IsRun(r) && i < |r.events| && StepAt(r, i) && Grants(r.states[i], r.events[i], e)
    ensures e.id in r.states[i].rows && r.states[i].rows[e.id].target == e.target
    ensures CooldownElapsed(r.states[i + 1].rows, e.target, r.events[i].at)
  {
    Reachable(r, i);
    GrantStep(r.states[i], r.events[i], e);
    RunEvolves(r, i, i + 1);
    CooledStep(r, i, e.id, r.events[i].at);
  }

  /** From its grant on and for as long as it is active, a command stays past the cooldown at that reading. */
  lemma {:induction false} CooledSinceGrant(r: Run, i: nat, j: nat, e: Envelope)
    requires IsRun(r) && i < j < |r.states|
    requires StepAt(r, i) && Grants(r.states[i], r.events[i], e)
    requires e.id in r.states[j].rows && r.states[j].rows[e.id].status.Active()
    ensures CooldownElapsed(r.states[j].rows, e.target, r.events[i].at)
    decreases j
  {
    if j == i + 1 {
      CooledByGrant(r, i, e);
    } else {
      AfterGrant(r, e, i, j - 1);
      WasActive(r, j - 1, e.id);
      CooledSinceGrant(r, i, j - 1, e);
      CooledStep(r, j - 1, e.id, r.events[i].at);
    }
  }

  /**
   * A command that was claimed and lost its lease is never held back by the cooldown filter of a transaction that
   * read the clock after the claim did.
   */
  lemma ReclaimedStaysClaimable(r: Run, i: nat, j: nat, e: Envelope, at: Time)
    requires IsRun(r) && i < j < |r.states|
    requires StepAt(r, i) && Grants(r.states[i], r.events[i], e)
    requires e.id in r.states[j].rows && r.states[j].rows[e.id].status == Pending
    requires r.events[i].at <= at < r.states[j].rows[e.id].expiresAt
    ensures e.id in Claimable(r.states[j].rows, at)
  {
    AfterGrant(r, e, i, j);
    CooledSinceGrant(r, i, j, e);
  }

  // ---------------------------------------------------------------- the lease budget

  /** Time from the second renewal that the restart, the heartbeat wait and one spare second may use. */
  function Budget(cfg: Config, target: Target): real {
    (Grace(target) + RESTART_PADDING) as real + cfg.heartbeatTimeout + cfg.heartbeatPoll + 1.0
  }

  /** Between two of its own steps a process keeps its claim, whatever the others do. */
  lemma {:induction false} KeepsClaim(r: Run, i: nat, j: nat, p: ProcId)
    requires IsRun(r) && i <= j < |r.states| && Holds(r.states[i], p)
    requires forall k: nat :: i <= k < j ==>
               r.events[k] == SendRestart(p) || r.events[k].Tick? || r.events[k].Submit? || r.events[k].p != p
    ensures Holds(r.states[j], p) && Held(r.states[j], p) == Held(r.states[i], p)
    ensures r.states[j].procs[p].cfg == r.states[i].procs[p].cfg
    decreases j
  {
    if i < j {
      KeepsClaim(r, i, j - 1, p);
      assert StepAt(r, j - 1);
    }
  }

  /**
   * A process whose second renewal succeeds, and which then only sends the restart, completes its
   * command if it gets there within the budget, whatever the other processes do meanwhile.
   */
  lemma FinishWithinBudget(r: Run, i: nat, j: nat, p: ProcId)
    requires IsRun(r) && i < j < |r.events|
    requires r.events[i].RenewSecond? && r.events[i].p == p && Holds(r.states[i], p)
    requires Owns(r.states[i].rows, Held(r.states[i], p), r.events[i].at)
    requires forall k: nat :: i < k < j ==>
               r.events[k] == SendRestart(p) || r.events[k].Tick? || r.events[k].Submit? || r.events[k].p != p
    requires r.events[j].Finish? && r.events[j].p == p
    requires r.states[j].now < r.events[i].at + Budget(r.states[i].procs[p].cfg, Held(r.states[i], p).target)
    ensures StepAt(r, j) && Finishes(r.states[j], r.events[j], Held(r.states[i], p))
    ensures r.states[j + 1].rows[Held(r.states[i], p).id].status == r.events[j].status
  {
    assert StepAt(r, i) && StepAt(r, j);
    KeepsClaim(r, i + 1, j, p);
    OwnsUntilExpiry(r, j, p, r.events[j].at);
  }

  // ---------------------------------------------------------------- the restart itself

  /** One more step at the end of a run. */
  lemma Extend(r: Run, ev: Event) returns (r': Run)
    requires IsRun(r) && Enabled(r.states[|r.events|], ev)
    ensures r' == Run(r.states + [Next(r.states[|r.events|], ev)], r.events + [ev])
    ensures IsRun(r')
  {
    r' := Run(r.states + [Next(r.states[|r.events|], ev)], r.events + [ev]);
    forall i: nat | i < |r'.events|
      ensures StepAt(r', i)
    {
      assert i < |r.events| ==> StepAt(r, i);
    }
  }

  /**
   * The restart call itself is not fenced: every run that has armed a process extends to one in
   * which the process sends its restart without owning the command any more. By OwnsUntilExpiry
   * this happens exactly when the restart is sent at or after the expiry the process remembers.
   */
  lemma LateRestart(r: Run, p: ProcId) returns (late: Run)
    requires IsRun(r) && p in r.states[|r.events|].procs && r.states[|r.events|].procs[p].phase.Armed?
    ensures IsRun(late) && r.events < late.events
    ensures late.events[|late.events| - 1] == SendRestart(p)
    ensures var s := late.states[|late.events| - 1];
            Holds(s, p) && !Owns(s.rows, Held(s, p), s.now)
  {
    var s := r.states[|r.events|];
    var waited := Extend(r, Tick(Max(s.now, Held(s, p).expiresAt)));
    OwnsUntilExpiry(waited, |waited.events|, p, waited.states[|waited.events|].now);
    late := Extend(waited, SendRestart(p));
  }

  /** A fresh request on an otherwise empty table is claimed by the next process that asks. */
  lemma OnlyRequestIsClaimed(id: CommandId, row: Row, cfg: Config, now: Time)
    requires IsRequest(row) && now < row.expiresAt
    ensures Claim(map[id := row], cfg, now) ==
            (map[id := GrantRow(row, cfg, now)], Granted(EnvelopeOf(id, row, cfg, now)))
  {
    var rows := map[id := row];
    assert Lapsed(rows, Running, now) == {};
    assert Reclaim(rows, cfg, now) == rows;
    assert Lapsed(rows, Pending, now) == {};
    assert Claimable(rows, now) == {id};
    assert rows[id := GrantRow(row, cfg, now)] == map[id := GrantRow(row, cfg, now)];
  }

  /** One process and one request, claimed. */
  lemma ClaimedRun(p: ProcId, id: CommandId, target: Target, cfg: Config, now: Time) returns (r: Run)
    requires cfg.Valid()
    ensures IsRun(r)
    ensures var row := RequestRow(target, now);
            r.states[|r.events|] == System(map[id := GrantRow(row, cfg, now)],
                                           map[p := Process(cfg, Claimed(EnvelopeOf(id, row, cfg, now)))], now)
  {
    var row := RequestRow(target, now);
    r := Run([System(map[], map[], now)], []);
    r := Extend(r, Boot(p, cfg));
    r := Extend(r, Submit(id, row));
    OnlyRequestIsClaimed(id, row, cfg, now);
    assert r.states[2].rows == map[id := row];
    r := Extend(r, ClaimNext(p, now));
  }

  /** Two renewals arm the process. */
  lemma ArmedRun(p: ProcId, id: CommandId, target: Target, cfg: Config, now: Time) returns (r: Run)
    requires cfg.Valid()
    ensures IsRun(r) && p in r.states[|r.events|].procs && r.states[|r.events|].procs[p].phase.Armed?
  {
    r := ClaimedRun(p, id, target, cfg, now);
    r := Extend(r, RenewFirst(p, now));
    r := Extend(r, RenewSecond(p, now));
  }

  /** So there are runs in which a process that no longer owns its command sends the restart. */
  lemma LateRestartHappens(p: ProcId, id: CommandId, target: Target, cfg: Config, now: Time) returns (late: Run)
    requires cfg.Valid()
    ensures IsRun(late) && |late.events| > 0 && late.events[|late.events| - 1] == SendRestart(p)
    ensures var s := late.states[|late.events| - 1];
            Holds(s, p) && !Owns(s.rows, Held(s, p), s.now)
  {
    var r := ArmedRun(p, id, target, cfg, now);
    late := LateRestart(r, p);
  }

  /** A finished command past its cooldown does not keep a fresh request from being claimed. */
  lemma NextRequestIsClaimed(done: CommandId, first: Row, id: CommandId, row: Row, cfg: Config, now: Time)
    requires done != id && !first.status.Active() && (first.cooldownUntil.Some? ==> first.cooldownUntil.value <= now)
    requires IsRequest(row) && now < row.expiresAt
    ensures Claim(map[done := first, id := row], cfg, now).1 == Granted(EnvelopeOf(id, row, cfg, now))
  {
    var rows := map[done := first, id := row];
    assert Lapsed(rows, Running, now) == {};
    assert Lapsed(rows, Pending, now) == {};
    assert Claimable(rows, now) == {id};
  }

  /** A finish that takes effect 300 seconds after its reading. */
  lemma LateFinish(p: ProcId, id: CommandId, target: Target, cfg: Config, now: Time)
    returns (r: Run, e: Envelope, row: Row)
    requires cfg.Valid()
    ensures IsRun(r) && |r.events| > 0 && StepAt(r, |r.events| - 1)
    ensures Finishes(r.states[|r.events| - 1], r.events[|r.events| - 1], e) && e.target == target
    ensures r.states[|r.events| - 1].now == now + COOLDOWN
    ensures r.states[|r.events|] == System(map[id := row], map[p := Process(cfg, Idle)], now + COOLDOWN)
    ensures !row.status.Active() && row.cooldownUntil == Some(now + COOLDOWN)
  {
    var request := RequestRow(target, now);
    e := EnvelopeOf(id, request, cfg, now);
    row := FinishRow(GrantRow(request, cfg, now), Rejected, Completion(""), now);
    r := ClaimedRun(p, id, target, cfg, now);
    r := Extend(r, Tick(now + COOLDOWN));
    r := Extend(r, Finish(p, now, Rejected, Completion("")));
    assert r.states[|r.events|].rows == map[id := row];
  }

  /** The pause after a finish can vanish: a late finish is followed at once by a grant on the same target. */
  lemma NoPauseHappens(p: ProcId, id: CommandId, next: CommandId, target: Target, cfg: Config, now: Time)
    returns (r: Run, e: Envelope, f: Envelope)
    requires cfg.Valid() && id != next
    ensures IsRun(r) && |r.events| > 2 && e.target == f.target
    ensures var i, j := |r.events| - 3, |r.events| - 1;
            && StepAt(r, i) && Finishes(r.states[i], r.events[i], e)
            && StepAt(r, j) && Grants(r.states[j], r.events[j], f)
            && r.states[i].now == r.states[j].now
  {
    var later := now + COOLDOWN;
    var first;
    var request := RequestRow(target, later);
    f := EnvelopeOf(next, request, cfg, later);
    r, e, first := LateFinish(p, id, target, cfg, now);
    r := Extend(r, Submit(next, request));
    assert r.states[|r.events|].rows == map[id := first, next := request];
    NextRequestIsClaimed(id, first, next, request, cfg, later);
    r := Extend(r, ClaimNext(p, later));
  }
}
