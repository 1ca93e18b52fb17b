/** What each transaction on the command table does, by the columns of its rows. */
module CommandLaws {
  import opened Basics
  import opened CommandTable

  /** Seconds from a reading to the end of a restart and its heartbeat wait, with the second to spare. */
  function RestartSeconds(cfg: Config, target: Target): real {
    (if target == Worker then 300.0 else 30.0) + 15.0 + cfg.heartbeatTimeout + cfg.heartbeatPoll + 1.0
  }

  /** Leases are the seconds the work may take, rounded up: the whole command, or what is left of it. */
  lemma LeaseSeconds(cfg: Config, target: Target)
    ensures var whole := cfg.commandTtl as real + 20.0 + RestartSeconds(cfg, target);
            whole <= ClaimLease(cfg, target) as real < whole + 1.0
    ensures var rest := RestartSeconds(cfg, target);
            rest <= RemainingLease(cfg, target, false) as real < rest + 1.0
    ensures RemainingLease(cfg, target, true) == RemainingLease(cfg, target, false) + 10
  {
    var rest := RestartSeconds(cfg, target);
    assert RemainingLease(cfg, target, true) as real < rest + 10.0 + 1.0;
    assert rest + 10.0 <= RemainingLease(cfg, target, true) as real;
  }

  // ---------------------------------------------------------------- taking back a lease

  ghost predicate IsLapsed(rows: Rows, c: CommandId, status: Status, at: Time) {
    c in rows && rows[c].status == status && rows[c].expiresAt <= at
  }

  /** NULL start times come last. */
  ghost predicate StartedNoLater(a: Row, b: Row) {
    b.startedAt.None? || (a.startedAt.Some? && a.startedAt.value <= b.startedAt.value)
  }

  /** The reclaimed row is pending again, owned by nobody, with its epoch, target and creation kept. */
  ghost predicate TakenBack(row: Row, after: Row, cfg: Config, at: Time) {
    && after.status == Pending && after.claimedBy == None && after.startedAt == None && after.finishedAt == None
    && after.resultCode == Some(CommandReclaimed)
    && after.expiresAt >= at + cfg.commandTtl as real + 20.0 + RestartSeconds(cfg, row.target)
    && after == row.(status := Pending, claimedBy := None, startedAt := None, finishedAt := None,
                     resultCode := Some(CommandReclaimed), expiresAt := after.expiresAt)
  }

  /** If some lease has lapsed, one that was started first is taken back; otherwise nothing changes. */
  lemma ReclaimMeans(rows: Rows, cfg: Config, at: Time)
    ensures (forall c :: !IsLapsed(rows, c, Running, at)) ==> Reclaim(rows, cfg, at) == rows
    ensures (exists c :: IsLapsed(rows, c, Running, at)) ==>
              exists id :: IsLapsed(rows, id, Running, at) &&
                           (forall c :: IsLapsed(rows, c, Running, at) ==> StartedNoLater(rows[id], rows[c])) &&
                           id in Reclaim(rows, cfg, at) &&
                           TakenBack(rows[id], Reclaim(rows, cfg, at)[id], cfg, at) &&
                           Reclaim(rows, cfg, at) == rows[id := Reclaim(rows, cfg, at)[id]]
  {
    var pick := ReclaimPick(rows, at);
    if pick.None? {
      forall c
        ensures !IsLapsed(rows, c, Running, at)
      {
        assert c !in Lapsed(rows, Running, at);
      }
    } else {
      var id := pick.value;
      assert id in Lapsed(rows, Running, at);
      LeaseSeconds(cfg, rows[id].target);
      forall c | IsLapsed(rows, c, Running, at)
        ensures StartedNoLater(rows[id], rows[c])
      {
        assert c in Lapsed(rows, Running, at);
        assert KeyLe(Started(rows, id), id, Started(rows, c), c);
      }
      assert IsLapsed(rows, id, Running, at);
    }
  }

  // ---------------------------------------------------------------- expiring or claiming

  /** Pending, alive at the reading, and no finished command of its target cools down beyond it. */
  ghost predicate IsReady(rows: Rows, c: CommandId, at: Time) {
    && c in rows && rows[c].status == Pending && at < rows[c].expiresAt
    && forall d :: d in rows && rows[d].target == rows[c].target && rows[d].cooldownUntil.Some? ==>
         rows[d].status == Pending || rows[d].status == Running || rows[d].cooldownUntil.value <= at
  }

  /** The request is marked as expired at the reading and nothing else changes. */
  ghost predicate Expires(rows: Rows, id: CommandId, after: Rows, at: Time) {
    && id in rows
    && after == rows[id := rows[id].(status := Expired, finishedAt := Some(at), resultCode := Some(CommandExpired))]
  }

  /** The claimed row and the envelope handed out for it. */
  ghost predicate Claims(rows: Rows, id: CommandId, after: Rows, e: Envelope, cfg: Config, at: Time) {
    && id in rows && id in after
    && after == rows[id := after[id]]
    && after[id] == rows[id].(status := Running, claimedBy := Some(cfg.instance), startedAt := Some(at),
                              finishedAt := None, resultCode := None, epoch := after[id].epoch,
                              expiresAt := after[id].expiresAt)
    && after[id].epoch == Some(if rows[id].epoch.Some? then rows[id].epoch.value + 1 else 1)
    && after[id].expiresAt >= at + cfg.commandTtl as real + 20.0 + RestartSeconds(cfg, rows[id].target)
    && e.id == id && e.target == rows[id].target && e.claimedBy == cfg.instance && e.startedAt == at
    && Some(e.epoch) == after[id].epoch && e.expiresAt == after[id].expiresAt
  }

  /** If some request is stale, the oldest such one is expired and reported. */
  lemma StaleIsExpired(rows: Rows, cfg: Config, at: Time)
    requires exists c :: IsLapsed(rows, c, Pending, at)
    ensures var (after, result) := ExpireOrGrant(rows, cfg, at);
            && result.ExpiredOne? && IsLapsed(rows, result.id, Pending, at)
            && (forall c :: IsLapsed(rows, c, Pending, at) ==> rows[result.id].createdAt <= rows[c].createdAt)
            && Expires(rows, result.id, after, at)
  {
    var c :| IsLapsed(rows, c, Pending, at);
    assert c in Lapsed(rows, Pending, at);
    var id := FirstCreated(rows, Lapsed(rows, Pending, at)).value;
    assert id in Lapsed(rows, Pending, at);
    forall d | IsLapsed(rows, d, Pending, at)
      ensures rows[id].createdAt <= rows[d].createdAt
    {
      assert d in Lapsed(rows, Pending, at);
      assert KeyLe(Created(rows, id), id, Created(rows, d), d);
    }
  }

  lemma ReadyIsClaimable(rows: Rows, c: CommandId, at: Time)
    ensures IsReady(rows, c, at) <==> c in Claimable(rows, at)
  {
  }

  lemma NoneStale(rows: Rows, at: Time)
    requires forall c :: !IsLapsed(rows, c, Pending, at)
    ensures FirstCreated(rows, Lapsed(rows, Pending, at)).None?
  {
    forall c
      ensures c !in Lapsed(rows, Pending, at)
    {
      assert !IsLapsed(rows, c, Pending, at);
    }
  }

  /** If none is stale and some request is ready, the oldest such one is claimed. */
  lemma ReadyIsClaimed(rows: Rows, cfg: Config, at: Time)
    requires forall c :: !IsLapsed(rows, c, Pending, at)
    requires exists c :: IsReady(rows, c, at)
    ensures var (after, result) := ExpireOrGrant(rows, cfg, at);
            && result.Granted? && IsReady(rows, result.envelope.id, at)
            && (forall c :: IsReady(rows, c, at) ==> rows[result.envelope.id].createdAt <= rows[c].createdAt)
            && Claims(rows, result.envelope.id, after, result.envelope, cfg, at)
  {
    NoneStale(rows, at);
    var c :| IsReady(rows, c, at);
    ReadyIsClaimable(rows, c, at);
    var id := FirstCreated(rows, Claimable(rows, at)).value;
    ReadyIsClaimable(rows, id, at);
    LeaseSeconds(cfg, rows[id].target);
    forall d | IsReady(rows, d, at)
      ensures rows[id].createdAt <= rows[d].createdAt
    {
      ReadyIsClaimable(rows, d, at);
      assert KeyLe(Created(rows, id), id, Created(rows, d), d);
    }
  }

  /** Otherwise there is no work and nothing changes. */
  lemma NothingToDo(rows: Rows, cfg: Config, at: Time)
    requires forall c :: !IsLapsed(rows, c, Pending, at) && !IsReady(rows, c, at)
    ensures ExpireOrGrant(rows, cfg, at) == (rows, NoWork)
  {
    NoneStale(rows, at);
    forall c
      ensures c !in Claimable(rows, at)
    {
      ReadyIsClaimable(rows, c, at);
    }
  }

  /**
   * A claim transaction after its reclaim: the oldest stale request is expired; if none is stale, the oldest ready
   * one is claimed; if none is ready either, there is no work.
   */
  lemma ClaimMeans(rows: Rows, cfg: Config, at: Time)
    ensures var (after, result) := Claim(rows, cfg, at);
            var mid := Reclaim(rows, cfg, at);
            if exists c :: IsLapsed(mid, c, Pending, at) then
              && result.ExpiredOne? && IsLapsed(mid, result.id, Pending, at)
              && (forall c :: IsLapsed(mid, c, Pending, at) ==> mid[result.id].createdAt <= mid[c].createdAt)
              && Expires(mid, result.id, after, at)
            else if exists c :: IsReady(mid, c, at) then
              && result.Granted? && IsReady(mid, result.envelope.id, at)
              && (forall c :: IsReady(mid, c, at) ==> mid[result.envelope.id].createdAt <= mid[c].createdAt)
              && Claims(mid, result.envelope.id, after, result.envelope, cfg, at)
            else
              result.NoWork? && after == mid
  {
    var mid := Reclaim(rows, cfg, at);
    if exists c :: IsLapsed(mid, c, Pending, at) {
      StaleIsExpired(mid, cfg, at);
    } else if exists c :: IsReady(mid, c, at) {
      ReadyIsClaimed(mid, cfg, at);
    } else {
      NothingToDo(mid, cfg, at);
    }
  }

  /** A stale request never blocks its target for good: as long as one is there, every claim expires one. */
  lemma StaleRequestsShrink(rows: Rows, cfg: Config, at: Time, id: CommandId)
    requires cfg.Valid() && Claim(rows, cfg, at).1 == ExpiredOne(id)
    ensures id in Claim(rows, cfg, at).0 && !Claim(rows, cfg, at).0[id].status.Active()
    ensures forall c :: IsLapsed(Claim(rows, cfg, at).0, c, Pending, at) ==> c != id && IsLapsed(rows, c, Pending, at)
  {
    ClaimMeans(rows, cfg, at);
    ReclaimMeans(rows, cfg, at);
    var mid, after := Reclaim(rows, cfg, at), Claim(rows, cfg, at).0;
    forall c | IsLapsed(after, c, Pending, at)
      ensures c != id && IsLapsed(rows, c, Pending, at)
    {
      assert IsLapsed(mid, c, Pending, at);
      if mid != rows {
        var back :| IsLapsed(rows, back, Running, at) && back in mid && TakenBack(rows[back], mid[back], cfg, at) &&
                    mid == rows[back := mid[back]];
        assert c != back ==> mid[c] == rows[c];
      }
    }
  }

  // ---------------------------------------------------------------- renewing, finishing, requesting

  /** Ownership asks for the instance, the epoch and a lease that is alive at the reading. */
  lemma OwnsMeans(rows: Rows, e: Envelope, at: Time)
    ensures Owns(rows, e, at) <==>
              && e.id in rows && rows[e.id].status == Running && rows[e.id].claimedBy == Some(e.claimedBy)
              && rows[e.id].epoch == Some(e.epoch) && at < rows[e.id].expiresAt
  {
  }

  /** A renewal never shortens a lease, reaches as far as asked, and changes nothing but the expiry. */
  lemma RenewMeans(row: Row, e: Envelope, seconds: int, at: Time)
    ensures var after := RenewRow(row, seconds, at);
            && after == row.(expiresAt := after.expiresAt)
            && row.expiresAt <= after.expiresAt && at + seconds as real <= after.expiresAt
            && (after.expiresAt == row.expiresAt || after.expiresAt == at + seconds as real)
    ensures var after := RenewEnvelope(e, seconds, at);
            && after == e.(expiresAt := after.expiresAt)
            && e.expiresAt <= after.expiresAt && at + seconds as real <= after.expiresAt
            && (after.expiresAt == e.expiresAt || after.expiresAt == at + seconds as real)
  {
  }

  /** A finish records status, code and time, starts 300 seconds of cooldown, and keeps owner, epoch and expiry. */
  lemma FinishMeans(row: Row, status: Status, code: ResultCode, at: Time)
    ensures var after := FinishRow(row, status, code, at);
            && after.status == status && after.resultCode == Some(code)
            && after.finishedAt == Some(at) && after.cooldownUntil == Some(at + 300.0)
            && after.target == row.target && after.claimedBy == row.claimedBy && after.epoch == row.epoch
            && after.createdAt == row.createdAt && after.startedAt == row.startedAt && after.expiresAt == row.expiresAt
  {
  }

  /** A request is pending, claimed by nobody, lives for 120 seconds and keeps others away for 300. */
  lemma RequestMeans(target: Target, at: Time)
    ensures var row := RequestRow(target, at);
            && row.target == target && row.status == Pending && row.createdAt == at && row.expiresAt == at + 120.0
            && row.cooldownUntil == Some(at + 300.0)
            && row.claimedBy.None? && row.epoch.None? && row.startedAt.None?
            && row.finishedAt.None? && row.resultCode.None?
  {
  }
}
