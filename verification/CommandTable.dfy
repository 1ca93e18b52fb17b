/**
 * The `ops_commands` table and the transactions an ops agent runs against it:
 * claim (with reclaim and expiry), renew and finish. Each transaction is atomic.
 */
module CommandTable {
  import opened Basics

  /** Command ids are only compared; `rank` is the id's place in text order. */
  datatype CommandId = CommandId(rank: int)
  type Time = real

  datatype Target = Worker | Browser

  datatype Status = Pending | Running | Success | Failed | Rejected | Expired | Cancelled {
    predicate Active() {
      this == Pending || this == Running
    }
  }

  datatype ResultCode = CommandReclaimed | CommandExpired | Completion(text: string)

  datatype Row = Row(
    target: Target,
    status: Status,
    claimedBy: Option<string>,
    epoch: Option<int>,
    createdAt: Time,
    startedAt: Option<Time>,
    finishedAt: Option<Time>,
    expiresAt: Time,
    cooldownUntil: Option<Time>,
    resultCode: Option<ResultCode>)

  type Rows = map<CommandId, Row>

  /** What an agent remembers of its claim between transactions. */
  datatype Envelope = Envelope(
    id: CommandId,
    target: Target,
    expiresAt: Time,
    startedAt: Time,
    claimedBy: string,
    epoch: int)

  /** Construction parameters of one agent process. */
  datatype Config = Config(instance: string, commandTtl: int, heartbeatTimeout: real, heartbeatPoll: real) {
    predicate Valid() {
      && 1 <= commandTtl <= 3600
      && heartbeatTimeout >= 0.0
      && heartbeatPoll >= 0.0
    }
  }

  const LOOKUP_TIMEOUT := 10
  const RESTART_PADDING := 15
  const COOLDOWN := 300.0

  function Grace(target: Target): int {
    match target
    case Worker => 300
    case Browser => 30
  }

  /** The lease a claim grants. */
  function ClaimLease(cfg: Config, target: Target): int {
    Ceil((cfg.commandTtl + 2 * LOOKUP_TIMEOUT + Grace(target) + RESTART_PADDING) as real
         + cfg.heartbeatTimeout + cfg.heartbeatPoll + 1.0)
  }

  /** The time a renewal asks for, before and after the second container lookup. */
  function RemainingLease(cfg: Config, target: Target, includeLookup: bool): int {
    Ceil(((if includeLookup then LOOKUP_TIMEOUT else 0) + Grace(target) + RESTART_PADDING) as real
         + cfg.heartbeatTimeout + cfg.heartbeatPoll + 1.0)
  }

  // ---------------------------------------------------------------- ordered selection

  /** `ORDER BY key, command_id`, with NULL keys last. */
  predicate KeyLe(a: Option<Time>, i: CommandId, b: Option<Time>, j: CommandId) {
    if a == b then i.rank <= j.rank
    else a.Some? && (b.None? || a.value < b.value)
  }

  function Started(rows: Rows, id: CommandId): Option<Time> {
    if id in rows then rows[id].startedAt else None
  }

  function Created(rows: Rows, id: CommandId): Option<Time> {
    if id in rows then Some(rows[id].createdAt) else None
  }

  function FirstStarted(rows: Rows, ids: set<CommandId>): (r: Option<CommandId>)
    ensures r.None? <==> ids == {}
    ensures r.Some? ==>
              && r.value in ids
              && forall j :: j in ids ==> KeyLe(Started(rows, r.value), r.value, Started(rows, j), j)
  {
    First(ids, (i: CommandId, j: CommandId) => KeyLe(Started(rows, i), i, Started(rows, j), j))
  }

  function FirstCreated(rows: Rows, ids: set<CommandId>): (r: Option<CommandId>)
    ensures r.None? <==> ids == {}
    ensures r.Some? ==>
              && r.value in ids
              && forall j :: j in ids ==> KeyLe(Created(rows, r.value), r.value, Created(rows, j), j)
  {
    First(ids, (i: CommandId, j: CommandId) => KeyLe(Created(rows, i), i, Created(rows, j), j))
  }

  // ---------------------------------------------------------------- the claim transaction

  datatype ClaimResult = NoWork | ExpiredOne(id: CommandId) | Granted(envelope: Envelope)

  /** No finished command on the target is still cooling down. */
  predicate CooldownElapsed(rows: Rows, target: Target, now: Time) {
    forall c :: c in rows && rows[c].target == target && !rows[c].status.Active() && rows[c].cooldownUntil.Some?
      ==> rows[c].cooldownUntil.value <= now
  }

  function Lapsed(rows: Rows, status: Status, now: Time): set<CommandId> {
    set id | id in rows && rows[id].status == status && rows[id].expiresAt <= now
  }

  function Claimable(rows: Rows, now: Time): set<CommandId> {
    set id | id in rows && rows[id].status == Pending && rows[id].expiresAt > now
             && CooldownElapsed(rows, rows[id].target, now)
  }

  /** The running command, if any, whose lapsed lease the transaction takes back. */
  function ReclaimPick(rows: Rows, now: Time): Option<CommandId> {
    FirstStarted(rows, Lapsed(rows, Running, now))
  }

  function Reclaim(rows: Rows, cfg: Config, now: Time): Rows {
    match ReclaimPick(rows, now)
    case None => rows
    case Some(id) =>
      var row := rows[id];
      rows[id := row.(status := Pending, claimedBy := None, startedAt := None, finishedAt := None,
                      expiresAt := now + ClaimLease(cfg, row.target) as real,
                      resultCode := Some(CommandReclaimed))]
  }

  function ExpireRow(row: Row, now: Time): Row {
    row.(status := Expired, finishedAt := Some(now), resultCode := Some(CommandExpired))
  }

  function GrantRow(row: Row, cfg: Config, now: Time): Row {
    row.(status := Running, claimedBy := Some(cfg.instance), epoch := Some(row.epoch.GetOr(0) + 1),
         startedAt := Some(now), expiresAt := now + ClaimLease(cfg, row.target) as real,
         finishedAt := None, resultCode := None)
  }

  function EnvelopeOf(id: CommandId, row: Row, cfg: Config, now: Time): Envelope {
    Envelope(id, row.target, now + ClaimLease(cfg, row.target) as real, now, cfg.instance,
             row.epoch.GetOr(0) + 1)
  }

  /** The second half of the transaction: expire one stale request or claim one live one. */
  function ExpireOrGrant(rows: Rows, cfg: Config, now: Time): (Rows, ClaimResult) {
    match FirstCreated(rows, Lapsed(rows, Pending, now))
    case Some(id) => (rows[id := ExpireRow(rows[id], now)], ExpiredOne(id))
    case None =>
      match FirstCreated(rows, Claimable(rows, now))
      case None => (rows, NoWork)
      case Some(id) => (rows[id := GrantRow(rows[id], cfg, now)], Granted(EnvelopeOf(id, rows[id], cfg, now)))
  }

  function Claim(rows: Rows, cfg: Config, now: Time): (Rows, ClaimResult) {
    ExpireOrGrant(Reclaim(rows, cfg, now), cfg, now)
  }

  // ---------------------------------------------------------------- renew and finish

  /** The fencing condition shared by the conditional renewal and completion updates. */
  predicate Owns(rows: Rows, e: Envelope, now: Time) {
    && e.id in rows
    && rows[e.id].status == Running
    && rows[e.id].claimedBy == Some(e.claimedBy)
    && rows[e.id].epoch == Some(e.epoch)
    && rows[e.id].expiresAt > now
  }

  function Max(a: Time, b: Time): Time {
    if a < b then b else a
  }

  function RenewRow(row: Row, seconds: int, now: Time): Row {
    row.(expiresAt := Max(row.expiresAt, now + seconds as real))
  }

  function RenewEnvelope(e: Envelope, seconds: int, now: Time): Envelope {
    e.(expiresAt := Max(e.expiresAt, now + seconds as real))
  }

  function FinishRow(row: Row, status: Status, code: ResultCode, now: Time): Row {
    row.(status := status, finishedAt := Some(now), cooldownUntil := Some(now + COOLDOWN),
         resultCode := Some(code))
  }

  // ---------------------------------------------------------------- submission

  const REQUEST_TTL := 120.0

  /** The row the operations API inserts for a confirmed restart request. */
  function RequestRow(target: Target, now: Time): Row {
    Row(target, Pending, None, None, now, None, None, now + REQUEST_TTL, Some(now + COOLDOWN), None)
  }

  /** What the schema and the submission code allow as a new row. */
  predicate IsRequest(row: Row) {
    && row.status == Pending
    && row.claimedBy.None? && row.epoch.None? && row.startedAt.None?
    && row.createdAt < row.expiresAt
  }

  predicate NoActive(rows: Rows, target: Target) {
    forall c :: c in rows && rows[c].target == target ==> !rows[c].status.Active()
  }

  // ---------------------------------------------------------------- the mutable table

  class Table {
    var rows: Rows

    /** Accept a request unless its target has an active or still cooling command: a step of the protocol. */
    method Submit(id: CommandId, target: Target, now: Time) returns (accepted: bool)
      requires id !in rows
      modifies this
      ensures accepted <==>
              forall c :: c in old(rows) && old(rows)[c].target == target
                ==> !old(rows)[c].status.Active()
                    && (old(rows)[c].cooldownUntil.Some? ==> old(rows)[c].cooldownUntil.value <= now)
      ensures rows == if accepted then old(rows)[id := RequestRow(target, now)] else old(rows)
      ensures accepted ==> IsRequest(RequestRow(target, now)) && NoActive(old(rows), target)
    {
      accepted := !exists c :: c in rows && rows[c].target == target &&
                               (rows[c].status.Active() ||
                                (rows[c].cooldownUntil.Some? && rows[c].cooldownUntil.value > now));
      if accepted {
        rows := rows[id := Row(target, Pending, None, None, now, None, None,
                               now + REQUEST_TTL, Some(now + COOLDOWN), None)];
      }
    }

    /** Reclaim one lapsed lease, then expire one stale request or claim one live one. */
    method ClaimNext(cfg: Config, now: Time) returns (result: ClaimResult)
      modifies this
      ensures (rows, result) == Claim(old(rows), cfg, now)
    {
      var lapsed := FirstStarted(rows, Lapsed(rows, Running, now));
      if lapsed.Some? {
        var row := rows[lapsed.value];
        row := row.(status := Pending, claimedBy := None, startedAt := None, finishedAt := None);
        row := row.(expiresAt := now + ClaimLease(cfg, row.target) as real);
        row := row.(resultCode := Some(CommandReclaimed));
        rows := rows[lapsed.value := row];
      }
      assert rows == Reclaim(old(rows), cfg, now);
      var stale := FirstCreated(rows, Lapsed(rows, Pending, now));
      if stale.Some? {
        var row := rows[stale.value];
        rows := rows[stale.value := row.(status := Expired, finishedAt := Some(now),
                                         resultCode := Some(CommandExpired))];
        return ExpiredOne(stale.value);
      }
      var next := FirstCreated(rows, Claimable(rows, now));
      if next.None? {
        return NoWork;
      }
      var row := rows[next.value];
      var leaseEnd := now + ClaimLease(cfg, row.target) as real;
      var epoch := (if row.epoch.Some? then row.epoch.value else 0) + 1;
      rows := rows[next.value :=
        row.(status := Running, claimedBy := Some(cfg.instance), epoch := Some(epoch), startedAt := Some(now),
             expiresAt := leaseEnd, finishedAt := None, resultCode := None)];
      return Granted(Envelope(next.value, row.target, leaseEnd, now, cfg.instance, epoch));
    }

    /** Extend an owned lease; a fenced-off caller changes nothing and gets None. */
    method RenewClaim(e: Envelope, seconds: int, now: Time) returns (renewed: Option<Envelope>)
      modifies this
      ensures renewed.Some? <==> Owns(old(rows), e, now)
      ensures renewed.Some? ==> renewed.value == RenewEnvelope(e, seconds, now)
      ensures rows == if renewed.Some? then old(rows)[e.id := RenewRow(old(rows)[e.id], seconds, now)] else old(rows)
    {
      var until := now + seconds as real;
      if !Owns(rows, e, now) {
        return None;
      }
      var row := rows[e.id];
      if row.expiresAt < until {
        row := row.(expiresAt := until);
      }
      rows := rows[e.id := row];
      return Some(e.(expiresAt := if e.expiresAt < until then until else e.expiresAt));
    }

    /** Complete an owned command and start its target's cooldown. */
    method Finish(e: Envelope, status: Status, code: ResultCode, now: Time) returns (done: bool)
      requires !status.Active()
      modifies this
      ensures done <==> Owns(old(rows), e, now)
      ensures rows == if done then old(rows)[e.id := FinishRow(old(rows)[e.id], status, code, now)] else old(rows)
    {
      done := Owns(rows, e, now);
      if done {
        var row := rows[e.id];
        row := row.(status := status, finishedAt := Some(now));
        row := row.(cooldownUntil := Some(now + COOLDOWN), resultCode := Some(code));
        rows := rows[e.id := row];
      }
    }
  }
}
