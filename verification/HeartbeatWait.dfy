/** The wait for a replacement heartbeat after a restart, and the time it is allowed to take. */
module HeartbeatWait {
  import opened Basics
  import opened CommandTable
  import opened LeaseProtocol
  import opened LeaseRuns

  datatype Heartbeat = Heartbeat(instance: string, at: Option<Time>, startedAt: Option<Time>)

  /** `current` comes from a component started after the restart was sent. */
  predicate IsReplacement(before: Option<Heartbeat>, current: Heartbeat, sentAt: Time) {
    && current.at.Some? && current.at.value > sentAt
    && current.startedAt.Some? && current.startedAt.value > sentAt
    && (before.None?
        || current.instance != before.value.instance
        || (before.value.startedAt.Some? && current.startedAt.value > before.value.startedAt.value))
  }

  /** Both instants come after the restart, and the instance is another one or the same one started again. */
  lemma ReplacementMeans(before: Option<Heartbeat>, current: Heartbeat, sentAt: Time)
    ensures IsReplacement(before, current, sentAt) <==>
            && (exists t :: current.at == Some(t) && t > sentAt)
            && (exists t :: current.startedAt == Some(t) && t > sentAt)
            && (|| before == None
                || before.value.instance != current.instance
                || (before.value.instance == current.instance &&
                    exists t, u :: current.startedAt == Some(t) && before.value.startedAt == Some(u) && t > u))
  {
  }

  predicate ReplacedAt(before: Option<Heartbeat>, sentAt: Time, beats: nat -> Option<Heartbeat>, k: nat) {
    beats(k).Some? && IsReplacement(before, beats(k).value, sentAt)
  }

  lemma PollsCover(timeout: real, poll: real) returns (n: nat)
    requires timeout >= 0.0 && poll > 0.0
    ensures timeout <= n as real * poll
  {
    var ratio := timeout / poll;
    assert ratio * poll == timeout;
    n := Ceil(ratio);
    assert (n as real - ratio) * poll >= 0.0;
  }

  /** The instant of poll `k`: each poll loses `delay(k)` to oversleeping and to its query. */
  ghost function PollTime(start: Time, poll: real, delay: nat -> real, k: nat): Time {
    if k == 0 then start + delay(0) else PollTime(start, poll, delay, k - 1) + poll + delay(k)
  }

  /** The wait ends at poll `last`: the first that reads a replacement heartbeat or comes at the deadline. */
  ghost predicate EndsAt(before: Option<Heartbeat>, sentAt: Time, cfg: Config, start: Time,
                         beats: nat -> Option<Heartbeat>, delay: nat -> real, last: nat) {
    GoesOn(before, sentAt, cfg, start, beats, delay, last) && !GoesOnAt(before, sentAt, cfg, start, beats, delay, last)
  }

  /** No poll before `last` ended the wait. */
  ghost predicate GoesOn(before: Option<Heartbeat>, sentAt: Time, cfg: Config, start: Time,
                         beats: nat -> Option<Heartbeat>, delay: nat -> real, last: nat) {
    forall k: nat :: k < last ==> GoesOnAt(before, sentAt, cfg, start, beats, delay, k)
  }

  ghost predicate GoesOnAt(before: Option<Heartbeat>, sentAt: Time, cfg: Config, start: Time,
                           beats: nat -> Option<Heartbeat>, delay: nat -> real, k: nat) {
    !ReplacedAt(before, sentAt, beats, k) && PollTime(start, cfg.heartbeatPoll, delay, k) < start + cfg.heartbeatTimeout
  }

  ghost predicate Forward(delay: nat -> real) {
    forall k :: delay(k) >= 0.0
  }

  lemma {:induction false} PollsAdvance(start: Time, poll: real, delay: nat -> real, k: nat)
    requires poll >= 0.0 && Forward(delay)
    ensures PollTime(start, poll, delay, k) >= start + k as real * poll
    ensures PollTime(start, poll, delay, k) >= start
  {
    if k > 0 {
      PollsAdvance(start, poll, delay, k - 1);
      assert k as real * poll == (k - 1) as real * poll + poll;
    }
  }

  /** Some poll comes at the deadline: a positive interval sees to that, else the polls themselves take time. */
  ghost predicate TimePasses(start: Time, cfg: Config, delay: nat -> real) {
    cfg.heartbeatPoll > 0.0 || exists n :: PollTime(start, cfg.heartbeatPoll, delay, n) >= start + cfg.heartbeatTimeout
  }

  lemma DeadlineComes(start: Time, cfg: Config, delay: nat -> real) returns (n: nat)
    requires cfg.Valid() && Forward(delay) && TimePasses(start, cfg, delay)
    ensures PollTime(start, cfg.heartbeatPoll, delay, n) >= start + cfg.heartbeatTimeout
  {
    if cfg.heartbeatPoll > 0.0 {
      n := PollsCover(cfg.heartbeatTimeout, cfg.heartbeatPoll);
      PollsAdvance(start, cfg.heartbeatPoll, delay, n);
    } else {
      n :| PollTime(start, cfg.heartbeatPoll, delay, n) >= start + cfg.heartbeatTimeout;
    }
  }

  /** The wait takes at most the timeout, one interval and the delay of its last poll. */
  lemma WaitBound(before: Option<Heartbeat>, sentAt: Time, cfg: Config, start: Time,
                  beats: nat -> Option<Heartbeat>, delay: nat -> real, last: nat)
    requires cfg.Valid() && Forward(delay) && EndsAt(before, sentAt, cfg, start, beats, delay, last)
    ensures var now := PollTime(start, cfg.heartbeatPoll, delay, last);
            var limit := start + cfg.heartbeatTimeout + cfg.heartbeatPoll + delay(last);
            && start <= now <= limit
            && (cfg.heartbeatTimeout + cfg.heartbeatPoll > 0.0 ==> now < limit)
  {
    PollsAdvance(start, cfg.heartbeatPoll, delay, last);
    if last > 0 {
      assert GoesOnAt(before, sentAt, cfg, start, beats, delay, last - 1);
    }
  }

  /**
   * Poll until a replacement heartbeat is read or the deadline has passed. `beats(k)` is what poll `k`
   * finds. An interval of zero is allowed as long as the polls themselves take time up to the deadline.
   */
  method ReplacementHeartbeatSeen(before: Option<Heartbeat>, sentAt: Time, cfg: Config, start: Time,
                                  beats: nat -> Option<Heartbeat>, delay: nat -> real)
    returns (seen: bool, now: Time, last: nat)
    requires cfg.Valid() && Forward(delay) && TimePasses(start, cfg, delay)
    ensures EndsAt(before, sentAt, cfg, start, beats, delay, last)
    ensures seen <==> ReplacedAt(before, sentAt, beats, last)
    ensures now == PollTime(start, cfg.heartbeatPoll, delay, last)
    ensures !seen ==> start + cfg.heartbeatTimeout <= now
    ensures start <= now <= start + cfg.heartbeatTimeout + cfg.heartbeatPoll + delay(last)
    ensures cfg.heartbeatPoll > 0.0 ==> now < start + cfg.heartbeatTimeout + cfg.heartbeatPoll + delay(last)
  {
    var deadline := start + cfg.heartbeatTimeout;
    ghost var n := DeadlineComes(start, cfg, delay);
    now, last := start, 0;
    while true
      invariant now + delay(last) == PollTime(start, cfg.heartbeatPoll, delay, last)
      invariant GoesOn(before, sentAt, cfg, start, beats, delay, last)
      invariant last <= n
      decreases n - last
    {
      now := now + delay(last);
      var current := beats(last);
      if current.Some? && IsReplacement(before, current.value, sentAt) {
        seen := true;
        break;
      }
      if now >= deadline {
        seen := false;
        break;
      }
      assert GoesOnAt(before, sentAt, cfg, start, beats, delay, last);
      now := now + cfg.heartbeatPoll;
      last := last + 1;
    }
    WaitBound(before, sentAt, cfg, start, beats, delay, last);
  }

  /**
   * Everything outside the restart call and the wait proper, from the second renewal to the finish, stays within
   * the spare second of the lease.
   */
  ghost predicate WithinSlack(cfg: Config, slack: real) {
    slack <= 1.0 && (slack < 1.0 || cfg.heartbeatTimeout + cfg.heartbeatPoll > 0.0)
  }

  /**
   * From the second renewal to the finish: the restart is sent after `sendDelay`, keeps to its own timeout, and
   * the finish follows the wait after `finishDelay`. Within the slack, the finish comes within the lease budget.
   */
  method RestartAndWait(before: Option<Heartbeat>, cfg: Config, target: Target, renewedAt: Time,
                        sendDelay: real, restartTook: real, finishDelay: real,
                        beats: nat -> Option<Heartbeat>, delay: nat -> real)
    returns (seen: bool, finishAt: Time, last: nat)
    requires cfg.Valid() && Forward(delay)
    requires 0.0 <= restartTook <= (Grace(target) + RESTART_PADDING) as real && sendDelay >= 0.0 && finishDelay >= 0.0
    requires TimePasses(renewedAt + sendDelay + restartTook, cfg, delay)
    ensures var sentAt := renewedAt + sendDelay;
            && EndsAt(before, sentAt, cfg, sentAt + restartTook, beats, delay, last)
            && (seen <==> ReplacedAt(before, sentAt, beats, last))
            && finishAt == PollTime(sentAt + restartTook, cfg.heartbeatPoll, delay, last) + finishDelay
    ensures renewedAt <= finishAt
    ensures WithinSlack(cfg, sendDelay + delay(last) + finishDelay) ==> finishAt < renewedAt + Budget(cfg, target)
  {
    var sentAt := renewedAt + sendDelay;
    var now := sentAt + restartTook;
    ghost var start := now;
    seen, now, last := ReplacementHeartbeatSeen(before, sentAt, cfg, now, beats, delay);
    WaitBound(before, sentAt, cfg, start, beats, delay, last);
    finishAt := now + finishDelay;
  }

  /**
   * A process that renews, sends its restart, waits for a replacement heartbeat and finishes, losing at most the
   * slack on the way, still holds its lease when it finishes, whatever the other processes do meanwhile; and the
   * command ends in success exactly if a replacement was seen.
   */
  lemma RestartFinishes(r: Run, i: nat, m: nat, j: nat, p: ProcId, before: Option<Heartbeat>, restartTook: real,
                        finishDelay: real, beats: nat -> Option<Heartbeat>, delay: nat -> real, last: nat)
    requires IsRun(r) && i < m < j < |r.events| && Holds(r.states[i], p)
    requires r.events[i].RenewSecond? && r.events[i].p == p &&
             Owns(r.states[i].rows, Held(r.states[i], p), r.events[i].at)
    requires r.events[m] == SendRestart(p)
    requires r.events[j].Finish? && r.events[j].p == p
    requires r.events[j].status == if ReplacedAt(before, r.states[m].now, beats, last) then Success else Failed
    requires forall k: nat :: i < k < j && k != m ==> r.events[k].Tick? || r.events[k].Submit? || r.events[k].p != p
    requires 0.0 <= restartTook <= (Grace(Held(r.states[i], p).target) + RESTART_PADDING) as real && Forward(delay)
    requires var cfg := r.states[i].procs[p].cfg;
             && EndsAt(before, r.states[m].now, cfg, r.states[m].now + restartTook, beats, delay, last)
             && r.states[j].now == PollTime(r.states[m].now + restartTook, cfg.heartbeatPoll, delay, last) + finishDelay
             && WithinSlack(cfg, (r.states[m].now - r.events[i].at) + delay(last) + finishDelay)
    ensures StepAt(r, j) && Finishes(r.states[j], r.events[j], Held(r.states[i], p))
    ensures var row := r.states[j + 1].rows[Held(r.states[i], p).id];
            row.status == Success <==> ReplacedAt(before, r.states[m].now, beats, last)
  {
    Reachable(r, i);
    WaitBound(before, r.states[m].now, r.states[i].procs[p].cfg, r.states[m].now + restartTook, beats, delay, last);
    FinishWithinBudget(r, i, j, p);
  }
}
