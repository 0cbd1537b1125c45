/** Deliveries, targets and the status machine of pkg/net/webhookout (service.go, store_mem.go) as values, and
    `handleTask` on a store that is updated in place. */
module Delivery {
  import opened Retry
  import opened Wrappers

  datatype Status = Pending | Retrying | Success | Failed | Dead {
    predicate Final() {
      Success? || Failed? || Dead?
    }
  }

  type Id = nat
  type TargetId = nat

  /** Milliseconds that fit Go's 64-bit nanoseconds. */
  type Millis = ms: int | ms <= 9_223_372_036_854

  /** The fields the delivery engine reads or writes. */
  datatype Delivery = Delivery(target: TargetId, payload: string, attempt: nat, status: Status, nextAt: Option<int>)

  datatype Target = Target(
    enabled: bool, maxRetries: int, retryOn429: Option<bool>, backoffBaseMs: Millis, backoffMaxMs: Millis)

  datatype Config = Config(maxRetries: int, retryOn429: bool, backoffBase: int64, backoffMax: int64)

  datatype Patch = Patch(attempt: Option<nat>, status: Option<Status>, nextAt: Option<int>)

  /** `UpdateDelivery`: absent fields keep their value, so an absent `nextAt` leaves the old time in place. */
  function Apply(d: Delivery, p: Patch): Delivery {
    d.(attempt := if p.attempt.Some? then p.attempt.value else d.attempt,
       status := if p.status.Some? then p.status.value else d.status,
       nextAt := if p.nextAt.Some? then p.nextAt else d.nextAt)
  }

  function MaxRetries(cfg: Config, t: Target): int {
    if t.maxRetries <= 0 then cfg.maxRetries else t.maxRetries
  }

  function RetryOn429(cfg: Config, t: Target): bool {
    if t.retryOn429.Some? then t.retryOn429.value else cfg.retryOn429
  }

  /** What came back from one HTTP attempt. */
  datatype Response = Response(status: int, failed: bool) {
    predicate Delivered() {
      !failed && 200 <= status <= 299
    }
  }

  datatype Verdict = Retry | Deliver | GiveUp | Bury

  /** How `handleTask` settles attempt number `attempt` (service.go:371-404). */
  function Judge(cfg: Config, t: Target, attempt: nat, r: Response): Verdict {
    if ShouldRetry(r.status, r.failed, attempt, MaxRetries(cfg, t), RetryOn429(cfg, t)) then Retry
    else if r.Delivered() then Deliver
    else if attempt >= MaxRetries(cfg, t) then Bury
    else GiveUp
  }

  function StatusOf(v: Verdict): Status {
    match v
    case Retry => Retrying
    case Deliver => Success
    case GiveUp => Failed
    case Bury => Dead
  }

  /** An attempt is retried exactly if it is below the limit and failed to connect, or was answered with a server error,
      a timeout or, if asked for, too many requests; it succeeds exactly with a 2xx answer; it is buried exactly if it
      is neither and at the limit. The target's own settings come first. */
  lemma VerdictExactly(cfg: Config, t: Target, attempt: nat, r: Response)
    ensures var limit := if t.maxRetries > 0 then t.maxRetries else cfg.maxRetries;
            var on429 := t.retryOn429 == Some(true) || (t.retryOn429 == None && cfg.retryOn429);
            var v := Judge(cfg, t, attempt, r);
            && (v == Retry <==> attempt < limit && (r.failed || 500 <= r.status <= 599 || r.status == 408
                                                    || (r.status == 429 && on429)))
            && (v == Deliver <==> !r.failed && 200 <= r.status <= 299)
            && (v == Bury <==> !(!r.failed && 200 <= r.status <= 299) && attempt >= limit)
            && (StatusOf(v) == Retrying <==> v == Retry) && (StatusOf(v) == Success <==> v == Deliver)
            && (StatusOf(v) == Dead <==> v == Bury) && (StatusOf(v) == Failed <==> v == GiveUp)
  {
  }

  datatype Metrics = Metrics(enqueued: nat, dropped: nat, sentOK: nat, sentFail: nat, retried: nat, dead: nat)

  /** The counters after a verdict. */
  function Count(m: Metrics, v: Verdict): Metrics {
    match v
    case Retry => m.(retried := m.retried + 1)
    case Deliver => m.(sentOK := m.sentOK + 1)
    case GiveUp => m.(sentFail := m.sentFail + 1)
    case Bury => m.(sentFail := m.sentFail + 1, dead := m.dead + 1)
  }

  /** The store and counters a worker acts on; `delayed` are the calls of `Schedule` it has made. */
  class Service {
    const cfg: Config
    var deliveries: map<Id, Delivery>
    var targets: map<TargetId, Target>
    var metrics: Metrics
    var delayed: seq<(int, Id)>

    constructor (cfg: Config)
      ensures this.cfg == cfg && deliveries == map[] && targets == map[] && delayed == []
      ensures metrics == Metrics(0, 0, 0, 0, 0, 0)
    {
      this.cfg := cfg;
      deliveries, targets, delayed := map[], map[], [];
      metrics := Metrics(0, 0, 0, 0, 0, 0);
    }

    method UpdateDelivery(id: Id, patch: Patch) returns (ok: bool)
      modifies `deliveries
      ensures ok <==> id in old(deliveries)
      ensures deliveries.Keys == old(deliveries).Keys
      ensures forall k :: k in deliveries && (k != id || !ok) ==> deliveries[k] == old(deliveries)[k]
      ensures ok ==>
        var was, d := old(deliveries)[id], deliveries[id];
        && d.target == was.target && d.payload == was.payload
        && d.attempt == (if patch.attempt == None then was.attempt else patch.attempt.value)
        && d.status == (if patch.status == None then was.status else patch.status.value)
        && (patch.nextAt == None ==> d.nextAt == was.nextAt) && (patch.nextAt != None ==> d.nextAt == patch.nextAt)
    {
      if id !in deliveries {
        return false;
      }
      deliveries := deliveries[id := Apply(deliveries[id], patch)];
      return true;
    }

    /** `handleTask`, run without interruption, with the answer of the HTTP client, the clock and the jitter given. */
    method HandleTask(id: Id, response: Response, now: int, jitter: real)
      requires 0.5 <= jitter < 1.5 && BackoffsNonNegative()
      modifies `deliveries, `metrics, `delayed
      ensures (id !in old(deliveries) || old(deliveries)[id].target !in targets
               || !targets[old(deliveries)[id].target].enabled) ==>
        deliveries == old(deliveries) && metrics == old(metrics) && delayed == old(delayed)
      ensures id in old(deliveries) && old(deliveries)[id].target in targets
              && targets[old(deliveries)[id].target].enabled && old(deliveries)[id].payload == "" ==>
        && deliveries ==
             old(deliveries)[id := old(deliveries)[id].(attempt := old(deliveries)[id].attempt + 1, status := Dead)]
        && metrics == old(metrics).(dead := old(metrics).dead + 1) && delayed == old(delayed)
      ensures id in old(deliveries) && old(deliveries)[id].target in targets
              && targets[old(deliveries)[id].target].enabled && old(deliveries)[id].payload != "" ==>
        var d := old(deliveries)[id];
        var t := targets[d.target];
        var limit := if t.maxRetries > 0 then t.maxRetries else cfg.maxRetries;
        var on429 := t.retryOn429 == Some(true) || (t.retryOn429 == None && cfg.retryOn429);
        var again := d.attempt + 1 < limit
          && (response.failed || 500 <= response.status <= 599 || response.status == 408
              || (response.status == 429 && on429));
        var good := !response.failed && 200 <= response.status <= 299;
        && deliveries.Keys == old(deliveries).Keys
        && (forall k :: k in deliveries && k != id ==> deliveries[k] == old(deliveries)[k])
        && deliveries[id].attempt == d.attempt + 1
        && deliveries[id].target == d.target && deliveries[id].payload == d.payload
        && (deliveries[id].status == Retrying <==> again) && (deliveries[id].status == Success <==> good)
        && (deliveries[id].status == Dead <==> !again && !good && d.attempt + 1 >= limit)
        && (deliveries[id].status == Failed <==> !again && !good && d.attempt + 1 < limit)
        && metrics.enqueued == old(metrics).enqueued && metrics.dropped == old(metrics).dropped
        && metrics.retried == old(metrics).retried + (if again then 1 else 0)
        && metrics.sentOK == old(metrics).sentOK + (if good then 1 else 0)
        && metrics.sentFail == old(metrics).sentFail + (if again || good then 0 else 1)
        && metrics.dead == old(metrics).dead + (if !again && !good && d.attempt + 1 >= limit then 1 else 0)
        && (!again ==> delayed == old(delayed) && deliveries[id].nextAt == d.nextAt)
        && (again ==> deliveries[id].nextAt.Some?)
        && (again ==> delayed == old(delayed) + [(deliveries[id].nextAt.value, id)])
        && (again ==> WithinBackoff(cfg, t, d.attempt + 1, now, deliveries[id].nextAt.value))
    {
      hide Judge, WithinBackoff;
      if id !in deliveries {
        return;
      }
      var d := deliveries[id];
      if d.target !in targets || !targets[d.target].enabled {
        return;
      }
      var t := targets[d.target];
      var attempt := d.attempt + 1;
      if |d.payload| == 0 {
        var _ := UpdateDelivery(id, Patch(Some(attempt), Some(Dead), None));
        metrics := metrics.(dead := metrics.dead + 1);
        return;
      }
      VerdictExactly(cfg, t, attempt, response);
      Settle(id, d, t, attempt, response, now, jitter);
    }

    /** The part of `handleTask` after the HTTP attempt (service.go:362-404). */
    method Settle(id: Id, d: Delivery, t: Target, attempt: nat, response: Response, now: int, jitter: real)
      requires 0.5 <= jitter < 1.5 && BackoffsNonNegative() && attempt > 0
      requires id in deliveries && deliveries[id] == d
      modifies `deliveries, `metrics, `delayed
      ensures var v := Judge(cfg, t, attempt, response);
        && deliveries.Keys == old(deliveries).Keys
        && (forall k :: k in deliveries && k != id ==> deliveries[k] == old(deliveries)[k])
        && deliveries[id] == d.(attempt := attempt, status := StatusOf(v), nextAt := deliveries[id].nextAt)
        && metrics == Count(old(metrics), v)
        && (v != Retry ==> delayed == old(delayed) && deliveries[id].nextAt == d.nextAt)
        && (v == Retry ==> deliveries[id].nextAt.Some?)
        && (v == Retry ==> delayed == old(delayed) + [(deliveries[id].nextAt.value, id)])
        && (v == Retry ==> WithinBackoff(cfg, t, attempt, now, deliveries[id].nextAt.value))
    {
      hide WithinBackoff;
      var maxRetries := if t.maxRetries <= 0 then cfg.maxRetries else t.maxRetries;
      var retryOn429 := if t.retryOn429.Some? then t.retryOn429.value else cfg.retryOn429;
      if ShouldRetry(response.status, response.failed, attempt, maxRetries, retryOn429) {
        metrics := metrics.(retried := metrics.retried + 1);
        var nextAt := NextBackoff(now, attempt, Base(cfg, t), Limit(cfg, t), jitter);
        NextIsWithin(cfg, t, attempt, now, nextAt);
        var _ := UpdateDelivery(id, Patch(Some(attempt), Some(Retrying), Some(nextAt)));
        delayed := delayed + [(nextAt, id)];
        return;
      }
      if !response.failed && 200 <= response.status <= 299 {
        metrics := metrics.(sentOK := metrics.sentOK + 1);
        var _ := UpdateDelivery(id, Patch(Some(attempt), Some(Success), None));
        return;
      }
      metrics := metrics.(sentFail := metrics.sentFail + 1);
      var st := Failed;
      if attempt >= maxRetries {
        st := Dead;
        metrics := metrics.(dead := metrics.dead + 1);
      }
      var _ := UpdateDelivery(id, Patch(Some(attempt), Some(st), None));
    }

    predicate BackoffsNonNegative()
      reads this
    {
      cfg.backoffBase >= 0 && cfg.backoffMax >= 0
    }
  }

  /** `ms`: a target's own duration if positive, else the default. */
  function Nanoseconds(ms: Millis, default: int64): int64 {
    if ms <= 0 then default else (ms * 1_000_000) as int64
  }

  function Base(cfg: Config, t: Target): int64 {
    Nanoseconds(t.backoffBaseMs, cfg.backoffBase)
  }

  function Limit(cfg: Config, t: Target): int64 {
    Nanoseconds(t.backoffMaxMs, cfg.backoffMax)
  }

  lemma NextIsWithin(cfg: Config, t: Target, attempt: nat, now: int, at: int)
    requires cfg.backoffBase >= 0 && cfg.backoffMax >= 0 && attempt > 0
    requires var d := Delay(Base(cfg, t) as int, attempt, Limit(cfg, t) as int); now + d / 2 <= at <= now + d + d / 2
    ensures WithinBackoff(cfg, t, attempt, now, at)
  {
    DelayExactly(Base(cfg, t) as int, attempt, Limit(cfg, t) as int);
  }

  /** Between half and one and a half of the exponential delay, to two nanoseconds: the base of the target or else of
      the configuration, doubled with every attempt after the first, and at most their maximum. */
  ghost predicate WithinBackoff(cfg: Config, t: Target, attempt: nat, now: int, at: int)
    requires cfg.backoffBase >= 0 && cfg.backoffMax >= 0 && attempt > 0
  {
    var base := if t.backoffBaseMs > 0 then t.backoffBaseMs * 1_000_000 else cfg.backoffBase as int;
    var most := if t.backoffMaxMs > 0 then t.backoffMaxMs * 1_000_000 else cfg.backoffMax as int;
    var delay := if base * Pow2(attempt - 1) < most then base * Pow2(attempt - 1) else most;
    now + delay / 2 <= at <= now + delay + delay / 2 + 2
  }
}
