/** The generic fixed-window limiter of lib/rate-limit.ts: one record per
    key holding a count and the time the window opened. A call answers
    `true` when the request is BLOCKED. */
module RateLimit {
  import opened Common

  /** The default `limit` and `windowMs` arguments of `rateLimit`. */
  const DefaultLimit: int := 20
  const DefaultWindowMs: int := 60 * 1000

  datatype IpRecord = IpRecord(count: int, lastRequest: int)

  /** What one call decides and the record it leaves behind for its key. */
  datatype Decision = Decision(blocked: bool, record: IpRecord)

  /** One call for a key whose stored record is `rec`. */
  function Step(rec: Option<IpRecord>, limit: int, windowMs: int, now: int): Decision
  {
    match rec
    case None => Decision(false, IpRecord(1, now))
    case Some(r) =>
      if now - r.lastRequest > windowMs then Decision(false, IpRecord(1, now))
      else if r.count >= limit then Decision(true, r)
      else Decision(false, r.(count := r.count + 1))
  }

  function Lookup(m: map<string, IpRecord>, key: string): Option<IpRecord>
  {
    if key in m then Some(m[key]) else None
  }

  class IpRateLimiter {
    var ipRequests: map<string, IpRecord>

    constructor ()
      ensures ipRequests == map[]
    {
      ipRequests := map[];
    }

    /** `rateLimit(ip, limit, windowMs)` at time `now`. */
    method RateLimit(ip: string, limit: int, windowMs: int, now: int) returns (blocked: bool)
      modifies this
      ensures ip in ipRequests
      ensures Decision(blocked, ipRequests[ip]) == Step(Lookup(old(ipRequests), ip), limit, windowMs, now)
      ensures forall k :: k != ip ==> Lookup(ipRequests, k) == Lookup(old(ipRequests), k)
      ensures ip !in old(ipRequests) ==> !blocked && ipRequests[ip] == IpRecord(1, now)
      ensures ip in old(ipRequests) && now - old(ipRequests)[ip].lastRequest > windowMs ==>
                !blocked && ipRequests[ip] == IpRecord(1, now)
      ensures ip in old(ipRequests) && now - old(ipRequests)[ip].lastRequest <= windowMs
              && old(ipRequests)[ip].count >= limit ==>
                blocked && ipRequests == old(ipRequests)
      ensures ip in old(ipRequests) && now - old(ipRequests)[ip].lastRequest <= windowMs
              && old(ipRequests)[ip].count < limit ==>
                !blocked && ipRequests[ip] == old(ipRequests)[ip].(count := old(ipRequests)[ip].count + 1)
    {
      if ip !in ipRequests {
        ipRequests := ipRequests[ip := IpRecord(1, now)];
        return false;
      }
      var rec := ipRequests[ip];
      if now - rec.lastRequest > windowMs {
        ipRequests := ipRequests[ip := IpRecord(1, now)];
        return false;
      }
      if rec.count >= limit {
        return true;
      }
      ipRequests := ipRequests[ip := rec.(count := rec.count + 1)];
      return false;
    }
  }

  /** The record left after successive calls at `times` for one key. */
  function Final(rec: Option<IpRecord>, limit: int, windowMs: int, times: seq<int>): Option<IpRecord>
    decreases |times|
  {
    if times == [] then rec
    else Final(Some(Step(rec, limit, windowMs, times[0]).record), limit, windowMs, times[1..])
  }

  /** How many of successive calls at `times` are let through. */
  function Allowed(rec: Option<IpRecord>, limit: int, windowMs: int, times: seq<int>): nat
    decreases |times|
  {
    if times == [] then 0
    else
      var d := Step(rec, limit, windowMs, times[0]);
      (if d.blocked then 0 else 1) + Allowed(Some(d.record), limit, windowMs, times[1..])
  }

  /** The stored count never exceeds `max(1, limit)`: a call preserves the bound. */
  lemma CountStaysBounded(rec: Option<IpRecord>, limit: int, windowMs: int, now: int)
    requires rec.Some? ==> 1 <= rec.value.count <= Max(1, limit)
    ensures 1 <= Step(rec, limit, windowMs, now).record.count <= Max(1, limit)
  {
  }

  /** ... and so does any sequence of calls. */
  lemma {:induction false} CountBoundedOverRun(rec: Option<IpRecord>, limit: int, windowMs: int, times: seq<int>)
    requires rec.Some? ==> 1 <= rec.value.count <= Max(1, limit)
    ensures var f := Final(rec, limit, windowMs, times);
            f.Some? ==> 1 <= f.value.count <= Max(1, limit)
    decreases |times|
  {
    if times != [] {
      CountStaysBounded(rec, limit, windowMs, times[0]);
      CountBoundedOverRun(Some(Step(rec, limit, windowMs, times[0]).record), limit, windowMs, times[1..]);
    }
  }

  /** The window is anchored where it opened: while every call stays within
      `windowMs` of the record's `lastRequest`, exactly `max(0, limit - count)`
      of them are allowed, whatever their spacing. */
  lemma {:induction false} WindowBudget(r: IpRecord, limit: int, windowMs: int, times: seq<int>)
    requires forall i :: 0 <= i < |times| ==> times[i] - r.lastRequest <= windowMs
    ensures Allowed(Some(r), limit, windowMs, times) == Min(|times|, Max(0, limit - r.count))
    ensures var f := Final(Some(r), limit, windowMs, times);
            f.Some? && f.value.lastRequest == r.lastRequest
            && f.value.count == r.count + Min(|times|, Max(0, limit - r.count))
    decreases |times|
  {
    if times != [] {
      var d := Step(Some(r), limit, windowMs, times[0]);
      assert d.record.lastRequest == r.lastRequest;
      WindowBudget(d.record, limit, windowMs, times[1..]);
    }
  }

  /** From a key never seen before, the first call at `t0` and any calls
      up to `t0 + windowMs` let through at most `max(1, limit)` requests. */
  lemma FreshKeyBudget(limit: int, windowMs: int, t0: int, later: seq<int>)
    requires forall i :: 0 <= i < |later| ==> later[i] - t0 <= windowMs
    ensures Allowed(None, limit, windowMs, [t0] + later) == 1 + Min(|later|, Max(0, limit - 1))
    ensures Allowed(None, limit, windowMs, [t0] + later) <= Max(1, limit)
  {
    assert ([t0] + later)[1..] == later;
    WindowBudget(IpRecord(1, t0), limit, windowMs, later);
  }

  /** With the default arguments, a key never seen before gets up to 20
      requests through in the minute from its first call, and no more. */
  lemma DefaultBudget(t0: int, later: seq<int>)
    requires forall i :: 0 <= i < |later| ==> later[i] - t0 <= DefaultWindowMs
    ensures Allowed(None, DefaultLimit, DefaultWindowMs, [t0] + later) == Min(1 + |later|, DefaultLimit)
  {
    FreshKeyBudget(DefaultLimit, DefaultWindowMs, t0, later);
  }

  /** Once the window has passed, the next call is allowed and restarts the count. */
  lemma ResetAfterWindow(r: IpRecord, limit: int, windowMs: int, now: int)
    requires now - r.lastRequest > windowMs
    ensures Step(Some(r), limit, windowMs, now) == Decision(false, IpRecord(1, now))
  {
  }
}
