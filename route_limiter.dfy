/** The `checkRateLimit` helpers written out in four route files
    (send-otp, send-verification, 2fa/generate, 2fa/verify). Each keeps a
    count and the time its window closes; they answer `true` when the request
    is ALLOWED. Two of them treat the closing instant as already closed, the
    other two as still open: `Boundary` records which. */
module RouteLimiter {
  import opened Common

  datatype Window = Window(count: int, resetTime: int)

  /** send-otp and send-verification keep a window open while `now < resetTime`;
      the two 2fa routes keep it open while `now <= resetTime`. */
  datatype Boundary = ClosedAtReset | OpenAtReset

  predicate IsOpen(w: Window, b: Boundary, now: int)
  {
    match b
    case ClosedAtReset => now < w.resetTime
    case OpenAtReset => now <= w.resetTime
  }

  datatype Decision = Decision(allowed: bool, window: Window)

  /** One call for a key whose stored window is `rec`. */
  function Step(rec: Option<Window>, max: int, windowMs: int, now: int, b: Boundary): Decision
  {
    if rec.Some? && IsOpen(rec.value, b, now) then
      if rec.value.count >= max then Decision(false, rec.value)
      else Decision(true, rec.value.(count := rec.value.count + 1))
    else Decision(true, Window(1, now + windowMs))
  }

  function Lookup(m: map<string, Window>, key: string): Option<Window>
  {
    if key in m then Some(m[key]) else None
  }

  class Limiter {
    const boundary: Boundary
    var records: map<string, Window>

    constructor (b: Boundary)
      ensures boundary == b && records == map[]
    {
      boundary := b;
      records := map[];
    }

    /** `checkRateLimit(key)` with the route's budget `max` per `windowMs`. */
    method Check(key: string, max: int, windowMs: int, now: int) returns (allowed: bool)
      modifies this
      ensures var d := Step(Lookup(old(records), key), max, windowMs, now, boundary);
              allowed == d.allowed && records == old(records)[key := d.window]
      ensures !allowed ==> records == old(records)
    {
      if key in records && IsOpen(records[key], boundary, now) {
        var w := records[key];
        if w.count >= max {
          return false;
        }
        records := records[key := w.(count := w.count + 1)];
        return true;
      }
      records := records[key := Window(1, now + windowMs)];
      return true;
    }
  }

  /** The answers to successive calls at `times` for one key. */
  function Answers(rec: Option<Window>, max: int, windowMs: int, b: Boundary, times: seq<int>): seq<bool>
    decreases |times|
  {
    if times == [] then []
    else
      var d := Step(rec, max, windowMs, times[0], b);
      [d.allowed] + Answers(Some(d.window), max, windowMs, b, times[1..])
  }

  /** A call keeps the stored count within `1..max(1, max)`. */
  lemma CountStaysBounded(rec: Option<Window>, max: int, windowMs: int, now: int, b: Boundary)
    requires rec.Some? ==> 1 <= rec.value.count <= Max(1, max)
    ensures 1 <= Step(rec, max, windowMs, now, b).window.count <= Max(1, max)
  {
  }

  /** While the window stays open, the first `max - count` calls are allowed
      and every later one is denied; the window's closing time never moves. */
  lemma {:induction false} OpenWindowAnswers(w: Window, max: int, windowMs: int, b: Boundary, times: seq<int>)
    requires forall i :: 0 <= i < |times| ==> IsOpen(w, b, times[i])
    ensures |Answers(Some(w), max, windowMs, b, times)| == |times|
    ensures forall i :: 0 <= i < |times| ==>
              Answers(Some(w), max, windowMs, b, times)[i] == (i < max - w.count)
    decreases |times|
  {
    if times != [] {
      var d := Step(Some(w), max, windowMs, times[0], b);
      assert d.window.resetTime == w.resetTime;
      assert forall i :: 0 <= i < |times[1..]| ==> IsOpen(d.window, b, times[1..][i]) by {
        forall i | 0 <= i < |times[1..]| ensures IsOpen(d.window, b, times[1..][i]) {
          assert times[1..][i] == times[i + 1];
        }
      }
      OpenWindowAnswers(d.window, max, windowMs, b, times[1..]);
      assert Answers(Some(w), max, windowMs, b, times) == [d.allowed] + Answers(Some(d.window), max, windowMs, b, times[1..]);
      forall i | 0 <= i < |times|
        ensures Answers(Some(w), max, windowMs, b, times)[i] == (i < max - w.count)
      {
        if i > 0 {
          assert Answers(Some(w), max, windowMs, b, times)[i] == Answers(Some(d.window), max, windowMs, b, times[1..])[i - 1];
          if w.count >= max {
            assert d.window == w;
          }
        }
      }
    }
  }

  /** A key's window admits at most `max(1, max)` requests: the call that opens
      it at `t0` and every later call while it is still open. */
  lemma FreshWindowBudget(max: int, windowMs: int, b: Boundary, t0: int, later: seq<int>)
    requires forall i :: 0 <= i < |later| ==> IsOpen(Window(1, t0 + windowMs), b, later[i])
    ensures var a := Answers(None, max, windowMs, b, [t0] + later);
            a[0] && forall i :: 1 <= i < |a| ==> (a[i] <==> i < max)
  {
    var a := Answers(None, max, windowMs, b, [t0] + later);
    assert ([t0] + later)[1..] == later;
    OpenWindowAnswers(Window(1, t0 + windowMs), max, windowMs, b, later);
    assert a == [true] + Answers(Some(Window(1, t0 + windowMs)), max, windowMs, b, later);
  }

  /** Once a window has closed, the next call is allowed and opens a new one. */
  lemma ResetWhenClosed(w: Window, max: int, windowMs: int, now: int, b: Boundary)
    requires !IsOpen(w, b, now)
    ensures Step(Some(w), max, windowMs, now, b) == Decision(true, Window(1, now + windowMs))
  {
  }

  /** The two copies differ exactly at the closing instant: a full window is
      still enforced by the 2fa routes and already reset by the others. */
  lemma BoundaryAtResetTime(w: Window, max: int, windowMs: int)
    requires w.count >= max
    ensures !Step(Some(w), max, windowMs, w.resetTime, OpenAtReset).allowed
    ensures Step(Some(w), max, windowMs, w.resetTime, ClosedAtReset).allowed
  {
  }

  /** A budget of 3 per 1000 ms: three calls pass, the fourth is denied, and a
      call after the window has elapsed passes again. */
  lemma ThreePerSecond()
    ensures Answers(None, 3, 1000, OpenAtReset, [0, 100, 200, 300, 1001]) == [true, true, true, false, true]
    ensures Answers(None, 3, 1000, ClosedAtReset, [0, 100, 200, 300, 1000]) == [true, true, true, false, true]
  {
  }
}
