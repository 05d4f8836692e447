/** `POST /api/auth/2fa/verify`: charge the per-user budget (5 requests per
    15 minutes), look up an unverified second-factor row of the user WITH
    the submitted code, and, unless it has expired or is spent, mark it
    verified and delete the user's other rows. */
module TwoFactorVerify {
  import opened Common
  import opened Tokens
  import opened Store
  import opened RouteLimiter

  const MaxRequests: int := 5
  const WindowMs: int := 15 * 60 * 1000
  const MaxAttempts: int := 5

  datatype Outcome =
    | MissingFields
    | TooManyRequests
    | InvalidCode
    | CodeExpired
    | AttemptsExceeded
    | Verified(userId: string)

  function Status(o: Outcome): int
  {
    match o
    case TooManyRequests => 429
    case Verified(_) => 200
    case _ => 400
  }

  /** The counter key of a user. */
  function Key(userId: string): string
  {
    "2fa-verify-" + userId
  }

  /** The row lookup: the user's unverified rows carrying the submitted code. */
  function Pending(userId: string, token: string): Query
  {
    Query(Some(userId), Some(token), Some(false))
  }

  /** No row of the user carries `token` unverified. */
  predicate NoPending(s: Snapshot, userId: string, token: string)
  {
    forall k :: k in s.twoFactor ==> !Matches(s.twoFactor[k], Pending(userId, token))
  }

  datatype Result = Result(outcome: Outcome, db: Snapshot, limits: map<string, Window>)

  /** What the checks after the budget answer, and the tables they leave. */
  datatype Redeemed = Redeemed(outcome: Outcome, db: Snapshot)

  /** The row lookup and its checks, once the budget has let the request
      through. */
  function Redeem(s: Snapshot, userId: string, token: string, now: int): Redeemed
    requires Valid(s)
  {
    var found := FindFirst(s.twoFactor, Pending(userId, token), s.nextId);
    if found.None? then Redeemed(InvalidCode, s)
    else
      var id := found.value;
      var t := s.twoFactor[id];
      if now > t.expiresAt then Redeemed(CodeExpired, s.(twoFactor := s.twoFactor - {id}))
      else if t.attempts >= MaxAttempts then Redeemed(AttemptsExceeded, s.(twoFactor := s.twoFactor - {id}))
      else
        var done := t.(attempts := t.attempts + 1, verified := true);
        Redeemed(Verified(userId), s.(twoFactor := DeleteOthers(s.twoFactor[id := done], userId, id)))
  }

  /** The whole request. */
  function Post(s: Snapshot, limits: map<string, Window>, userId: string, token: string, now: int): Result
    requires Valid(s)
  {
    if userId == "" || token == "" then Result(MissingFields, s, limits)
    else
      var d := Step(Lookup(limits, Key(userId)), MaxRequests, WindowMs, now, OpenAtReset);
      if !d.allowed then Result(TooManyRequests, s, limits)
      else
        var r := Redeem(s, userId, token, now);
        Result(r.outcome, r.db, limits[Key(userId) := d.window])
  }

  /** The route handler; `limiter` is the route's own counter map. */
  method HandlePost(db: Db, limiter: Limiter, userId: string, token: string, now: int) returns (o: Outcome)
    requires Valid(db.Snap()) && limiter.boundary == OpenAtReset
    modifies db, limiter
    ensures Result(o, db.Snap(), limiter.records) == Post(old(db.Snap()), old(limiter.records), userId, token, now)
  {
    if userId == "" || token == "" {
      return MissingFields;
    }
    var allowed := limiter.Check(Key(userId), MaxRequests, WindowMs, now);
    if !allowed {
      return TooManyRequests;
    }
    o := RedeemCode(db, userId, token, now);
  }

  /** The lookup and checks after the budget, on the database. */
  method RedeemCode(db: Db, userId: string, token: string, now: int) returns (o: Outcome)
    requires Valid(db.Snap())
    modifies db
    ensures Redeemed(o, db.Snap()) == Redeem(old(db.Snap()), userId, token, now)
  {
    var found := db.FindFirstRow(TwoFactor, Pending(userId, token));
    if found.None? {
      return InvalidCode;
    }
    var id := found.value;
    var t := db.twoFactor[id];
    if now > t.expiresAt {
      db.Delete(TwoFactor, id);
      return CodeExpired;
    }
    if t.attempts >= MaxAttempts {
      db.Delete(TwoFactor, id);
      return AttemptsExceeded;
    }
    var done := t.(attempts := t.attempts + 1, verified := true);
    db.Update(TwoFactor, id, t.(attempts := t.attempts + 1));
    db.Update(TwoFactor, id, done);
    assert db.twoFactor == old(db.twoFactor)[id := done];
    db.DeleteOthersOf(TwoFactor, userId, id);
    return Verified(userId);
  }

  /** Every request that carries both fields charges the user's budget, the
      refused ones included (a refusal leaves the stored window as it was);
      the outcomes follow the order of the checks. */
  lemma ChecksInOrder(s: Snapshot, limits: map<string, Window>, userId: string, token: string, now: int)
    requires Valid(s)
    ensures var r := Post(s, limits, userId, token, now);
            var d := Step(Lookup(limits, Key(userId)), MaxRequests, WindowMs, now, OpenAtReset);
            && (r.outcome == MissingFields <==> userId == "" || token == "")
            && (r.outcome == MissingFields ==> r.limits == limits && r.db == s)
            && (r.outcome != MissingFields ==> r.limits == limits[Key(userId) := d.window])
            && (r.outcome == TooManyRequests <==> userId != "" && token != "" && !d.allowed)
            && (r.outcome == TooManyRequests ==> r.db == s)
            && (r.outcome == InvalidCode <==> userId != "" && token != "" && d.allowed && NoPending(s, userId, token))
            && (r.outcome == InvalidCode ==> r.db == s)
  {
    if userId != "" && token != "" {
      var d := Step(Lookup(limits, Key(userId)), MaxRequests, WindowMs, now, OpenAtReset);
      if !d.allowed {
        assert d.window == limits[Key(userId)];
      }
    }
  }

  /** A row that is found is judged by expiry first, then by attempts: an
      expired or spent row is deleted and nothing else changes; otherwise
      it is marked verified with one more attempt, the user's other rows
      are deleted and every other user's rows stay. The database stays
      valid and single-active. */
  lemma FoundRow(s: Snapshot, limits: map<string, Window>, userId: string, token: string, now: int, id: nat)
    requires Valid(s) && userId != "" && token != ""
    requires Step(Lookup(limits, Key(userId)), MaxRequests, WindowMs, now, OpenAtReset).allowed
    requires FindFirst(s.twoFactor, Pending(userId, token), s.nextId) == Some(id)
    ensures var r := Post(s, limits, userId, token, now);
            var t := s.twoFactor[id];
            && Valid(r.db) && (SingleActive(s) ==> SingleActive(r.db))
            && (r.outcome == CodeExpired <==> now > t.expiresAt)
            && (r.outcome == AttemptsExceeded <==> now <= t.expiresAt && t.attempts >= MaxAttempts)
            && (r.outcome == Verified(userId) <==> now <= t.expiresAt && t.attempts < MaxAttempts)
            && (r.outcome != Verified(userId) ==> r.db == s.(twoFactor := s.twoFactor - {id}))
            && (r.outcome == Verified(userId) ==>
                  && RowsOf(r.db.twoFactor, userId) == {id}
                  && r.db.twoFactor[id] == t.(attempts := t.attempts + 1, verified := true)
                  && (forall k :: k in s.twoFactor && s.twoFactor[k].subject != userId ==>
                        k in r.db.twoFactor && r.db.twoFactor[k] == s.twoFactor[k])
                  && r.db.users == s.users && r.db.otps == s.otps && r.db.emailTokens == s.emailTokens)
  {
    var r := Post(s, limits, userId, token, now);
    var t := s.twoFactor[id];
    RemoveInSpec(s, TwoFactor, id);
    if now <= t.expiresAt && t.attempts < MaxAttempts {
      var done := t.(attempts := t.attempts + 1, verified := true);
      var u := s.twoFactor[id := done];
      assert KeysBelow(u, s.nextId);
      assert RowsOf(r.db.twoFactor, userId) == {id};
    }
  }

  /** Submitting a verified code again is refused like a wrong one: the row
      that was verified no longer matches the lookup, and it was the user's
      only row. */
  lemma ResubmitRefused(s: Snapshot, limits: map<string, Window>, userId: string, token: string, now: int, later: int)
    requires Valid(s)
    requires Post(s, limits, userId, token, now).outcome.Verified?
    ensures var r := Post(s, limits, userId, token, now);
            Valid(r.db) &&
            var r2 := Post(r.db, r.limits, userId, token, later);
            (r2.outcome == InvalidCode || r2.outcome == TooManyRequests) && r2.db == r.db
  {
    var r := Post(s, limits, userId, token, now);
    var id := FindFirst(s.twoFactor, Pending(userId, token), s.nextId).value;
    FoundRow(s, limits, userId, token, now, id);
    assert NoPending(r.db, userId, token) by {
      forall k | k in r.db.twoFactor ensures !Matches(r.db.twoFactor[k], Pending(userId, token)) {
        if r.db.twoFactor[k].subject == userId {
          assert k in RowsOf(r.db.twoFactor, userId);
        }
      }
    }
    ChecksInOrder(r.db, r.limits, userId, token, later);
  }

  /** Rows are created with no attempts, and the route raises the count
      only on the row it also marks verified: so every unverified row keeps
      `attempts == 0` and the "attempts exceeded" branch is never taken. */
  ghost predicate UnverifiedUntried(s: Snapshot)
  {
    forall k :: k in s.twoFactor && !s.twoFactor[k].verified ==> s.twoFactor[k].attempts == 0
  }

  lemma AttemptsNeverExceeded(s: Snapshot, limits: map<string, Window>, userId: string, token: string, now: int)
    requires Valid(s) && UnverifiedUntried(s)
    ensures var r := Post(s, limits, userId, token, now);
            r.outcome != AttemptsExceeded && UnverifiedUntried(r.db)
  {
  }

  /** Successive submissions for one user at `times`; gives the outcomes. */
  function Outcomes(s: Snapshot, limits: map<string, Window>, userId: string, tokens: seq<string>, times: seq<int>): seq<Outcome>
    requires Valid(s) && |tokens| == |times|
    decreases |tokens|
  {
    if tokens == [] then []
    else
      var r := Post(s, limits, userId, tokens[0], times[0]);
      if !Valid(r.db) then [r.outcome]
      else [r.outcome] + Outcomes(r.db, r.limits, userId, tokens[1..], times[1..])
  }

  /** With `count` calls already in an open window, the `5 - count` wrong
      codes before it closes are each answered "invalid code" and change no
      row, and the call after them is refused by the budget whatever code it
      carries. */
  lemma {:induction false} WrongCodesThenRefused(s: Snapshot, limits: map<string, Window>, userId: string,
                                                 wrong: seq<string>, last: string, times: seq<int>, w: Window)
    requires Valid(s) && userId != "" && last != "" && |times| == |wrong| + 1
    requires Lookup(limits, Key(userId)) == Some(w) && w.count + |wrong| == MaxRequests
    requires forall i :: 0 <= i < |wrong| ==> wrong[i] != "" && NoPending(s, userId, wrong[i])
    requires forall i :: 0 <= i < |times| ==> times[i] <= w.resetTime
    ensures Outcomes(s, limits, userId, wrong + [last], times) == seq(|wrong|, _ => InvalidCode) + [TooManyRequests]
    decreases |wrong|
  {
    var tokens := wrong + [last];
    ChecksInOrder(s, limits, userId, tokens[0], times[0]);
    var r := Post(s, limits, userId, tokens[0], times[0]);
    if wrong == [] {
      assert tokens[1..] == [] && times[1..] == [];
    } else {
      var w' := w.(count := w.count + 1);
      assert r.db == s && r.limits == limits[Key(userId) := w'];
      var wrong' := wrong[1..];
      var times' := times[1..];
      assert forall i :: 0 <= i < |wrong'| ==> wrong'[i] == wrong[i + 1];
      assert forall i :: 0 <= i < |times'| ==> times'[i] == times[i + 1];
      assert tokens[1..] == wrong' + [last];
      WrongCodesThenRefused(s, r.limits, userId, wrong', last, times', w');
      assert seq(|wrong|, _ => InvalidCode) == [InvalidCode] + seq(|wrong'|, _ => InvalidCode);
    }
  }

  /** Five wrong codes followed by the right one, all within fifteen minutes
      of the first: the five are refused as invalid and leave the row
      untouched, and the right code is then refused by the budget (429), not
      by an attempt count. */
  lemma FiveWrongCodesThenBudget(s: Snapshot, limits: map<string, Window>, userId: string,
                                 wrong: seq<string>, right: string, times: seq<int>)
    requires Valid(s) && userId != "" && right != "" && Key(userId) !in limits
    requires |wrong| == 5 && |times| == 6
    requires forall i :: 0 <= i < 5 ==> wrong[i] != "" && NoPending(s, userId, wrong[i])
    requires forall i :: 0 <= i < 6 ==> times[i] <= times[0] + WindowMs
    ensures Outcomes(s, limits, userId, wrong + [right], times)
            == [InvalidCode, InvalidCode, InvalidCode, InvalidCode, InvalidCode, TooManyRequests]
  {
    var tokens := wrong + [right];
    ChecksInOrder(s, limits, userId, tokens[0], times[0]);
    var r := Post(s, limits, userId, tokens[0], times[0]);
    var w := Window(1, times[0] + WindowMs);
    assert r.db == s && r.limits == limits[Key(userId) := w];
    var wrong' := wrong[1..];
    var times' := times[1..];
    assert forall i :: 0 <= i < |wrong'| ==> wrong'[i] == wrong[i + 1];
    assert forall i :: 0 <= i < |times'| ==> times'[i] == times[i + 1];
    assert tokens[1..] == wrong' + [right];
    WrongCodesThenRefused(s, r.limits, userId, wrong', right, times', w);
    assert seq(4, _ => InvalidCode) == [InvalidCode, InvalidCode, InvalidCode, InvalidCode];
  }

  /** Once the budget window has closed, the right code still succeeds after
      any number of wrong ones, provided the row has not expired. */
  lemma RightCodeAfterWindow(s: Snapshot, limits: map<string, Window>, userId: string, token: string, now: int, id: nat)
    requires Valid(s) && UnverifiedUntried(s) && userId != "" && token != ""
    requires Key(userId) in limits && now > limits[Key(userId)].resetTime
    requires FindFirst(s.twoFactor, Pending(userId, token), s.nextId) == Some(id)
    requires now <= s.twoFactor[id].expiresAt
    ensures Post(s, limits, userId, token, now).outcome == Verified(userId)
  {
  }
}
