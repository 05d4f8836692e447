/** `POST /api/auth/2fa/generate`: charge the per-user budget (5 requests
    per 15 minutes), check that the user exists and has 2FA switched on,
    replace the user's second-factor codes by one fresh 6-digit code valid
    for 10 minutes, and mail it. */
module TwoFactorGenerate {
  import opened Common
  import opened Tokens
  import opened Store
  import opened RouteLimiter

  const MaxRequests: int := 5
  const WindowMs: int := 15 * 60 * 1000
  const CodeTtl: int := 10 * 60 * 1000

  datatype Outcome =
    | MissingUserId
    | TooManyRequests
    | UserNotFound
    | NotEnabled
    | SendFailed
    | Sent(expiresAt: int)

  function Status(o: Outcome): int
  {
    match o
    case MissingUserId => 400
    case TooManyRequests => 429
    case UserNotFound => 404
    case NotEnabled => 400
    case SendFailed => 500
    case Sent(_) => 200
  }

  /** The counter key of a user. */
  function Key(userId: string): string
  {
    "2fa-generate-" + userId
  }

  datatype Result = Result(outcome: Outcome, db: Snapshot, limits: map<string, Window>)

  /** The whole request: `code` is the random number drawn, `delivered`
      what the mailer reported. */
  function Post(s: Snapshot, limits: map<string, Window>, userId: string, code: nat, delivered: bool, now: int): Result
  {
    if userId == "" then Result(MissingUserId, s, limits)
    else
      var d := Step(Lookup(limits, Key(userId)), MaxRequests, WindowMs, now, OpenAtReset);
      if !d.allowed then Result(TooManyRequests, s, limits)
      else
        var limits2 := limits[Key(userId) := d.window];
        var at := FindUser(s.users, ById(userId));
        if at.None? then Result(UserNotFound, s, limits2)
        else if !s.users[at.value].twoFactorEnabled then Result(NotEnabled, s, limits2)
        else
          var s2 := IssueIn(s, TwoFactor, userId, NatToString(code), now, CodeTtl);
          Result(if delivered then Sent(now + CodeTtl) else SendFailed, s2, limits2)
  }

  /** The route handler; `limiter` is the route's own counter map. */
  method HandlePost(db: Db, limiter: Limiter, userId: string, code: nat, delivered: bool, now: int)
      returns (o: Outcome)
    requires limiter.boundary == OpenAtReset
    requires 100000 <= code < 999999
    modifies db, limiter
    ensures Result(o, db.Snap(), limiter.records)
            == Post(old(db.Snap()), old(limiter.records), userId, code, delivered, now)
  {
    if userId == "" {
      return MissingUserId;
    }
    var allowed := limiter.Check(Key(userId), MaxRequests, WindowMs, now);
    if !allowed {
      return TooManyRequests;
    }
    var at := db.FindUserRow(ById(userId));
    if at.None? {
      return UserNotFound;
    }
    var user := db.users[at.value];
    if !user.twoFactorEnabled {
      return NotEnabled;
    }
    db.DeleteMany(TwoFactor, BySubject(user.id));
    var text := NatToString(code);
    var expiresAt := now + CodeTtl;
    var _ := db.Create(TwoFactor, user.id, text, now, CodeTtl);
    if !delivered {
      return SendFailed;
    }
    return Sent(expiresAt);
  }

  /** The checks run in order: the id, the budget, the user, the flag. Only a
      request that passes all four changes a table; every request that
      carries an id and is not refused by the budget charges it. */
  lemma ChecksInOrder(s: Snapshot, limits: map<string, Window>, userId: string, code: nat, delivered: bool, now: int)
    ensures var r := Post(s, limits, userId, code, delivered, now);
            var d := Step(Lookup(limits, Key(userId)), MaxRequests, WindowMs, now, OpenAtReset);
            var at := FindUser(s.users, ById(userId));
            && (r.outcome == MissingUserId <==> userId == "")
            && (r.outcome == TooManyRequests <==> userId != "" && !d.allowed)
            && (r.outcome == UserNotFound <==> userId != "" && d.allowed && at.None?)
            && (r.outcome == NotEnabled <==> userId != "" && d.allowed && at.Some? && !s.users[at.value].twoFactorEnabled)
            && (r.outcome.Sent? || r.outcome == SendFailed <==>
                  userId != "" && d.allowed && at.Some? && s.users[at.value].twoFactorEnabled)
            && (r.outcome.Sent? || r.outcome == SendFailed <==> r.db != s)
            && (userId != "" ==> r.limits == limits[Key(userId) := d.window])
            && (userId == "" ==> r.limits == limits)
  {
    var r := Post(s, limits, userId, code, delivered, now);
    if r.outcome.Sent? || r.outcome == SendFailed {
      assert r.db.nextId == s.nextId + 1;
    }
    if userId != "" {
      var d := Step(Lookup(limits, Key(userId)), MaxRequests, WindowMs, now, OpenAtReset);
      if !d.allowed {
        assert Lookup(limits, Key(userId)).Some? && d.window == limits[Key(userId)];
      }
    }
  }

  /** After an accepted request the user has exactly one second-factor code:
      the new one, of six digits, unverified, with no attempts, expiring ten
      minutes from now, which is the time reported. The row stays when
      mailing fails. */
  lemma IssueLeavesOneCode(s: Snapshot, limits: map<string, Window>, userId: string, code: nat, delivered: bool, now: int)
    requires Valid(s) && 100000 <= code < 999999
    ensures var r := Post(s, limits, userId, code, delivered, now);
            (r.outcome.Sent? || r.outcome == SendFailed) ==>
              && Valid(r.db) && (SingleActive(s) ==> SingleActive(r.db))
              && RowsOf(r.db.twoFactor, userId) == {s.nextId}
              && r.db.twoFactor[s.nextId] == NewToken(userId, NatToString(code), now, CodeTtl)
              && |r.db.twoFactor[s.nextId].code| == 6 && DigitsValue(r.db.twoFactor[s.nextId].code) == code
              && (r.outcome.Sent? ==> r.outcome.expiresAt == r.db.twoFactor[s.nextId].expiresAt)
              && r.db.otps == s.otps && r.db.emailTokens == s.emailTokens && r.db.users == s.users
    ensures Post(s, limits, userId, code, false, now).db == Post(s, limits, userId, code, true, now).db
  {
    if userId != "" {
      IssueInSpec(s, TwoFactor, userId, NatToString(code), now, CodeTtl);
      CodeWidths(code);
      DigitsRoundTrip(code);
    }
  }

  /** Unknown users and users without 2FA still use up the budget: within
      one window the sixth request for an id is refused whatever happened to
      the first five. */
  lemma SixthRequestRefused(s: Snapshot, limits: map<string, Window>, userId: string, code: nat, delivered: bool, now: int)
    requires userId != "" && Key(userId) in limits
    requires now <= limits[Key(userId)].resetTime && limits[Key(userId)].count >= MaxRequests
    ensures Post(s, limits, userId, code, delivered, now) == Result(TooManyRequests, s, limits)
  {
  }
}
