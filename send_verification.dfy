/** `POST /api/auth/send-verification`: for an existing user whose address
    is not yet verified, charge the per-address budget (3 requests per
    hour), replace the user's e-mail-verification codes by one fresh 6-digit
    code valid for 15 minutes, and mail it. */
module SendVerification {
  import opened Common
  import opened Tokens
  import opened Store
  import opened RouteLimiter

  const MaxRequests: int := 3
  const WindowMs: int := 60 * 60 * 1000
  const CodeTtl: int := 15 * 60 * 1000

  datatype Outcome = MissingUserId | UserNotFound | AlreadyVerified | TooManyRequests | SendFailed | Sent

  function Status(o: Outcome): int
  {
    match o
    case MissingUserId => 400
    case UserNotFound => 404
    case AlreadyVerified => 400
    case TooManyRequests => 429
    case SendFailed => 500
    case Sent => 200
  }

  /** The outcomes that answer before any table is written. */
  predicate Refused(o: Outcome)
  {
    o == MissingUserId || o == UserNotFound || o == AlreadyVerified || o == TooManyRequests
  }

  datatype Result = Result(outcome: Outcome, db: Snapshot, limits: map<string, Window>)

  /** The whole request: `code` is the random number drawn, `delivered`
      what the mailer reported. */
  function Post(s: Snapshot, limits: map<string, Window>, userId: string, code: nat, delivered: bool, now: int): Result
  {
    if userId == "" then Result(MissingUserId, s, limits)
    else
      var at := FindUser(s.users, ById(userId));
      if at.None? then Result(UserNotFound, s, limits)
      else
        var user := s.users[at.value];
        if user.emailVerified then Result(AlreadyVerified, s, limits)
        else
          var d := Step(Lookup(limits, user.email), MaxRequests, WindowMs, now, ClosedAtReset);
          if !d.allowed then Result(TooManyRequests, s, limits)
          else
            var s2 := IssueIn(s, EmailCheck, user.id, NatToString(code), now, CodeTtl);
            Result(if delivered then Sent else SendFailed, s2, limits[user.email := d.window])
  }

  /** The route handler; `limiter` is the route's own counter map. */
  method HandlePost(db: Db, limiter: Limiter, userId: string, code: nat, delivered: bool, now: int)
      returns (o: Outcome)
    requires limiter.boundary == ClosedAtReset
    requires 100000 <= code < 999999
    modifies db, limiter
    ensures Result(o, db.Snap(), limiter.records)
            == Post(old(db.Snap()), old(limiter.records), userId, code, delivered, now)
  {
    if userId == "" {
      return MissingUserId;
    }
    var at := db.FindUserRow(ById(userId));
    if at.None? {
      return UserNotFound;
    }
    var user := db.users[at.value];
    if user.emailVerified {
      return AlreadyVerified;
    }
    var allowed := limiter.Check(user.email, MaxRequests, WindowMs, now);
    if !allowed {
      return TooManyRequests;
    }
    db.DeleteMany(EmailCheck, BySubject(user.id));
    var text := NatToString(code);
    var _ := db.Create(EmailCheck, user.id, text, now, CodeTtl);
    if !delivered {
      return SendFailed;
    }
    return Sent;
  }

  /** The user checks come before the budget: only a request for an
      existing, unverified user touches the counters, and only one that also
      passes the budget changes a table. */
  lemma ChecksInOrder(s: Snapshot, limits: map<string, Window>, userId: string, code: nat, delivered: bool, now: int)
    ensures var r := Post(s, limits, userId, code, delivered, now);
            var at := FindUser(s.users, ById(userId));
            && (r.outcome == MissingUserId <==> userId == "")
            && (r.outcome == UserNotFound <==> userId != "" && at.None?)
            && (r.outcome == AlreadyVerified <==> userId != "" && at.Some? && s.users[at.value].emailVerified)
            && (r.limits != limits ==> userId != "" && at.Some? && !s.users[at.value].emailVerified)
            && (Refused(r.outcome) <==> r.db == s)
            && (Refused(r.outcome) ==> r.limits == limits)
  {
    var r := Post(s, limits, userId, code, delivered, now);
    if r.outcome == Sent || r.outcome == SendFailed {
      assert r.db.nextId == s.nextId + 1;
    }
  }

  /** After an accepted request the user has exactly one e-mail code: the
      new one, of six digits, expiring fifteen minutes from now. The row
      stays when mailing fails. */
  lemma IssueLeavesOneCode(s: Snapshot, limits: map<string, Window>, userId: string, code: nat, delivered: bool, now: int)
    requires Valid(s) && 100000 <= code < 999999
    ensures var r := Post(s, limits, userId, code, delivered, now);
            (r.outcome == Sent || r.outcome == SendFailed) ==>
              && Valid(r.db) && (SingleActive(s) ==> SingleActive(r.db))
              && RowsOf(r.db.emailTokens, userId) == {s.nextId}
              && r.db.emailTokens[s.nextId] == NewToken(userId, NatToString(code), now, CodeTtl)
              && |r.db.emailTokens[s.nextId].code| == 6 && DigitsValue(r.db.emailTokens[s.nextId].code) == code
              && r.db.otps == s.otps && r.db.twoFactor == s.twoFactor && r.db.users == s.users
    ensures Post(s, limits, userId, code, false, now).db == Post(s, limits, userId, code, true, now).db
  {
    var r := Post(s, limits, userId, code, delivered, now);
    var at := FindUser(s.users, ById(userId));
    if userId != "" && at.Some? && !s.users[at.value].emailVerified {
      var user := s.users[at.value];
      var d := Step(Lookup(limits, user.email), MaxRequests, WindowMs, now, ClosedAtReset);
      if d.allowed {
        var s2 := IssueIn(s, EmailCheck, user.id, NatToString(code), now, CodeTtl);
        assert r.db == s2;
        IssueInSpec(s, EmailCheck, user.id, NatToString(code), now, CodeTtl);
        assert TableOf(s2, LoginCode) == s.otps && TableOf(s2, TwoFactor) == s.twoFactor;
        CodeWidths(code);
        DigitsRoundTrip(code);
      } else {
        assert r.outcome == TooManyRequests;
      }
    } else {
      assert Refused(r.outcome);
    }
  }

  /** Within one open window the fourth request for an address is refused
      and changes nothing. */
  lemma FourthRequestRefused(s: Snapshot, limits: map<string, Window>, userId: string, code: nat, delivered: bool, now: int, i: nat)
    requires UsersWellFormed(s.users) && i < |s.users| && s.users[i].id == userId && userId != ""
    requires !s.users[i].emailVerified
    requires s.users[i].email in limits
    requires now < limits[s.users[i].email].resetTime && limits[s.users[i].email].count >= MaxRequests
    ensures Post(s, limits, userId, code, delivered, now) == Result(TooManyRequests, s, limits)
  {
    FindUserUnique(s.users, ById(userId), i);
  }
}
