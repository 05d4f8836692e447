/** `POST /api/auth/send-otp`: validate the e-mail, charge the per-address
    budget (10 requests per 15 minutes), replace the address's login codes
    by one fresh 4-digit code valid for 5 minutes, and mail it. */
module SendOtp {
  import opened Common
  import opened Tokens
  import opened Store
  import opened RouteLimiter

  const MaxRequests: int := 10
  const WindowMs: int := 15 * 60 * 1000
  const CodeTtl: int := 5 * 60 * 1000

  /** A character of the class `[^\s@]`. */
  predicate Plain(c: char)
  {
    !IsSpace(c) && c != '@'
  }

  predicate AllPlain(s: string)
  {
    forall k :: 0 <= k < |s| ==> Plain(s[k])
  }

  /** `s` matches `^[^\s@]+@[^\s@]+\.[^\s@]+$` with the `@` at `at` and the
      literal dot at `dot`. */
  predicate MatchesAt(s: string, at: int, dot: int)
  {
    && 0 < at && at + 1 < dot && dot + 1 < |s|
    && s[at] == '@' && s[dot] == '.'
    && AllPlain(s[..at]) && AllPlain(s[at + 1..dot]) && AllPlain(s[dot + 1..])
  }

  ghost predicate MatchesPattern(s: string)
  {
    exists at, dot :: MatchesAt(s, at, dot)
  }

  /** The check the route runs: one `@` with something before it, no white
      space, and a dot after the `@` that is neither its neighbour nor last. */
  predicate IsValidEmail(s: string)
  {
    var at := IndexOf(s, '@');
    && 0 < at && at + 2 < |s|
    && AllPlain(s[..at]) && AllPlain(s[at + 1..])
    && '.' in s[at + 2..|s| - 1]
  }

  /** The check accepts exactly the strings the pattern matches. */
  lemma IsValidEmailMatchesPattern(s: string)
    ensures IsValidEmail(s) <==> MatchesPattern(s)
  {
    if IsValidEmail(s) {
      var at := IndexOf(s, '@');
      var mid := s[at + 2..|s| - 1];
      var j := IndexOf(mid, '.');
      var dot := at + 2 + j;
      assert s[dot] == mid[j];
      assert s[at + 1..dot] == s[at + 1..][..dot - at - 1];
      assert s[dot + 1..] == s[at + 1..][dot - at..];
      assert MatchesAt(s, at, dot);
    }
    if MatchesPattern(s) {
      var at, dot :| MatchesAt(s, at, dot);
      assert '@' !in s[..at] by {
        forall k | 0 <= k < at ensures s[..at][k] != '@' {
          assert Plain(s[..at][k]);
        }
      }
      IndexOfFirst(s, '@', at);
      var rest := s[at + 1..];
      forall k | 0 <= k < |rest| ensures Plain(rest[k]) {
        if at + 1 + k < dot {
          assert rest[k] == s[at + 1..dot][k];
        } else if at + 1 + k > dot {
          assert rest[k] == s[dot + 1..][at + k - dot];
        }
      }
      assert s[at + 2..|s| - 1][dot - at - 2] == '.';
    }
  }

  datatype Outcome = InvalidEmail | TooManyRequests | SendFailed | Sent

  function Status(o: Outcome): int
  {
    match o
    case InvalidEmail => 400
    case TooManyRequests => 429
    case SendFailed => 500
    case Sent => 200
  }

  datatype Result = Result(outcome: Outcome, db: Snapshot, limits: map<string, Window>)

  /** The whole request: `code` is the random number drawn, `delivered`
      what the mailer reported. */
  function Post(s: Snapshot, limits: map<string, Window>, email: string, code: nat, delivered: bool, now: int): Result
  {
    if !IsValidEmail(email) then Result(InvalidEmail, s, limits)
    else
      var key := ToLower(email);
      var d := Step(Lookup(limits, key), MaxRequests, WindowMs, now, ClosedAtReset);
      if !d.allowed then Result(TooManyRequests, s, limits)
      else
        var s2 := IssueIn(s, LoginCode, key, NatToString(code), now, CodeTtl);
        Result(if delivered then Sent else SendFailed, s2, limits[key := d.window])
  }

  /** The route handler; `limiter` is the route's own counter map. */
  method HandlePost(db: Db, limiter: Limiter, email: string, code: nat, delivered: bool, now: int)
      returns (o: Outcome)
    requires limiter.boundary == ClosedAtReset
    requires 1000 <= code <= 9999
    modifies db, limiter
    ensures Result(o, db.Snap(), limiter.records)
            == Post(old(db.Snap()), old(limiter.records), email, code, delivered, now)
  {
    if email == "" || !IsValidEmail(email) {
      return InvalidEmail;
    }
    var key := ToLower(email);
    var allowed := limiter.Check(key, MaxRequests, WindowMs, now);
    if !allowed {
      return TooManyRequests;
    }
    var text := NatToString(code);
    db.DeleteMany(LoginCode, BySubject(key));
    var _ := db.Create(LoginCode, key, text, now, CodeTtl);
    if !delivered {
      return SendFailed;
    }
    return Sent;
  }

  /** A malformed address is refused before the counter is charged: nothing changes. */
  lemma InvalidEmailTouchesNothing(s: Snapshot, limits: map<string, Window>, email: string, code: nat, delivered: bool, now: int)
    requires !MatchesPattern(email)
    ensures Post(s, limits, email, code, delivered, now) == Result(InvalidEmail, s, limits)
  {
    IsValidEmailMatchesPattern(email);
  }

  /** A refused request changes no table, and a denied one no counter either. */
  lemma RefusalKeepsTables(s: Snapshot, limits: map<string, Window>, email: string, code: nat, delivered: bool, now: int)
    ensures var r := Post(s, limits, email, code, delivered, now);
            (r.outcome == InvalidEmail || r.outcome == TooManyRequests) <==> r.db == s
    ensures var r := Post(s, limits, email, code, delivered, now);
            r.outcome == TooManyRequests ==> r.limits == limits
  {
    var r := Post(s, limits, email, code, delivered, now);
    if IsValidEmail(email) && r.outcome != TooManyRequests {
      assert r.db.nextId == s.nextId + 1;
    }
  }

  /** After an accepted request the lower-cased address has exactly one login
      code: the new one, of four digits, expiring five minutes from now. The
      row stays when mailing fails. */
  lemma IssueLeavesOneCode(s: Snapshot, limits: map<string, Window>, email: string, code: nat, delivered: bool, now: int)
    requires Valid(s) && 1000 <= code <= 9999
    ensures var r := Post(s, limits, email, code, delivered, now);
            (r.outcome == Sent || r.outcome == SendFailed) ==>
              && Valid(r.db) && (SingleActive(s) ==> SingleActive(r.db))
              && RowsOf(r.db.otps, ToLower(email)) == {s.nextId}
              && r.db.otps[s.nextId].expiresAt == now + CodeTtl
              && r.db.otps[s.nextId].attempts == 0 && !r.db.otps[s.nextId].verified
              && |r.db.otps[s.nextId].code| == 4 && DigitsValue(r.db.otps[s.nextId].code) == code
              && r.db.twoFactor == s.twoFactor && r.db.emailTokens == s.emailTokens
              && r.db.users == s.users
    ensures (Post(s, limits, email, code, delivered, now).outcome == SendFailed) <==>
            (Post(s, limits, email, code, true, now).outcome == Sent && !delivered)
    ensures Post(s, limits, email, code, false, now).db == Post(s, limits, email, code, true, now).db
  {
    if IsValidEmail(email) {
      IssueInSpec(s, LoginCode, ToLower(email), NatToString(code), now, CodeTtl);
      CodeWidths(code);
      DigitsRoundTrip(code);
    }
  }

  /** The budget is per lower-cased address: two spellings that differ only
      in letter case draw on the same counter and get the same answer. */
  lemma BudgetIgnoresCase(s: Snapshot, limits: map<string, Window>, a: string, b: string, code: nat, delivered: bool, now: int)
    requires IsValidEmail(a) && IsValidEmail(b) && ToLower(a) == ToLower(b)
    ensures Post(s, limits, a, code, delivered, now) == Post(s, limits, b, code, delivered, now)
  {
  }

  /** Inside one open window the eleventh request for an address is refused
      and changes nothing. */
  lemma EleventhRequestRefused(s: Snapshot, limits: map<string, Window>, email: string, code: nat, delivered: bool, now: int)
    requires IsValidEmail(email)
    requires ToLower(email) in limits
    requires now < limits[ToLower(email)].resetTime && limits[ToLower(email)].count >= MaxRequests
    ensures Post(s, limits, email, code, delivered, now) == Result(TooManyRequests, s, limits)
  {
  }
}
