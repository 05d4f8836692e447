/** The credentials sign-in (`authorize`): a well-formed e-mail and a secret
    of at least four characters; the user with exactly that e-mail; then
    the secret is tried as the password, as a verified second-factor code
    younger than 12 minutes, and as a verified e-mail code younger than 16
    minutes, in that order. An accepted code is deleted. */
module Auth {
  import opened Common
  import opened Tokens
  import opened Store
  import SendOtp

  const MinSecret: int := 4
  const TwoFactorWindow: int := 12 * 60 * 1000
  const EmailCodeWindow: int := 16 * 60 * 1000

  predicate IsAsciiLetter(c: char)
  {
    ('a' <= c <= 'z') || ('A' <= c <= 'Z')
  }

  predicate IsAsciiAlnum(c: char)
  {
    IsAsciiLetter(c) || IsDigit(c)
  }

  /** A character of the local-part class `[A-Z0-9_'+\-.]` (any case). */
  predicate LocalChar(c: char)
  {
    IsAsciiAlnum(c) || c == '_' || c == '\'' || c == '+' || c == '-' || c == '.'
  }

  /** The last character of the local part: `[A-Z0-9_+-]`. */
  predicate LocalLast(c: char)
  {
    IsAsciiAlnum(c) || c == '_' || c == '+' || c == '-'
  }

  /** The local part of the schema's e-mail pattern: not starting with a
      dot, no two dots in a row, allowed characters only, and a last
      character from the narrower class. */
  predicate ValidLocal(l: string)
  {
    && |l| >= 1 && l[0] != '.'
    && (forall i :: 0 <= i < |l| ==> LocalChar(l[i]))
    && (forall i :: 0 <= i < |l| - 1 ==> !(l[i] == '.' && l[i + 1] == '.'))
    && LocalLast(l[|l| - 1])
  }

  /** A domain label `[A-Z0-9][A-Z0-9\-]*`. */
  predicate Label(l: string)
  {
    |l| >= 1 && IsAsciiAlnum(l[0]) && forall i :: 0 <= i < |l| ==> IsAsciiAlnum(l[i]) || l[i] == '-'
  }

  /** The final label `[A-Z]{2,}`. */
  predicate TopLevel(l: string)
  {
    |l| >= 2 && forall i :: 0 <= i < |l| ==> IsAsciiLetter(l[i])
  }

  /** `(label\.)+ toplevel`. */
  predicate ValidDomain(d: string)
    decreases |d|
  {
    var i := IndexOf(d, '.');
    && i >= 1 && Label(d[..i])
    && (TopLevel(d[i + 1..]) || ValidDomain(d[i + 1..]))
  }

  /** The schema's e-mail check. */
  predicate IsSchemaEmail(s: string)
  {
    var at := IndexOf(s, '@');
    at >= 0 && ValidLocal(s[..at]) && ValidDomain(s[at + 1..])
  }

  /** A valid domain holds no white space and no `@`, contains a dot that
      is neither its first nor its last character. */
  lemma {:induction false} DomainShape(d: string)
    requires ValidDomain(d)
    ensures SendOtp.AllPlain(d)
    ensures '.' in d[1..|d| - 1]
    decreases |d|
  {
    var i := IndexOf(d, '.');
    var head := d[..i];
    var rest := d[i + 1..];
    if !TopLevel(rest) {
      DomainShape(rest);
    }
    assert |rest| >= 2;
    forall k | 0 <= k < |d| ensures SendOtp.Plain(d[k]) {
      if k < i {
        assert d[k] == head[k];
      } else if k > i {
        assert d[k] == rest[k - i - 1];
      }
    }
    assert d[1..|d| - 1][i - 1] == '.';
  }

  /** Every address the sign-in schema accepts also passes the check the
      login-code route applies. */
  lemma SchemaEmailPassesRouteCheck(s: string)
    requires IsSchemaEmail(s)
    ensures SendOtp.IsValidEmail(s)
  {
    var at := IndexOf(s, '@');
    var local := s[..at];
    var dom := s[at + 1..];
    DomainShape(dom);
    forall k | 0 <= k < |local| ensures SendOtp.Plain(local[k]) {
      assert LocalChar(local[k]);
    }
    assert s[at + 2..|s| - 1] == dom[1..|dom| - 1];
  }

  /** How access was granted. */
  datatype Via = ByPassword | BySecondFactor | ByEmailCode

  datatype Outcome = Denied | Granted(user: User, via: Via)

  datatype Result = Result(outcome: Outcome, db: Snapshot)

  /** The lookup of verified rows of `user` carrying `secret`. */
  function VerifiedCode(userId: string, secret: string): Query
  {
    Query(Some(userId), Some(secret), Some(true))
  }

  /** `getUser`: the user whose e-mail equals the input exactly. */
  function GetUser(s: Snapshot, email: string): (r: Option<User>)
    ensures r.Some? <==> exists i :: 0 <= i < |s.users| && s.users[i].email == email
    ensures r.Some? ==> r.value.email == email
  {
    var at := FindUser(s.users, ByEmail(email));
    if at.None? then None else Some(s.users[at.value])
  }

  /** The whole check. `compare` stands for bcrypt's comparison of the
      secret with the stored hash. */
  function Authorize(s: Snapshot, email: string, secret: string, compare: (string, string) -> bool, now: int): Result
    requires Valid(s)
  {
    if !IsSchemaEmail(email) || |secret| < MinSecret then Result(Denied, s)
    else
      var found := GetUser(s, email);
      if found.None? then Result(Denied, s)
      else
        var user := found.value;
        if compare(secret, user.passwordHash) then Result(Granted(user, ByPassword), s)
        else
          var tf := FindFirst(s.twoFactor, VerifiedCode(user.id, secret), s.nextId);
          if tf.Some? && now - s.twoFactor[tf.value].createdAt < TwoFactorWindow then
            Result(Granted(user, BySecondFactor), s.(twoFactor := s.twoFactor - {tf.value}))
          else
            var ev := FindFirst(s.emailTokens, VerifiedCode(user.id, secret), s.nextId);
            if ev.Some? && now - s.emailTokens[ev.value].createdAt < EmailCodeWindow then
              Result(Granted(user, ByEmailCode), s.(emailTokens := s.emailTokens - {ev.value}))
            else Result(Denied, s)
  }

  /** The provider's `authorize` callback over the database object. */
  method AuthorizeCredentials(db: Db, email: string, secret: string, compare: (string, string) -> bool, now: int)
      returns (o: Outcome)
    requires Valid(db.Snap())
    modifies db
    ensures Result(o, db.Snap()) == Authorize(old(db.Snap()), email, secret, compare, now)
  {
    if !IsSchemaEmail(email) || |secret| < MinSecret {
      return Denied;
    }
    var at := db.FindUserRow(ByEmail(email));
    if at.None? {
      return Denied;
    }
    var user := db.users[at.value];
    if compare(secret, user.passwordHash) {
      return Granted(user, ByPassword);
    }
    var tf := db.FindFirstRow(TwoFactor, VerifiedCode(user.id, secret));
    if tf.Some? && now - db.twoFactor[tf.value].createdAt < TwoFactorWindow {
      db.Delete(TwoFactor, tf.value);
      return Granted(user, BySecondFactor);
    }
    var ev := db.FindFirstRow(EmailCheck, VerifiedCode(user.id, secret));
    if ev.Some? && now - db.emailTokens[ev.value].createdAt < EmailCodeWindow {
      db.Delete(EmailCheck, ev.value);
      return Granted(user, ByEmailCode);
    }
    return Denied;
  }

  /** Malformed credentials are denied before any lookup. */
  lemma MalformedDenied(s: Snapshot, email: string, secret: string, compare: (string, string) -> bool, now: int)
    requires Valid(s) && (!IsSchemaEmail(email) || |secret| < MinSecret)
    ensures Authorize(s, email, secret, compare, now) == Result(Denied, s)
  {
  }

  /** The e-mail is matched exactly, with no case folding: the granted user
      carries the very address given, and an address no user has is
      denied. */
  lemma ExactEmail(s: Snapshot, email: string, secret: string, compare: (string, string) -> bool, now: int)
    requires Valid(s)
    ensures var r := Authorize(s, email, secret, compare, now);
            && (r.outcome.Granted? ==> r.outcome.user.email == email && r.outcome.user in s.users)
            && ((forall i :: 0 <= i < |s.users| ==> s.users[i].email != email) ==> r == Result(Denied, s))
  {
  }

  /** The first check that succeeds wins, in the order password, second
      factor, e-mail code; a password sign-in changes nothing, a code
      sign-in deletes exactly the row it used, and a denial changes
      nothing. */
  lemma FirstCheckWins(s: Snapshot, email: string, secret: string, compare: (string, string) -> bool, now: int)
    requires Valid(s) && IsSchemaEmail(email) && |secret| >= MinSecret && GetUser(s, email).Some?
    ensures var r := Authorize(s, email, secret, compare, now);
            var user := GetUser(s, email).value;
            var tf := FindFirst(s.twoFactor, VerifiedCode(user.id, secret), s.nextId);
            var ev := FindFirst(s.emailTokens, VerifiedCode(user.id, secret), s.nextId);
            var tfOk := tf.Some? && now - s.twoFactor[tf.value].createdAt < TwoFactorWindow;
            var evOk := ev.Some? && now - s.emailTokens[ev.value].createdAt < EmailCodeWindow;
            && (r.outcome == Granted(user, ByPassword) <==> compare(secret, user.passwordHash))
            && (r.outcome == Granted(user, BySecondFactor) <==> !compare(secret, user.passwordHash) && tfOk)
            && (r.outcome == Granted(user, ByEmailCode) <==> !compare(secret, user.passwordHash) && !tfOk && evOk)
            && (r.outcome == Denied <==> !compare(secret, user.passwordHash) && !tfOk && !evOk)
            && (r.outcome == Granted(user, ByPassword) || r.outcome == Denied ==> r.db == s)
            && (r.outcome == Granted(user, BySecondFactor) ==> r.db == s.(twoFactor := s.twoFactor - {tf.value}))
            && (r.outcome == Granted(user, ByEmailCode) ==> r.db == s.(emailTokens := s.emailTokens - {ev.value}))
  {
  }

  /** `authorize` never deletes an unverified row or one older than its
      window, and changes nothing but the token tables. */
  lemma StaleAndUnverifiedRowsStay(s: Snapshot, email: string, secret: string, compare: (string, string) -> bool, now: int)
    requires Valid(s)
    ensures var r := Authorize(s, email, secret, compare, now);
            && r.db.users == s.users && r.db.otps == s.otps && r.db.nextId == s.nextId
            && (forall k :: k in s.twoFactor && (!s.twoFactor[k].verified || now - s.twoFactor[k].createdAt >= TwoFactorWindow)
                  ==> k in r.db.twoFactor && r.db.twoFactor[k] == s.twoFactor[k])
            && (forall k :: k in s.emailTokens && (!s.emailTokens[k].verified || now - s.emailTokens[k].createdAt >= EmailCodeWindow)
                  ==> k in r.db.emailTokens && r.db.emailTokens[k] == s.emailTokens[k])
  {
    var r := Authorize(s, email, secret, compare, now);
    if IsSchemaEmail(email) && |secret| >= MinSecret && GetUser(s, email).Some? {
      FirstCheckWins(s, email, secret, compare, now);
    }
  }

  /** A code works for one sign-in: with one row per user in each table, a
      second attempt with the same secret, at the same time or later, never
      succeeds through the table whose row the first one consumed, nor
      through an earlier one; so once a code has been used only the
      password can sign in with that secret again. */
  lemma CodeWorksOnce(s: Snapshot, email: string, secret: string, compare: (string, string) -> bool, now: int, later: int)
    requires Valid(s) && SingleActive(s) && now <= later
    requires Authorize(s, email, secret, compare, now).outcome.Granted?
    requires Authorize(s, email, secret, compare, now).outcome.via != ByPassword
    ensures Valid(Authorize(s, email, secret, compare, now).db)
    ensures var r := Authorize(s, email, secret, compare, now);
            var r2 := Authorize(r.db, email, secret, compare, later);
            r2.outcome.Granted? ==> r2.outcome.via == ByPassword ||
                                    (r.outcome.via == BySecondFactor && r2.outcome.via == ByEmailCode)
  {
    var r := Authorize(s, email, secret, compare, now);
    var user := GetUser(s, email).value;
    var q := VerifiedCode(user.id, secret);
    if r.outcome.via == BySecondFactor {
      var id := FindFirst(s.twoFactor, q, s.nextId).value;
      RemoveInSpec(s, TwoFactor, id);
      assert FindFirst(r.db.twoFactor, q, r.db.nextId).None?;
    } else {
      var ev := FindFirst(s.emailTokens, q, s.nextId).value;
      RemoveInSpec(s, EmailCheck, ev);
      assert FindFirst(r.db.emailTokens, q, r.db.nextId).None?;
      assert r.db.twoFactor == s.twoFactor;
    }
  }
}
