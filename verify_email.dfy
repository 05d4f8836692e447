/** `/api/auth/verify-email`. `GET` follows a mailed link carrying a code:
    it verifies the owner's address and deletes the code. `POST` takes a
    user id and a typed code: it verifies the address and only MARKS the
    code verified, so that it can serve once more as a sign-in secret. */
module VerifyEmail {
  import opened Common
  import opened Tokens
  import opened Store

  /** `ServerError` is the catch-all answer to reading or updating an owner
      row that does not exist. */
  datatype LinkOutcome = MissingToken | UnknownToken | LinkExpired | AlreadyVerified | LinkServerError | EmailVerified(email: string)

  datatype CodeOutcome = MissingFields | InvalidCode | CodeExpired | CodeServerError | Confirmed(userId: string, email: string)

  function LinkStatus(o: LinkOutcome): int
  {
    match o
    case LinkServerError => 500
    case EmailVerified(_) => 200
    case _ => 400
  }

  function CodeStatus(o: CodeOutcome): int
  {
    match o
    case CodeServerError => 500
    case Confirmed(_, _) => 200
    case _ => 400
  }

  datatype LinkResult = LinkResult(outcome: LinkOutcome, db: Snapshot)
  datatype CodeResult = CodeResult(outcome: CodeOutcome, db: Snapshot)

  /** The link lookup, on the unique code column. */
  function ByCode(token: string): Query
  {
    Query(None, Some(token), None)
  }

  /** The typed-code lookup: the user's rows with that code, verified or not. */
  function ByUserCode(userId: string, token: string): Query
  {
    Query(Some(userId), Some(token), None)
  }

  /** The owner row marked verified at `now`. */
  function MarkVerified(u: User, now: int): User
  {
    u.(emailVerified := true, emailVerifiedAt := Some(now))
  }

  /** `GET ?token=`. */
  function Get(s: Snapshot, token: string, now: int): LinkResult
    requires Valid(s)
  {
    if token == "" then LinkResult(MissingToken, s)
    else
      var found := FindFirst(s.emailTokens, ByCode(token), s.nextId);
      if found.None? then LinkResult(UnknownToken, s)
      else
        var id := found.value;
        var t := s.emailTokens[id];
        var rest := s.(emailTokens := s.emailTokens - {id});
        if now > t.expiresAt then LinkResult(LinkExpired, rest)
        else
          var at := FindUser(s.users, ById(t.subject));
          if at.None? then LinkResult(LinkServerError, s)
          else
            var owner := s.users[at.value];
            if owner.emailVerified then LinkResult(AlreadyVerified, rest)
            else LinkResult(EmailVerified(owner.email), rest.(users := s.users[at.value := MarkVerified(owner, now)]))
  }

  /** `POST { userId, token }`. */
  function Post(s: Snapshot, userId: string, token: string, now: int): CodeResult
    requires Valid(s)
  {
    if userId == "" || token == "" then CodeResult(MissingFields, s)
    else
      var found := FindFirst(s.emailTokens, ByUserCode(userId, token), s.nextId);
      if found.None? then CodeResult(InvalidCode, s)
      else
        var id := found.value;
        var t := s.emailTokens[id];
        if now > t.expiresAt then CodeResult(CodeExpired, s.(emailTokens := s.emailTokens - {id}))
        else
          var at := FindUser(s.users, ById(t.subject));
          if at.None? then CodeResult(CodeServerError, s)
          else
            var owner := s.users[at.value];
            CodeResult(Confirmed(owner.id, owner.email),
                       s.(users := s.users[at.value := MarkVerified(owner, now)],
                          emailTokens := s.emailTokens[id := t.(verified := true)]))
  }

  method HandleGet(db: Db, token: string, now: int) returns (o: LinkOutcome)
    requires Valid(db.Snap())
    modifies db
    ensures LinkResult(o, db.Snap()) == Get(old(db.Snap()), token, now)
  {
    if token == "" {
      return MissingToken;
    }
    var found := db.FindFirstRow(EmailCheck, ByCode(token));
    if found.None? {
      return UnknownToken;
    }
    var id := found.value;
    var t := db.emailTokens[id];
    if now > t.expiresAt {
      db.Delete(EmailCheck, id);
      return LinkExpired;
    }
    var at := db.FindUserRow(ById(t.subject));
    if at.None? {
      return LinkServerError;
    }
    var owner := db.users[at.value];
    if owner.emailVerified {
      db.Delete(EmailCheck, id);
      return AlreadyVerified;
    }
    db.UpdateUser(at.value, MarkVerified(owner, now));
    db.Delete(EmailCheck, id);
    return EmailVerified(owner.email);
  }

  method HandlePost(db: Db, userId: string, token: string, now: int) returns (o: CodeOutcome)
    requires Valid(db.Snap())
    modifies db
    ensures CodeResult(o, db.Snap()) == Post(old(db.Snap()), userId, token, now)
  {
    if userId == "" || token == "" {
      return MissingFields;
    }
    var found := db.FindFirstRow(EmailCheck, ByUserCode(userId, token));
    if found.None? {
      return InvalidCode;
    }
    var id := found.value;
    var t := db.emailTokens[id];
    if now > t.expiresAt {
      db.Delete(EmailCheck, id);
      return CodeExpired;
    }
    var at := db.FindUserRow(ById(t.subject));
    if at.None? {
      return CodeServerError;
    }
    var owner := db.users[at.value];
    db.UpdateUser(at.value, MarkVerified(owner, now));
    db.Update(EmailCheck, id, t.(verified := true));
    return Confirmed(owner.id, owner.email);
  }

  /** The link checks in order: a code is required and must exist; an
      expired one is deleted; a code whose owner is already verified is
      deleted too; otherwise the owner is verified at `now` and the code
      deleted. The database stays valid and single-active throughout. */
  lemma GetSpec(s: Snapshot, token: string, now: int)
    requires Valid(s)
    ensures var r := Get(s, token, now);
            && Valid(r.db) && (SingleActive(s) ==> SingleActive(r.db))
            && (r.outcome == MissingToken <==> token == "")
            && (r.outcome == UnknownToken <==> token != "" && forall k :: k in s.emailTokens ==> s.emailTokens[k].code != token)
            && (r.outcome == MissingToken || r.outcome == UnknownToken || r.outcome == LinkServerError ==> r.db == s)
            && (r.outcome == LinkExpired || r.outcome == AlreadyVerified ==>
                  var id := FindFirst(s.emailTokens, ByCode(token), s.nextId).value;
                  r.db == s.(emailTokens := s.emailTokens - {id}))
            && (r.outcome.EmailVerified? ==>
                  var id := FindFirst(s.emailTokens, ByCode(token), s.nextId).value;
                  var at := FindUser(s.users, ById(s.emailTokens[id].subject)).value;
                  && now <= s.emailTokens[id].expiresAt && !s.users[at].emailVerified
                  && r.outcome.email == s.users[at].email
                  && r.db == s.(emailTokens := s.emailTokens - {id}, users := s.users[at := MarkVerified(s.users[at], now)]))
  {
    if token != "" {
      var found := FindFirst(s.emailTokens, ByCode(token), s.nextId);
      if found.Some? {
        RemoveInSpec(s, EmailCheck, found.value);
        var at := FindUser(s.users, ById(s.emailTokens[found.value].subject));
        if at.Some? {
          var u := s.users[at.value];
          assert UsersWellFormed(s.users[at.value := MarkVerified(u, now)]);
        }
      }
    }
  }

  /** A link works once: after it has verified the address, following it
      again finds no code, as long as no other row carries the same code. */
  lemma LinkWorksOnce(s: Snapshot, token: string, now: int, later: int)
    requires Valid(s) && Get(s, token, now).outcome.EmailVerified?
    requires forall a, b ::
               (a in s.emailTokens && b in s.emailTokens && s.emailTokens[a].code == token && s.emailTokens[b].code == token)
               ==> a == b
    ensures Valid(Get(s, token, now).db)
    ensures var r := Get(s, token, now);
            Get(r.db, token, later) == LinkResult(UnknownToken, r.db)
  {
    GetSpec(s, token, now);
    var r := Get(s, token, now);
    var id := FindFirst(s.emailTokens, ByCode(token), s.nextId).value;
    assert forall k :: k in r.db.emailTokens ==> k in s.emailTokens && k != id;
    GetSpec(r.db, token, later);
  }

  /** The typed-code checks in order: both fields are required; the user
      must hold a row with that code (verified or not); an expired row is
      deleted; otherwise the owner is verified at `now` and the row is
      kept, marked verified. */
  lemma PostSpec(s: Snapshot, userId: string, token: string, now: int)
    requires Valid(s)
    ensures var r := Post(s, userId, token, now);
            && Valid(r.db) && (SingleActive(s) ==> SingleActive(r.db))
            && (r.outcome == MissingFields <==> userId == "" || token == "")
            && (r.outcome == InvalidCode <==>
                  (userId != "" && token != "" &&
                   forall k :: k in s.emailTokens ==> !Matches(s.emailTokens[k], ByUserCode(userId, token))))
            && (r.outcome == MissingFields || r.outcome == InvalidCode || r.outcome == CodeServerError ==> r.db == s)
            && (r.outcome == CodeExpired ==>
                  var id := FindFirst(s.emailTokens, ByUserCode(userId, token), s.nextId).value;
                  now > s.emailTokens[id].expiresAt && r.db == s.(emailTokens := s.emailTokens - {id}))
            && (r.outcome.Confirmed? ==>
                  var id := FindFirst(s.emailTokens, ByUserCode(userId, token), s.nextId).value;
                  var at := FindUser(s.users, ById(userId)).value;
                  && now <= s.emailTokens[id].expiresAt
                  && r.outcome == Confirmed(userId, s.users[at].email)
                  && r.db == s.(users := s.users[at := MarkVerified(s.users[at], now)],
                                emailTokens := s.emailTokens[id := s.emailTokens[id].(verified := true)]))
  {
    if userId != "" && token != "" {
      var found := FindFirst(s.emailTokens, ByUserCode(userId, token), s.nextId);
      if found.Some? {
        var id := found.value;
        RemoveInSpec(s, EmailCheck, id);
        UpdateInSpec(s, EmailCheck, id, s.emailTokens[id].(verified := true));
        var at := FindUser(s.users, ById(userId));
        if at.Some? {
          var u := s.users[at.value];
          assert UsersWellFormed(s.users[at.value := MarkVerified(u, now)]);
        }
      }
    }
  }

  /** Repeating the typed code before it expires succeeds again, on the same
      row: only the verification time moves. */
  lemma PostRepeatable(s: Snapshot, userId: string, token: string, now: int, later: int)
    requires Valid(s) && Post(s, userId, token, now).outcome.Confirmed?
    requires later <= s.emailTokens[FindFirst(s.emailTokens, ByUserCode(userId, token), s.nextId).value].expiresAt
    ensures Valid(Post(s, userId, token, now).db)
    ensures var r := Post(s, userId, token, now);
            var r2 := Post(r.db, userId, token, later);
            var at := FindUser(s.users, ById(userId)).value;
            && r2.outcome == r.outcome
            && r2.db == r.db.(users := r.db.users[at := MarkVerified(s.users[at], later)])
  {
    PostSpec(s, userId, token, now);
    var r := Post(s, userId, token, now);
    var id := FindFirst(s.emailTokens, ByUserCode(userId, token), s.nextId).value;
    var at := FindUser(s.users, ById(userId)).value;
    UpdateKeepsFirst(s.emailTokens, ByUserCode(userId, token), s.nextId, id, s.emailTokens[id].(verified := true));
    FindUserUnique(r.db.users, ById(userId), at);
    PostSpec(r.db, userId, token, later);
    assert r.db.emailTokens[id := r.db.emailTokens[id].(verified := true)] == r.db.emailTokens;
  }
}
