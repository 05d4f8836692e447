/** `POST /api/auth/verify-otp`: check a submitted login code against the
    newest unverified code of the (lower-cased) address, then find or create
    the user and route them to e-mail verification, to the second factor, or
    straight to sign-in. */
module VerifyOtp {
  import opened Common
  import opened Tokens
  import opened Store

  const MaxAttempts: int := 5
  const EmailTokenTtl: int := 15 * 60 * 1000
  const TwoFactorTtl: int := 10 * 60 * 1000

  datatype Outcome =
    | MissingFields
    | NoCode
    | CodeExpired
    | AttemptsExceeded
    | InvalidCode
    | NeedsVerification(userId: string, email: string, isNewUser: bool)
    | NeedsSecondFactor(userId: string)
    | SignedIn(userId: string)

  function Status(o: Outcome): int
  {
    match o
    case MissingFields => 400
    case NoCode => 404
    case CodeExpired => 400
    case AttemptsExceeded => 400
    case InvalidCode => 400
    case _ => 200
  }

  predicate Accepted(o: Outcome)
  {
    o.NeedsVerification? || o.NeedsSecondFactor? || o.SignedIn?
  }

  /** What the checks decide for the row found, in the order the route runs them. */
  datatype Verdict = Stale | Spent | Mismatch | Match

  function Judge(t: Token, code: string, now: int): Verdict
  {
    if now > t.expiresAt then Stale
    else if t.attempts >= MaxAttempts then Spent
    else if t.code != code then Mismatch
    else Match
  }

  /** The row lookup: the address's newest code not yet verified. */
  function PendingFor(key: string): Query
  {
    Query(Some(key), None, Some(false))
  }

  /** `email.split('@')[0]`, the name given to a new user: the part before
      the first `@`, or all of it. */
  function NameOf(email: string): (name: string)
    ensures '@' !in name && StartsWith(email, name)
  {
    var i := IndexOf(email, '@');
    if i < 0 then email else email[..i]
  }

  /** ... which is the first piece of splitting on `@`. */
  lemma NameOfIsFirstPiece(email: string)
    ensures NameOf(email) == Split(email, '@')[0]
  {
  }

  /** A user created on first sign-in; role and 2FA flag take the column
      defaults. */
  function NewUser(id: string, key: string, email: string, hash: string): User
  {
    User(id, key, NameOf(email), hash, "USER", false, false, None)
  }

  datatype Result = Result(outcome: Outcome, db: Snapshot)

  /** After the code is consumed: find or create the user, then branch. */
  function Admit(s: Snapshot, key: string, email: string, newId: string, hash: string, token: nat, now: int): Result
  {
    var at := FindUser(s.users, ByEmail(key));
    var isNew := at.None?;
    var user := if isNew then NewUser(newId, key, email, hash) else s.users[at.value];
    var s1 := if isNew then s.(users := s.users + [user]) else s;
    if !user.emailVerified then
      Result(NeedsVerification(user.id, user.email, isNew),
             IssueIn(s1, EmailCheck, user.id, NatToString(token), now, EmailTokenTtl))
    else if user.twoFactorEnabled then
      Result(NeedsSecondFactor(user.id), IssueIn(s1, TwoFactor, user.id, NatToString(token), now, TwoFactorTtl))
    else
      Result(SignedIn(user.id), s1)
  }

  /** The whole request. `newId` and `hash` stand for the id and the hashed
      random password a new user would get, `token` for the random number. */
  function Post(s: Snapshot, email: string, code: string, now: int, newId: string, hash: string, token: nat): Result
    requires Valid(s)
  {
    if email == "" || code == "" then Result(MissingFields, s)
    else
      var key := ToLower(email);
      var found := FindNewest(s.otps, PendingFor(key), s.nextId);
      if found.None? then Result(NoCode, s)
      else
        var id := found.value;
        var t := s.otps[id];
        match Judge(t, code, now)
        case Stale => Result(CodeExpired, s.(otps := s.otps - {id}))
        case Spent => Result(AttemptsExceeded, s.(otps := s.otps - {id}))
        case Mismatch => Result(InvalidCode, s.(otps := s.otps[id := t.(attempts := t.attempts + 1)]))
        case Match => Admit(s.(otps := s.otps - {id}), key, email, newId, hash, token, now)
  }

  /** The route handler. */
  method HandlePost(db: Db, email: string, code: string, now: int, newId: string, hash: string, token: nat)
      returns (o: Outcome)
    requires Valid(db.Snap())
    requires 100000 <= token < 999999
    modifies db
    ensures Result(o, db.Snap()) == Post(old(db.Snap()), email, code, now, newId, hash, token)
  {
    if email == "" || code == "" {
      return MissingFields;
    }
    var key := ToLower(email);
    var found := db.FindNewestRow(LoginCode, PendingFor(key));
    if found.None? {
      return NoCode;
    }
    var id := found.value;
    var otp := db.otps[id];
    if now > otp.expiresAt {
      db.Delete(LoginCode, id);
      return CodeExpired;
    }
    if otp.attempts >= MaxAttempts {
      db.Delete(LoginCode, id);
      return AttemptsExceeded;
    }
    if otp.code != code {
      db.Update(LoginCode, id, otp.(attempts := otp.attempts + 1));
      return InvalidCode;
    }
    db.Delete(LoginCode, id);

    var at := db.FindUserRow(ByEmail(key));
    var isNewUser := false;
    var user: User;
    if at.None? {
      user := NewUser(newId, key, email, hash);
      db.CreateUser(user);
      isNewUser := true;
    } else {
      user := db.users[at.value];
    }

    if !user.emailVerified {
      db.DeleteMany(EmailCheck, BySubject(user.id));
      var _ := db.Create(EmailCheck, user.id, NatToString(token), now, EmailTokenTtl);
      return NeedsVerification(user.id, user.email, isNewUser);
    }
    if user.twoFactorEnabled {
      db.DeleteMany(TwoFactor, BySubject(user.id));
      var _ := db.Create(TwoFactor, user.id, NatToString(token), now, TwoFactorTtl);
      return NeedsSecondFactor(user.id);
    }
    return SignedIn(user.id);
  }

  /** A request without an address or without a code changes nothing. */
  lemma MissingFieldsChangeNothing(s: Snapshot, email: string, code: string, now: int, newId: string, hash: string, token: nat)
    requires Valid(s) && (email == "" || code == "")
    ensures Post(s, email, code, now, newId, hash, token) == Result(MissingFields, s)
  {
  }

  /** 404 exactly when the lower-cased address has no unverified code, and
      then nothing changes. */
  lemma NoCodeIffNoPendingRow(s: Snapshot, email: string, code: string, now: int, newId: string, hash: string, token: nat)
    requires Valid(s) && email != "" && code != ""
    ensures var r := Post(s, email, code, now, newId, hash, token);
            r.outcome == NoCode <==> forall k :: k in s.otps ==> !Matches(s.otps[k], PendingFor(ToLower(email)))
    ensures var r := Post(s, email, code, now, newId, hash, token);
            r.outcome == NoCode ==> r.db == s
  {
    var r := Post(s, email, code, now, newId, hash, token);
    var found := FindNewest(s.otps, PendingFor(ToLower(email)), s.nextId);
    if found.Some? {
      assert r.outcome != NoCode by {
        var t := s.otps[found.value];
        match Judge(t, code, now)
        case Match => assert Accepted(Admit(s.(otps := s.otps - {found.value}), ToLower(email), email, newId, hash, token, now).outcome);
        case _ =>
      }
    }
  }

  /** The checks run in order — expiry, then the attempt cap, then the code —
      and each failure has its own effect: the first two delete the row, a
      wrong code only counts an attempt on it. */
  lemma ChecksInOrder(s: Snapshot, email: string, code: string, now: int, newId: string, hash: string, token: nat, id: nat)
    requires Valid(s) && email != "" && code != ""
    requires FindNewest(s.otps, PendingFor(ToLower(email)), s.nextId) == Some(id)
    ensures var r := Post(s, email, code, now, newId, hash, token);
            var t := s.otps[id];
            && (r.outcome == CodeExpired <==> now > t.expiresAt)
            && (r.outcome == AttemptsExceeded <==> now <= t.expiresAt && t.attempts >= MaxAttempts)
            && (r.outcome == InvalidCode <==> now <= t.expiresAt && t.attempts < MaxAttempts && t.code != code)
            && (Accepted(r.outcome) <==> now <= t.expiresAt && t.attempts < MaxAttempts && t.code == code)
            && (r.outcome == CodeExpired || r.outcome == AttemptsExceeded ==> r.db == s.(otps := s.otps - {id}))
            && (r.outcome == InvalidCode ==> r.db == s.(otps := s.otps[id := t.(attempts := t.attempts + 1)]))
  {
    var t := s.otps[id];
    if Judge(t, code, now) == Match {
      assert Accepted(Admit(s.(otps := s.otps - {id}), ToLower(email), email, newId, hash, token, now).outcome);
    }
  }

  /** A wrong code never consumes the row: it stays, still the newest
      unverified one, with one more attempt, and nothing else changes. */
  lemma WrongCodeKeepsRow(s: Snapshot, email: string, code: string, now: int, newId: string, hash: string, token: nat, id: nat)
    requires Valid(s) && email != "" && code != ""
    requires FindNewest(s.otps, PendingFor(ToLower(email)), s.nextId) == Some(id)
    requires Post(s, email, code, now, newId, hash, token).outcome == InvalidCode
    ensures var r := Post(s, email, code, now, newId, hash, token);
            && Valid(r.db)
            && r.db.otps.Keys == s.otps.Keys
            && r.db.otps[id] == s.otps[id].(attempts := s.otps[id].attempts + 1)
            && FindNewest(r.db.otps, PendingFor(ToLower(email)), r.db.nextId) == Some(id)
            && r.db.users == s.users && r.db.twoFactor == s.twoFactor && r.db.emailTokens == s.emailTokens
  {
    ChecksInOrder(s, email, code, now, newId, hash, token, id);
    var t := s.otps[id];
    UpdateKeepsNewest(s.otps, PendingFor(ToLower(email)), s.nextId, id, t.(attempts := t.attempts + 1));
  }

  /** Successive submissions for one address at `times`, with the same random
      inputs; gives the outcomes. */
  function Outcomes(s: Snapshot, email: string, codes: seq<string>, times: seq<int>,
                    newId: string, hash: string, token: nat): seq<Outcome>
    requires Valid(s) && |codes| == |times|
    decreases |codes|
  {
    if codes == [] then []
    else
      var r := Post(s, email, codes[0], times[0], newId, hash, token);
      if !Valid(r.db) then [r.outcome]
      else [r.outcome] + Outcomes(r.db, email, codes[1..], times[1..], newId, hash, token)
  }

  /** From a pending row with `a` attempts, the `5 - a` wrong codes
      submitted before its expiry are each answered 400, and the submission
      after them fails with "too many attempts" whatever code it carries. */
  lemma {:induction false} WrongCodesThenLocked(s: Snapshot, email: string, wrong: seq<string>, last: string,
                                                times: seq<int>, newId: string, hash: string, token: nat, id: nat)
    requires Valid(s) && email != "" && last != "" && |times| == |wrong| + 1
    requires FindNewest(s.otps, PendingFor(ToLower(email)), s.nextId) == Some(id)
    requires s.otps[id].attempts + |wrong| == MaxAttempts
    requires forall i :: 0 <= i < |wrong| ==> wrong[i] != "" && wrong[i] != s.otps[id].code
    requires forall i :: 0 <= i < |times| ==> times[i] <= s.otps[id].expiresAt
    ensures Outcomes(s, email, wrong + [last], times, newId, hash, token)
            == seq(|wrong|, _ => InvalidCode) + [AttemptsExceeded]
    decreases |wrong|
  {
    var codes := wrong + [last];
    var r := Post(s, email, codes[0], times[0], newId, hash, token);
    ChecksInOrder(s, email, codes[0], times[0], newId, hash, token, id);
    if wrong == [] {
      assert r.db == s.(otps := s.otps - {id});
      assert Valid(r.db);
      assert codes[1..] == [] && times[1..] == [];
    } else {
      var t := s.otps[id];
      WrongCodeKeepsRow(s, email, codes[0], times[0], newId, hash, token, id);
      assert r.db.otps[id].code == t.code && r.db.otps[id].expiresAt == t.expiresAt;
      var wrong' := wrong[1..];
      var times' := times[1..];
      assert forall i :: 0 <= i < |wrong'| ==> wrong'[i] == wrong[i + 1];
      assert forall i :: 0 <= i < |times'| ==> times'[i] == times[i + 1];
      assert codes[1..] == wrong' + [last];
      WrongCodesThenLocked(r.db, email, wrong', last, times', newId, hash, token, id);
      assert seq(|wrong|, _ => InvalidCode) == [InvalidCode] + seq(|wrong'|, _ => InvalidCode);
    }
  }

  /** Attempt exhaustion: after five wrong codes the sixth submission fails
      with "too many attempts" even when it carries the right code. */
  lemma FiveWrongCodesLockOut(s: Snapshot, email: string, wrong: seq<string>, times: seq<int>,
                              newId: string, hash: string, token: nat, id: nat)
    requires Valid(s) && email != "" && |wrong| == 5 && |times| == 6
    requires FindNewest(s.otps, PendingFor(ToLower(email)), s.nextId) == Some(id)
    requires s.otps[id].attempts == 0 && s.otps[id].code != ""
    requires forall i :: 0 <= i < 5 ==> wrong[i] != "" && wrong[i] != s.otps[id].code
    requires forall i :: 0 <= i < 6 ==> times[i] <= s.otps[id].expiresAt
    ensures Outcomes(s, email, wrong + [s.otps[id].code], times, newId, hash, token)
            == [InvalidCode, InvalidCode, InvalidCode, InvalidCode, InvalidCode, AttemptsExceeded]
  {
    WrongCodesThenLocked(s, email, wrong, s.otps[id].code, times, newId, hash, token, id);
    assert seq(5, _ => InvalidCode) == [InvalidCode, InvalidCode, InvalidCode, InvalidCode, InvalidCode];
  }

  /** An accepted code is consumed: its row is deleted. */
  lemma AcceptedCodeIsConsumed(s: Snapshot, email: string, code: string, now: int, newId: string, hash: string, token: nat, id: nat)
    requires Valid(s) && email != "" && code != ""
    requires FindNewest(s.otps, PendingFor(ToLower(email)), s.nextId) == Some(id)
    requires Accepted(Post(s, email, code, now, newId, hash, token).outcome)
    ensures id !in Post(s, email, code, now, newId, hash, token).db.otps
  {
  }

  /** The user branch. An unknown address gets a new, unverified user named
      after the part before the `@`; an unverified user gets exactly one
      fresh 15-minute e-mail token and no 2FA token; a verified user with 2FA
      gets exactly one fresh 10-minute 2FA token; anyone else is signed in
      with no further change. */
  lemma AdmitBranches(s: Snapshot, key: string, email: string, newId: string, hash: string, token: nat, now: int)
    requires Valid(s) && FindUser(s.users, ById(newId)).None?
    ensures var r := Admit(s, key, email, newId, hash, token, now);
            var at := FindUser(s.users, ByEmail(key));
            && Valid(r.db) && (SingleActive(s) ==> SingleActive(r.db))
            && r.db.otps == s.otps
            && (at.None? ==> r.db.users == s.users + [NewUser(newId, key, email, hash)]
                             && r.outcome == NeedsVerification(newId, key, true))
            && (at.Some? ==> r.db.users == s.users)
            && (r.outcome.NeedsVerification? ==>
                  && RowsOf(r.db.emailTokens, r.outcome.userId) == {s.nextId}
                  && r.db.emailTokens[s.nextId].expiresAt == now + EmailTokenTtl
                  && r.db.twoFactor == s.twoFactor)
            && (r.outcome.NeedsSecondFactor? ==>
                  && at.Some? && s.users[at.value].emailVerified && s.users[at.value].twoFactorEnabled
                  && RowsOf(r.db.twoFactor, r.outcome.userId) == {s.nextId}
                  && r.db.twoFactor[s.nextId].expiresAt == now + TwoFactorTtl
                  && r.db.emailTokens == s.emailTokens)
            && (at.Some? && !s.users[at.value].emailVerified ==>
                  r.outcome == NeedsVerification(s.users[at.value].id, s.users[at.value].email, false))
            && (at.Some? && s.users[at.value].emailVerified && s.users[at.value].twoFactorEnabled ==>
                  r.outcome == NeedsSecondFactor(s.users[at.value].id))
            && (r.outcome.NeedsVerification? <==> at.None? || !s.users[at.value].emailVerified)
            && (r.outcome.NeedsSecondFactor? <==>
                  at.Some? && s.users[at.value].emailVerified && s.users[at.value].twoFactorEnabled)
            && (r.outcome.SignedIn? <==>
                  at.Some? && s.users[at.value].emailVerified && !s.users[at.value].twoFactorEnabled)
            && (r.outcome.SignedIn? ==> r.db == s)
  {
    var at := FindUser(s.users, ByEmail(key));
    var user := if at.None? then NewUser(newId, key, email, hash) else s.users[at.value];
    var s1 := if at.None? then s.(users := s.users + [user]) else s;
    if at.None? {
      assert forall i :: 0 <= i < |s.users| ==> s.users[i].id != newId && s.users[i].email != key;
    }
    assert Valid(s1);
    IssueInSpec(s1, EmailCheck, user.id, NatToString(token), now, EmailTokenTtl);
    IssueInSpec(s1, TwoFactor, user.id, NatToString(token), now, TwoFactorTtl);
  }

  /** Every request keeps the database valid (given a fresh id for a new
      user) and keeps every token table single-active. */
  lemma PostKeepsInvariants(s: Snapshot, email: string, code: string, now: int, newId: string, hash: string, token: nat)
    requires Valid(s) && FindUser(s.users, ById(newId)).None?
    ensures Valid(Post(s, email, code, now, newId, hash, token).db)
    ensures SingleActive(s) ==> SingleActive(Post(s, email, code, now, newId, hash, token).db)
  {
    if email != "" && code != "" {
      var key := ToLower(email);
      var found := FindNewest(s.otps, PendingFor(key), s.nextId);
      if found.Some? {
        var id := found.value;
        var t := s.otps[id];
        var r := Post(s, email, code, now, newId, hash, token);
        var s1 := s.(otps := s.otps - {id});
        assert s1 == WithTable(s, LoginCode, TableOf(s, LoginCode) - {id});
        match Judge(t, code, now)
        case Stale =>
          assert r.db == s1;
          RemoveInSpec(s, LoginCode, id);
        case Spent =>
          assert r.db == s1;
          RemoveInSpec(s, LoginCode, id);
        case Mismatch =>
          var t' := t.(attempts := t.attempts + 1);
          assert r.db == WithTable(s, LoginCode, TableOf(s, LoginCode)[id := t']);
          UpdateInSpec(s, LoginCode, id, t');
        case Match =>
          assert r == Admit(s1, key, email, newId, hash, token, now);
          RemoveInSpec(s, LoginCode, id);
          assert FindUser(s1.users, ById(newId)).None?;
          AdmitBranches(s1, key, email, newId, hash, token, now);
      }
    }
  }
}
