/** `POST /api/auth/2fa/toggle`: the signed-in user switches their second
    factor on or off; switching it off deletes their pending codes. */
module TwoFactorToggle {
  import opened Common
  import opened Tokens
  import opened Store

  /** `ServerError` is the catch-all answer to `user.update` failing on a
      session id with no user row. */
  datatype Outcome = Unauthorized | InvalidValue | ServerError | Toggled(enabled: bool)

  function Status(o: Outcome): int
  {
    match o
    case Unauthorized => 401
    case InvalidValue => 400
    case ServerError => 500
    case Toggled(_) => 200
  }

  datatype Result = Result(outcome: Outcome, db: Snapshot)

  /** `sessionUserId` is `""` without a session; `enabled` is `None` when the
      body's field is not a boolean. */
  function Post(s: Snapshot, sessionUserId: string, enabled: Option<bool>): Result
  {
    if sessionUserId == "" then Result(Unauthorized, s)
    else if enabled.None? then Result(InvalidValue, s)
    else
      var at := FindUser(s.users, ById(sessionUserId));
      if at.None? then Result(ServerError, s)
      else
        var on := enabled.value;
        var s1 := s.(users := s.users[at.value := s.users[at.value].(twoFactorEnabled := on)]);
        var s2 := if on then s1 else s1.(twoFactor := DeleteWhere(s1.twoFactor, BySubject(sessionUserId)));
        Result(Toggled(on), s2)
  }

  method HandlePost(db: Db, sessionUserId: string, enabled: Option<bool>) returns (o: Outcome)
    modifies db
    ensures Result(o, db.Snap()) == Post(old(db.Snap()), sessionUserId, enabled)
  {
    if sessionUserId == "" {
      return Unauthorized;
    }
    if enabled.None? {
      return InvalidValue;
    }
    var at := db.FindUserRow(ById(sessionUserId));
    if at.None? {
      return ServerError;
    }
    var on := enabled.value;
    db.UpdateUser(at.value, db.users[at.value].(twoFactorEnabled := on));
    if !on {
      db.DeleteMany(TwoFactor, BySubject(sessionUserId));
    }
    return Toggled(on);
  }

  /** A request is carried out exactly when it has a session for an
      existing user and a boolean; then the user's flag is the value sent,
      echoed back, every other user and column is unchanged, switching off
      leaves the user no second-factor rows, switching on leaves the table
      as it was, and other users' rows always stay. Otherwise nothing
      changes. */
  lemma ToggleSpec(s: Snapshot, sessionUserId: string, enabled: Option<bool>)
    requires Valid(s)
    ensures var r := Post(s, sessionUserId, enabled);
            var at := FindUser(s.users, ById(sessionUserId));
            && (r.outcome.Toggled? <==> sessionUserId != "" && enabled.Some? && at.Some?)
            && (!r.outcome.Toggled? ==> r.db == s)
            && (r.outcome.Toggled? ==>
                  && r.outcome.enabled == enabled.value
                  && Valid(r.db) && (SingleActive(s) ==> SingleActive(r.db))
                  && |r.db.users| == |s.users|
                  && r.db.users[at.value] == s.users[at.value].(twoFactorEnabled := enabled.value)
                  && (forall i :: 0 <= i < |s.users| && i != at.value ==> r.db.users[i] == s.users[i])
                  && r.db.otps == s.otps && r.db.emailTokens == s.emailTokens
                  && (enabled.value ==> r.db.twoFactor == s.twoFactor)
                  && (!enabled.value ==> RowsOf(r.db.twoFactor, sessionUserId) == {})
                  && (forall k :: k in s.twoFactor && s.twoFactor[k].subject != sessionUserId ==>
                        k in r.db.twoFactor && r.db.twoFactor[k] == s.twoFactor[k]))
  {
    var r := Post(s, sessionUserId, enabled);
    var at := FindUser(s.users, ById(sessionUserId));
    if r.outcome.Toggled? {
      var s1 := s.(users := s.users[at.value := s.users[at.value].(twoFactorEnabled := enabled.value)]);
      assert UsersWellFormed(s1.users);
      DeleteInSpec(s1, TwoFactor, BySubject(sessionUserId));
    }
  }

  /** Sending the same value twice is the same as sending it once. */
  lemma ToggleIdempotent(s: Snapshot, sessionUserId: string, enabled: Option<bool>)
    requires Valid(s)
    ensures var r := Post(s, sessionUserId, enabled);
            Post(r.db, sessionUserId, enabled) == r.(outcome := Post(r.db, sessionUserId, enabled).outcome)
  {
    var r := Post(s, sessionUserId, enabled);
    var at := FindUser(s.users, ById(sessionUserId));
    if r.outcome.Toggled? {
      ToggleSpec(s, sessionUserId, enabled);
      FindUserUnique(r.db.users, ById(sessionUserId), at.value);
      var r2 := Post(r.db, sessionUserId, enabled);
      assert r2.db.users == r.db.users;
      if !enabled.value {
        assert DeleteWhere(r.db.twoFactor, BySubject(sessionUserId)) == r.db.twoFactor;
      }
    }
  }

  /** A user who has switched 2FA off has no second-factor code to submit. */
  lemma DisabledUserHasNoCodes(s: Snapshot, sessionUserId: string)
    requires Valid(s)
    ensures var r := Post(s, sessionUserId, Some(false));
            r.outcome.Toggled? ==> forall k :: k in r.db.twoFactor ==> r.db.twoFactor[k].subject != sessionUserId
  {
    ToggleSpec(s, sessionUserId, Some(false));
    var r := Post(s, sessionUserId, Some(false));
    if r.outcome.Toggled? {
      forall k | k in r.db.twoFactor ensures r.db.twoFactor[k].subject != sessionUserId {
        assert k !in RowsOf(r.db.twoFactor, sessionUserId);
      }
    }
  }
}
