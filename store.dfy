/** The database the identity routes work on: the user table and the three
    token tables, held by one object, with the handful of table operations
    the routes issue (`findUnique`, `findFirst`, `create`, `update`,
    `delete`, `deleteMany`). `Snapshot` is the object's state as a value;
    every route is specified as a function from one snapshot to the next. */
module Store {
  import opened Common
  import opened Tokens

  /** A user row. `passwordHash` is the stored bcrypt hash, compared only
      through an abstract `compare`. */
  datatype User = User(id: string, email: string, name: string, passwordHash: string, role: string,
                       twoFactorEnabled: bool, emailVerified: bool, emailVerifiedAt: Option<int>)

  /** Ids and e-mails are unique columns. */
  predicate UsersWellFormed(us: seq<User>)
  {
    forall i, j :: 0 <= i < |us| && 0 <= j < |us| && i != j ==>
      us[i].id != us[j].id && us[i].email != us[j].email
  }

  /** A `findUnique` key on the user table. */
  datatype UserKey = ById(id: string) | ByEmail(email: string)

  predicate HasKey(u: User, k: UserKey)
  {
    match k
    case ById(id) => u.id == id
    case ByEmail(e) => u.email == e
  }

  function FindUserFrom(us: seq<User>, k: UserKey, from: nat): (r: Option<nat>)
    requires from <= |us|
    ensures r.Some? ==> from <= r.value < |us| && HasKey(us[r.value], k)
    ensures r.Some? ==> forall i :: from <= i < r.value ==> !HasKey(us[i], k)
    ensures r.None? ==> forall i :: from <= i < |us| ==> !HasKey(us[i], k)
    decreases |us| - from
  {
    if from == |us| then None
    else if HasKey(us[from], k) then Some(from)
    else FindUserFrom(us, k, from + 1)
  }

  /** The position of the user with key `k`, if any. */
  function FindUser(us: seq<User>, k: UserKey): (r: Option<nat>)
    ensures r.Some? <==> exists i :: 0 <= i < |us| && HasKey(us[i], k)
    ensures r.Some? ==> r.value < |us| && HasKey(us[r.value], k)
  {
    FindUserFrom(us, k, 0)
  }

  /** On a well-formed table the position found is the only one with that key. */
  lemma FindUserUnique(us: seq<User>, k: UserKey, i: nat)
    requires UsersWellFormed(us) && i < |us| && HasKey(us[i], k)
    ensures FindUser(us, k) == Some(i)
  {
    var r := FindUser(us, k);
    assert r.Some?;
    assert HasKey(us[r.value], k);
  }

  datatype Purpose = LoginCode | TwoFactor | EmailCheck

  datatype Snapshot = Snapshot(users: seq<User>, otps: Table, twoFactor: Table, emailTokens: Table, nextId: nat)

  function TableOf(s: Snapshot, p: Purpose): Table
  {
    match p
    case LoginCode => s.otps
    case TwoFactor => s.twoFactor
    case EmailCheck => s.emailTokens
  }

  function WithTable(s: Snapshot, p: Purpose, t: Table): (r: Snapshot)
    ensures TableOf(r, p) == t
    ensures forall q :: q != p ==> TableOf(r, q) == TableOf(s, q)
    ensures r.users == s.users && r.nextId == s.nextId
  {
    match p
    case LoginCode => s.(otps := t)
    case TwoFactor => s.(twoFactor := t)
    case EmailCheck => s.(emailTokens := t)
  }

  /** Unique user columns, and every token id below the next one to hand out. */
  predicate Valid(s: Snapshot)
  {
    && UsersWellFormed(s.users)
    && KeysBelow(s.otps, s.nextId)
    && KeysBelow(s.twoFactor, s.nextId)
    && KeysBelow(s.emailTokens, s.nextId)
  }

  /** The single-active-token invariant, for all three tables. */
  ghost predicate SingleActive(s: Snapshot)
  {
    AtMostOnePerSubject(s.otps) && AtMostOnePerSubject(s.twoFactor) && AtMostOnePerSubject(s.emailTokens)
  }

  /** `deleteMany` on the subject's rows, then `create` of one fresh row. */
  function IssueIn(s: Snapshot, p: Purpose, subject: string, code: string, now: int, ttl: int): Snapshot
  {
    WithTable(s, p, Issue(TableOf(s, p), s.nextId, subject, code, now, ttl)).(nextId := s.nextId + 1)
  }

  /** Issuing keeps the snapshot valid and the tokens single-active, and
      leaves the subject exactly one row: the new one, with the given code
      and expiry; the other tables and the users are untouched. */
  lemma IssueInSpec(s: Snapshot, p: Purpose, subject: string, code: string, now: int, ttl: int)
    requires Valid(s)
    ensures var r := IssueIn(s, p, subject, code, now, ttl);
            && Valid(r) && r.users == s.users && r.nextId == s.nextId + 1
            && RowsOf(TableOf(r, p), subject) == {s.nextId}
            && TableOf(r, p)[s.nextId] == NewToken(subject, code, now, ttl)
            && (forall q :: q != p ==> TableOf(r, q) == TableOf(s, q))
            && (SingleActive(s) ==> SingleActive(r))
  {
    var r := IssueIn(s, p, subject, code, now, ttl);
    IssueLeavesOne(TableOf(s, p), s.nextId, subject, code, now, ttl);
    if SingleActive(s) {
      IssueKeepsInvariant(TableOf(s, p), s.nextId, subject, code, now, ttl);
    }
    forall q | q != p ensures KeysBelow(TableOf(r, q), r.nextId) {
      assert TableOf(r, q) == TableOf(s, q);
    }
  }

  /** Deleting rows keeps the snapshot valid and the tokens single-active. */
  lemma DeleteInSpec(s: Snapshot, p: Purpose, q: Query)
    requires Valid(s)
    ensures Valid(WithTable(s, p, DeleteWhere(TableOf(s, p), q)))
    ensures SingleActive(s) ==> SingleActive(WithTable(s, p, DeleteWhere(TableOf(s, p), q)))
  {
    DeleteKeepsInvariant(TableOf(s, p), q, s.nextId);
  }

  /** Deleting one row keeps the snapshot valid and the tokens single-active. */
  lemma RemoveInSpec(s: Snapshot, p: Purpose, id: nat)
    requires Valid(s)
    ensures Valid(WithTable(s, p, TableOf(s, p) - {id}))
    ensures SingleActive(s) ==> SingleActive(WithTable(s, p, TableOf(s, p) - {id}))
  {
  }

  /** Changing one existing row's fields, but not its subject, keeps the
      snapshot valid and the tokens single-active. */
  lemma UpdateInSpec(s: Snapshot, p: Purpose, id: nat, t: Token)
    requires Valid(s) && id in TableOf(s, p) && t.subject == TableOf(s, p)[id].subject
    ensures Valid(WithTable(s, p, TableOf(s, p)[id := t]))
    ensures SingleActive(s) ==> SingleActive(WithTable(s, p, TableOf(s, p)[id := t]))
  {
  }

  /** The database object. */
  class Db {
    var users: seq<User>
    var otps: Table
    var twoFactor: Table
    var emailTokens: Table
    var nextId: nat

    constructor ()
      ensures Snap() == Snapshot([], map[], map[], map[], 0)
    {
      users := [];
      otps := map[];
      twoFactor := map[];
      emailTokens := map[];
      nextId := 0;
    }

    function Snap(): Snapshot
      reads this
    {
      Snapshot(users, otps, twoFactor, emailTokens, nextId)
    }

    /** `user.findUnique({ where: k })`. */
    method FindUserRow(k: UserKey) returns (r: Option<nat>)
      ensures r == FindUser(users, k)
    {
      var i := 0;
      while i < |users|
        invariant 0 <= i <= |users|
        invariant FindUser(users, k) == FindUserFrom(users, k, i)
      {
        if HasKey(users[i], k) {
          return Some(i);
        }
        i := i + 1;
      }
      return None;
    }

    /** `findFirst({ where: q })` on table `p`: the oldest matching row. */
    method FindFirstRow(p: Purpose, q: Query) returns (r: Option<nat>)
      requires Valid(Snap())
      ensures r == FindFirst(TableOf(Snap(), p), q, nextId)
    {
      var t := TableOf(Snap(), p);
      var k := 0;
      while k < nextId
        invariant 0 <= k <= nextId
        invariant FirstMatch(t, q, 0, nextId) == FirstMatch(t, q, k, nextId)
      {
        if k in t && Matches(t[k], q) {
          return Some(k);
        }
        k := k + 1;
      }
      return None;
    }

    /** `findFirst({ where: q, orderBy: { createdAt: 'desc' } })` on table `p`:
        the newest matching row. */
    method FindNewestRow(p: Purpose, q: Query) returns (r: Option<nat>)
      requires Valid(Snap())
      ensures r == FindNewest(TableOf(Snap(), p), q, nextId)
    {
      var t := TableOf(Snap(), p);
      var k := nextId;
      while k > 0
        invariant 0 <= k <= nextId
        invariant LastMatch(t, q, nextId) == LastMatch(t, q, k)
      {
        if k - 1 in t && Matches(t[k - 1], q) {
          return Some(k - 1);
        }
        k := k - 1;
      }
      return None;
    }

    /** `deleteMany({ where: q })` on table `p`. */
    method DeleteMany(p: Purpose, q: Query)
      modifies this
      ensures Snap() == WithTable(old(Snap()), p, DeleteWhere(TableOf(old(Snap()), p), q))
    {
      match p
      case LoginCode => otps := DeleteWhere(otps, q);
      case TwoFactor => twoFactor := DeleteWhere(twoFactor, q);
      case EmailCheck => emailTokens := DeleteWhere(emailTokens, q);
    }

    /** `deleteMany({ where: { subject, id: { not: keep } } })` on table `p`. */
    method DeleteOthersOf(p: Purpose, subject: string, keep: nat)
      modifies this
      ensures Snap() == WithTable(old(Snap()), p, DeleteOthers(TableOf(old(Snap()), p), subject, keep))
    {
      match p
      case LoginCode => otps := DeleteOthers(otps, subject, keep);
      case TwoFactor => twoFactor := DeleteOthers(twoFactor, subject, keep);
      case EmailCheck => emailTokens := DeleteOthers(emailTokens, subject, keep);
    }

    /** `create` of a fresh row on table `p`, under the next id. */
    method Create(p: Purpose, subject: string, code: string, now: int, ttl: int) returns (id: nat)
      modifies this
      ensures id == old(nextId)
      ensures Snap() == WithTable(old(Snap()), p, TableOf(old(Snap()), p)[id := NewToken(subject, code, now, ttl)]).(nextId := id + 1)
    {
      id := nextId;
      var row := NewToken(subject, code, now, ttl);
      match p
      case LoginCode => otps, nextId := otps[id := row], id + 1;
      case TwoFactor => twoFactor, nextId := twoFactor[id := row], id + 1;
      case EmailCheck => emailTokens, nextId := emailTokens[id := row], id + 1;
    }

    /** `delete({ where: { id } })` on table `p`. */
    method Delete(p: Purpose, id: nat)
      modifies this
      ensures Snap() == WithTable(old(Snap()), p, TableOf(old(Snap()), p) - {id})
    {
      match p
      case LoginCode => otps := otps - {id};
      case TwoFactor => twoFactor := twoFactor - {id};
      case EmailCheck => emailTokens := emailTokens - {id};
    }

    /** `update({ where: { id }, data })` on table `p`: row `id` becomes `t`. */
    method Update(p: Purpose, id: nat, t: Token)
      requires id in TableOf(Snap(), p)
      modifies this
      ensures Snap() == WithTable(old(Snap()), p, TableOf(old(Snap()), p)[id := t])
    {
      match p
      case LoginCode => otps := otps[id := t];
      case TwoFactor => twoFactor := twoFactor[id := t];
      case EmailCheck => emailTokens := emailTokens[id := t];
    }

    /** `user.create`. */
    method CreateUser(u: User)
      modifies this
      ensures Snap() == old(Snap()).(users := old(users) + [u])
    {
      users := users + [u];
    }

    /** `user.update` of the row at position `i`. */
    method UpdateUser(i: nat, u: User)
      requires i < |users|
      modifies this
      ensures Snap() == old(Snap()).(users := old(users)[i := u])
    {
      users := users[i := u];
    }
  }
}
