/** The shape shared by the three token tables (login codes, two-factor
    codes, e-mail-verification codes) and the table operations the routes
    perform on them: `findFirst`, `deleteMany`, `create`, `update`, `delete`.
    A table maps a row id to its row; ids are handed out in increasing order,
    so "the first matching row" is the one with the least id. */
module Tokens {
  import opened Common

  /** `subject` is the e-mail for login codes and the user id for the other
      two tables. A created row has `attempts == 0` and `verified == false`. */
  datatype Token = Token(subject: string, code: string, createdAt: int, expiresAt: int,
                         attempts: int, verified: bool)

  type Table = map<nat, Token>

  /** A `where` filter: each present field must equal the row's. */
  datatype Query = Query(subject: Option<string>, code: Option<string>, verified: Option<bool>)

  function BySubject(s: string): Query
  {
    Query(Some(s), None, None)
  }

  predicate Matches(t: Token, q: Query)
  {
    && (q.subject.Some? ==> t.subject == q.subject.value)
    && (q.code.Some? ==> t.code == q.code.value)
    && (q.verified.Some? ==> t.verified == q.verified.value)
  }

  predicate KeysBelow(t: Table, n: nat)
  {
    forall k :: k in t ==> k < n
  }

  /** The single-active-token invariant: no two rows share a subject. */
  ghost predicate AtMostOnePerSubject(t: Table)
  {
    forall a, b :: a in t && b in t && t[a].subject == t[b].subject ==> a == b
  }

  /** The ids of `s`'s rows. */
  function RowsOf(t: Table, s: string): set<nat>
  {
    set k | k in t && t[k].subject == s
  }

  /** The least id in `from..bound` whose row matches `q`. */
  function FirstMatch(t: Table, q: Query, from: nat, bound: nat): (r: Option<nat>)
    ensures r.Some? ==> from <= r.value < bound && r.value in t && Matches(t[r.value], q)
    ensures r.Some? ==> forall k :: from <= k < r.value && k in t ==> !Matches(t[k], q)
    ensures r.None? ==> forall k :: from <= k < bound && k in t ==> !Matches(t[k], q)
    decreases bound - from
  {
    if from >= bound then None
    else if from in t && Matches(t[from], q) then Some(from)
    else FirstMatch(t, q, from + 1, bound)
  }

  /** `findFirst({ where: q })` on a table whose ids are all below `bound`. */
  function FindFirst(t: Table, q: Query, bound: nat): (r: Option<nat>)
    requires KeysBelow(t, bound)
    ensures r.Some? <==> exists k :: k in t && Matches(t[k], q)
    ensures r.Some? ==> r.value in t && Matches(t[r.value], q)
    ensures r.Some? ==> forall k :: k in t && k < r.value ==> !Matches(t[k], q)
  {
    FirstMatch(t, q, 0, bound)
  }

  /** The greatest id below `bound` whose row matches `q`. */
  function LastMatch(t: Table, q: Query, bound: nat): (r: Option<nat>)
    ensures r.Some? ==> r.value < bound && r.value in t && Matches(t[r.value], q)
    ensures r.Some? ==> forall k :: r.value < k < bound && k in t ==> !Matches(t[k], q)
    ensures r.None? ==> forall k :: k < bound && k in t ==> !Matches(t[k], q)
  {
    if bound == 0 then None
    else if bound - 1 in t && Matches(t[bound - 1], q) then Some(bound - 1)
    else LastMatch(t, q, bound - 1)
  }

  /** `findFirst({ where: q, orderBy: { createdAt: 'desc' } })`: the most
      recently created matching row. */
  function FindNewest(t: Table, q: Query, bound: nat): (r: Option<nat>)
    requires KeysBelow(t, bound)
    ensures r.Some? <==> exists k :: k in t && Matches(t[k], q)
    ensures r.Some? ==> r.value in t && Matches(t[r.value], q)
    ensures r.Some? ==> forall k :: k in t && k > r.value ==> !Matches(t[k], q)
  {
    LastMatch(t, q, bound)
  }

  /** With one row per subject, the oldest and the newest match coincide
      whenever the query names the subject. */
  lemma NewestIsFirst(t: Table, q: Query, bound: nat)
    requires KeysBelow(t, bound) && AtMostOnePerSubject(t) && q.subject.Some?
    ensures FindNewest(t, q, bound) == FindFirst(t, q, bound)
  {
    var a := FindNewest(t, q, bound);
    var b := FindFirst(t, q, bound);
    if a.Some? {
      assert b.Some?;
      assert t[a.value].subject == t[b.value].subject;
    }
  }

  /** Rewriting the newest match with a row that still matches keeps it the newest. */
  lemma UpdateKeepsNewest(t: Table, q: Query, bound: nat, id: nat, row: Token)
    requires KeysBelow(t, bound) && FindNewest(t, q, bound) == Some(id) && Matches(row, q)
    ensures KeysBelow(t[id := row], bound)
    ensures FindNewest(t[id := row], q, bound) == Some(id)
  {
    var t2 := t[id := row];
    assert KeysBelow(t2, bound);
    var r := FindNewest(t2, q, bound);
    assert id in t2 && Matches(t2[id], q);
    assert r.Some?;
  }

  /** Rewriting the oldest match with a row that still matches keeps it the oldest. */
  lemma UpdateKeepsFirst(t: Table, q: Query, bound: nat, id: nat, row: Token)
    requires KeysBelow(t, bound) && FindFirst(t, q, bound) == Some(id) && Matches(row, q)
    ensures KeysBelow(t[id := row], bound)
    ensures FindFirst(t[id := row], q, bound) == Some(id)
  {
    var t2 := t[id := row];
    assert KeysBelow(t2, bound);
    assert id in t2 && Matches(t2[id], q);
    assert FindFirst(t2, q, bound).Some?;
  }

  /** `deleteMany({ where: q })`. */
  function DeleteWhere(t: Table, q: Query): (r: Table)
    ensures forall k :: k in r <==> k in t && !Matches(t[k], q)
    ensures forall k :: k in r ==> r[k] == t[k]
  {
    map k | k in t && !Matches(t[k], q) :: t[k]
  }

  /** `deleteMany({ where: { subject, id: { not: keep } } })`. */
  function DeleteOthers(t: Table, subject: string, keep: nat): (r: Table)
    ensures forall k :: k in r <==> k in t && (k == keep || t[k].subject != subject)
    ensures forall k :: k in r ==> r[k] == t[k]
  {
    map k | k in t && (k == keep || t[k].subject != subject) :: t[k]
  }

  function NewToken(subject: string, code: string, now: int, ttl: int): Token
  {
    Token(subject, code, now, now + ttl, 0, false)
  }

  /** The issue step every route performs: delete all of the subject's rows,
      then create one, under the fresh id `id`. */
  function Issue(t: Table, id: nat, subject: string, code: string, now: int, ttl: int): Table
  {
    DeleteWhere(t, BySubject(subject))[id := NewToken(subject, code, now, ttl)]
  }

  /** After an issue the subject has exactly one row, the new one; every row
      of every other subject is untouched. */
  lemma IssueLeavesOne(t: Table, id: nat, subject: string, code: string, now: int, ttl: int)
    requires id !in t
    ensures var r := Issue(t, id, subject, code, now, ttl);
            && RowsOf(r, subject) == {id}
            && r[id] == NewToken(subject, code, now, ttl)
            && (forall k :: k in t && t[k].subject != subject ==> k in r && r[k] == t[k])
            && (forall k :: k in r && k != id ==> k in t && t[k].subject != subject && r[k] == t[k])
  {
  }

  /** Issuing preserves the single-active-token invariant and the id bound. */
  lemma IssueKeepsInvariant(t: Table, bound: nat, subject: string, code: string, now: int, ttl: int)
    requires KeysBelow(t, bound) && AtMostOnePerSubject(t)
    ensures var r := Issue(t, bound, subject, code, now, ttl);
            KeysBelow(r, bound + 1) && AtMostOnePerSubject(r)
  {
  }

  /** With one row per subject, a lookup that names the subject finds that
      subject's row when the row matches, and nothing otherwise. */
  lemma FindOwnRow(t: Table, q: Query, bound: nat, k: nat)
    requires KeysBelow(t, bound) && AtMostOnePerSubject(t)
    requires q.subject.Some? && k in t && t[k].subject == q.subject.value
    ensures FindFirst(t, q, bound) == if Matches(t[k], q) then Some(k) else None
  {
  }

  /** A lookup that names a subject without rows finds nothing. */
  lemma FindNoRow(t: Table, q: Query, bound: nat)
    requires KeysBelow(t, bound)
    requires q.subject.Some? && RowsOf(t, q.subject.value) == {}
    ensures FindFirst(t, q, bound) == None
  {
    forall k | k in t && Matches(t[k], q) ensures k in RowsOf(t, q.subject.value) {
    }
  }

  /** Deleting rows never breaks the invariant. */
  lemma DeleteKeepsInvariant(t: Table, q: Query, bound: nat)
    requires KeysBelow(t, bound)
    ensures KeysBelow(DeleteWhere(t, q), bound)
    ensures AtMostOnePerSubject(t) ==> AtMostOnePerSubject(DeleteWhere(t, q))
  {
  }
}
