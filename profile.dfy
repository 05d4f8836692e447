/** The signed-in user's profile actions: updating name and phone, adding
    and deleting delivery addresses, marking the onboarding as seen, and
    listing the user's addresses, newest first. Every action needs a
    session; lengths are counted in characters. */
module Profile {
  import opened Common
  import opened Sorting

  const DefaultCountry: string := "Iraq"

  datatype Account = Account(name: string, phone: Option<string>, hasSeenOnboarding: bool)

  /** The address form as `formData.get` reads it (`labelText` is the
      form's `label` field). */
  datatype AddressForm = AddressForm(labelText: Option<string>, street: Option<string>, city: Option<string>,
                                     state: Option<string>, zip: Option<string>, country: Option<string>,
                                     landmark: Option<string>, notes: Option<string>)

  /** An address that passed validation. */
  datatype AddressData = AddressData(labelText: string, street: Option<string>, city: string, state: string,
                                     zip: Option<string>, country: string, landmark: string,
                                     notes: Option<string>)

  /** A stored address; `createdAt` is the time of insertion. */
  datatype Address = Address(id: string, userId: string, data: AddressData, createdAt: int)

  datatype Outcome = Unauthorized | Invalid | Failed | Done

  /** `z.string().min(n)` on a field that may be missing. */
  predicate AtLeast(x: Option<string>, n: nat)
  {
    x.Some? && |x.value| >= n
  }

  /** `profileSchema.safeParse`: the name and phone to store, if valid. */
  function ValidateProfile(name: Option<string>, phone: Option<string>): (r: Option<(string, string)>)
    ensures r.Some? <==> AtLeast(name, 2) && AtLeast(phone, 10)
    ensures r.Some? ==> Some(r.value.0) == name && Some(r.value.1) == phone
  {
    if AtLeast(name, 2) && AtLeast(phone, 10) then Some((name.value, phone.value)) else None
  }

  /** The object handed to the address schema: street, zip and notes lose
      an empty value and the country falls back to Iraq; the other fields
      are passed as read. */
  function NormalizeAddress(form: AddressForm): (r: AddressForm)
    ensures r.street != Some("") && r.zip != Some("") && r.notes != Some("")
    ensures r.country.Some? && r.country.value != ""
    ensures form.country.None? || form.country == Some("") ==> r.country == Some(DefaultCountry)
    ensures form.country.Some? && form.country.value != "" ==> r.country == form.country
    ensures r.labelText == form.labelText && r.city == form.city && r.state == form.state
            && r.landmark == form.landmark
  {
    form.(street := NonEmpty(form.street), zip := NonEmpty(form.zip), notes := NonEmpty(form.notes),
          country := if NonEmpty(form.country).None? then Some(DefaultCountry) else form.country)
  }

  /** `addressSchema.safeParse`: label, region, governorate and landmark
      are required and non-empty; the rest is optional, the country
      defaulting to Iraq. */
  function ValidateAddress(input: AddressForm): (r: Option<AddressData>)
    ensures r.Some? <==> AtLeast(input.labelText, 1) && AtLeast(input.city, 1) && AtLeast(input.state, 1)
                         && AtLeast(input.landmark, 1)
    ensures r.Some? ==> && Some(r.value.labelText) == input.labelText && Some(r.value.city) == input.city
                        && Some(r.value.state) == input.state && Some(r.value.landmark) == input.landmark
                        && r.value.street == input.street && r.value.zip == input.zip
                        && r.value.notes == input.notes
                        && r.value.country == (if input.country.Some? then input.country.value else DefaultCountry)
  {
    if AtLeast(input.labelText, 1) && AtLeast(input.city, 1) && AtLeast(input.state, 1) && AtLeast(input.landmark, 1)
    then Some(AddressData(input.labelText.value, input.street, input.city.value, input.state.value, input.zip,
                          if input.country.Some? then input.country.value else DefaultCountry,
                          input.landmark.value, input.notes))
    else None
  }

  /** What an accepted form stores: no optional field is the empty string,
      and the country is never empty, being Iraq when the form left it out. */
  lemma AcceptedAddress(form: AddressForm)
    requires ValidateAddress(NormalizeAddress(form)).Some?
    ensures var a := ValidateAddress(NormalizeAddress(form)).value;
            && a.street != Some("") && a.zip != Some("") && a.notes != Some("")
            && a.country != ""
            && (NonEmpty(form.country).None? ==> a.country == DefaultCountry)
            && |a.labelText| >= 1 && |a.city| >= 1 && |a.state| >= 1 && |a.landmark| >= 1
  {
  }

  /** The position of the address `id` in the table, if it is there. */
  function FindAddress(table: seq<Address>, id: string): (r: Option<nat>)
    ensures r.Some? ==> r.value < |table| && table[r.value].id == id
    ensures r.None? <==> forall i :: 0 <= i < |table| ==> table[i].id != id
  {
    if table == [] then None
    else if table[0].id == id then Some(0)
    else
      var r := FindAddress(table[1..], id);
      assert forall i :: 1 <= i < |table| ==> table[i] == table[1..][i - 1];
      if r.None? then None else Some(r.value + 1)
  }

  predicate DistinctIds(table: seq<Address>)
  {
    forall i, j :: 0 <= i < j < |table| ==> table[i].id != table[j].id
  }

  /** `where: { userId }`: the user's addresses, in table order. */
  function OwnedBy(table: seq<Address>, userId: string): (r: seq<Address>)
    ensures forall a :: a in r ==> a in table && a.userId == userId
    ensures forall a :: a in table && a.userId == userId ==> a in r
    ensures |r| <= |table|
  {
    if table == [] then []
    else
      var last := table[|table| - 1];
      var init := OwnedBy(table[..|table| - 1], userId);
      assert table == table[..|table| - 1] + [last];
      if last.userId == userId then init + [last] else init
  }

  function NewestFirst(a: Address): Rank
  {
    Rank(-a.createdAt, 0)
  }

  /** `orderBy: { createdAt: "desc" }`. */
  function UserAddresses(table: seq<Address>, userId: string): (r: seq<Address>)
    ensures multiset(r) == multiset(OwnedBy(table, userId))
    ensures forall a :: a in r <==> a in table && a.userId == userId
    ensures forall i, j :: 0 <= i < j < |r| ==> r[i].createdAt >= r[j].createdAt
  {
    var r := SortBy(OwnedBy(table, userId), NewestFirst);
    assert forall a :: a in r <==> a in OwnedBy(table, userId) by {
      forall a ensures a in r <==> a in OwnedBy(table, userId) {
        assert a in r <==> a in multiset(r);
      }
    }
    assert forall i, j :: 0 <= i < j < |r| ==> RankLe(NewestFirst(r[i]), NewestFirst(r[j]));
    r
  }

  /** Removing the address at a position of a table without repeated ids
      leaves no address with that id and every other address in place. */
  lemma RemoveAddress(table: seq<Address>, i: nat)
    requires DistinctIds(table) && i < |table|
    ensures var r := table[..i] + table[i + 1..];
            && DistinctIds(r)
            && FindAddress(r, table[i].id).None?
            && (forall a :: a in r <==> a in table && a.id != table[i].id)
  {
    var r := table[..i] + table[i + 1..];
    assert forall j :: 0 <= j < |r| ==> r[j] == if j < i then table[j] else table[j + 1];
    forall a | a in table && a.id != table[i].id ensures a in r {
      var k :| 0 <= k < |table| && table[k] == a;
      if k < i {
        assert r[k] == a;
      } else {
        assert k > i;
        assert r[k - 1] == a;
      }
    }
  }

  class ProfileStore {
    var accounts: map<string, Account>
    var addresses: seq<Address>

    constructor (accounts: map<string, Account>)
      ensures this.accounts == accounts && addresses == []
    {
      this.accounts := accounts;
      addresses := [];
    }

    /** `updateProfile`: the session user's name and phone. */
    method UpdateProfile(session: Option<string>, name: Option<string>, phone: Option<string>) returns (r: Outcome)
      modifies this
      ensures addresses == old(addresses)
      ensures session.None? ==> r == Unauthorized && accounts == old(accounts)
      ensures session.Some? && ValidateProfile(name, phone).None? ==> r == Invalid && accounts == old(accounts)
      ensures session.Some? && ValidateProfile(name, phone).Some? && session.value !in old(accounts) ==>
                r == Failed && accounts == old(accounts)
      ensures session.Some? && ValidateProfile(name, phone).Some? && session.value in old(accounts) ==>
                var v := ValidateProfile(name, phone).value;
                r == Done && accounts == old(accounts)[session.value := old(accounts)[session.value].(name := v.0, phone := Some(v.1))]
    {
      if session.None? {
        return Unauthorized;
      }
      var validated := ValidateProfile(name, phone);
      if validated.None? {
        return Invalid;
      }
      var id := session.value;
      if id !in accounts {
        return Failed;
      }
      accounts := accounts[id := accounts[id].(name := validated.value.0, phone := Some(validated.value.1))];
      r := Done;
    }

    /** `addAddress`: `id` and `now` are what the database assigns, and
        `stored` whether the insert succeeds. */
    method AddAddress(session: Option<string>, form: AddressForm, id: string, now: int, stored: bool)
      returns (r: Outcome)
      modifies this
      ensures accounts == old(accounts)
      ensures var v := ValidateAddress(NormalizeAddress(form));
              && (session.None? ==> r == Unauthorized && addresses == old(addresses))
              && (session.Some? && v.None? ==> r == Invalid && addresses == old(addresses))
              && (session.Some? && v.Some? && (!stored || FindAddress(old(addresses), id).Some?) ==>
                    r == Failed && addresses == old(addresses))
              && (session.Some? && v.Some? && stored && FindAddress(old(addresses), id).None? ==>
                    r == Done && addresses == old(addresses) + [Address(id, session.value, v.value, now)])
      ensures DistinctIds(old(addresses)) ==> DistinctIds(addresses)
    {
      if session.None? {
        return Unauthorized;
      }
      var validated := ValidateAddress(NormalizeAddress(form));
      if validated.None? {
        return Invalid;
      }
      if !stored || FindAddress(addresses, id).Some? {
        return Failed;
      }
      addresses := addresses + [Address(id, session.value, validated.value, now)];
      r := Done;
    }

    /** `deleteAddress`: only the owner may delete, and a missing address
        is reported the same way as someone else's. */
    method DeleteAddress(session: Option<string>, id: string) returns (r: Outcome)
      modifies this
      ensures accounts == old(accounts)
      ensures var at := FindAddress(old(addresses), id);
              && (session.None? || at.None? || old(addresses)[at.value].userId != session.value ==>
                    r == Unauthorized && addresses == old(addresses))
              && (session.Some? && at.Some? && old(addresses)[at.value].userId == session.value ==>
                    r == Done && addresses == old(addresses)[..at.value] + old(addresses)[at.value + 1..])
    {
      if session.None? {
        return Unauthorized;
      }
      var at := FindAddress(addresses, id);
      if at.None? || addresses[at.value].userId != session.value {
        return Unauthorized;
      }
      addresses := addresses[..at.value] + addresses[at.value + 1..];
      r := Done;
    }

    /** `completeOnboarding`. */
    method CompleteOnboarding(session: Option<string>) returns (r: Outcome)
      modifies this
      ensures addresses == old(addresses)
      ensures session.None? ==> r == Unauthorized && accounts == old(accounts)
      ensures session.Some? && session.value !in old(accounts) ==> r == Failed && accounts == old(accounts)
      ensures session.Some? && session.value in old(accounts) ==>
                r == Done && accounts == old(accounts)[session.value := old(accounts)[session.value].(hasSeenOnboarding := true)]
    {
      if session.None? {
        return Unauthorized;
      }
      var id := session.value;
      if id !in accounts {
        return Failed;
      }
      accounts := accounts[id := accounts[id].(hasSeenOnboarding := true)];
      r := Done;
    }

    /** `getAddresses`: nothing without a session. */
    method GetAddresses(session: Option<string>) returns (r: seq<Address>)
      ensures session.None? ==> r == []
      ensures session.Some? ==> forall a :: a in r <==> a in addresses && a.userId == session.value
      ensures session.Some? ==> multiset(r) == multiset(OwnedBy(addresses, session.value))
      ensures forall i, j :: 0 <= i < j < |r| ==> r[i].createdAt >= r[j].createdAt
    {
      if session.None? {
        return [];
      }
      r := UserAddresses(addresses, session.value);
    }
  }
}
