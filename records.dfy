/** A JavaScript object used as a dictionary with string keys: its entries
    in insertion order, as `Object.entries` lists them. Assigning to a key
    already present replaces the value in place; assigning to a new key
    appends an entry. */
module Records {
  import opened Common

  type Entries<V> = seq<(string, V)>

  predicate DistinctKeys<V>(es: Entries<V>)
  {
    forall i, j :: 0 <= i < |es| && 0 <= j < |es| && i != j ==> es[i].0 != es[j].0
  }

  predicate HasKey<V>(es: Entries<V>, k: string)
  {
    exists i :: 0 <= i < |es| && es[i].0 == k
  }

  /** The position of key `k`, if present. */
  function IndexOfKey<V>(es: Entries<V>, k: string): (r: Option<nat>)
    ensures r.Some? ==> r.value < |es| && es[r.value].0 == k
    ensures r.Some? ==> forall i :: 0 <= i < r.value ==> es[i].0 != k
    ensures r.None? <==> !HasKey(es, k)
  {
    if es == [] then None
    else if es[0].0 == k then Some(0)
    else
      var r := IndexOfKey(es[1..], k);
      assert forall i :: 1 <= i < |es| ==> es[i] == es[1..][i - 1];
      if r.None? then None else Some(r.value + 1)
  }

  /** The own entry of key `k`: `None` for a key never assigned. */
  function Get<V>(es: Entries<V>, k: string): (r: Option<V>)
    ensures r.Some? <==> HasKey(es, k)
  {
    var i := IndexOfKey(es, k);
    if i.None? then None else Some(es[i.value].1)
  }

  /** The names every object made by `{}` answers through
      `Object.prototype`; each of them is a function or an object, so
      truthy. */
  const PrototypeMembers: set<string> := {
    "constructor", "hasOwnProperty", "isPrototypeOf", "propertyIsEnumerable",
    "toString", "toLocaleString", "valueOf", "__proto__",
    "__defineGetter__", "__defineSetter__", "__lookupGetter__", "__lookupSetter__"
  }

  /** What `obj[k]` reads on an object made by `{}`. */
  datatype Prop<V> = OwnValue(value: V) | InheritedMember(name: string) | Undefined

  /** `obj[k]`: an own entry shadows the prototype; a name with no own
      entry reads the inherited member, if there is one. */
  function Read<V>(es: Entries<V>, k: string): (r: Prop<V>)
    ensures r.OwnValue? <==> HasKey(es, k)
    ensures r.OwnValue? ==> Get(es, k) == Some(r.value)
    ensures r.InheritedMember? <==> !HasKey(es, k) && k in PrototypeMembers
    ensures r.InheritedMember? ==> r.name == k
  {
    var own := Get(es, k);
    if own.Some? then OwnValue(own.value)
    else if k in PrototypeMembers then InheritedMember(k)
    else Undefined
  }

  /** `obj[k] = v`. */
  function Put<V>(es: Entries<V>, k: string, v: V): (r: Entries<V>)
    ensures HasKey(es, k) ==> |r| == |es|
    ensures !HasKey(es, k) ==> r == es + [(k, v)]
    ensures forall i :: 0 <= i < |es| && es[i].0 != k ==> r[i] == es[i]
  {
    var i := IndexOfKey(es, k);
    if i.None? then es + [(k, v)] else es[i.value := (k, v)]
  }

  /** `obj[k] = v` for a value that is not an object: the inherited
      `__proto__` setter ignores such a value, so that key is never stored;
      any other key is an own entry. */
  function Assign<V>(es: Entries<V>, k: string, v: V): Entries<V>
  {
    if k == "__proto__" then es else Put(es, k, v)
  }

  /** Reading a key after assigning it gives the assigned value; other
      keys keep theirs; the set of keys grows by at most `k`; the keys stay
      distinct. */
  lemma PutSpec<V>(es: Entries<V>, k: string, v: V)
    requires DistinctKeys(es)
    ensures Get(Put(es, k, v), k) == Some(v)
    ensures forall k' :: k' != k ==> Get(Put(es, k, v), k') == Get(es, k')
    ensures DistinctKeys(Put(es, k, v))
    ensures forall k' :: HasKey(Put(es, k, v), k') <==> HasKey(es, k') || k' == k
  {
    var r := Put(es, k, v);
    var i := IndexOfKey(es, k);
    var p := if i.Some? then i.value else |es|;
    if i.Some? {
      assert r == es[i.value := (k, v)];
    } else {
      assert r == es + [(k, v)];
    }
    assert p < |r| && r[p] == (k, v);
    assert DistinctKeys(r);
    assert HasKey(r, k);
    assert IndexOfKey(r, k) == Some(p);
    forall k' | k' != k ensures Get(r, k') == Get(es, k') {
      var a := IndexOfKey(es, k');
      var b := IndexOfKey(r, k');
      if a.Some? {
        assert r[a.value] == es[a.value];
        assert HasKey(r, k');
      }
      if b.Some? {
        assert b.value < |es| && es[b.value] == r[b.value];
        assert HasKey(es, k');
      }
    }
    forall k' ensures HasKey(r, k') <==> HasKey(es, k') || k' == k {
      if k' != k {
        assert Get(r, k') == Get(es, k');
      }
    }
  }

  /** In a list without repeated keys, reading the key at position `i`
      gives the value there. */
  lemma GetAt<V>(es: Entries<V>, i: nat)
    requires DistinctKeys(es) && i < |es|
    ensures Get(es, es[i].0) == Some(es[i].1)
  {
    var j := IndexOfKey(es, es[i].0);
    assert HasKey(es, es[i].0);
  }

  /** The sum of one numeric field over the values, in entry order. */
  function SumBy<V>(es: Entries<V>, f: V -> int): int
  {
    if es == [] then 0 else SumBy(es[..|es| - 1], f) + f(es[|es| - 1].1)
  }

  lemma {:induction false} SumByUpdate<V>(es: Entries<V>, i: nat, e: (string, V), f: V -> int)
    requires i < |es|
    ensures SumBy(es[i := e], f) == SumBy(es, f) - f(es[i].1) + f(e.1)
  {
    var es' := es[i := e];
    if i < |es| - 1 {
      assert es'[..|es'| - 1] == es[..|es| - 1][i := e];
      SumByUpdate(es[..|es| - 1], i, e, f);
    } else {
      assert es'[..|es'| - 1] == es[..|es| - 1];
    }
  }

  /** Assigning a key changes the sum by the new value less the value it
      replaces, if any. */
  lemma SumByPut<V>(es: Entries<V>, k: string, v: V, f: V -> int)
    ensures SumBy(Put(es, k, v), f) == SumBy(es, f) - (if Get(es, k).Some? then f(Get(es, k).value) else 0) + f(v)
  {
    var i := IndexOfKey(es, k);
    if i.Some? {
      SumByUpdate(es, i.value, (k, v), f);
    } else {
      assert (es + [(k, v)])[..|es|] == es;
    }
  }
}
