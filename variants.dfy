/** The product form's variant editor: a list of `{name, values}` pairs,
    where `values` is the comma-separated text the admin typed. It starts
    from the product's stored variants, which are either the current format
    (an array of pairs) or the legacy format (an object from option names to
    arrays of values). */
module Variants {
  import opened Common

  datatype Variant = Variant(name: string, values: string)

  datatype VariantField = Name | Values

  /** The value of one key of a legacy object: an array, given by its
      elements as `join` renders them, or anything else. */
  datatype LegacyValue = ListValue(items: seq<string>) | OtherValue

  /** What `JSON.parse` makes of the stored text. `Other` covers `null` and
      every primitive: `Object.entries` of `null` throws, and that of a
      primitive has no array-valued entry, so both start the editor empty. */
  datatype Parsed =
    | Unparseable
    | VariantArray(variants: seq<Variant>)
    | LegacyObject(entries: seq<(string, LegacyValue)>)
    | Other

  /** What one legacy entry contributes. */
  function ConvertEntry(e: (string, LegacyValue)): seq<Variant>
  {
    if e.1.ListValue? then [Variant(e.0, Join(e.1.items, ','))] else []
  }

  /** The legacy conversion, over the entries in order. */
  function Legacy(entries: seq<(string, LegacyValue)>): seq<Variant>
  {
    if entries == [] then []
    else Legacy(entries[..|entries| - 1]) + ConvertEntry(entries[|entries| - 1])
  }

  /** The conversion of consecutive entries is the concatenation of their
      conversions: order is kept. */
  lemma {:induction false} LegacyAppend(a: seq<(string, LegacyValue)>, b: seq<(string, LegacyValue)>)
    ensures Legacy(a + b) == Legacy(a) + Legacy(b)
    decreases |b|
  {
    if b == [] {
      assert a + b == a;
    } else {
      var init := b[..|b| - 1];
      assert (a + b)[..|a + b| - 1] == a + init;
      LegacyAppend(a, init);
    }
  }

  /** Every converted pair comes from an array-valued key, with the array
      joined by commas, and every array-valued key gives one; keys with any
      other value are dropped. */
  lemma {:induction false} LegacySpec(entries: seq<(string, LegacyValue)>)
    ensures forall v :: v in Legacy(entries) ==>
              exists i :: 0 <= i < |entries| && entries[i].1.ListValue?
                && v == Variant(entries[i].0, Join(entries[i].1.items, ','))
    ensures forall i :: 0 <= i < |entries| && entries[i].1.ListValue? ==>
              Variant(entries[i].0, Join(entries[i].1.items, ',')) in Legacy(entries)
    ensures |Legacy(entries)| <= |entries|
  {
    if entries != [] {
      var init := entries[..|entries| - 1];
      var last := entries[|entries| - 1];
      LegacySpec(init);
      assert forall i :: 0 <= i < |init| ==> init[i] == entries[i];
      forall v | v in Legacy(entries)
        ensures exists i :: 0 <= i < |entries| && entries[i].1.ListValue?
                  && v == Variant(entries[i].0, Join(entries[i].1.items, ','))
      {
        if v !in Legacy(init) {
          assert v in ConvertEntry(last);
          assert entries[|entries| - 1] == last;
        }
      }
    }
  }

  /** The conversion loop: one pair pushed per array-valued key. */
  method ConvertLegacy(entries: seq<(string, LegacyValue)>) returns (converted: seq<Variant>)
    ensures converted == Legacy(entries)
  {
    converted := [];
    var i := 0;
    while i < |entries|
      invariant 0 <= i <= |entries|
      invariant converted == Legacy(entries[..i])
    {
      assert entries[..i + 1][..i] == entries[..i];
      var (key, value) := entries[i];
      if value.ListValue? {
        converted := converted + [Variant(key, Join(value.items, ','))];
      }
      i := i + 1;
    }
    assert entries[..|entries|] == entries;
  }

  /** The initial list: empty when there is no stored text or it does not
      parse; an array as it is; a legacy object converted. */
  method InitialVariants(initialData: Option<string>, parsed: Parsed) returns (vs: seq<Variant>)
    ensures initialData.None? || initialData.value == "" ==> vs == []
    ensures initialData.Some? && initialData.value != "" ==>
              vs == (match parsed
                     case VariantArray(xs) => xs
                     case LegacyObject(es) => Legacy(es)
                     case _ => [])
  {
    if initialData.None? || initialData.value == "" {
      return [];
    }
    match parsed
    case Unparseable =>
      vs := [];
    case VariantArray(xs) =>
      vs := xs;
    case LegacyObject(es) =>
      vs := ConvertLegacy(es);
    case Other =>
      vs := [];
  }

  /** Where `splice(index, 1)` starts: a negative index counts from the end,
      and the start is clamped to `[0, len]`. */
  function SpliceStart(index: int, len: nat): (p: int)
    ensures 0 <= p <= len
    ensures 0 <= index <= len ==> p == index
    ensures -(len as int) <= index < 0 ==> p == len + index
    ensures index < -(len as int) ==> p == 0
    ensures index > len ==> p == len
  {
    if index < 0 then (if len + index < 0 then 0 else len + index)
    else if index < len then index else len
  }

  /** `xs.splice(index, 1)` on a copy: removes the element at the start
      position, when there is one. */
  function RemoveAt(xs: seq<Variant>, index: int): (r: seq<Variant>)
    ensures 0 <= index < |xs| ==> r == xs[..index] + xs[index + 1..]
    ensures index >= |xs| ==> r == xs
    ensures xs != [] && index < -|xs| ==> r == xs[1..]
    ensures -|xs| <= index < 0 ==> r == xs[..|xs| + index] + xs[|xs| + index + 1..]
  {
    var p := SpliceStart(index, |xs|);
    if p < |xs| then xs[..p] + xs[p + 1..] else xs
  }

  /** Dropping position `p` keeps the others in order and takes exactly
      `xs[p]` out of the multiset. */
  lemma DropAt(xs: seq<Variant>, p: nat)
    requires p < |xs|
    ensures var r := xs[..p] + xs[p + 1..];
            && |r| == |xs| - 1
            && multiset(r) + multiset{xs[p]} == multiset(xs)
            && (forall j :: 0 <= j < |r| ==> r[j] == if j < p then xs[j] else xs[j + 1])
  {
    var r := xs[..p] + xs[p + 1..];
    assert xs == xs[..p] + [xs[p]] + xs[p + 1..];
    assert multiset(xs) == multiset(xs[..p]) + multiset{xs[p]} + multiset(xs[p + 1..]);
    forall j | 0 <= j < |r| ensures r[j] == if j < p then xs[j] else xs[j + 1] {
      if j >= p {
        assert r[j] == xs[p + 1..][j - p];
      }
    }
  }

  /** Removing drops exactly one element when the list is not empty and the
      index is not past its end, and keeps the others in order. */
  lemma RemoveSpec(xs: seq<Variant>, index: int)
    ensures var r := RemoveAt(xs, index);
            var p := SpliceStart(index, |xs|);
            && (p < |xs| ==> |r| == |xs| - 1 && multiset(r) + multiset{xs[p]} == multiset(xs))
            && (p == |xs| ==> r == xs)
            && (forall j :: 0 <= j < |r| ==> r[j] == if j < p then xs[j] else xs[j + 1])
  {
    var p := SpliceStart(index, |xs|);
    if p < |xs| {
      assert RemoveAt(xs, index) == xs[..p] + xs[p + 1..];
      DropAt(xs, p);
    } else {
      assert RemoveAt(xs, index) == xs;
    }
  }

  /** Removing the pair just added gives back the list before. */
  lemma RemoveAddedLast(xs: seq<Variant>)
    ensures RemoveAt(xs + [Blank], |xs|) == xs
    ensures RemoveAt(xs + [Blank], -1) == xs
  {
    assert (xs + [Blank])[..|xs|] == xs;
  }

  const Blank := Variant("", "")

  /** One field of a pair set to `value`. */
  function SetField(v: Variant, field: VariantField, value: string): (r: Variant)
    ensures field == Name ==> r.name == value && r.values == v.values
    ensures field == Values ==> r.values == value && r.name == v.name
  {
    match field
    case Name => v.(name := value)
    case Values => v.(values := value)
  }

  /** Setting a field twice keeps the last value, and setting it to what it
      holds changes nothing. */
  lemma SetFieldLaws(v: Variant, field: VariantField, a: string, b: string)
    ensures SetField(SetField(v, field, a), field, b) == SetField(v, field, b)
    ensures SetField(v, field, if field == Name then v.name else v.values) == v
  {
  }

  class VariantsEditor {
    var variants: seq<Variant>

    /** The component's initial state. */
    constructor (initialData: Option<string>, parsed: Parsed)
      ensures initialData.None? || initialData.value == "" ==> variants == []
      ensures initialData.Some? && initialData.value != "" ==>
                variants == (match parsed
                             case VariantArray(xs) => xs
                             case LegacyObject(es) => Legacy(es)
                             case _ => [])
    {
      var vs := InitialVariants(initialData, parsed);
      variants := vs;
    }

    /** `addVariant`: a blank pair at the end. */
    method AddVariant()
      modifies this
      ensures variants == old(variants) + [Blank]
    {
      variants := variants + [Blank];
    }

    /** `removeVariant`. */
    method RemoveVariant(index: int)
      modifies this
      ensures variants == RemoveAt(old(variants), index)
    {
      var p := SpliceStart(index, |variants|);
      if p < |variants| {
        variants := variants[..p] + variants[p + 1..];
      }
    }

    /** `updateVariant`: `ok` is false when the index is out of range, where
        the source throws and the list stays as it was. */
    method UpdateVariant(index: int, field: VariantField, value: string) returns (ok: bool)
      modifies this
      ensures ok <==> 0 <= index < |old(variants)|
      ensures ok ==> variants == old(variants)[index := SetField(old(variants)[index], field, value)]
      ensures !ok ==> variants == old(variants)
    {
      if index < 0 || index >= |variants| {
        return false;
      }
      variants := variants[index := SetField(variants[index], field, value)];
      ok := true;
    }
  }
}
