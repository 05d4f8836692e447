/** The category listings. The home page folds the grouped product counts
    into a category map and shows at most six categories: those of the
    fixed layout order first, in that order, then the others by descending
    count. The categories page counts products per category and lists the
    categories by descending count. */
module Categories {
  import opened Common
  import opened Records
  import opened Sorting

  const LayoutOrder: seq<string> := ["Electronics", "Accessories", "Home", "Men", "Women", "Kids"]
  const Shown: nat := 6

  /** `LAYOUT_ORDER.indexOf(name)`. */
  function LayoutIndex(name: string): (i: int)
    ensures -1 <= i < |LayoutOrder|
    ensures 0 <= i ==> LayoutOrder[i] == name && forall j :: 0 <= j < i ==> LayoutOrder[j] != name
    ensures i == -1 <==> name !in LayoutOrder
  {
    IndexIn(LayoutOrder, name)
  }

  function IndexIn(xs: seq<string>, x: string): (i: int)
    ensures -1 <= i < |xs|
    ensures 0 <= i ==> xs[i] == x && forall j :: 0 <= j < i ==> xs[j] != x
    ensures i == -1 <==> x !in xs
  {
    if xs == [] then -1
    else if xs[0] == x then 0
    else
      var r := IndexIn(xs[1..], x);
      assert xs == [xs[0]] + xs[1..];
      if r == -1 then -1 else r + 1
  }

  /** The comparator passed to `sort`: negative when `a` goes first. */
  function LayoutCmp(a: (string, int), b: (string, int)): int
  {
    var ia := LayoutIndex(a.0);
    var ib := LayoutIndex(b.0);
    if ia != -1 && ib != -1 then ia - ib
    else if ia != -1 then -1
    else if ib != -1 then 1
    else b.1 - a.1
  }

  /** The rank the comparator orders by: layout position for the known
      categories, then descending count for the rest. */
  function LayoutKey(e: (string, int)): Rank
  {
    var i := LayoutIndex(e.0);
    if i != -1 then Rank(0, i) else Rank(1, -e.1)
  }

  /** The comparator is consistent: it says `a` goes no later than `b`
      exactly when `a`'s rank is at most `b`'s, so it is a total preorder and
      sorting with it is sorting by `LayoutKey`. */
  lemma LayoutCmpAgrees(a: (string, int), b: (string, int))
    ensures LayoutCmp(a, b) <= 0 <==> RankLe(LayoutKey(a), LayoutKey(b))
    ensures LayoutCmp(a, b) < 0 <==> !RankLe(LayoutKey(b), LayoutKey(a))
    ensures LayoutCmp(a, b) == -LayoutCmp(b, a)
  {
  }

  /** The categories the home page shows. */
  function TopCategories(m: Entries<int>): (r: Entries<int>)
    ensures |r| == Min(Shown, |m|)
    ensures multiset(r) <= multiset(m)
    ensures forall e :: e in r ==> e in m
  {
    var sorted := SortBy(m, LayoutKey);
    PrefixWithin(sorted, m, Min(Shown, |m|));
    sorted[..Min(Shown, |m|)]
  }

  /** The order of the shown categories: every layout category precedes
      every other one; layout categories follow the layout order; the others
      follow descending count; and every category left out ranks no better
      than every one shown. */
  lemma TopCategoriesOrder(m: Entries<int>)
    ensures var r := TopCategories(m);
            && (forall i, j :: 0 <= i < j < |r| && LayoutIndex(r[j].0) != -1 ==> LayoutIndex(r[i].0) != -1)
            && (forall i, j :: 0 <= i < j < |r| && LayoutIndex(r[i].0) != -1 && LayoutIndex(r[j].0) != -1 ==>
                  LayoutIndex(r[i].0) <= LayoutIndex(r[j].0))
            && (forall i, j :: 0 <= i < j < |r| && LayoutIndex(r[i].0) == -1 && LayoutIndex(r[j].0) == -1 ==>
                  r[i].1 >= r[j].1)
    ensures var sorted := SortBy(m, LayoutKey);
            && TopCategories(m) == sorted[..Min(Shown, |m|)]
            && forall i, j :: 0 <= i < Min(Shown, |m|) <= j < |m| ==> RankLe(LayoutKey(sorted[i]), LayoutKey(sorted[j]))
  {
    var sorted := SortBy(m, LayoutKey);
    var r := TopCategories(m);
    assert forall i :: 0 <= i < |r| ==> r[i] == sorted[i];
    forall i, j | 0 <= i < j < |r| ensures RankLe(LayoutKey(r[i]), LayoutKey(r[j])) {
      assert RankLe(LayoutKey(sorted[i]), LayoutKey(sorted[j]));
    }
  }

  /** With distinct category names the shown categories are distinct keys
      of the map, each with its own count. */
  lemma TopCategoriesKeepCounts(m: Entries<int>)
    requires DistinctKeys(m)
    ensures forall e :: e in TopCategories(m) ==> Get(m, e.0) == Some(e.1)
  {
    forall e | e in TopCategories(m) ensures Get(m, e.0) == Some(e.1) {
      var i :| 0 <= i < |m| && m[i] == e;
      GetAt(m, i);
    }
  }

  /** One row of the grouped product query: a category and its count. */
  datatype Group = Group(category: string, count: int)

  /** The `categoryMap` reduce: each row assigns its count to its category. */
  function MapOf(groups: seq<Group>): Entries<int>
  {
    if groups == [] then []
    else
      var last := groups[|groups| - 1];
      Put(MapOf(groups[..|groups| - 1]), last.category, last.count)
  }

  /** The count the last row for a category carries, if any. */
  function LastCount(groups: seq<Group>, c: string): Option<int>
  {
    if groups == [] then None
    else if groups[|groups| - 1].category == c then Some(groups[|groups| - 1].count)
    else LastCount(groups[..|groups| - 1], c)
  }

  /** The `categoryMap` reduce as written: `acc[c] = n` on an object made
      by `{}`, so a row for `__proto__` is lost to the inherited setter. */
  function MapOfAsWritten(groups: seq<Group>): Entries<int>
  {
    if groups == [] then []
    else
      var last := groups[|groups| - 1];
      Assign(MapOfAsWritten(groups[..|groups| - 1]), last.category, last.count)
  }

  /** No grouped row is for a category called `__proto__`. */
  predicate NoProtoRow(groups: seq<Group>)
  {
    forall i :: 0 <= i < |groups| ==> groups[i].category != "__proto__"
  }

  method BuildCategoryMap(groups: seq<Group>) returns (m: Entries<int>)
    ensures m == MapOfAsWritten(groups)
    ensures NoProtoRow(groups) ==> m == MapOf(groups)
  {
    m := [];
    var i := 0;
    while i < |groups|
      invariant 0 <= i <= |groups|
      invariant m == MapOfAsWritten(groups[..i])
    {
      assert groups[..i + 1][..i] == groups[..i];
      if groups[i].category != "__proto__" {
        m := Put(m, groups[i].category, groups[i].count);
      }
      i := i + 1;
    }
    assert groups[..|groups|] == groups;
    if NoProtoRow(groups) {
      MapAsWrittenAgrees(groups);
    }
  }

  /** As written, the map holds every grouped category except `__proto__`,
      with the count of its last row. */
  lemma {:induction false} CategoryMapAsWrittenSpec(groups: seq<Group>)
    ensures DistinctKeys(MapOfAsWritten(groups))
    ensures forall c :: Get(MapOfAsWritten(groups), c) == if c == "__proto__" then None else LastCount(groups, c)
  {
    if groups != [] {
      var init := groups[..|groups| - 1];
      CategoryMapAsWrittenSpec(init);
      var last := groups[|groups| - 1];
      if last.category != "__proto__" {
        PutSpec(MapOfAsWritten(init), last.category, last.count);
      }
    }
  }

  /** Without a row for `__proto__`, the code builds the intended map. */
  lemma {:induction false} MapAsWrittenAgrees(groups: seq<Group>)
    requires NoProtoRow(groups)
    ensures MapOfAsWritten(groups) == MapOf(groups)
  {
    if groups != [] {
      var init := groups[..|groups| - 1];
      MapAsWrittenAgrees(init);
    }
  }

  /** A category named `__proto__` never reaches the home page, though the
      intended map lists it. */
  lemma ProtoCategoryDropped(n: int)
    ensures MapOfAsWritten([Group("__proto__", n)]) == []
    ensures MapOf([Group("__proto__", n)]) == [("__proto__", n)]
  {
    assert [Group("__proto__", n)][..0] == [];
  }

  /** The map has one key per category of the rows, each mapped to the count
      of the last row for it; when the rows name each category once (as the
      grouped query does), every category maps to its own row's count. */
  lemma {:induction false} CategoryMapSpec(groups: seq<Group>)
    ensures DistinctKeys(MapOf(groups))
    ensures forall c :: Get(MapOf(groups), c) == LastCount(groups, c)
  {
    if groups != [] {
      var init := groups[..|groups| - 1];
      CategoryMapSpec(init);
      var last := groups[|groups| - 1];
      PutSpec(MapOf(init), last.category, last.count);
    }
  }

  lemma {:induction false} LastCountOfDistinct(groups: seq<Group>, i: nat)
    requires i < |groups|
    requires forall a, b :: 0 <= a < b < |groups| ==> groups[a].category != groups[b].category
    ensures LastCount(groups, groups[i].category) == Some(groups[i].count)
  {
    if i < |groups| - 1 {
      var init := groups[..|groups| - 1];
      assert init[i] == groups[i];
      LastCountOfDistinct(init, i);
    }
  }

  /** The number of products in category `c`. */
  function Occurrences(cats: seq<string>, c: string): nat
  {
    if cats == [] then 0
    else Occurrences(cats[..|cats| - 1], c) + (if cats[|cats| - 1] == c then 1 else 0)
  }

  /** `acc[c] || 0`. */
  function CountSoFar(acc: Entries<int>, c: string): int
  {
    var v := Get(acc, c);
    if v.Some? && v.value != 0 then v.value else 0
  }

  /** The `categoryCount` reduce over the products' categories. */
  function CountOf(cats: seq<string>): Entries<int>
  {
    if cats == [] then []
    else
      var acc := CountOf(cats[..|cats| - 1]);
      var c := cats[|cats| - 1];
      Put(acc, c, CountSoFar(acc, c) + 1)
  }

  /** A value the counting reduce can store: `+ 1` adds to a number and
      appends the character `1` to text. */
  datatype JsValue = Num(n: int) | Text(s: string)

  /** The text `+` turns an inherited member into: the source of a native
      function, or `[object Object]` for the prototype itself. */
  function MemberText(name: string): string
  {
    if name == "__proto__" then "[object Object]"
    else if name == "constructor" then "function Object() { [native code] }"
    else "function " + name + "() { [native code] }"
  }

  /** `(acc[c] || 0) + 1` as JavaScript evaluates it. */
  function BumpAsWritten(acc: Entries<JsValue>, c: string): JsValue
  {
    match Read(acc, c)
    case OwnValue(v) =>
      if v.Num? then Num(v.n + 1) else if v.s == "" then Num(1) else Text(v.s + "1")
    case InheritedMember(m) => Text(MemberText(m) + "1")
    case Undefined => Num(1)
  }

  /** The `categoryCount` reduce as it runs on an object made by `{}`. */
  function CountOfAsWritten(cats: seq<string>): Entries<JsValue>
  {
    if cats == [] then []
    else
      var acc := CountOfAsWritten(cats[..|cats| - 1]);
      var c := cats[|cats| - 1];
      Assign(acc, c, BumpAsWritten(acc, c))
  }

  /** `k` copies of the character `1`. */
  function Ones(k: nat): string
  {
    if k == 0 then "" else Ones(k - 1) + "1"
  }

  /** What the reduce as written stores for a category `c` with `k`
      products: nothing for a category without products or for
      `__proto__`; the text of the inherited member followed by one `1` per
      product for another prototype member; otherwise the number `k`. */
  function Tally(c: string, k: nat): Option<JsValue>
  {
    if k == 0 || c == "__proto__" then None
    else if c in PrototypeMembers then Some(Text(MemberText(c) + Ones(k)))
    else Some(Num(k))
  }

  function TallyAsWritten(cats: seq<string>, c: string): Option<JsValue>
  {
    Tally(c, Occurrences(cats, c))
  }

  /** `acc` is what the reduce as written holds after `cats`. */
  ghost predicate TalliesOf(acc: Entries<JsValue>, cats: seq<string>)
  {
    && DistinctKeys(acc)
    && forall c :: Get(acc, c) == TallyAsWritten(cats, c)
  }

  /** Reading one more category adds one to its own number of products
      and leaves the others. */
  lemma OccurrencesStep(cats: seq<string>, c: string)
    ensures Occurrences(cats + [c], c) == Occurrences(cats, c) + 1
    ensures forall d :: d != c ==> Occurrences(cats + [c], d) == Occurrences(cats, d)
  {
    assert (cats + [c])[..|cats|] == cats;
  }

  /** The value one step of the reduce as written stores for a category
      other than `__proto__` is its tally with one more product. */
  lemma BumpTally(acc: Entries<JsValue>, c: string, k: nat)
    requires Get(acc, c) == Tally(c, k) && c != "__proto__"
    ensures Tally(c, k + 1) == Some(BumpAsWritten(acc, c))
  {
    if k == 0 {
      assert Ones(1) == "1";
    } else if c in PrototypeMembers {
      var t := MemberText(c) + Ones(k);
      assert Read(acc, c) == OwnValue(Text(t));
      assert |MemberText(c)| > 0;
      assert t + "1" == MemberText(c) + Ones(k + 1);
    } else {
      assert Read(acc, c) == OwnValue(Num(k));
    }
  }

  /** One step of the reduce as written keeps the tally of the categories
      read so far. */
  lemma TallyStep(acc: Entries<JsValue>, cats: seq<string>, c: string)
    requires TalliesOf(acc, cats)
    ensures TalliesOf(Assign(acc, c, BumpAsWritten(acc, c)), cats + [c])
  {
    OccurrencesStep(cats, c);
    var cats' := cats + [c];
    if c == "__proto__" {
      forall d ensures Get(acc, d) == TallyAsWritten(cats', d) {
        assert Get(acc, d) == TallyAsWritten(cats, d);
      }
    } else {
      var v := BumpAsWritten(acc, c);
      assert Get(acc, c) == TallyAsWritten(cats, c);
      BumpTally(acc, c, Occurrences(cats, c));
      PutSpec(acc, c, v);
      var r := Put(acc, c, v);
      forall d ensures Get(r, d) == TallyAsWritten(cats', d) {
        if d != c {
          assert Get(r, d) == Get(acc, d) == TallyAsWritten(cats, d);
        }
      }
    }
  }

  /** As written, every category but a prototype member maps to its number
      of products; `__proto__` never gets an entry; any other prototype
      member maps to text. */
  lemma {:induction false} CountAsWrittenSpec(cats: seq<string>)
    ensures DistinctKeys(CountOfAsWritten(cats))
    ensures forall c :: Get(CountOfAsWritten(cats), c) == TallyAsWritten(cats, c)
  {
    if cats != [] {
      var init := cats[..|cats| - 1];
      CountAsWrittenSpec(init);
      TallyStep(CountOfAsWritten(init), init, cats[|cats| - 1]);
      assert cats == init + [cats[|cats| - 1]];
    }
  }

  /** As written, a category named `constructor` gets text for a count, and
      one named `__proto__` gets no entry, though the intended count gives
      each its number of products. */
  lemma PrototypeNamesMiscounted()
    ensures CountOfAsWritten(["constructor", "constructor"]) ==
              [("constructor", Text("function Object() { [native code] }11"))]
    ensures CountOfAsWritten(["__proto__"]) == []
    ensures CountOf(["constructor", "constructor"]) == [("constructor", 2)]
    ensures CountOf(["__proto__"]) == [("__proto__", 1)]
  {
    var cs := ["constructor", "constructor"];
    assert cs[..1] == ["constructor"] && cs[..1][..0] == [];
    assert ["__proto__"][..0] == [];
    var one := CountOfAsWritten(["constructor"]);
    assert one == [("constructor", Text(MemberText("constructor") + "1"))];
    assert IndexOfKey(one, "constructor") == Some(0);
    var v := BumpAsWritten(one, "constructor");
    assert v == Text(MemberText("constructor") + "1" + "1");
    assert MemberText("constructor") + "1" + "1" == "function Object() { [native code] }11";
    assert CountOfAsWritten(cs) == Put(one, "constructor", v);
  }

  /** Each count as a number. */
  function AsNumbers(m: Entries<int>): (r: Entries<JsValue>)
    ensures |r| == |m|
    ensures forall i :: 0 <= i < |m| ==> r[i] == (m[i].0, Num(m[i].1))
  {
    seq(|m|, i requires 0 <= i < |m| => (m[i].0, Num(m[i].1)))
  }

  /** Turning counts into numbers keeps every key where it was. */
  lemma {:induction false} AsNumbersIndex(m: Entries<int>, c: string)
    ensures IndexOfKey(AsNumbers(m), c) == IndexOfKey(m, c)
  {
    if m != [] && m[0].0 != c {
      assert AsNumbers(m)[1..] == AsNumbers(m[1..]);
      AsNumbersIndex(m[1..], c);
    }
  }

  /** Assigning a number commutes with turning counts into numbers. */
  lemma AsNumbersPut(m: Entries<int>, c: string, v: int)
    ensures Put(AsNumbers(m), c, Num(v)) == AsNumbers(Put(m, c, v))
  {
    AsNumbersIndex(m, c);
    var i := IndexOfKey(m, c);
    if i.Some? {
      assert AsNumbers(m)[i.value := (c, Num(v))] == AsNumbers(m[i.value := (c, v)]);
    } else {
      assert AsNumbers(m) + [(c, Num(v))] == AsNumbers(m + [(c, v)]);
    }
  }

  /** Off the prototype members, one step of the reduce as written adds one
      exactly as `acc[c] || 0` does on numbers. */
  lemma AsNumbersBump(m: Entries<int>, c: string)
    requires c !in PrototypeMembers
    ensures BumpAsWritten(AsNumbers(m), c) == Num(CountSoFar(m, c) + 1)
  {
    AsNumbersIndex(m, c);
    var i := IndexOfKey(m, c);
    if i.Some? {
      assert Get(AsNumbers(m), c) == Some(Num(m[i.value].1));
      assert Read(AsNumbers(m), c) == OwnValue(Num(m[i.value].1));
    } else {
      assert Read(AsNumbers(m), c) == Undefined;
    }
  }

  /** No category is named after a member of `Object.prototype`. */
  predicate NoPrototypeNames(cats: seq<string>)
  {
    forall i :: 0 <= i < |cats| ==> cats[i] !in PrototypeMembers
  }

  /** When no category is a prototype member, the code counts exactly as
      intended. */
  lemma {:induction false} CountAsWrittenAgrees(cats: seq<string>)
    requires NoPrototypeNames(cats)
    ensures CountOfAsWritten(cats) == AsNumbers(CountOf(cats))
  {
    if cats != [] {
      var init := cats[..|cats| - 1];
      var c := cats[|cats| - 1];
      CountAsWrittenAgrees(init);
      var acc := CountOf(init);
      AsNumbersBump(acc, c);
      AsNumbersPut(acc, c, CountSoFar(acc, c) + 1);
    }
  }

  /** The counting loop as written. */
  method CountCategories(cats: seq<string>) returns (m: Entries<JsValue>)
    ensures m == CountOfAsWritten(cats)
    ensures DistinctKeys(m) && forall c :: Get(m, c) == TallyAsWritten(cats, c)
    ensures NoPrototypeNames(cats) ==> m == AsNumbers(CountOf(cats))
  {
    m := [];
    var i := 0;
    while i < |cats|
      invariant 0 <= i <= |cats|
      invariant m == CountOfAsWritten(cats[..i])
    {
      assert cats[..i + 1][..i] == cats[..i];
      var c := cats[i];
      assert CountOfAsWritten(cats[..i + 1]) == Assign(m, c, BumpAsWritten(m, c));
      var before: JsValue;
      match Read(m, c) {
        case OwnValue(v) => before := if v == Num(0) || v == Text("") then Num(0) else v;
        case InheritedMember(name) => before := Text(MemberText(name));
        case Undefined => before := Num(0);
      }
      var after := if before.Num? then Num(before.n + 1) else Text(before.s + "1");
      assert after == BumpAsWritten(m, c);
      if c != "__proto__" {
        m := Put(m, c, after);
      }
      i := i + 1;
    }
    assert cats[..|cats|] == cats;
    CountAsWrittenSpec(cats);
    if NoPrototypeNames(cats) {
      CountAsWrittenAgrees(cats);
    }
  }

  function SumCounts(m: Entries<int>): int
  {
    if m == [] then 0 else SumCounts(m[..|m| - 1]) + m[|m| - 1].1
  }

  lemma {:induction false} SumAppend(m: Entries<int>, e: (string, int))
    ensures SumCounts(m + [e]) == SumCounts(m) + e.1
  {
    assert (m + [e])[..|m|] == m;
  }

  lemma {:induction false} SumUpdate(m: Entries<int>, i: nat, e: (string, int))
    requires i < |m|
    ensures SumCounts(m[i := e]) == SumCounts(m) - m[i].1 + e.1
  {
    var m' := m[i := e];
    if i < |m| - 1 {
      assert m'[..|m'| - 1] == m[..|m| - 1][i := e];
      SumUpdate(m[..|m| - 1], i, e);
    } else {
      assert m'[..|m'| - 1] == m[..|m| - 1];
    }
  }

  /** `acc` is the count table of `cats`. */
  ghost predicate CountsOf(acc: Entries<int>, cats: seq<string>)
  {
    && DistinctKeys(acc)
    && (forall c :: Get(acc, c) == if Occurrences(cats, c) == 0 then None else Some(Occurrences(cats, c) as int))
    && (forall i :: 0 <= i < |acc| ==> acc[i].1 >= 1)
    && SumCounts(acc) == |cats|
  }

  /** One step of the reduce keeps `acc` the count table of the categories
      read so far. */
  lemma CountStep(acc: Entries<int>, cats: seq<string>, c: string)
    requires CountsOf(acc, cats)
    ensures CountsOf(Put(acc, c, CountSoFar(acc, c) + 1), cats + [c])
  {
    var cats' := cats + [c];
    assert cats'[..|cats'| - 1] == cats;
    var n := CountSoFar(acc, c) + 1;
    PutSpec(acc, c, n);
    var r := Put(acc, c, n);
    var at := IndexOfKey(acc, c);
    if at.Some? {
      assert r == acc[at.value := (c, n)];
      SumUpdate(acc, at.value, (c, n));
      GetAt(acc, at.value);
    } else {
      assert r == acc + [(c, n)];
      SumAppend(acc, (c, n));
    }
    forall i | 0 <= i < |r| ensures r[i].1 >= 1 {
      if r[i].0 != c {
        assert r[i] == acc[i];
      } else {
        GetAt(r, i);
      }
    }
  }

  /** The reduce builds the count table of all the categories. */
  lemma {:induction false} CountsOfAll(cats: seq<string>)
    ensures CountsOf(CountOf(cats), cats)
  {
    if cats != [] {
      var init := cats[..|cats| - 1];
      var c := cats[|cats| - 1];
      var acc := CountOf(init);
      assert cats == init + [c];
      assert CountOf(cats) == Put(acc, c, CountSoFar(acc, c) + 1);
      CountsOfAll(init);
      CountStep(acc, init, c);
    }
  }

  /** Every category maps to its number of products, and only categories
      that occur are keys; so every count is at least one, the keys are
      distinct, and the counts sum to the number of products. */
  lemma CountSpec(cats: seq<string>)
    ensures DistinctKeys(CountOf(cats))
    ensures forall c :: Get(CountOf(cats), c) == if Occurrences(cats, c) == 0 then None else Some(Occurrences(cats, c) as int)
    ensures forall i :: 0 <= i < |CountOf(cats)| ==> CountOf(cats)[i].1 >= 1
    ensures SumCounts(CountOf(cats)) == |cats|
  {
    CountsOfAll(cats);
  }

  function CountKey(e: (string, int)): Rank
  {
    Rank(-e.1, 0)
  }

  /** The categories page's list: the counted categories, most products
      first. */
  function ByCount(m: Entries<int>): (r: Entries<int>)
    ensures multiset(r) == multiset(m)
    ensures forall i, j :: 0 <= i < j < |r| ==> r[i].1 >= r[j].1
  {
    var r := SortBy(m, CountKey);
    assert forall i, j :: 0 <= i < j < |r| ==> RankLe(CountKey(r[i]), CountKey(r[j]));
    r
  }

  /** A permutation of a list without repeated keys has none either. */
  lemma PermutationKeepsDistinct(m: Entries<int>, r: Entries<int>)
    requires DistinctKeys(m) && multiset(r) == multiset(m)
    ensures DistinctKeys(r)
  {
    forall i, j | 0 <= i < |r| && 0 <= j < |r| && i != j ensures r[i].0 != r[j].0 {
      if r[i].0 == r[j].0 {
        assert r[i] in multiset(m) && r[j] in multiset(m);
        var a :| 0 <= a < |m| && m[a] == r[i];
        var b :| 0 <= b < |m| && m[b] == r[j];
        MultisetOnce(m, a);
        MultisetTwice(r, i, j);
      }
    }
  }

  lemma {:induction false} MultisetTwice(r: Entries<int>, i: nat, j: nat)
    requires i < |r| && j < |r| && i != j && r[i] == r[j]
    ensures multiset(r)[r[i]] >= 2
  {
    var lo := if i < j then i else j;
    var hi := if i < j then j else i;
    assert r == r[..lo] + [r[lo]] + r[lo + 1..hi] + [r[hi]] + r[hi + 1..];
  }

  lemma {:induction false} MultisetOnce(m: Entries<int>, a: nat)
    requires DistinctKeys(m) && a < |m|
    ensures multiset(m)[m[a]] == 1
  {
    assert m == m[..a] + [m[a]] + m[a + 1..];
    assert m[a] !in m[..a] by {
      forall k | 0 <= k < a ensures m[..a][k] != m[a] {
        assert m[k].0 != m[a].0;
      }
    }
    var tail := m[a + 1..];
    assert m[a] !in tail by {
      forall k | 0 <= k < |tail| ensures tail[k] != m[a] {
        assert tail[k] == m[a + 1 + k];
      }
    }
  }

  /** The categories page lists each counted category once, with its count,
      most products first. */
  lemma CategoriesPage(cats: seq<string>)
    ensures var r := ByCount(CountOf(cats));
            && DistinctKeys(r)
            && (forall i :: 0 <= i < |r| ==> r[i].1 == Occurrences(cats, r[i].0) as int && r[i].1 >= 1)
            && (forall c :: c in cats ==> HasKey(r, c))
  {
    var m := CountOf(cats);
    var r := ByCount(m);
    CountsOfAll(cats);
    PermutationKeepsDistinct(m, r);
    ListedWithCounts(m, r, cats);
    AllListed(m, r, cats);
  }

  /** A reordering of the count table gives each category its number of
      products. */
  lemma ListedWithCounts(m: Entries<int>, r: Entries<int>, cats: seq<string>)
    requires CountsOf(m, cats) && multiset(r) == multiset(m)
    ensures forall i :: 0 <= i < |r| ==> r[i].1 == Occurrences(cats, r[i].0) as int && r[i].1 >= 1
  {
    forall i | 0 <= i < |r| ensures r[i].1 == Occurrences(cats, r[i].0) as int && r[i].1 >= 1 {
      assert r[i] in multiset(m);
      var a :| 0 <= a < |m| && m[a] == r[i];
      GetAt(m, a);
    }
  }

  /** A reordering of the count table lists every category with products. */
  lemma AllListed(m: Entries<int>, r: Entries<int>, cats: seq<string>)
    requires CountsOf(m, cats) && multiset(r) == multiset(m)
    ensures forall c :: c in cats ==> HasKey(r, c)
  {
    forall c | c in cats ensures HasKey(r, c) {
      OccursCounted(cats, c);
      var a := IndexOfKey(m, c).value;
      assert m[a] in multiset(r);
      var b :| 0 <= b < |r| && r[b] == m[a];
    }
  }

  lemma {:induction false} OccursCounted(cats: seq<string>, c: string)
    requires c in cats
    ensures Occurrences(cats, c) >= 1
  {
    if cats[|cats| - 1] != c {
      var init := cats[..|cats| - 1];
      var k :| 0 <= k < |cats| && cats[k] == c;
      assert init[k] == c;
      OccursCounted(init, c);
    }
  }
}
