/** The sales report: the order lines of orders not cancelled whose product
    title contains the search text (ignoring case) are aggregated per
    product into quantity sold and revenue; the products are listed by
    descending revenue, beside the overall revenue and item count. */
module Analytics {
  import opened Common
  import opened Records
  import opened Sorting

  const Cancelled: string := "CANCELLED"

  /** An order line with the product and order fields the report reads. */
  datatype SaleItem = SaleItem(productId: string, quantity: int, price: int, title: string,
                               imageUrl: string, category: string, orderStatus: string)

  datatype Stats = Stats(id: string, title: string, imageUrl: string, quantitySold: int,
                         totalRevenue: int, category: string)

  /** `q?.toLowerCase() || ""`. */
  function SearchQuery(q: Option<string>): (r: string)
    ensures q.None? ==> r == ""
    ensures q.Some? ==> |r| == |q.value| && forall i :: 0 <= i < |r| ==> r[i] == LowerChar(q.value[i])
  {
    if q.None? then "" else ToLower(q.value)
  }

  /** The line filter: the order is not cancelled and the title contains the
      lower-cased query, ignoring case. */
  predicate Selected(item: SaleItem, query: string)
  {
    item.orderStatus != Cancelled && Contains(ToLower(item.title), query)
  }

  function Select(items: seq<SaleItem>, query: string): (r: seq<SaleItem>)
    ensures forall x :: x in r <==> x in items && Selected(x, query)
    ensures forall x :: multiset(r)[x] == if Selected(x, query) then multiset(items)[x] else 0
  {
    if items == [] then []
    else
      assert items == [items[0]] + items[1..];
      if Selected(items[0], query) then [items[0]] + Select(items[1..], query)
      else Select(items[1..], query)
  }

  /** The filter keeps order: filtering two runs of lines one after the
      other gives the two filtered runs one after the other. */
  lemma {:induction false} SelectAppend(a: seq<SaleItem>, b: seq<SaleItem>, query: string)
    ensures Select(a + b, query) == Select(a, query) + Select(b, query)
  {
    if a == [] {
      assert a + b == b;
    } else {
      assert (a + b)[0] == a[0];
      assert (a + b)[1..] == a[1..] + b;
      SelectAppend(a[1..], b, query);
    }
  }

  /** An empty query keeps every line of an order that is not cancelled. */
  lemma EmptyQueryKeepsAll(items: seq<SaleItem>)
    ensures forall x :: x in Select(items, SearchQuery(None)) <==> x in items && x.orderStatus != Cancelled
  {
    forall x | x in items ensures Contains(ToLower(x.title), "") {
      assert OccursAt(ToLower(x.title), "", 0);
    }
  }

  function Revenue(item: SaleItem): int
  {
    item.price * item.quantity
  }

  /** One step of the `productStats` reduce. */
  function Step(acc: Entries<Stats>, item: SaleItem): Entries<Stats>
  {
    var id := item.productId;
    var cur := Get(acc, id);
    var s := if cur.Some? then cur.value else Stats(id, item.title, item.imageUrl, 0, 0, item.category);
    Put(acc, id, s.(quantitySold := s.quantitySold + item.quantity, totalRevenue := s.totalRevenue + Revenue(item)))
  }

  function StatsOf(items: seq<SaleItem>): Entries<Stats>
  {
    if items == [] then [] else Step(StatsOf(items[..|items| - 1]), items[|items| - 1])
  }

  method Aggregate(items: seq<SaleItem>) returns (acc: Entries<Stats>)
    ensures acc == StatsOf(items)
  {
    acc := [];
    var i := 0;
    while i < |items|
      invariant 0 <= i <= |items|
      invariant acc == StatsOf(items[..i])
    {
      assert items[..i + 1][..i] == items[..i];
      var item := items[i];
      var cur := Get(acc, item.productId);
      var s := if cur.Some? then cur.value else Stats(item.productId, item.title, item.imageUrl, 0, 0, item.category);
      s := s.(quantitySold := s.quantitySold + item.quantity);
      s := s.(totalRevenue := s.totalRevenue + Revenue(item));
      acc := Put(acc, item.productId, s);
      i := i + 1;
    }
    assert items[..|items|] == items;
  }

  function QuantityOf(items: seq<SaleItem>, id: string): int
  {
    if items == [] then 0
    else QuantityOf(items[..|items| - 1], id) + (if items[|items| - 1].productId == id then items[|items| - 1].quantity else 0)
  }

  function RevenueOf(items: seq<SaleItem>, id: string): int
  {
    if items == [] then 0
    else RevenueOf(items[..|items| - 1], id) + (if items[|items| - 1].productId == id then Revenue(items[|items| - 1]) else 0)
  }

  /** The first line for a product, in the order the lines are read. */
  function FirstOf(items: seq<SaleItem>, id: string): (r: Option<SaleItem>)
    ensures r.Some? ==> r.value in items && r.value.productId == id
    ensures r.Some? ==> exists k :: 0 <= k < |items| && items[k] == r.value && NoneBefore(items, id, k)
    ensures r.None? <==> forall i :: 0 <= i < |items| ==> items[i].productId != id
  {
    if items == [] then None
    else
      var init := items[..|items| - 1];
      var r := FirstOf(init, id);
      assert forall i :: 0 <= i < |init| ==> init[i] == items[i];
      if r.Some? then
        ghost var k :| 0 <= k < |init| && init[k] == r.value && NoneBefore(init, id, k);
        assert items[k] == r.value && NoneBefore(items, id, k);
        r
      else if items[|items| - 1].productId == id then
        assert NoneBefore(items, id, |items| - 1);
        Some(items[|items| - 1])
      else None
  }

  /** No line before position `k` is for product `id`. */
  predicate NoneBefore(items: seq<SaleItem>, id: string, k: int)
  {
    forall j :: 0 <= j < k && j < |items| ==> items[j].productId != id
  }

  /** The entry `acc` holds for `id` has the sums over `items` and the
      fields of the first line for `id`. */
  predicate Agrees(acc: Entries<Stats>, items: seq<SaleItem>, id: string)
  {
    var s := Get(acc, id);
    var f := FirstOf(items, id);
    && s.Some? && f.Some?
    && s.value.id == id && s.value.title == f.value.title && s.value.imageUrl == f.value.imageUrl
    && s.value.category == f.value.category
    && s.value.quantitySold == QuantityOf(items, id) && s.value.totalRevenue == RevenueOf(items, id)
  }

  /** `acc` is the report of `items`. */
  ghost predicate Reports(acc: Entries<Stats>, items: seq<SaleItem>)
  {
    && DistinctKeys(acc)
    && (forall id :: Get(acc, id).Some? <==> FirstOf(items, id).Some?)
    && (forall id :: Get(acc, id).Some? ==> Agrees(acc, items, id))
  }

  /** One step of the reduce keeps `acc` the report of the lines read so far. */
  lemma StepReports(acc: Entries<Stats>, items: seq<SaleItem>, item: SaleItem)
    requires Reports(acc, items)
    ensures Reports(Step(acc, item), items + [item])
  {
    var items' := items + [item];
    assert items'[..|items'| - 1] == items;
    var cur := Get(acc, item.productId);
    var s := if cur.Some? then cur.value else Stats(item.productId, item.title, item.imageUrl, 0, 0, item.category);
    var s' := s.(quantitySold := s.quantitySold + item.quantity, totalRevenue := s.totalRevenue + Revenue(item));
    assert Step(acc, item) == Put(acc, item.productId, s');
    PutSpec(acc, item.productId, s');
    if cur.None? {
      ZeroWithoutLines(items, item.productId);
    }
    forall id | Get(Step(acc, item), id).Some? ensures Agrees(Step(acc, item), items', id) {
      if id != item.productId {
        assert Get(Step(acc, item), id) == Get(acc, id);
        assert Agrees(acc, items, id);
      }
    }
  }

  /** Each product with a line has one entry, keyed by its id, whose
      quantity and revenue are the sums over its lines and whose title,
      image and category are those of its first line; no other key appears. */
  lemma {:induction false} StatsSpec(items: seq<SaleItem>)
    ensures DistinctKeys(StatsOf(items))
    ensures forall id :: Get(StatsOf(items), id).Some? <==> FirstOf(items, id).Some?
    ensures forall id :: Get(StatsOf(items), id).Some? ==> EntryAgrees(items, id)
  {
    if items != [] {
      var init := items[..|items| - 1];
      StatsSpec(init);
      assert Reports(StatsOf(init), init);
      StepReports(StatsOf(init), init, items[|items| - 1]);
      assert items == init + [items[|items| - 1]];
    }
  }

  /** The entry for `id` has the sums and the first line's fields. */
  predicate EntryAgrees(items: seq<SaleItem>, id: string)
  {
    Agrees(StatsOf(items), items, id)
  }

  lemma {:induction false} ZeroWithoutLines(items: seq<SaleItem>, id: string)
    requires FirstOf(items, id).None?
    ensures QuantityOf(items, id) == 0 && RevenueOf(items, id) == 0
  {
    if items != [] {
      var init := items[..|items| - 1];
      assert forall i :: 0 <= i < |init| ==> init[i] == items[i];
      ZeroWithoutLines(init, id);
    }
  }

  function TotalRevenue(items: seq<SaleItem>): int
  {
    if items == [] then 0 else TotalRevenue(items[..|items| - 1]) + Revenue(items[|items| - 1])
  }

  function TotalItemsSold(items: seq<SaleItem>): int
  {
    if items == [] then 0 else TotalItemsSold(items[..|items| - 1]) + items[|items| - 1].quantity
  }

  function SoldOf(s: Stats): int
  {
    s.quantitySold
  }

  function RevenueOfStats(s: Stats): int
  {
    s.totalRevenue
  }

  lemma StepRevenue(acc: Entries<Stats>, item: SaleItem)
    ensures SumBy(Step(acc, item), RevenueOfStats) == SumBy(acc, RevenueOfStats) + Revenue(item)
  {
    var cur := Get(acc, item.productId);
    var s := if cur.Some? then cur.value else Stats(item.productId, item.title, item.imageUrl, 0, 0, item.category);
    var s' := s.(quantitySold := s.quantitySold + item.quantity, totalRevenue := s.totalRevenue + Revenue(item));
    assert Step(acc, item) == Put(acc, item.productId, s');
    SumByPut(acc, item.productId, s', RevenueOfStats);
  }

  lemma StepSold(acc: Entries<Stats>, item: SaleItem)
    ensures SumBy(Step(acc, item), SoldOf) == SumBy(acc, SoldOf) + item.quantity
  {
    var cur := Get(acc, item.productId);
    var s := if cur.Some? then cur.value else Stats(item.productId, item.title, item.imageUrl, 0, 0, item.category);
    var s' := s.(quantitySold := s.quantitySold + item.quantity, totalRevenue := s.totalRevenue + Revenue(item));
    assert Step(acc, item) == Put(acc, item.productId, s');
    SumByPut(acc, item.productId, s', SoldOf);
  }

  /** The overall figures agree with the per-product ones: the revenue is
      the sum of the products' revenues and the item count the sum of their
      quantities. */
  lemma {:induction false} TotalsAgree(items: seq<SaleItem>)
    ensures TotalRevenue(items) == SumBy(StatsOf(items), RevenueOfStats)
    ensures TotalItemsSold(items) == SumBy(StatsOf(items), SoldOf)
  {
    if items != [] {
      var init := items[..|items| - 1];
      TotalsAgree(init);
      StepRevenue(StatsOf(init), items[|items| - 1]);
      StepSold(StatsOf(init), items[|items| - 1]);
    }
  }

  /** `Object.values(productStats)`. */
  function Values(es: Entries<Stats>): (r: seq<Stats>)
    ensures |r| == |es| && forall i :: 0 <= i < |es| ==> r[i] == es[i].1
  {
    if es == [] then [] else [es[0].1] + Values(es[1..])
  }

  function RevenueKey(s: Stats): Rank
  {
    Rank(-s.totalRevenue, 0)
  }

  /** `sortedProducts`: the products, highest revenue first. */
  function SortedProducts(items: seq<SaleItem>): (r: seq<Stats>)
    ensures multiset(r) == multiset(Values(StatsOf(items)))
    ensures forall i, j :: 0 <= i < j < |r| ==> r[i].totalRevenue >= r[j].totalRevenue
  {
    var r := SortBy(Values(StatsOf(items)), RevenueKey);
    assert forall i, j :: 0 <= i < j < |r| ==> RankLe(RevenueKey(r[i]), RevenueKey(r[j]));
    r
  }
}
