/** `calculatePrice`: the first discount whose date range contains `now`
    (both ends included) is the active one; a non-zero percentage takes
    precedence over a non-zero amount, and the amount path never goes below
    zero. Prices are exact reals; times are milliseconds. */
module Price {
  import opened Common

  /** `null` and an absent field are both `None`. */
  datatype Discount = Discount(percentage: Option<real>, amount: Option<real>, startDate: int, endDate: int)

  datatype Priced = Priced(finalPrice: real, originalPrice: Option<real>, discount: Option<Discount>)

  predicate Active(d: Discount, now: int)
  {
    d.startDate <= now <= d.endDate
  }

  /** JavaScript truthiness of an optional number: present and not zero. */
  predicate Truthy(x: Option<real>)
  {
    x.Some? && x.value != 0.0
  }

  /** `discounts.find(...)`: the index of the first active discount. */
  function FindActive(ds: seq<Discount>, now: int): (r: Option<nat>)
    ensures r.Some? ==> r.value < |ds| && Active(ds[r.value], now)
    ensures r.Some? ==> forall j :: 0 <= j < r.value ==> !Active(ds[j], now)
    ensures r.None? <==> forall j :: 0 <= j < |ds| ==> !Active(ds[j], now)
  {
    if ds == [] then None
    else if Active(ds[0], now) then Some(0)
    else
      var r := FindActive(ds[1..], now);
      if r.None? then None else Some(r.value + 1)
  }

  function RealMax(a: real, b: real): real
  {
    if a < b then b else a
  }

  /** The price after one active discount. */
  function Discounted(price: real, d: Discount): real
  {
    if Truthy(d.percentage) then price - (price * d.percentage.value) / 100.0
    else if Truthy(d.amount) then RealMax(0.0, price - d.amount.value)
    else price
  }

  function CalculatePrice(price: real, ds: seq<Discount>, now: int): (r: Priced)
    ensures r.discount.None? <==> forall j :: 0 <= j < |ds| ==> !Active(ds[j], now)
    ensures r.discount.None? ==> r.finalPrice == price && r.originalPrice.None?
    ensures r.discount.Some? ==> r.originalPrice == Some(price) && r.discount.value in ds
                                 && Active(r.discount.value, now)
  {
    var found := FindActive(ds, now);
    if found.None? then Priced(price, None, None)
    else
      var d := ds[found.value];
      Priced(Discounted(price, d), Some(price), Some(d))
  }

  /** The active discount is the first active one in list order, and the
      final price is computed from that one alone. */
  lemma FirstActiveWins(price: real, ds: seq<Discount>, now: int, i: nat)
    requires i < |ds| && Active(ds[i], now)
    requires forall j :: 0 <= j < i ==> !Active(ds[j], now)
    ensures CalculatePrice(price, ds, now) == Priced(Discounted(price, ds[i]), Some(price), Some(ds[i]))
  {
    var found := FindActive(ds, now);
    assert found.Some?;
    assert found.value == i;
  }

  /** A non-zero percentage decides the price whatever the amount says; a
      percentage within [0, 100] keeps a non-negative price within [0, price]. */
  lemma PercentagePath(price: real, d: Discount)
    requires Truthy(d.percentage)
    ensures Discounted(price, d) == price * (100.0 - d.percentage.value) / 100.0
    ensures Discounted(price, d) == Discounted(price, d.(amount := None))
    ensures 0.0 <= price && 0.0 <= d.percentage.value <= 100.0 ==> 0.0 <= Discounted(price, d) <= price
  {
    var p := d.percentage.value;
    if 0.0 <= price && 0.0 <= p <= 100.0 {
      assert price * p <= price * 100.0;
      assert 0.0 <= price * p;
      assert (price * p) / 100.0 <= price;
      assert 0.0 <= (price * p) / 100.0;
      assert Discounted(price, d) == price - (price * p) / 100.0;
    }
  }

  /** Without a usable percentage a non-zero amount is subtracted, with zero
      as the floor; for a non-negative amount and price the result lies in
      [0, price]. */
  lemma AmountPath(price: real, d: Discount)
    requires !Truthy(d.percentage) && Truthy(d.amount)
    ensures Discounted(price, d) == RealMax(0.0, price - d.amount.value)
    ensures Discounted(price, d) >= 0.0
    ensures 0.0 <= price && 0.0 <= d.amount.value ==> Discounted(price, d) <= price
    ensures d.amount.value >= price ==> Discounted(price, d) == 0.0
  {
  }

  /** An active discount with neither field set still counts as a discount:
      the price is unchanged but reported as the original price. */
  lemma EmptyDiscountStillReported(price: real, ds: seq<Discount>, now: int)
    requires |ds| >= 1 && Active(ds[0], now)
    requires !Truthy(ds[0].percentage) && !Truthy(ds[0].amount)
    ensures CalculatePrice(price, ds, now) == Priced(price, Some(price), Some(ds[0]))
  {
  }

  /** Both ends of the date range are included. */
  lemma RangeInclusive(price: real, d: Discount)
    requires d.startDate <= d.endDate
    ensures CalculatePrice(price, [d], d.startDate).discount == Some(d)
    ensures CalculatePrice(price, [d], d.endDate).discount == Some(d)
    ensures CalculatePrice(price, [d], d.endDate + 1).discount.None?
    ensures CalculatePrice(price, [d], d.startDate - 1).discount.None?
  {
  }
}
