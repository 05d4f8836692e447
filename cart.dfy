/** The shopping cart held by the cart provider: a list of lines keyed by
    product id and variant. Adding a line whose key is present raises the
    quantity of the lines with that key; adding a new key appends; removing
    drops the lines with that key; the total is the sum of price times
    quantity. Prices and quantities are whole numbers (dinars, units). */
module Cart {
  import opened Common

  datatype CartItem = CartItem(productId: string, title: string, price: int, imageUrl: string,
                               quantity: int, variant: Option<string>)

  /** The line key: the same product and the same variant (both absent counts
      as the same). */
  predicate SameLine(i: CartItem, productId: string, variant: Option<string>)
  {
    i.productId == productId && i.variant == variant
  }

  /** No two lines share a key. */
  predicate DistinctKeys(items: seq<CartItem>)
  {
    forall a, b :: 0 <= a < b < |items| ==> !SameLine(items[b], items[a].productId, items[a].variant)
  }

  predicate HasLine(items: seq<CartItem>, productId: string, variant: Option<string>)
  {
    exists i :: 0 <= i < |items| && SameLine(items[i], productId, variant)
  }

  /** `total`: the sum of price times quantity over the lines. */
  function Total(items: seq<CartItem>): int
  {
    if items == [] then 0 else items[0].price * items[0].quantity + Total(items[1..])
  }

  /** The sum of the prices of the lines with a key. */
  function KeyPrice(items: seq<CartItem>, productId: string, variant: Option<string>): int
  {
    if items == [] then 0
    else (if SameLine(items[0], productId, variant) then items[0].price else 0) + KeyPrice(items[1..], productId, variant)
  }

  /** The `map` branch of `addItem`: every line with the key gets the added
      quantity, every other line stays. */
  function Bump(items: seq<CartItem>, added: CartItem): (r: seq<CartItem>)
    ensures |r| == |items|
    ensures forall i :: 0 <= i < |items| && SameLine(items[i], added.productId, added.variant) ==>
              r[i] == items[i].(quantity := items[i].quantity + added.quantity)
    ensures forall i :: 0 <= i < |items| && !SameLine(items[i], added.productId, added.variant) ==>
              r[i] == items[i]
  {
    if items == [] then []
    else
      var head := if SameLine(items[0], added.productId, added.variant)
                  then items[0].(quantity := items[0].quantity + added.quantity)
                  else items[0];
      [head] + Bump(items[1..], added)
  }

  function AddItem(items: seq<CartItem>, added: CartItem): (r: seq<CartItem>)
    ensures HasLine(r, added.productId, added.variant)
  {
    if HasLine(items, added.productId, added.variant) then
      var i :| 0 <= i < |items| && SameLine(items[i], added.productId, added.variant);
      assert SameLine(Bump(items, added)[i], added.productId, added.variant);
      Bump(items, added)
    else
      assert SameLine((items + [added])[|items|], added.productId, added.variant);
      items + [added]
  }

  /** `removeItem`: the lines without that key, in their order. */
  function RemoveItem(items: seq<CartItem>, productId: string, variant: Option<string>): (r: seq<CartItem>)
    ensures |r| <= |items|
    ensures forall x :: x in r <==> x in items && !SameLine(x, productId, variant)
  {
    if items == [] then []
    else if SameLine(items[0], productId, variant) then RemoveItem(items[1..], productId, variant)
    else [items[0]] + RemoveItem(items[1..], productId, variant)
  }

  /** The lines with that key, in their order. */
  function KeepItem(items: seq<CartItem>, productId: string, variant: Option<string>): seq<CartItem>
  {
    if items == [] then []
    else if SameLine(items[0], productId, variant) then [items[0]] + KeepItem(items[1..], productId, variant)
    else KeepItem(items[1..], productId, variant)
  }

  /** `clearCart`. */
  function ClearCart(): (r: seq<CartItem>)
    ensures |r| == 0 && Total(r) == 0
  {
    []
  }

  /** Adding an existing key changes only the quantities of the lines with
      that key: the length, the order, the prices and every other line stay. */
  lemma AddExisting(items: seq<CartItem>, added: CartItem)
    requires HasLine(items, added.productId, added.variant)
    ensures var r := AddItem(items, added);
            && |r| == |items|
            && (forall i :: 0 <= i < |items| ==>
                  r[i].price == items[i].price && r[i].productId == items[i].productId
                  && r[i].variant == items[i].variant && r[i].title == items[i].title)
            && (forall i :: 0 <= i < |items| && SameLine(items[i], added.productId, added.variant) ==>
                  r[i].quantity == items[i].quantity + added.quantity)
            && (forall i :: 0 <= i < |items| && !SameLine(items[i], added.productId, added.variant) ==> r[i] == items[i])
  {
  }

  /** Adding a new key appends the line as given. */
  lemma AddNew(items: seq<CartItem>, added: CartItem)
    requires !HasLine(items, added.productId, added.variant)
    ensures AddItem(items, added) == items + [added]
  {
  }

  /** Adding keeps the keys distinct. */
  lemma AddKeepsDistinct(items: seq<CartItem>, added: CartItem)
    requires DistinctKeys(items)
    ensures DistinctKeys(AddItem(items, added))
  {
    var r := AddItem(items, added);
    if HasLine(items, added.productId, added.variant) {
      forall a, b | 0 <= a < b < |r| ensures !SameLine(r[b], r[a].productId, r[a].variant) {
        assert !SameLine(items[b], items[a].productId, items[a].variant);
      }
    } else {
      forall a, b | 0 <= a < b < |r| ensures !SameLine(r[b], r[a].productId, r[a].variant) {
        if b == |items| {
          assert !SameLine(items[a], added.productId, added.variant);
        } else {
          assert !SameLine(items[b], items[a].productId, items[a].variant);
        }
      }
    }
  }

  lemma {:induction false} TotalAppend(a: seq<CartItem>, b: seq<CartItem>)
    ensures Total(a + b) == Total(a) + Total(b)
  {
    if a != [] {
      assert (a + b)[0] == a[0] && (a + b)[1..] == a[1..] + b;
      TotalAppend(a[1..], b);
      assert Total(a + b) == a[0].price * a[0].quantity + Total(a[1..] + b);
    } else {
      assert a + b == b;
    }
  }

  lemma {:induction false} BumpTotal(items: seq<CartItem>, added: CartItem)
    ensures Total(Bump(items, added)) == Total(items) + KeyPrice(items, added.productId, added.variant) * added.quantity
  {
    if items != [] {
      var r := Bump(items, added);
      assert r[1..] == Bump(items[1..], added);
      BumpTotal(items[1..], added);
      var k := KeyPrice(items[1..], added.productId, added.variant);
      if SameLine(items[0], added.productId, added.variant) {
        assert r[0].price * r[0].quantity == items[0].price * items[0].quantity + items[0].price * added.quantity;
        assert (items[0].price + k) * added.quantity == items[0].price * added.quantity + k * added.quantity;
      }
    }
  }

  lemma {:induction false} KeyPriceOfDistinct(items: seq<CartItem>, i: nat)
    requires DistinctKeys(items) && i < |items|
    ensures KeyPrice(items, items[i].productId, items[i].variant) == items[i].price
  {
    if i == 0 {
      NoOtherLine(items[1..], items[0].productId, items[0].variant, items) ;
    } else {
      assert !SameLine(items[i], items[0].productId, items[0].variant);
      assert DistinctKeys(items[1..]) by {
        forall a, b | 0 <= a < b < |items| - 1 ensures !SameLine(items[1..][b], items[1..][a].productId, items[1..][a].variant) {
          assert !SameLine(items[b + 1], items[a + 1].productId, items[a + 1].variant);
        }
      }
      assert items[1..][i - 1] == items[i];
      KeyPriceOfDistinct(items[1..], i - 1);
    }
  }

  lemma {:induction false} NoOtherLine(tail: seq<CartItem>, productId: string, variant: Option<string>, items: seq<CartItem>)
    requires DistinctKeys(items) && |items| >= 1 && tail == items[1..]
    requires productId == items[0].productId && variant == items[0].variant
    ensures KeyPrice(tail, productId, variant) == 0
    decreases |tail|
  {
    if tail != [] {
      assert !SameLine(items[1], items[0].productId, items[0].variant);
      var items' := [items[0]] + items[2..];
      assert DistinctKeys(items') by {
        forall a, b | 0 <= a < b < |items'| ensures !SameLine(items'[b], items'[a].productId, items'[a].variant) {
          var a0 := if a == 0 then 0 else a + 1;
          assert items'[a] == items[a0] && items'[b] == items[b + 1];
        }
      }
      assert tail[1..] == items'[1..];
      NoOtherLine(tail[1..], productId, variant, items');
    }
  }

  /** Adding a new key adds that line's price times quantity to the total. */
  lemma AddNewTotal(items: seq<CartItem>, added: CartItem)
    requires !HasLine(items, added.productId, added.variant)
    ensures Total(AddItem(items, added)) == Total(items) + added.price * added.quantity
  {
    TotalAppend(items, [added]);
    assert Total([added]) == added.price * added.quantity + Total([]);
  }

  /** Adding an existing key adds the added quantity at the price of the line
      already in the cart, not at the price carried by the new item. */
  lemma AddExistingTotal(items: seq<CartItem>, added: CartItem, i: nat)
    requires DistinctKeys(items) && i < |items| && SameLine(items[i], added.productId, added.variant)
    ensures Total(AddItem(items, added)) == Total(items) + items[i].price * added.quantity
  {
    assert AddItem(items, added) == Bump(items, added);
    BumpTotal(items, added);
    KeyPriceOfDistinct(items, i);
  }

  /** Removing splits the cart: the kept lines and the removed lines
      together carry the whole total, and a cart without the key is left as
      it is. */
  lemma {:induction false} RemoveTotal(items: seq<CartItem>, productId: string, variant: Option<string>)
    ensures Total(items) == Total(RemoveItem(items, productId, variant)) + Total(KeepItem(items, productId, variant))
    ensures !HasLine(items, productId, variant) ==> RemoveItem(items, productId, variant) == items
    ensures forall x :: x in KeepItem(items, productId, variant) ==> SameLine(x, productId, variant)
  {
    if items != [] {
      RemoveTotal(items[1..], productId, variant);
      if !HasLine(items, productId, variant) {
        assert !HasLine(items[1..], productId, variant) by {
          forall i | 0 <= i < |items| - 1 ensures !SameLine(items[1..][i], productId, variant) {
            assert items[1..][i] == items[i + 1];
          }
        }
        assert !SameLine(items[0], productId, variant);
        assert items == [items[0]] + items[1..];
      }
    }
  }

  /** Removing preserves the order of the lines it keeps: it distributes over
      concatenation. */
  lemma {:induction false} RemoveAppend(a: seq<CartItem>, b: seq<CartItem>, productId: string, variant: Option<string>)
    ensures RemoveItem(a + b, productId, variant) == RemoveItem(a, productId, variant) + RemoveItem(b, productId, variant)
  {
    if a != [] {
      assert (a + b)[1..] == a[1..] + b;
      RemoveAppend(a[1..], b, productId, variant);
    } else {
      assert a + b == b;
    }
  }

  /** Removing keeps the keys distinct and leaves no line with the key. */
  lemma RemoveKeepsDistinct(items: seq<CartItem>, productId: string, variant: Option<string>)
    requires DistinctKeys(items)
    ensures DistinctKeys(RemoveItem(items, productId, variant))
    ensures !HasLine(RemoveItem(items, productId, variant), productId, variant)
  {
    var r := RemoveItem(items, productId, variant);
    RemoveSub(items, productId, variant);
    assert !HasLine(r, productId, variant) by {
      forall i | 0 <= i < |r| ensures !SameLine(r[i], productId, variant) {
        assert r[i] in r;
      }
    }
  }

  lemma {:induction false} RemoveSub(items: seq<CartItem>, productId: string, variant: Option<string>)
    requires DistinctKeys(items)
    ensures DistinctKeys(RemoveItem(items, productId, variant))
  {
    if items != [] {
      assert DistinctKeys(items[1..]) by {
        forall a, b | 0 <= a < b < |items| - 1 ensures !SameLine(items[1..][b], items[1..][a].productId, items[1..][a].variant) {
          assert !SameLine(items[b + 1], items[a + 1].productId, items[a + 1].variant);
        }
      }
      RemoveSub(items[1..], productId, variant);
      var rest := RemoveItem(items[1..], productId, variant);
      if !SameLine(items[0], productId, variant) {
        var r := [items[0]] + rest;
        forall a, b | 0 <= a < b < |r| ensures !SameLine(r[b], r[a].productId, r[a].variant) {
          if a == 0 {
            assert r[b] in rest;
            assert r[b] in items[1..];
            var j :| 0 <= j < |items| - 1 && items[1..][j] == r[b];
            assert !SameLine(items[j + 1], items[0].productId, items[0].variant);
          } else {
            assert r[a] == rest[a - 1] && r[b] == rest[b - 1];
          }
        }
      }
    }
  }
}
