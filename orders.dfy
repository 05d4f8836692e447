/** The shop's server actions: placing an order (the buyer, the stock check,
    the total, the price snapshot and the stock decrement) and the role
    gates on the product, user and order mutations. Prices are whole dinars. */
module Orders {
  import opened Common
  import opened Store

  const SuperAdmin: string := "SUPER_ADMIN"
  const PendingPayment: string := "PENDING_PAYMENT"
  const GuestEmail: string := "guest@example.com"

  /** `variants` holds the parsed document, represented here by its text. */
  datatype Product = Product(title: string, description: string, price: int, stock: int,
                             category: string, imageUrl: string, variants: Option<string>)

  /** One requested line of a checkout. */
  datatype Line = Line(productId: string, quantity: int)

  /** One stored order line, with the price it was sold at. */
  datatype OrderItem = OrderItem(productId: string, quantity: int, price: int)

  datatype Order = Order(userId: string, total: int, status: string, paymentPhoneNumber: string,
                         shippingAddress: string, recipientName: string, items: seq<OrderItem>)

  datatype OrderOutcome = OutOfStock(name: string) | Placed(orderId: string)

  /** `Failed` is a database call throwing on a missing row or a taken e-mail. */
  datatype AdminOutcome = Unauthorized | Failed | Done

  /** The guest account checkout falls back to without a session. */
  function GuestUser(id: string): User
  {
    User(id, GuestEmail, "Guest User", "guest", "USER", false, false, None)
  }

  datatype Buyer = Buyer(users: seq<User>, userId: string)

  /** The buyer: the session user, or else the first user with the guest
      address, created with `guestId` when there is none. */
  function BuyerOf(users: seq<User>, sessionUserId: string, guestId: string): (b: Buyer)
    ensures sessionUserId != "" ==> b == Buyer(users, sessionUserId)
    ensures sessionUserId == "" ==> exists i :: 0 <= i < |b.users| && b.users[i].id == b.userId && b.users[i].email == GuestEmail
    ensures b.users == users || b.users == users + [GuestUser(guestId)]
  {
    if sessionUserId != "" then Buyer(users, sessionUserId)
    else
      var at := FindUser(users, ByEmail(GuestEmail));
      if at.Some? then Buyer(users, users[at.value].id)
      else
        assert (users + [GuestUser(guestId)])[|users|] == GuestUser(guestId);
        Buyer(users + [GuestUser(guestId)], guestId)
  }

  predicate LineOk(products: map<string, Product>, line: Line)
  {
    line.productId in products && products[line.productId].stock >= line.quantity
  }

  /** Every line names a product whose stock before the order covers that
      line on its own. */
  predicate StockOk(products: map<string, Product>, items: seq<Line>)
  {
    forall i :: 0 <= i < |items| ==> LineOk(products, items[i])
  }

  /** The position of the first line that fails the stock check. */
  function FirstBadLine(products: map<string, Product>, items: seq<Line>): (r: Option<nat>)
    ensures r.None? <==> StockOk(products, items)
    ensures r.Some? ==> r.value < |items| && !LineOk(products, items[r.value])
                        && StockOk(products, items[..r.value])
  {
    if items == [] then None
    else if !LineOk(products, items[0]) then Some(0)
    else
      var r := FirstBadLine(products, items[1..]);
      if r.None? then
        assert forall i :: 1 <= i < |items| ==> items[i] == items[1..][i - 1];
        None
      else
        assert forall i :: 1 <= i < r.value + 1 ==> items[i] == items[1..][..r.value][i - 1];
        Some(r.value + 1)
  }

  /** The name in the error: the product's title, or `Unknown` when the
      product is missing or its title is empty. */
  function FailureName(products: map<string, Product>, line: Line): string
  {
    if line.productId in products && products[line.productId].title != "" then products[line.productId].title
    else "Unknown"
  }

  /** Σ price × quantity over the lines, at the products' current prices. */
  function OrderTotal(products: map<string, Product>, items: seq<Line>): int
    requires StockOk(products, items)
  {
    if items == [] then 0
    else
      var last := items[|items| - 1];
      OrderTotal(products, items[..|items| - 1]) + products[last.productId].price * last.quantity
  }

  /** The stored order lines: each line with its product's price at the time. */
  function Snapshots(products: map<string, Product>, items: seq<Line>): (r: seq<OrderItem>)
    requires StockOk(products, items)
    ensures |r| == |items|
    ensures forall i :: 0 <= i < |items| ==>
              r[i] == OrderItem(items[i].productId, items[i].quantity, products[items[i].productId].price)
  {
    if items == [] then []
    else
      var last := items[|items| - 1];
      Snapshots(products, items[..|items| - 1]) + [OrderItem(last.productId, last.quantity, products[last.productId].price)]
  }

  /** The sum of an order's stored lines. */
  function ItemsTotal(data: seq<OrderItem>): int
  {
    if data == [] then 0 else ItemsTotal(data[..|data| - 1]) + data[|data| - 1].price * data[|data| - 1].quantity
  }

  /** The stock updates, one per line in order. */
  function Decrement(products: map<string, Product>, items: seq<Line>): (r: map<string, Product>)
    requires forall i :: 0 <= i < |items| ==> items[i].productId in products
    ensures r.Keys == products.Keys
  {
    if items == [] then products
    else
      var last := items[|items| - 1];
      var before := Decrement(products, items[..|items| - 1]);
      before[last.productId := before[last.productId].(stock := before[last.productId].stock - last.quantity)]
  }

  /** The total quantity the lines request of one product. */
  function Requested(items: seq<Line>, id: string): int
  {
    if items == [] then 0
    else Requested(items[..|items| - 1], id) + (if items[|items| - 1].productId == id then items[|items| - 1].quantity else 0)
  }

  /** After the decrement every product has lost exactly the quantity the
      lines request of it, summed over duplicate lines; nothing else about a
      product changes. */
  lemma {:induction false} DecrementSpec(products: map<string, Product>, items: seq<Line>)
    requires forall i :: 0 <= i < |items| ==> items[i].productId in products
    ensures forall id :: id in products ==>
              Decrement(products, items)[id] == products[id].(stock := products[id].stock - Requested(items, id))
  {
    if items != [] {
      var init := items[..|items| - 1];
      assert forall i :: 0 <= i < |init| ==> init[i] == items[i];
      DecrementSpec(products, init);
    }
  }

  /** The order's total is the sum of its stored lines. */
  lemma {:induction false} TotalOfSnapshots(products: map<string, Product>, items: seq<Line>)
    requires StockOk(products, items)
    ensures OrderTotal(products, items) == ItemsTotal(Snapshots(products, items))
  {
    if items != [] {
      var init := items[..|items| - 1];
      assert forall i :: 0 <= i < |init| ==> init[i] == items[i];
      TotalOfSnapshots(products, init);
      var s := Snapshots(products, items);
      assert s[..|s| - 1] == Snapshots(products, init);
    }
  }

  /** The check compares each line with the stock before the order, so two
      lines for the same product that each fit pass together and overdraw
      the stock. */
  lemma DuplicateLinesOverdraw()
    ensures var products := map["p" := Product("Shirt", "", 10, 1, "Men", "", None)];
            var items := [Line("p", 1), Line("p", 1)];
            && StockOk(products, items)
            && Decrement(products, items)["p"].stock == -1
  {
    var products := map["p" := Product("Shirt", "", 10, 1, "Men", "", None)];
    var items := [Line("p", 1), Line("p", 1)];
    DecrementSpec(products, items);
    assert items[..1] == [Line("p", 1)] && [Line("p", 1)][..0] == [];
    assert Requested(items, "p") == 2;
  }

  predicate DistinctProducts(items: seq<Line>)
  {
    forall i, j :: 0 <= i < j < |items| ==> items[i].productId != items[j].productId
  }

  lemma {:induction false} RequestedOfDistinct(items: seq<Line>, i: nat)
    requires DistinctProducts(items) && i < |items|
    ensures Requested(items, items[i].productId) == items[i].quantity
  {
    var id := items[i].productId;
    var init := items[..|items| - 1];
    assert forall j :: 0 <= j < |init| ==> init[j] == items[j];
    if i == |items| - 1 {
      RequestedAbsent(init, id);
    } else {
      RequestedOfDistinct(init, i);
    }
  }

  lemma {:induction false} RequestedAbsent(items: seq<Line>, id: string)
    requires forall i :: 0 <= i < |items| ==> items[i].productId != id
    ensures Requested(items, id) == 0
  {
    if items != [] {
      var init := items[..|items| - 1];
      assert forall i :: 0 <= i < |init| ==> init[i] == items[i];
      RequestedAbsent(init, id);
    }
  }

  /** When no product appears on two lines, a passed check leaves no
      requested product with negative stock. */
  lemma DistinctLinesKeepStock(products: map<string, Product>, items: seq<Line>)
    requires StockOk(products, items) && DistinctProducts(items)
    ensures forall i :: 0 <= i < |items| ==> Decrement(products, items)[items[i].productId].stock >= 0
  {
    DecrementSpec(products, items);
    forall i | 0 <= i < |items| ensures Decrement(products, items)[items[i].productId].stock >= 0 {
      RequestedOfDistinct(items, i);
      assert LineOk(products, items[i]);
    }
  }

  /** `updateOrderStatus` admits any role but a missing one and `USER`. */
  predicate MayUpdateStatus(role: Option<string>)
  {
    role.Some? && role.value != "" && role.value != "USER"
  }

  /** The status gate is wider than the super-admin gate: every role other
      than `USER`, known or not, may set any status. */
  lemma StatusGateExamples()
    ensures MayUpdateStatus(Some(SuperAdmin)) && MayUpdateStatus(Some("ADMIN")) && MayUpdateStatus(Some("AUDITOR"))
    ensures MayUpdateStatus(Some("anything"))
    ensures !MayUpdateStatus(Some("USER")) && !MayUpdateStatus(Some("")) && !MayUpdateStatus(None)
    ensures forall role :: role == Some(SuperAdmin) ==> MayUpdateStatus(role)
  {
  }

  /** The `variants` field: empty text and text that does not parse both
      store no variants instead of failing. */
  function Variants(text: string, parses: bool): (v: Option<string>)
    ensures v.Some? <==> text != "" && parses
    ensures v.Some? ==> v.value == text
  {
    if text != "" && parses then Some(text) else None
  }

  class Shop {
    var products: map<string, Product>
    var orders: map<string, Order>
    var users: seq<User>

    constructor ()
      ensures products == map[] && orders == map[] && users == []
    {
      products := map[];
      orders := map[];
      users := [];
    }

    /** The stock-check loop of `createOrder`: it reads the products and
        changes nothing. On success it yields the total and the stored
        lines; on failure the name reported for the first failing line. */
    method CheckLines(items: seq<Line>) returns (ok: bool, total: int, data: seq<OrderItem>, name: string)
      ensures ok <==> StockOk(products, items)
      ensures ok ==> total == OrderTotal(products, items) && data == Snapshots(products, items)
      ensures !ok ==> name == FailureName(products, items[FirstBadLine(products, items).value])
    {
      total := 0;
      data := [];
      name := "";
      var i := 0;
      while i < |items|
        invariant 0 <= i <= |items|
        invariant StockOk(products, items[..i])
        invariant total == OrderTotal(products, items[..i])
        invariant data == Snapshots(products, items[..i])
      {
        var line := items[i];
        if line.productId !in products || products[line.productId].stock < line.quantity {
          var bad := FirstBadLine(products, items);
          assert !StockOk(products, items);
          assert forall j :: 0 <= j < i ==> items[..i][j] == items[j];
          assert forall j :: 0 <= j < bad.value ==> items[..bad.value][j] == items[j];
          assert bad.value == i;
          return false, total, data, FailureName(products, line);
        }
        assert items[..i + 1][..i] == items[..i];
        total := total + products[line.productId].price * line.quantity;
        data := data + [OrderItem(line.productId, line.quantity, products[line.productId].price)];
        i := i + 1;
      }
      assert items[..|items|] == items;
      return true, total, data, name;
    }

    /** The stock-update loop of `createOrder`'s transaction. */
    method ApplyDecrement(items: seq<Line>)
      requires forall i :: 0 <= i < |items| ==> items[i].productId in products
      modifies this
      ensures products == Decrement(old(products), items)
      ensures orders == old(orders) && users == old(users)
    {
      var k := 0;
      while k < |items|
        invariant 0 <= k <= |items|
        invariant products == Decrement(old(products), items[..k])
        invariant orders == old(orders) && users == old(users)
      {
        var line := items[k];
        assert items[..k + 1][..k] == items[..k];
        var p := products[line.productId];
        products := products[line.productId := p.(stock := p.stock - line.quantity)];
        k := k + 1;
      }
      assert items[..|items|] == items;
    }

    /** `createOrder`. `guestId` is the id a new guest row gets and
        `orderId` the id of the new order. The guest row is created before
        the stock check, so it stays when the check fails. */
    method CreateOrder(sessionUserId: string, items: seq<Line>, phone: string, address: string,
                       recipient: string, guestId: string, orderId: string)
        returns (r: OrderOutcome)
      requires orderId !in orders
      modifies this
      ensures users == BuyerOf(old(users), sessionUserId, guestId).users
      ensures var bad := FirstBadLine(old(products), items);
              bad.Some? ==> r == OutOfStock(FailureName(old(products), items[bad.value]))
                            && products == old(products) && orders == old(orders)
      ensures StockOk(old(products), items) ==>
                && r == Placed(orderId)
                && orders == old(orders)[orderId := Order(BuyerOf(old(users), sessionUserId, guestId).userId,
                                                          OrderTotal(old(products), items), PendingPayment,
                                                          phone, address, recipient, Snapshots(old(products), items))]
                && products == Decrement(old(products), items)
    {
      var buyer := BuyerOf(users, sessionUserId, guestId);
      if sessionUserId == "" {
        var at := FindUser(users, ByEmail(GuestEmail));
        if at.None? {
          users := users + [GuestUser(guestId)];
        }
      }
      var ok, total, data, name := CheckLines(items);
      if !ok {
        return OutOfStock(name);
      }
      orders := orders[orderId := Order(buyer.userId, total, PendingPayment, phone, address, recipient, data)];
      assert forall i :: 0 <= i < |items| ==> LineOk(products, items[i]);
      ApplyDecrement(items);
      return Placed(orderId);
    }

    /** `createProduct`: only a super admin may add a product. */
    method CreateProduct(role: Option<string>, id: string, p: Product, variantsText: string, parses: bool)
        returns (r: AdminOutcome)
      requires id !in products
      modifies this
      ensures role != Some(SuperAdmin) ==> r == Unauthorized && products == old(products)
      ensures role == Some(SuperAdmin) ==>
                r == Done && products == old(products)[id := p.(variants := Variants(variantsText, parses))]
      ensures orders == old(orders) && users == old(users)
    {
      if role != Some(SuperAdmin) {
        return Unauthorized;
      }
      products := products[id := p.(variants := Variants(variantsText, parses))];
      return Done;
    }

    /** `updateProduct`: a super admin replaces every field of an existing
        product; a missing one fails. */
    method UpdateProduct(role: Option<string>, id: string, p: Product, variantsText: string, parses: bool)
        returns (r: AdminOutcome)
      modifies this
      ensures role != Some(SuperAdmin) ==> r == Unauthorized && products == old(products)
      ensures role == Some(SuperAdmin) && id !in old(products) ==> r == Failed && products == old(products)
      ensures role == Some(SuperAdmin) && id in old(products) ==>
                r == Done && products == old(products)[id := p.(variants := Variants(variantsText, parses))]
      ensures orders == old(orders) && users == old(users)
    {
      if role != Some(SuperAdmin) {
        return Unauthorized;
      }
      if id !in products {
        return Failed;
      }
      products := products[id := p.(variants := Variants(variantsText, parses))];
      return Done;
    }

    /** `deleteProduct`. */
    method DeleteProduct(role: Option<string>, id: string) returns (r: AdminOutcome)
      modifies this
      ensures role != Some(SuperAdmin) ==> r == Unauthorized && products == old(products)
      ensures role == Some(SuperAdmin) && id !in old(products) ==> r == Failed && products == old(products)
      ensures role == Some(SuperAdmin) && id in old(products) ==> r == Done && products == old(products) - {id}
      ensures orders == old(orders) && users == old(users)
    {
      if role != Some(SuperAdmin) {
        return Unauthorized;
      }
      if id !in products {
        return Failed;
      }
      products := products - {id};
      return Done;
    }

    /** `updateUserRole`: a super admin sets any user's role to any string. */
    method UpdateUserRole(role: Option<string>, userId: string, newRole: string) returns (r: AdminOutcome)
      modifies this
      ensures var at := FindUser(old(users), ById(userId));
              && (role != Some(SuperAdmin) ==> r == Unauthorized && users == old(users))
              && (role == Some(SuperAdmin) && at.None? ==> r == Failed && users == old(users))
              && (role == Some(SuperAdmin) && at.Some? ==>
                    r == Done && users == old(users)[at.value := old(users)[at.value].(role := newRole)])
      ensures products == old(products) && orders == old(orders)
    {
      if role != Some(SuperAdmin) {
        return Unauthorized;
      }
      var at := FindUser(users, ById(userId));
      if at.None? {
        return Failed;
      }
      users := users[at.value := users[at.value].(role := newRole)];
      return Done;
    }

    /** `updateOrderStatus`: any staff role sets an existing order's status
        to any string. */
    method UpdateOrderStatus(role: Option<string>, orderId: string, status: string) returns (r: AdminOutcome)
      modifies this
      ensures !MayUpdateStatus(role) ==> r == Unauthorized && orders == old(orders)
      ensures MayUpdateStatus(role) && orderId !in old(orders) ==> r == Failed && orders == old(orders)
      ensures MayUpdateStatus(role) && orderId in old(orders) ==>
                r == Done && orders == old(orders)[orderId := old(orders)[orderId].(status := status)]
      ensures products == old(products) && users == old(users)
    {
      if role.None? || role.value == "" || role.value == "USER" {
        return Unauthorized;
      }
      if orderId !in orders {
        return Failed;
      }
      orders := orders[orderId := orders[orderId].(status := status)];
      return Done;
    }

    /** `createAdminUser`: a super admin adds a user with a hashed password;
        an address already taken fails and adds nothing. */
    method CreateAdminUser(role: Option<string>, id: string, name: string, email: string,
                           passwordHash: string, newRole: string)
        returns (r: AdminOutcome)
      requires forall i :: 0 <= i < |users| ==> users[i].id != id
      modifies this
      ensures role != Some(SuperAdmin) ==> r == Unauthorized && users == old(users)
      ensures role == Some(SuperAdmin) && FindUser(old(users), ByEmail(email)).Some? ==>
                r == Failed && users == old(users)
      ensures role == Some(SuperAdmin) && FindUser(old(users), ByEmail(email)).None? ==>
                r == Done && users == old(users) + [User(id, email, name, passwordHash, newRole, false, false, None)]
      ensures UsersWellFormed(old(users)) ==> UsersWellFormed(users)
      ensures products == old(products) && orders == old(orders)
    {
      if role != Some(SuperAdmin) {
        return Unauthorized;
      }
      if FindUser(users, ByEmail(email)).Some? {
        return Failed;
      }
      users := users + [User(id, email, name, passwordHash, newRole, false, false, None)];
      return Done;
    }
  }
}
