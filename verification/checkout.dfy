/** Turning a cart into an order: the order freezes the cart's lines with the
    unit prices of the moment, and the cart is emptied. */
module Checkout {
  import opened Wrappers
  import opened Pricing
  import opened Carts
  import opened CartViews

  datatype OrderStatus = Pending | Confirmed | Processing | Shipped | Delivered | Cancelled
  datatype PaymentStatus = PaymentPending | Paid | Failed | Refunded

  /** An order line: what was bought, how many, at what unit price. The price
      is stored, so later catalog changes do not reach it. */
  datatype OrderLine = OrderLine(key: LineKey, quantity: int, unitPrice: real)

  datatype Order = Order(
    owner: Option<nat>,
    subtotal: real,
    shippingCost: real,
    total: real,
    status: OrderStatus,
    paymentStatus: PaymentStatus,
    items: seq<OrderLine>)

  /** What order creation leaves behind. */
  datatype Placed = Placed(store: CartStore, orders: seq<Order>, result: Result<Order>)

  /** `OrderViewSet.create` looks the cart up without creating one: the
      account's cart, or the cart of the session the request carries. */
  function CheckoutCart(s: CartStore, caller: Caller): (o: Option<Owner>)
    ensures o.Some? ==> o.value in s.carts
    ensures caller.user.Some? ==> (o.Some? <==> Account(caller.user.value) in s.carts)
    ensures caller.user.None? ==> (o.Some? <==> caller.session.Some? && Guest(caller.session.value) in s.carts)
  {
    if caller.user.Some? then
      if Account(caller.user.value) in s.carts then Some(Account(caller.user.value)) else None
    else if caller.session.Some? && Guest(caller.session.value) in s.carts then Some(Guest(caller.session.value))
    else None
  }

  /** One order line per cart line, in cart order, priced now. */
  function Freeze(c: Catalog, ls: Lines): (items: seq<OrderLine>)
    requires Consistent(c) && AllResolve(c, ls)
    ensures |items| == |ls|
    ensures forall i :: 0 <= i < |ls| ==>
      items[i].key == ls[i].key && items[i].quantity == ls[i].quantity && items[i].unitPrice == UnitPrice(c, ls[i].key)
  {
    if |ls| == 0 then []
    else Freeze(c, ls[..|ls| - 1]) + [OrderLine(ls[|ls| - 1].key, ls[|ls| - 1].quantity, UnitPrice(c, ls[|ls| - 1].key))]
  }

  /** The sum of the stored line totals (`OrderItem.total_price`). */
  function ItemsTotal(items: seq<OrderLine>): (r: real)
    ensures |items| == 1 ==> r == OrderItemTotal(items[0].unitPrice, items[0].quantity)
  {
    if |items| == 0 then 0.0
    else ItemsTotal(items[..|items| - 1]) + OrderItemTotal(items[|items| - 1].unitPrice, items[|items| - 1].quantity)
  }

  /** Frozen lines add up to the cart total they were taken from. */
  lemma {:induction false} FreezeTotal(c: Catalog, ls: Lines)
    requires Consistent(c) && AllResolve(c, ls)
    ensures ItemsTotal(Freeze(c, ls)) == Total(c, ls)
    decreases |ls|
  {
    if |ls| > 0 {
      var n := |ls| - 1;
      assert AllResolve(c, ls[..n]);
      FreezeTotal(c, ls[..n]);
      var items := Freeze(c, ls);
      assert items[..n] == Freeze(c, ls[..n]);
      FrozenLineTotal(c, ls[n], items[n]);
      assert ItemsTotal(items) == ItemsTotal(items[..n]) + OrderItemTotal(items[n].unitPrice, items[n].quantity);
    }
  }

  /** A frozen line is worth what its cart line is worth today. */
  lemma FrozenLineTotal(c: Catalog, l: CartLine, item: OrderLine)
    requires Consistent(c) && Resolves(c, l.key)
    requires item.quantity == l.quantity && item.unitPrice == UnitPrice(c, l.key)
    ensures OrderItemTotal(item.unitPrice, item.quantity) == LineTotal(c, l)
  {
  }

  /** `OrderViewSet.create`: an invalid form is a validation error; a missing
      or empty cart is EMPTY_CART; otherwise the order is created with
      subtotal = total = the cart total and no shipping cost, one frozen line
      per cart line, and the cart is emptied. Nothing else changes. */
  function PlaceOrder(c: Catalog, s: CartStore, orders: seq<Order>, caller: Caller, formValid: bool): (r: Placed)
    requires Consistent(c) && StoreResolves(c, s)
    ensures !formValid ==> r == Placed(s, orders, Err(ValidationError))
    ensures formValid && (CheckoutCart(s, caller).None? || |s.carts[CheckoutCart(s, caller).value]| == 0) ==>
      r == Placed(s, orders, Err(EmptyCart))
    ensures r.result.Err? ==> r.store == s && r.orders == orders
    ensures r.result.Ok? <==> formValid && CheckoutCart(s, caller).Some? && |s.carts[CheckoutCart(s, caller).value]| > 0
    ensures r.result.Ok? ==>
      && formValid && CheckoutCart(s, caller).Some?
      && var o := CheckoutCart(s, caller).value;
         var ls := s.carts[o];
         && |ls| > 0
         && r.orders == orders + [r.result.value]
         && r.store == CartStore(s.carts[o := []], s.nextLineId)
         && r.result.value.owner == caller.user
         && r.result.value.subtotal == Total(c, ls)
         && r.result.value.total == Total(c, ls)
         && r.result.value.shippingCost == 0.0
         && r.result.value.status == Pending && r.result.value.paymentStatus == PaymentPending
         && r.result.value.items == Freeze(c, ls)
  {
    if !formValid then Placed(s, orders, Err(ValidationError))
    else match CheckoutCart(s, caller)
      case None => Placed(s, orders, Err(EmptyCart))
      case Some(o) =>
        var ls := s.carts[o];
        if |ls| == 0 then Placed(s, orders, Err(EmptyCart))
        else
          var total := Total(c, ls);
          var order := Order(caller.user, total, 0.0, total, Pending, PaymentPending, Freeze(c, ls));
          Placed(CartStore(s.carts[o := []], s.nextLineId), orders + [order], Ok(order))
  }

  /** A placed order's lines add up to its subtotal, from the stored prices
      alone: no later price change can alter what the order is worth. */
  lemma PlacedOrderAddsUp(c: Catalog, s: CartStore, orders: seq<Order>, caller: Caller, formValid: bool)
    requires Consistent(c) && StoreResolves(c, s)
    requires PlaceOrder(c, s, orders, caller, formValid).result.Ok?
    ensures var order := PlaceOrder(c, s, orders, caller, formValid).result.value;
      ItemsTotal(order.items) == order.subtotal == order.total
  {
    FreezeTotal(c, s.carts[CheckoutCart(s, caller).value]);
  }

  /** A placed order holds, key by key, exactly the units the cart held. */
  lemma PlacedOrderKeepsUnits(c: Catalog, s: CartStore, orders: seq<Order>, caller: Caller, formValid: bool, key: LineKey)
    requires Consistent(c) && StoreResolves(c, s)
    requires PlaceOrder(c, s, orders, caller, formValid).result.Ok?
    ensures var order := PlaceOrder(c, s, orders, caller, formValid).result.value;
      ItemUnits(order.items, key) == QuantityOf(s.carts[CheckoutCart(s, caller).value], key)
  {
    var ls := s.carts[CheckoutCart(s, caller).value];
    FreezeUnits(c, ls, key);
  }

  function ItemUnits(items: seq<OrderLine>, key: LineKey): int {
    if |items| == 0 then 0
    else ItemUnits(items[..|items| - 1], key) + (if items[|items| - 1].key == key then items[|items| - 1].quantity else 0)
  }

  lemma {:induction false} FreezeUnits(c: Catalog, ls: Lines, key: LineKey)
    requires Consistent(c) && AllResolve(c, ls)
    ensures ItemUnits(Freeze(c, ls), key) == QuantityOf(ls, key)
    decreases |ls|
  {
    if |ls| > 0 {
      var n := |ls| - 1;
      assert AllResolve(c, ls[..n]);
      FreezeUnits(c, ls[..n], key);
      assert Freeze(c, ls)[..n] == Freeze(c, ls[..n]);
    }
  }

  /** Order creation keeps the cart store valid and resolvable. */
  lemma PlaceOrderValid(c: Catalog, s: CartStore, orders: seq<Order>, caller: Caller, formValid: bool)
    requires Consistent(c) && StoreResolves(c, s) && StoreValid(s)
    ensures StoreValid(PlaceOrder(c, s, orders, caller, formValid).store)
    ensures StoreResolves(c, PlaceOrder(c, s, orders, caller, formValid).store)
  {
    var r := PlaceOrder(c, s, orders, caller, formValid);
    if r.result.Ok? {
      ReplaceValid(s, CheckoutCart(s, caller).value, [], s.nextLineId);
    }
  }
}
