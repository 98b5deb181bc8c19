/** Cart lines and the operations on one cart's lines: aggregation on add,
    set-quantity and removal by line id, and folding a guest cart into an
    account cart. A cart is a sequence of lines; the order carries no meaning. */
module Carts {
  import opened Wrappers
  import opened Pricing

  /** What a line buys: a product with an optional variant, or an education
      tablet. The two kinds never share a line. */
  datatype LineKey = ProductLine(productId: nat, variantId: Option<nat>) | TabletLine(tabletId: nat)

  /** A cart line: its row id, what it buys, how many. The unit price is not
      stored; it is read from the catalog whenever it is needed. */
  datatype CartLine = CartLine(id: nat, key: LineKey, quantity: int)

  type Lines = seq<CartLine>

  predicate KeysUnique(ls: Lines) {
    forall i, j :: 0 <= i < j < |ls| ==> ls[i].key != ls[j].key
  }

  predicate IdsUnique(ls: Lines) {
    forall i, j :: 0 <= i < j < |ls| ==> ls[i].id != ls[j].id
  }

  /** The column constraint of `PositiveIntegerField`, which admits 0. */
  predicate QuantitiesNonNegative(ls: Lines) {
    forall i :: 0 <= i < |ls| ==> ls[i].quantity >= 0
  }

  /** The cart invariant: one line per key, one line per id, no negative quantity. */
  predicate WellFormed(ls: Lines) {
    KeysUnique(ls) && IdsUnique(ls) && QuantitiesNonNegative(ls)
  }

  function Ids(ls: Lines): set<nat> {
    set i | 0 <= i < |ls| :: ls[i].id
  }

  predicate HasKey(ls: Lines, key: LineKey) {
    exists i :: 0 <= i < |ls| && ls[i].key == key
  }

  /** The position of the first line with `key`, if any. */
  function KeyIndex(ls: Lines, key: LineKey): (r: Option<nat>)
    ensures r.Some? ==> r.value < |ls| && ls[r.value].key == key
    ensures r.Some? ==> forall j :: 0 <= j < r.value ==> ls[j].key != key
    ensures r.None? <==> !HasKey(ls, key)
  {
    if |ls| == 0 then None
    else if ls[0].key == key then Some(0)
    else match KeyIndex(ls[1..], key)
      case None => None
      case Some(i) => Some(i + 1)
  }

  /** The position of the line with row id `id`, if any. */
  function IdIndex(ls: Lines, id: nat): (r: Option<nat>)
    ensures r.Some? ==> r.value < |ls| && ls[r.value].id == id
    ensures r.None? <==> id !in Ids(ls)
  {
    if |ls| == 0 then None
    else if ls[0].id == id then Some(0)
    else match IdIndex(ls[1..], id)
      case None =>
        assert Ids(ls) == {ls[0].id} + Ids(ls[1..]);
        None
      case Some(i) => Some(i + 1)
  }

  // ---------------- measures ----------------

  /** `Cart.item_count`: the sum of the quantities. */
  function ItemCount(ls: Lines): (r: int)
    ensures |ls| == 1 ==> r == ls[0].quantity
  {
    if |ls| == 0 then 0 else ItemCount(ls[..|ls| - 1]) + ls[|ls| - 1].quantity
  }

  /** How many units of `key` the cart holds. */
  function QuantityOf(ls: Lines, key: LineKey): int {
    if |ls| == 0 then 0
    else QuantityOf(ls[..|ls| - 1], key) + (if ls[|ls| - 1].key == key then ls[|ls| - 1].quantity else 0)
  }

  /** Every key a line can hold refers to a row of the catalog (deleting a
      product, variant or tablet deletes the lines that refer to it). */
  predicate Resolves(c: Catalog, key: LineKey) {
    match key
    case ProductLine(p, v) => p in c.products && (v.Some? ==> v.value in c.variants)
    case TabletLine(t) => t in c.tablets
  }

  predicate AllResolve(c: Catalog, ls: Lines) {
    forall i :: 0 <= i < |ls| ==> Resolves(c, ls[i].key)
  }

  /** `CartItem.unit_price`, read from the catalog now. */
  function UnitPrice(c: Catalog, key: LineKey): (r: real)
    requires Consistent(c) && Resolves(c, key)
    ensures key.TabletLine? ==> r == c.tablets[key.tabletId].price
    ensures key.ProductLine? && key.variantId.Some? ==> r == FinalPrice(c, key.variantId.value)
    ensures key.ProductLine? && key.variantId.None? ==> r == CurrentPrice(c.products[key.productId])
  {
    match key
    case TabletLine(t) => c.tablets[t].price
    case ProductLine(p, v) => if v.Some? then FinalPrice(c, v.value) else CurrentPrice(c.products[p])
  }

  /** A line with a variant is priced from the variant's own product, whatever
      product the line names: the add handler never checks that the variant
      belongs to the product. */
  lemma VariantPricedFromOwnProduct(c: Catalog, p1: nat, p2: nat, v: nat)
    requires Consistent(c) && p1 in c.products && p2 in c.products && v in c.variants
    ensures UnitPrice(c, ProductLine(p1, Some(v))) == UnitPrice(c, ProductLine(p2, Some(v)))
    ensures UnitPrice(c, ProductLine(p1, Some(v)))
         == CurrentPrice(c.products[c.variants[v].productId]) + c.variants[v].priceAdjustment
  {
  }

  /** `CartItem.total_price` */
  function LineTotal(c: Catalog, l: CartLine): (r: real)
    requires Consistent(c) && Resolves(c, l.key)
    ensures l.quantity == 0 ==> r == 0.0
    ensures l.quantity == 1 ==> r == UnitPrice(c, l.key)
  {
    UnitPrice(c, l.key) * l.quantity as real
  }

  /** `Cart.total`: the sum of the line totals at today's prices. */
  function Total(c: Catalog, ls: Lines): (r: real)
    requires Consistent(c) && AllResolve(c, ls)
    ensures |ls| == 0 ==> r == 0.0
    ensures |ls| == 1 ==> r == LineTotal(c, ls[0])
  {
    if |ls| == 0 then 0.0 else Total(c, ls[..|ls| - 1]) + LineTotal(c, ls[|ls| - 1])
  }

  /** `CartItemSerializer.get_item_type` */
  function ItemType(key: LineKey): (r: string)
    ensures r == "education_tablet" <==> key.TabletLine?
    ensures r == "product" <==> key.ProductLine?
  {
    if key.TabletLine? then "education_tablet" else "product"
  }

  // ---------------- measures under a point update ----------------

  lemma {:induction false} ItemCountUpdate(ls: Lines, i: nat, x: CartLine)
    requires i < |ls|
    ensures ItemCount(ls[i := x]) == ItemCount(ls) - ls[i].quantity + x.quantity
    decreases |ls|
  {
    var n := |ls| - 1;
    if i < n {
      assert ls[i := x][..n] == ls[..n][i := x];
      ItemCountUpdate(ls[..n], i, x);
    } else {
      assert ls[i := x][..n] == ls[..n];
    }
  }

  lemma {:induction false} QuantityOfUpdate(ls: Lines, i: nat, x: CartLine, key: LineKey)
    requires i < |ls|
    ensures QuantityOf(ls[i := x], key)
         == QuantityOf(ls, key) - (if ls[i].key == key then ls[i].quantity else 0)
                                + (if x.key == key then x.quantity else 0)
    decreases |ls|
  {
    var n := |ls| - 1;
    if i < n {
      assert ls[i := x][..n] == ls[..n][i := x];
      QuantityOfUpdate(ls[..n], i, x, key);
    } else {
      assert ls[i := x][..n] == ls[..n];
    }
  }

  lemma {:induction false} TotalUpdate(c: Catalog, ls: Lines, i: nat, x: CartLine)
    requires Consistent(c) && AllResolve(c, ls) && i < |ls| && Resolves(c, x.key)
    ensures AllResolve(c, ls[i := x])
    ensures Total(c, ls[i := x]) == Total(c, ls) - LineTotal(c, ls[i]) + LineTotal(c, x)
    decreases |ls|
  {
    var n := |ls| - 1;
    if i < n {
      assert ls[i := x][..n] == ls[..n][i := x];
      TotalUpdate(c, ls[..n], i, x);
    } else {
      assert ls[i := x][..n] == ls[..n];
    }
  }

  /** A key the cart does not hold contributes nothing. */
  lemma {:induction false} QuantityOfAbsent(ls: Lines, key: LineKey)
    requires !HasKey(ls, key)
    ensures QuantityOf(ls, key) == 0
    decreases |ls|
  {
    if |ls| > 0 {
      QuantityOfAbsent(ls[..|ls| - 1], key);
    }
  }

  /** With one line per key, the units of a key are that line's quantity. */
  lemma {:induction false} QuantityOfUniqueLine(ls: Lines, i: nat)
    requires KeysUnique(ls) && i < |ls|
    ensures QuantityOf(ls, ls[i].key) == ls[i].quantity
    decreases |ls|
  {
    var n := |ls| - 1;
    if i < n {
      QuantityOfUniqueLine(ls[..n], i);
    } else {
      assert !HasKey(ls[..n], ls[i].key);
      QuantityOfAbsent(ls[..n], ls[i].key);
    }
  }

  // ---------------- add with aggregation ----------------

  /** The aggregation step of the add handler (and of the login merge): a line
      with the same key absorbs `q` more units; otherwise a new line `freshId`
      with `q` units is appended. */
  function AddQuantity(ls: Lines, key: LineKey, q: int, freshId: nat): (r: Lines)
    ensures HasKey(ls, key) ==> |r| == |ls|
    ensures !HasKey(ls, key) ==> r == ls + [CartLine(freshId, key, q)]
    ensures forall j :: 0 <= j < |ls| && ls[j].key != key ==> r[j] == ls[j]
    ensures forall j :: 0 <= j < |ls| ==> r[j].id == ls[j].id && r[j].key == ls[j].key
  {
    match KeyIndex(ls, key)
    case Some(i) => ls[i := ls[i].(quantity := ls[i].quantity + q)]
    case None => ls + [CartLine(freshId, key, q)]
  }

  /** Adding `q` units of `key` raises that key's units by `q` and leaves every
      other key's units alone, when the cart held one line per key. */
  lemma AddQuantityUnits(ls: Lines, key: LineKey, q: int, freshId: nat, other: LineKey)
    requires KeysUnique(ls)
    ensures QuantityOf(AddQuantity(ls, key, q, freshId), other)
         == QuantityOf(ls, other) + (if other == key then q else 0)
  {
    match KeyIndex(ls, key)
    case Some(i) =>
      QuantityOfUpdate(ls, i, ls[i].(quantity := ls[i].quantity + q), other);
    case None =>
      assert (ls + [CartLine(freshId, key, q)])[..|ls|] == ls;
  }

  lemma AddQuantityItemCount(ls: Lines, key: LineKey, q: int, freshId: nat)
    ensures ItemCount(AddQuantity(ls, key, q, freshId)) == ItemCount(ls) + q
  {
    match KeyIndex(ls, key)
    case Some(i) =>
      ItemCountUpdate(ls, i, ls[i].(quantity := ls[i].quantity + q));
    case None =>
      assert (ls + [CartLine(freshId, key, q)])[..|ls|] == ls;
  }

  lemma AddQuantityTotal(c: Catalog, ls: Lines, key: LineKey, q: int, freshId: nat)
    requires Consistent(c) && AllResolve(c, ls) && Resolves(c, key)
    ensures AllResolve(c, AddQuantity(ls, key, q, freshId))
    ensures Total(c, AddQuantity(ls, key, q, freshId)) == Total(c, ls) + LineTotal(c, CartLine(freshId, key, q))
  {
    match KeyIndex(ls, key)
    case Some(i) =>
      TotalUpdate(c, ls, i, ls[i].(quantity := ls[i].quantity + q));
      LineTotalAdd(c, ls[i], q, freshId);
    case None =>
      assert (ls + [CartLine(freshId, key, q)])[..|ls|] == ls;
  }

  /** `q` units of a key are worth its unit price `q` times, whatever the line id. */
  lemma LineTotalOf(c: Catalog, id: nat, key: LineKey, q: int)
    requires Consistent(c) && Resolves(c, key)
    ensures LineTotal(c, CartLine(id, key, q)) == UnitPrice(c, key) * q as real
  {
  }

  /** A line raised by `q` units is worth `q` units more. */
  lemma LineTotalAdd(c: Catalog, l: CartLine, q: int, freshId: nat)
    requires Consistent(c) && Resolves(c, l.key)
    ensures LineTotal(c, l.(quantity := l.quantity + q)) == LineTotal(c, l) + LineTotal(c, CartLine(freshId, l.key, q))
  {
    var u := UnitPrice(c, l.key);
    assert u * (l.quantity + q) as real == u * l.quantity as real + u * q as real;
  }

  lemma AddQuantityIds(ls: Lines, key: LineKey, q: int, freshId: nat)
    ensures Ids(AddQuantity(ls, key, q, freshId)) <= Ids(ls) + {freshId}
  {
    var r := AddQuantity(ls, key, q, freshId);
    forall id | id in Ids(r) ensures id in Ids(ls) + {freshId} {
      var j :| 0 <= j < |r| && r[j].id == id;
      if j < |ls| {
        assert ls[j].id in Ids(ls);
      }
    }
  }

  /** Aggregation keeps the cart invariant, given a fresh id and a quantity that is not negative. */
  lemma AddQuantityWellFormed(ls: Lines, key: LineKey, q: int, freshId: nat)
    requires WellFormed(ls) && q >= 0 && freshId !in Ids(ls)
    ensures WellFormed(AddQuantity(ls, key, q, freshId))
  {
    var r := AddQuantity(ls, key, q, freshId);
    if !HasKey(ls, key) {
      forall i, j | 0 <= i < j < |r| ensures r[i].id != r[j].id && r[i].key != r[j].key {
        if j == |ls| {
          assert ls[i].id in Ids(ls);
        }
      }
    }
  }

  /** Every line of the cart survives an add, with its id and key; only the
      line with the added key can change, and only in quantity. */
  lemma AddQuantityKeepsOtherLines(ls: Lines, key: LineKey, q: int, freshId: nat, x: CartLine)
    requires x in ls && x.key != key
    ensures x in AddQuantity(ls, key, q, freshId)
  {
    var j :| 0 <= j < |ls| && ls[j] == x;
    assert AddQuantity(ls, key, q, freshId)[j] == x;
  }

  // ---------------- set quantity / remove by id ----------------

  /** Drop the line at position `i`. */
  function DropAt(ls: Lines, i: nat): (r: Lines)
    requires i < |ls|
    ensures |r| == |ls| - 1
    ensures forall j :: 0 <= j < |r| ==> r[j] == (if j < i then ls[j] else ls[j + 1])
  {
    ls[..i] + ls[i + 1..]
  }

  lemma DropAtWellFormed(ls: Lines, i: nat)
    requires i < |ls| && WellFormed(ls)
    ensures WellFormed(DropAt(ls, i))
    ensures Ids(DropAt(ls, i)) == Ids(ls) - {ls[i].id}
  {
    DropAtUnique(ls, i);
    DropAtIds(ls, i);
  }

  lemma DropAtUnique(ls: Lines, i: nat)
    requires i < |ls| && KeysUnique(ls) && IdsUnique(ls)
    ensures KeysUnique(DropAt(ls, i)) && IdsUnique(DropAt(ls, i))
  {
    var r := DropAt(ls, i);
    forall a, b | 0 <= a < b < |r| ensures r[a].key != r[b].key && r[a].id != r[b].id {
      var a' := if a < i then a else a + 1;
      var b' := if b < i then b else b + 1;
      assert r[a] == ls[a'] && r[b] == ls[b'];
    }
  }

  lemma DropAtIds(ls: Lines, i: nat)
    requires i < |ls| && IdsUnique(ls)
    ensures Ids(DropAt(ls, i)) == Ids(ls) - {ls[i].id}
  {
    var r := DropAt(ls, i);
    forall id | id in Ids(ls) - {ls[i].id} ensures id in Ids(r) {
      var j :| 0 <= j < |ls| && ls[j].id == id;
      if j < i { assert r[j] == ls[j]; } else { assert r[j - 1] == ls[j]; }
    }
    forall id | id in Ids(r) ensures id in Ids(ls) - {ls[i].id} {
      var j :| 0 <= j < |r| && r[j].id == id;
      if j < i { assert r[j] == ls[j]; } else { assert r[j] == ls[j + 1]; }
    }
  }

  /** The saving half of `CartItemView.patch` once the cart is resolved: the
      line with row id `id` takes the quantity `q`; an unknown id is NotFound. */
  function Requantify(ls: Lines, id: nat, q: int): (r: Result<Lines>)
    ensures r.Err? <==> id !in Ids(ls)
    ensures r.Err? ==> r.error == NotFound
    ensures r.Ok? ==> |r.value| == |ls|
    ensures r.Ok? && IdsUnique(ls) ==>
      forall j :: 0 <= j < |ls| ==>
        r.value[j].id == ls[j].id && r.value[j].key == ls[j].key
        && r.value[j].quantity == (if ls[j].id == id then q else ls[j].quantity)
  {
    match IdIndex(ls, id)
    case None => Err(NotFound)
    case Some(i) => Ok(ls[i := ls[i].(quantity := q)])
  }

  lemma DropIdFacts(ls: Lines, i: nat)
    requires i < |ls|
    ensures IdsUnique(ls) ==> ls[i].id !in Ids(DropAt(ls, i))
  {
    if IdsUnique(ls) {
      var r := DropAt(ls, i);
      forall j | 0 <= j < |r| ensures r[j].id != ls[i].id {
        if j < i { assert r[j] == ls[j]; } else { assert r[j] == ls[j + 1]; }
      }
    }
  }

  /** `CartItemView.delete` once the cart is resolved. */
  function RemoveLine(ls: Lines, id: nat): (r: Result<Lines>)
    ensures r.Err? <==> id !in Ids(ls)
    ensures r.Err? ==> r.error == NotFound
    ensures r.Ok? ==> |r.value| == |ls| - 1 && (IdsUnique(ls) ==> id !in Ids(r.value))
    ensures r.Ok? ==> forall x :: x in r.value ==> x in ls
  {
    match IdIndex(ls, id)
    case None => Err(NotFound)
    case Some(i) =>
      DropIdFacts(ls, i);
      var r := DropAt(ls, i);
      assert forall x :: x in r ==> x in ls by {
        forall x | x in r ensures x in ls {
          var j :| 0 <= j < |r| && r[j] == x;
          if j < i { assert r[j] == ls[j]; } else { assert r[j] == ls[j + 1]; }
        }
      }
      Ok(r)
  }

  /** Storing a quantity that is not negative, and deleting a line, keep the
      cart invariant. */
  lemma RequantifyWellFormed(ls: Lines, id: nat, q: int)
    requires WellFormed(ls) && q >= 0 && Requantify(ls, id, q).Ok?
    ensures WellFormed(Requantify(ls, id, q).value)
    ensures Ids(Requantify(ls, id, q).value) == Ids(ls)
  {
    var i := IdIndex(ls, id).value;
    var r := ls[i := ls[i].(quantity := q)];
    assert forall j :: 0 <= j < |ls| ==> r[j].id == ls[j].id && r[j].key == ls[j].key;
    forall x | x in Ids(r) ensures x in Ids(ls) {
      var j :| 0 <= j < |r| && r[j].id == x;
      assert ls[j].id == x;
    }
    forall x | x in Ids(ls) ensures x in Ids(r) {
      var j :| 0 <= j < |ls| && ls[j].id == x;
      assert r[j].id == x;
    }
  }

  lemma RemoveLineWellFormed(ls: Lines, id: nat)
    requires WellFormed(ls) && RemoveLine(ls, id).Ok?
    ensures WellFormed(RemoveLine(ls, id).value)
    ensures Ids(RemoveLine(ls, id).value) <= Ids(ls)
  {
    DropAtWellFormed(ls, IdIndex(ls, id).value);
  }

  // ---------------- guest -> account merge ----------------

  /** The login merge: the guest lines are visited in order; a guest line whose
      key the account cart already holds adds its quantity to that line (and
      disappears with the guest cart); any other guest line moves over
      unchanged, keeping its id and quantity. */
  function Merge(user: Lines, guest: Lines): (r: Lines)
    ensures |user| <= |r| <= |user| + |guest|
    ensures forall j :: 0 <= j < |user| ==> r[j].id == user[j].id && r[j].key == user[j].key
  {
    if |guest| == 0 then user
    else
      var g := guest[|guest| - 1];
      var acc := Merge(user, guest[..|guest| - 1]);
      AddQuantity(acc, g.key, g.quantity, g.id)
  }

  /** Units are conserved key by key: the merged cart holds, of every key,
      the account cart's units plus the guest cart's units. */
  lemma {:induction false} MergeUnits(user: Lines, guest: Lines, key: LineKey)
    requires KeysUnique(user)
    ensures KeysUnique(Merge(user, guest))
    ensures QuantityOf(Merge(user, guest), key) == QuantityOf(user, key) + QuantityOf(guest, key)
    decreases |guest|
  {
    if |guest| > 0 {
      var n := |guest| - 1;
      var g := guest[n];
      var acc := Merge(user, guest[..n]);
      MergeUnits(user, guest[..n], key);
      AddQuantityUnits(acc, g.key, g.quantity, g.id, key);
      MergeKeysUnique(user, guest);
    }
  }

  /** The merged cart has one line per key whenever the account cart had,
      even if the guest cart itself held repeated keys. */
  lemma {:induction false} MergeKeysUnique(user: Lines, guest: Lines)
    requires KeysUnique(user)
    ensures KeysUnique(Merge(user, guest))
    decreases |guest|
  {
    if |guest| > 0 {
      var n := |guest| - 1;
      var g := guest[n];
      MergeKeysUnique(user, guest[..n]);
      var acc := Merge(user, guest[..n]);
      var r := AddQuantity(acc, g.key, g.quantity, g.id);
      if !HasKey(acc, g.key) {
        forall i, j | 0 <= i < j < |r| ensures r[i].key != r[j].key {
          if j == |acc| {
            assert acc[i].key != g.key;
          }
        }
      }
    }
  }

  /** `Cart.item_count` after the merge is the sum of both carts' counts. */
  lemma {:induction false} MergeItemCount(user: Lines, guest: Lines)
    ensures ItemCount(Merge(user, guest)) == ItemCount(user) + ItemCount(guest)
    decreases |guest|
  {
    if |guest| > 0 {
      var n := |guest| - 1;
      var g := guest[n];
      MergeItemCount(user, guest[..n]);
      AddQuantityItemCount(Merge(user, guest[..n]), g.key, g.quantity, g.id);
    }
  }

  /** Every line of the merged cart still refers to a catalog row. */
  lemma {:induction false} MergeResolves(c: Catalog, user: Lines, guest: Lines)
    requires AllResolve(c, user) && AllResolve(c, guest)
    ensures AllResolve(c, Merge(user, guest))
    decreases |guest|
  {
    if |guest| > 0 {
      var n := |guest| - 1;
      var g := guest[n];
      var init := guest[..n];
      PrefixResolves(c, guest, n);
      MergeResolves(c, user, init);
      var acc := Merge(user, init);
      var r := AddQuantity(acc, g.key, g.quantity, g.id);
      forall k | 0 <= k < |r| ensures Resolves(c, r[k].key) {
        if k < |acc| { assert r[k].key == acc[k].key; }
      }
    }
  }

  lemma PrefixResolves(c: Catalog, ls: Lines, n: nat)
    requires AllResolve(c, ls) && n <= |ls|
    ensures AllResolve(c, ls[..n])
  {
    forall k | 0 <= k < n ensures Resolves(c, ls[..n][k].key) {
      assert ls[..n][k] == ls[k];
    }
  }

  /** At any one set of prices, the merged cart is worth both carts together. */
  lemma {:induction false} MergeTotal(c: Catalog, user: Lines, guest: Lines)
    requires Consistent(c) && AllResolve(c, user) && AllResolve(c, guest)
    ensures AllResolve(c, Merge(user, guest))
    ensures Total(c, Merge(user, guest)) == Total(c, user) + Total(c, guest)
    decreases |guest|
  {
    MergeResolves(c, user, guest);
    if |guest| > 0 {
      var n := |guest| - 1;
      var g := guest[n];
      var init := guest[..n];
      PrefixResolves(c, guest, n);
      MergeTotal(c, user, init);
      MergeStep(c, user, guest);
    }
  }

  /** One step of the merge fold, priced. */
  lemma MergeStep(c: Catalog, user: Lines, guest: Lines)
    requires Consistent(c) && AllResolve(c, user) && AllResolve(c, guest) && |guest| > 0
    requires AllResolve(c, Merge(user, guest[..|guest| - 1]))
    ensures AllResolve(c, Merge(user, guest))
    ensures Total(c, Merge(user, guest))
         == Total(c, Merge(user, guest[..|guest| - 1])) + LineTotal(c, guest[|guest| - 1])
  {
    var g := guest[|guest| - 1];
    var acc := Merge(user, guest[..|guest| - 1]);
    assert Resolves(c, g.key);
    AddQuantityTotal(c, acc, g.key, g.quantity, g.id);
    assert CartLine(g.id, g.key, g.quantity) == g;
    assert Merge(user, guest) == AddQuantity(acc, g.key, g.quantity, g.id);
  }

  /** The merged cart's lines carry only ids the two carts already used. */
  lemma {:induction false} MergeIds(user: Lines, guest: Lines)
    ensures Ids(Merge(user, guest)) <= Ids(user) + Ids(guest)
    decreases |guest|
  {
    if |guest| > 0 {
      var n := |guest| - 1;
      var g := guest[n];
      MergeIds(user, guest[..n]);
      AddQuantityIds(Merge(user, guest[..n]), g.key, g.quantity, g.id);
      assert Ids(guest[..n]) + {g.id} <= Ids(guest) by {
        forall id | id in Ids(guest[..n]) ensures id in Ids(guest) {
          var j :| 0 <= j < n && guest[..n][j].id == id;
          assert guest[j].id == id;
        }
        assert guest[n].id in Ids(guest);
      }
    }
  }

  /** Merging two well-formed carts whose line ids are distinct yields a
      well-formed cart. */
  lemma {:induction false} MergeWellFormed(user: Lines, guest: Lines)
    requires WellFormed(user) && IdsUnique(guest) && QuantitiesNonNegative(guest)
    requires Ids(user) !! Ids(guest)
    ensures WellFormed(Merge(user, guest))
    decreases |guest|
  {
    if |guest| > 0 {
      var n := |guest| - 1;
      var g := guest[n];
      var init := guest[..n];
      assert Ids(init) <= Ids(guest) by {
        forall id | id in Ids(init) ensures id in Ids(guest) {
          var j :| 0 <= j < n && init[j].id == id;
          assert guest[j].id == id;
        }
      }
      MergeWellFormed(user, init);
      MergeIds(user, init);
      assert g.id !in Ids(init) by {
        forall j | 0 <= j < n ensures init[j].id != g.id {
          assert init[j] == guest[j];
        }
      }
      assert g.id in Ids(guest);
      AddQuantityWellFormed(Merge(user, init), g.key, g.quantity, g.id);
    }
  }

  /** The account cart's lines stay where they were, with their ids and keys,
      and each has absorbed exactly the guest units of its key. */
  lemma MergeAccountLines(user: Lines, guest: Lines, i: nat)
    requires KeysUnique(user) && i < |user|
    ensures Merge(user, guest)[i].id == user[i].id && Merge(user, guest)[i].key == user[i].key
    ensures Merge(user, guest)[i].quantity == user[i].quantity + QuantityOf(guest, user[i].key)
  {
    var r := Merge(user, guest);
    MergeUnits(user, guest, user[i].key);
    QuantityOfUniqueLine(user, i);
    MergeKeysUnique(user, guest);
    QuantityOfUniqueLine(r, i);
  }

  /** A guest line whose key neither the account cart nor any other guest line
      holds moves across unchanged: same id, same key, same quantity. */
  lemma {:induction false} MergeMovesUnmatched(user: Lines, guest: Lines, j: nat)
    requires j < |guest| && !HasKey(user, guest[j].key)
    requires forall k :: 0 <= k < |guest| && k != j ==> guest[k].key != guest[j].key
    ensures guest[j] in Merge(user, guest)
    decreases |guest|
  {
    var n := |guest| - 1;
    var g := guest[n];
    var init := guest[..n];
    if j == n {
      MergeNoKey(user, init, g.key);
      assert AddQuantity(Merge(user, init), g.key, g.quantity, g.id)[|Merge(user, init)|] == g;
    } else {
      MergeMovesUnmatched(user, init, j);
      AddQuantityKeepsOtherLines(Merge(user, init), g.key, g.quantity, g.id, guest[j]);
    }
  }

  /** A key held by neither cart is not in the merged cart. */
  lemma {:induction false} MergeNoKey(user: Lines, guest: Lines, key: LineKey)
    requires !HasKey(user, key) && forall k :: 0 <= k < |guest| ==> guest[k].key != key
    ensures !HasKey(Merge(user, guest), key)
    decreases |guest|
  {
    if |guest| > 0 {
      var n := |guest| - 1;
      MergeNoKey(user, guest[..n], key);
    }
  }

  /** Merging an empty guest cart changes nothing. */
  lemma MergeEmptyGuest(user: Lines)
    ensures Merge(user, []) == user
  {
  }
}
