/** The cart endpoints: a store of carts, one per account and one per guest
    session, and the handlers that read, add to, patch, remove from and clear
    them. The catalog is read-only here. */
module CartViews {
  import opened Wrappers
  import opened Pricing
  import opened Carts
  import opened Fields
  import opened Json

  /** Whose cart it is: a signed-in account, or a guest browser session. */
  datatype Owner = Account(userId: nat) | Guest(sessionKey: string)

  /** All carts, and the next row id the database will hand to a new cart line. */
  datatype CartStore = CartStore(carts: map<Owner, Lines>, nextLineId: nat)

  /** Who is calling: the authenticated account, if any, and the session key
      the request carries, if any. */
  datatype Caller = Caller(user: Option<nat>, session: Option<string>)

  /** A resolved cart: the store after resolution (the cart may have just
      been created) and whose cart it is. */
  datatype Located = Located(store: CartStore, owner: Owner)

  /** A cart lookup that may find nothing. */
  datatype Found = Found(store: CartStore, owner: Option<Owner>)

  /** What a handler leaves behind: the new store and the response. */
  datatype Outcome<T> = Outcome(store: CartStore, result: Result<T>)

  predicate BelowNext(ls: Lines, next: nat) {
    forall i :: 0 <= i < |ls| ==> ls[i].id < next
  }

  /** Line ids are row ids: no two lines anywhere share one, and every id was
      handed out before `nextLineId`. */
  predicate StoreValid(s: CartStore) {
    && (forall o :: o in s.carts ==> WellFormed(s.carts[o]) && BelowNext(s.carts[o], s.nextLineId))
    && (forall o1, o2 :: o1 in s.carts && o2 in s.carts && o1 != o2 ==> Ids(s.carts[o1]) !! Ids(s.carts[o2]))
  }

  /** Every line in the store refers to a catalog row. */
  predicate StoreResolves(c: Catalog, s: CartStore) {
    forall o :: o in s.carts ==> AllResolve(c, s.carts[o])
  }

  lemma BelowNextIds(ls: Lines, next: nat)
    requires BelowNext(ls, next)
    ensures next !in Ids(ls)
  {
  }

  /** Replacing one cart by a well-formed cart whose ids are ids that cart
      already had, or fresh ids below the new counter, keeps the store valid. */
  lemma ReplaceValid(s: CartStore, o: Owner, ls: Lines, next: nat)
    requires StoreValid(s) && WellFormed(ls) && next >= s.nextLineId && BelowNext(ls, next)
    requires forall id :: id in Ids(ls) ==> (o in s.carts && id in Ids(s.carts[o])) || s.nextLineId <= id
    ensures StoreValid(CartStore(s.carts[o := ls], next))
  {
    var t := CartStore(s.carts[o := ls], next);
    forall o1, o2 | o1 in t.carts && o2 in t.carts && o1 != o2
      ensures Ids(t.carts[o1]) !! Ids(t.carts[o2])
    {
      if o1 == o || o2 == o {
        var other := if o1 == o then o2 else o1;
        assert other in s.carts;
        forall id | id in Ids(ls) ensures id !in Ids(s.carts[other]) {
          if o in s.carts && id in Ids(s.carts[o]) {
            assert Ids(s.carts[o]) !! Ids(s.carts[other]);
          } else {
            assert forall j :: 0 <= j < |s.carts[other]| ==> s.carts[other][j].id < id;
          }
        }
      }
    }
  }

  // ---------------- resolving the caller's cart ----------------

  /** The guest session key a request carries, if it is non-empty. */
  function SessionOf(caller: Caller): (r: Option<string>)
    ensures r.Some? <==> caller.session.Some? && caller.session.value != ""
  {
    if caller.session.Some? && caller.session.value != "" then caller.session else None
  }

  /** `CartView.get_cart`: the account's cart for a signed-in caller, else the
      session's guest cart, opening a session (`freshSession`) when the request
      has none; the cart is created empty if missing. */
  function GetCart(s: CartStore, caller: Caller, freshSession: string): (r: Located)
    requires freshSession != ""
    ensures caller.user.Some? ==> r.owner == Account(caller.user.value)
    ensures caller.user.None? ==> r.owner == Guest(SessionOf(caller).GetOr(freshSession))
    ensures r.owner in r.store.carts && r.store.nextLineId == s.nextLineId
    ensures r.owner in s.carts ==> r.store == s
    ensures r.owner !in s.carts ==> r.store.carts == s.carts[r.owner := []]
  {
    var owner := if caller.user.Some? then Account(caller.user.value)
                 else Guest(SessionOf(caller).GetOr(freshSession));
    if owner in s.carts then Located(s, owner) else Located(s.(carts := s.carts[owner := []]), owner)
  }

  /** Creating an empty cart keeps the store valid and resolvable. */
  lemma GetCartValid(c: Catalog, s: CartStore, caller: Caller, freshSession: string)
    requires freshSession != "" && StoreValid(s)
    ensures StoreValid(GetCart(s, caller, freshSession).store)
    ensures StoreResolves(c, s) ==> StoreResolves(c, GetCart(s, caller, freshSession).store)
  {
    var o := GetCart(s, caller, freshSession).owner;
    if o !in s.carts {
      ReplaceValid(s, o, [], s.nextLineId);
    }
  }

  /** `CartItemView.get_cart`: never opens a session; a guest without a session
      or without a cart has none. A signed-in caller's cart is still created. */
  function FindCart(s: CartStore, caller: Caller): (r: Found)
    ensures caller.user.Some? ==> r.owner == Some(Account(caller.user.value)) && r.store == GetCart(s, caller, "-").store
    ensures caller.user.None? ==> r.store == s
    ensures caller.user.None? ==> (r.owner.Some? <==> caller.session.Some? && Guest(caller.session.value) in s.carts)
    ensures caller.user.None? && r.owner.Some? ==> r.owner.value == Guest(caller.session.value)
    ensures r.owner.Some? ==> r.owner.value in r.store.carts
  {
    if caller.user.Some? then
      var loc := GetCart(s, caller, "-");
      Found(loc.store, Some(loc.owner))
    else if caller.session.Some? && Guest(caller.session.value) in s.carts then
      Found(s, Some(Guest(caller.session.value)))
    else Found(s, None)
  }

  /** Resolving without creating keeps the store valid and resolvable. */
  lemma FindCartValid(c: Catalog, s: CartStore, caller: Caller)
    requires StoreValid(s)
    ensures StoreValid(FindCart(s, caller).store)
    ensures StoreResolves(c, s) ==> StoreResolves(c, FindCart(s, caller).store)
  {
    GetCartValid(c, s, caller, "-");
  }

  // ---------------- GET /cart ----------------

  /** `CartView.get`: the caller's cart (created if missing). */
  function ShowCart(s: CartStore, caller: Caller, freshSession: string): (r: Outcome<Lines>)
    requires freshSession != ""
    ensures r.result.Ok?
    ensures r.store == GetCart(s, caller, freshSession).store
    ensures r.result.value == r.store.carts[GetCart(s, caller, freshSession).owner]
    ensures caller.user.None? && SessionOf(caller).None? ==> r.result.value == [] || Guest(freshSession) in s.carts
  {
    var loc := GetCart(s, caller, freshSession);
    Outcome(loc.store, Ok(loc.store.carts[loc.owner]))
  }

  // ---------------- POST /cart ----------------

  datatype AddPayload = AddPayload(productId: Field, variantId: Field, tabletId: Field, quantity: Field)

  /** The validated payload: which ids were supplied (presence, not value),
      `variant_id` as `.get` reads it, and the quantity. */
  datatype AddRequest = AddRequest(productId: Option<int>, variantId: Option<int>, tabletId: Option<int>, quantity: int)

  /** `CartItemCreateSerializer`: field checks, then exactly one of product
      and tablet must be truthy. */
  function ValidateAdd(p: AddPayload): (r: Result<AddRequest>)
    ensures r.Ok? ==> r.value.quantity >= 1
    ensures r.Ok? ==> (Truthy(r.value.productId) <==> !Truthy(r.value.tabletId))
    ensures r.Ok? ==>
      && (r.value.productId.Some? <==> p.productId.Num?)
      && (r.value.tabletId.Some? <==> p.tabletId.Num?)
      && (r.value.variantId.Some? <==> p.variantId.Num?)
    ensures r.Ok? <==>
      && (p.productId.Absent? || p.productId.Num?)
      && (p.tabletId.Absent? || p.tabletId.Num?)
      && (p.variantId.Absent? || p.variantId.Null? || p.variantId.Num?)
      && (p.quantity.Absent? || (p.quantity.Num? && p.quantity.n >= 1))
      && ((p.productId.Num? && p.productId.n != 0) != (p.tabletId.Num? && p.tabletId.n != 0))
    ensures r.Err? ==> r.error == ValidationError
  {
    var product :- OptionalInt(p.productId);
    var tablet :- OptionalInt(p.tabletId);
    var variant :- if p.variantId.Null? then Ok(None) else OptionalInt(p.variantId);
    var quantity :- match p.quantity
      case Absent => Ok(1)
      case Num(n) => if n >= 1 then Ok(n) else Err(ValidationError)
      case _ => Err(ValidationError);
    if !Truthy(product) && !Truthy(tablet) then Err(ValidationError)
    else if Truthy(product) && Truthy(tablet) then Err(ValidationError)
    else Ok(AddRequest(product, variant, tablet, quantity))
  }

  /** The key the add handler files the request under, looking each id up in
      the catalog; a missing row raises a 404 inside the handler's catch-all,
      which answers 500. The branch is chosen by the presence of
      `education_tablet_id`, not by its value. */
  function ResolveKey(c: Catalog, req: AddRequest): (r: Result<LineKey>)
    requires Truthy(req.productId) <==> !Truthy(req.tabletId)
    ensures r.Err? ==> r.error == ServerError
    ensures r.Ok? ==> Resolves(c, r.value)
    ensures r.Ok? && req.tabletId.Some? ==>
      req.tabletId.value >= 0 && r.value == TabletLine(req.tabletId.value as nat)
    ensures r.Ok? && req.tabletId.None? ==>
      && req.productId.value >= 0
      && (Truthy(req.variantId) ==> req.variantId.value >= 0)
      && r.value == ProductLine(req.productId.value as nat,
                                if Truthy(req.variantId) then Some(req.variantId.value as nat) else None)
    ensures r.Err? <==>
      if req.tabletId.Some? then !RowIn(req.tabletId.value, c.tablets)
      else !RowIn(req.productId.value, c.products) || (Truthy(req.variantId) && !RowIn(req.variantId.value, c.variants))
  {
    if req.tabletId.Some? then
      var t := req.tabletId.value;
      if t < 0 || t as nat !in c.tablets then Err(ServerError) else Ok(TabletLine(t as nat))
    else
      var p := req.productId.value;
      if p < 0 || p as nat !in c.products then Err(ServerError)
      else if !Truthy(req.variantId) then Ok(ProductLine(p as nat, None))
      else
        var v := req.variantId.value;
        if v < 0 || v as nat !in c.variants then Err(ServerError)
        else Ok(ProductLine(p as nat, Some(v as nat)))
  }

  /** `CartView.post`: the cart is resolved (and created) first, then the
      payload is validated, the ids looked up, and the quantity added to the
      line with the same key or to a new line. */
  function AddToCart(c: Catalog, s: CartStore, caller: Caller, freshSession: string, p: AddPayload): (r: Outcome<Lines>)
    requires freshSession != ""
    ensures var loc := GetCart(s, caller, freshSession);
      && (r.result.Err? ==> r.store == loc.store)
      && (r.result.Ok? ==> r.store.carts == loc.store.carts[loc.owner := r.result.value])
      && (r.result.Ok? ==>
            && ValidateAdd(p).Ok? && ResolveKey(c, ValidateAdd(p).value).Ok?
            && r.result.value == AddQuantity(loc.store.carts[loc.owner], ResolveKey(c, ValidateAdd(p).value).value,
                                             ValidateAdd(p).value.quantity, s.nextLineId))
    ensures r.result.Err? <==> ValidateAdd(p).Err? || ResolveKey(c, ValidateAdd(p).value).Err?
    ensures ValidateAdd(p).Err? ==> r.result == Err(ValidationError)
    ensures ValidateAdd(p).Ok? && ResolveKey(c, ValidateAdd(p).value).Err? ==> r.result == Err(ServerError)
  {
    var loc := GetCart(s, caller, freshSession);
    var t, o := loc.store, loc.owner;
    match ValidateAdd(p)
    case Err(e) => Outcome(t, Err(e))
    case Ok(req) =>
      match ResolveKey(c, req)
      case Err(e) => Outcome(t, Err(e))
      case Ok(key) =>
        var ls := AddQuantity(t.carts[o], key, req.quantity, s.nextLineId);
        var next := if HasKey(t.carts[o], key) then s.nextLineId else s.nextLineId + 1;
        Outcome(CartStore(t.carts[o := ls], next), Ok(ls))
  }

  /** `after` is `before` with `q` more units of `key`: that key's units
      grow by `q` and no other key's change, the item count grows by `q`, and
      the total by the key's unit price times `q`. */
  predicate AddsUnits(c: Catalog, before: Lines, after: Lines, key: LineKey, q: int, other: LineKey)
    requires Consistent(c) && Resolves(c, key)
  {
    && QuantityOf(after, other) == QuantityOf(before, other) + (if other == key then q else 0)
    && ItemCount(after) == ItemCount(before) + q
    && AllResolve(c, after) && AllResolve(c, before)
    && Total(c, after) == Total(c, before) + UnitPrice(c, key) * q as real
  }

  /** A successful add puts exactly `quantity` more units of the key in the
      caller's cart and changes nothing else about its contents. */
  lemma AddToCartEffect(c: Catalog, s: CartStore, caller: Caller, freshSession: string, p: AddPayload, other: LineKey)
    requires freshSession != "" && StoreValid(s) && StoreResolves(c, s) && Consistent(c)
    requires AddToCart(c, s, caller, freshSession, p).result.Ok?
    ensures var loc := GetCart(s, caller, freshSession);
      var req := ValidateAdd(p).value;
      var key := ResolveKey(c, req).value;
      AddsUnits(c, loc.store.carts[loc.owner], AddToCart(c, s, caller, freshSession, p).result.value, key, req.quantity, other)
  {
    var loc := GetCart(s, caller, freshSession);
    LocatedCartValid(c, s, caller, freshSession);
    var before := loc.store.carts[loc.owner];
    var req := ValidateAdd(p).value;
    var key := ResolveKey(c, req).value;
    var ls := AddToCart(c, s, caller, freshSession, p).result.value;
    assert ls == AddQuantity(before, key, req.quantity, s.nextLineId);
    AddEffect(c, before, key, req.quantity, s.nextLineId, other);
  }

  lemma AddEffect(c: Catalog, before: Lines, key: LineKey, q: int, id: nat, other: LineKey)
    requires Consistent(c) && AllResolve(c, before) && Resolves(c, key) && KeysUnique(before)
    ensures AddsUnits(c, before, AddQuantity(before, key, q, id), key, q, other)
  {
    AddQuantityUnits(before, key, q, id, other);
    AddQuantityItemCount(before, key, q, id);
    AddQuantityTotal(c, before, key, q, id);
    LineTotalOf(c, id, key, q);
  }

  /** The caller's cart, once resolved, is well formed and resolves. */
  lemma LocatedCartValid(c: Catalog, s: CartStore, caller: Caller, freshSession: string)
    requires freshSession != "" && StoreValid(s) && StoreResolves(c, s)
    ensures var loc := GetCart(s, caller, freshSession);
      WellFormed(loc.store.carts[loc.owner]) && AllResolve(c, loc.store.carts[loc.owner])
  {
    GetCartValid(c, s, caller, freshSession);
  }

  /** Every add, successful or not, keeps the store valid and resolvable, and
      touches no cart but the caller's. */
  lemma AddToCartValid(c: Catalog, s: CartStore, caller: Caller, freshSession: string, p: AddPayload)
    requires freshSession != "" && StoreValid(s) && StoreResolves(c, s) && Consistent(c)
    ensures var r := AddToCart(c, s, caller, freshSession, p);
      && StoreValid(r.store) && StoreResolves(c, r.store)
      && forall o :: o in s.carts && o != GetCart(s, caller, freshSession).owner ==> o in r.store.carts && r.store.carts[o] == s.carts[o]
  {
    var loc := GetCart(s, caller, freshSession);
    GetCartValid(c, s, caller, freshSession);
    var r := AddToCart(c, s, caller, freshSession, p);
    if r.result.Ok? {
      var key := ResolveKey(c, ValidateAdd(p).value).value;
      AddedCartValid(c, loc.store, loc.owner, key, ValidateAdd(p).value.quantity);
    }
  }

  lemma AddedCartValid(c: Catalog, t: CartStore, o: Owner, key: LineKey, q: int)
    requires StoreValid(t) && StoreResolves(c, t) && Consistent(c) && Resolves(c, key) && o in t.carts && q >= 1
    ensures var ls := AddQuantity(t.carts[o], key, q, t.nextLineId);
      var next := if HasKey(t.carts[o], key) then t.nextLineId else t.nextLineId + 1;
      StoreValid(CartStore(t.carts[o := ls], next)) && StoreResolves(c, CartStore(t.carts[o := ls], next))
  {
    var before := t.carts[o];
    var ls := AddQuantity(before, key, q, t.nextLineId);
    var next := if HasKey(before, key) then t.nextLineId else t.nextLineId + 1;
    BelowNextIds(before, t.nextLineId);
    AddQuantityWellFormed(before, key, q, t.nextLineId);
    AddQuantityIds(before, key, q, t.nextLineId);
    AddQuantityTotal(c, before, key, q, t.nextLineId);
    forall i | 0 <= i < |ls| ensures ls[i].id < next {
      assert ls[i].id in Ids(ls);
    }
    ReplaceValid(t, o, ls, next);
  }

  /** Presence, not truthiness, picks the branch: a payload naming product 5
      with `education_tablet_id` 0 passes validation and is filed as tablet 0,
      which no table row has (row ids start at 1), so it ends in a server error
      and the product is never added. */
  lemma ZeroTabletIdHidesProduct(c: Catalog, s: CartStore, caller: Caller, freshSession: string)
    requires freshSession != "" && 0 !in c.tablets
    ensures var p := AddPayload(Num(5), Absent, Num(0), Absent);
      && ValidateAdd(p).Ok?
      && AddToCart(c, s, caller, freshSession, p).result == Err(ServerError)
  {
  }

  // ---------------- PATCH / DELETE /cart/items/<id> ----------------

  /** What a patch does to the line it names: delete it, or store a quantity. */
  datatype PatchStep = DropLine | StoreQuantity(quantity: int)

  /** `request.data.get('quantity', 1)` compared with 0, then, when it is
      positive, saved through `int()` by the quantity column. A missing
      quantity means 1; a value that is not a number (a string, null, a list)
      makes the comparison raise. A float between 0 and 1 is positive but
      saves as 0. */
  function PatchStepOf(v: JsonValue): (r: Option<PatchStep>)
    ensures r.None? <==> !v.Missing? && PyNumber(v).None?
    ensures r == Some(DropLine) <==> PyNumber(v).Some? && PyNumber(v).value <= 0.0
    ensures v.Missing? ==> r == Some(StoreQuantity(1))
    ensures r.Some? && r.value.StoreQuantity? && !v.Missing? ==> PyInt(v) == Some(r.value.quantity)
    ensures r.Some? && r.value.StoreQuantity? ==> r.value.quantity >= 0
  {
    if v.Missing? then Some(StoreQuantity(1))
    else
      match PyNumber(v)
      case None => None
      case Some(x) => if x <= 0.0 then Some(DropLine) else Some(StoreQuantity(PyInt(v).value))
  }

  function ApplyStep(ls: Lines, id: nat, step: PatchStep): Result<Lines> {
    match step
    case DropLine => RemoveLine(ls, id)
    case StoreQuantity(n) => Requantify(ls, id, n)
  }

  /** `CartItemView.patch`: no cart is NotFound; a line id outside the
      caller's cart is NotFound; then a quantity Python cannot compare with 0
      fails with a server error; one of 0 or less deletes the line; any other
      is stored as its `int()`. */
  function PatchItem(s: CartStore, caller: Caller, itemId: nat, v: JsonValue): (r: Outcome<Lines>)
    ensures var f := FindCart(s, caller);
      && (r.result.Err? ==> r.store == f.store)
      && (r.result.Err? <==> f.owner.None? || itemId !in Ids(f.store.carts[f.owner.value]) || PatchStepOf(v).None?)
      && (r.result.Err? ==> r.result.error == if f.owner.Some? && itemId in Ids(f.store.carts[f.owner.value]) then ServerError else NotFound)
      && (r.result.Ok? ==>
           && f.owner.Some? && r.store == CartStore(f.store.carts[f.owner.value := r.result.value], s.nextLineId)
           && (PatchStepOf(v) == Some(DropLine) ==> Ok(r.result.value) == RemoveLine(f.store.carts[f.owner.value], itemId))
           && (PatchStepOf(v).value.StoreQuantity? ==>
                 Ok(r.result.value) == Requantify(f.store.carts[f.owner.value], itemId, PatchStepOf(v).value.quantity)))
  {
    var f := FindCart(s, caller);
    if f.owner.None? then Outcome(f.store, Err(NotFound))
    else
      var o := f.owner.value;
      if IdIndex(f.store.carts[o], itemId).None? then Outcome(f.store, Err(NotFound))
      else if PatchStepOf(v).None? then Outcome(f.store, Err(ServerError))
      else
        match ApplyStep(f.store.carts[o], itemId, PatchStepOf(v).value)
        case Err(e) => Outcome(f.store, Err(e))
        case Ok(ls) => Outcome(CartStore(f.store.carts[o := ls], f.store.nextLineId), Ok(ls))
  }

  /** After a successful patch that stores a quantity the line's key holds
      exactly that quantity; after one that deletes, the key is gone from the
      cart. The item count moves by the difference. */
  lemma PatchItemEffect(s: CartStore, caller: Caller, itemId: nat, v: JsonValue)
    requires StoreValid(s) && PatchItem(s, caller, itemId, v).result.Ok?
    ensures var f := FindCart(s, caller);
      var before := f.store.carts[f.owner.value];
      var line := before[IdIndex(before, itemId).value];
      var ls := PatchItem(s, caller, itemId, v).result.value;
      var step := PatchStepOf(v).value;
      && (step.StoreQuantity? ==> HasKey(ls, line.key) && QuantityOf(ls, line.key) == step.quantity)
      && (step.DropLine? ==> !HasKey(ls, line.key))
      && ItemCount(ls) == ItemCount(before) - line.quantity + (if step.StoreQuantity? then step.quantity else 0)
  {
    var f := FindCart(s, caller);
    FindCartValid(Catalog(map[], map[], map[]), s, caller);
    var before := f.store.carts[f.owner.value];
    StepEffect(before, itemId, PatchStepOf(v).value);
  }

  lemma StepEffect(before: Lines, itemId: nat, step: PatchStep)
    requires WellFormed(before) && itemId in Ids(before)
    requires step.StoreQuantity? ==> step.quantity >= 0
    ensures var i := IdIndex(before, itemId).value;
      var ls := ApplyStep(before, itemId, step).value;
      && (step.StoreQuantity? ==> HasKey(ls, before[i].key) && QuantityOf(ls, before[i].key) == step.quantity)
      && (step.DropLine? ==> !HasKey(ls, before[i].key))
      && ItemCount(ls) == ItemCount(before) - before[i].quantity + (if step.StoreQuantity? then step.quantity else 0)
  {
    var i := IdIndex(before, itemId).value;
    var ls := ApplyStep(before, itemId, step).value;
    if step.StoreQuantity? {
      RequantifyWellFormed(before, itemId, step.quantity);
      assert ls[i].key == before[i].key;
      QuantityOfUniqueLine(ls, i);
      ItemCountUpdate(before, i, before[i].(quantity := step.quantity));
    } else {
      DropAtWellFormed(before, i);
      forall j | 0 <= j < |ls| ensures ls[j].key != before[i].key {
        if j < i { assert ls[j] == before[j]; } else { assert ls[j] == before[j + 1]; }
      }
      DropItemCount(before, i);
    }
  }

  /** A patch of 0.5 on a line of the caller's cart succeeds and leaves the
      line in the cart holding 0 units: the comparison sees a positive number,
      and the column stores `int(0.5)`. */
  lemma FractionalPatchKeepsEmptyLine(s: CartStore, caller: Caller, itemId: nat)
    requires StoreValid(s) && FindCart(s, caller).owner.Some?
    requires itemId in Ids(FindCart(s, caller).store.carts[FindCart(s, caller).owner.value])
    ensures var f := FindCart(s, caller);
      var before := f.store.carts[f.owner.value];
      var line := before[IdIndex(before, itemId).value];
      var r := PatchItem(s, caller, itemId, JsonFloat(0.5));
      && r.result.Ok?
      && HasKey(r.result.value, line.key) && QuantityOf(r.result.value, line.key) == 0
  {
    assert PatchStepOf(JsonFloat(0.5)) == Some(StoreQuantity(0));
    PatchItemEffect(s, caller, itemId, JsonFloat(0.5));
  }

  lemma {:induction false} DropItemCount(ls: Lines, i: nat)
    requires i < |ls|
    ensures ItemCount(DropAt(ls, i)) == ItemCount(ls) - ls[i].quantity
    decreases |ls|
  {
    var n := |ls| - 1;
    if i < n {
      DropItemCount(ls[..n], i);
      assert DropAt(ls, i)[..n - 1] == DropAt(ls[..n], i);
      assert DropAt(ls, i)[n - 1] == ls[n];
    } else {
      assert DropAt(ls, i) == ls[..n];
    }
  }

  /** `CartItemView.delete`: the line goes, or NotFound as for a patch. */
  function DeleteItem(s: CartStore, caller: Caller, itemId: nat): (r: Outcome<Lines>)
    ensures var f := FindCart(s, caller);
      && (r.result.Err? <==> f.owner.None? || itemId !in Ids(f.store.carts[f.owner.value]))
      && (r.result.Err? ==> r == Outcome(f.store, Err(NotFound)))
      && (r.result.Ok? ==>
           && f.owner.Some? && r.store == CartStore(f.store.carts[f.owner.value := r.result.value], s.nextLineId)
           && Ok(r.result.value) == RemoveLine(f.store.carts[f.owner.value], itemId))
  {
    var f := FindCart(s, caller);
    if f.owner.None? then Outcome(f.store, Err(NotFound))
    else
      var o := f.owner.value;
      match RemoveLine(f.store.carts[o], itemId)
      case Err(e) => Outcome(f.store, Err(e))
      case Ok(ls) => Outcome(CartStore(f.store.carts[o := ls], f.store.nextLineId), Ok(ls))
  }

  /** `CartView.delete`: every line of the caller's cart goes; the cart stays. */
  function ClearCart(s: CartStore, caller: Caller, freshSession: string): (r: Outcome<()>)
    requires freshSession != ""
    ensures r.result.Ok?
    ensures var loc := GetCart(s, caller, freshSession);
      r.store == CartStore(loc.store.carts[loc.owner := []], s.nextLineId)
    ensures ItemCount(r.store.carts[GetCart(s, caller, freshSession).owner]) == 0
  {
    var loc := GetCart(s, caller, freshSession);
    Outcome(loc.store.(carts := loc.store.carts[loc.owner := []]), Ok(()))
  }

  /** Patching keeps the store valid and resolvable and never touches anyone
      else's cart. */
  lemma PatchItemValid(c: Catalog, s: CartStore, caller: Caller, itemId: nat, v: JsonValue)
    requires StoreValid(s) && StoreResolves(c, s)
    ensures var r := PatchItem(s, caller, itemId, v);
      && StoreValid(r.store) && StoreResolves(c, r.store)
      && forall o :: o in s.carts && Some(o) != FindCart(s, caller).owner ==> o in r.store.carts && r.store.carts[o] == s.carts[o]
  {
    var f := FindCart(s, caller);
    FindCartValid(c, s, caller);
    var r := PatchItem(s, caller, itemId, v);
    if r.result.Ok? {
      PatchedCartValid(c, f.store, f.owner.value, itemId, PatchStepOf(v).value);
    }
  }

  lemma PatchedCartValid(c: Catalog, t: CartStore, o: Owner, itemId: nat, step: PatchStep)
    requires StoreValid(t) && StoreResolves(c, t) && o in t.carts && ApplyStep(t.carts[o], itemId, step).Ok?
    requires step.StoreQuantity? ==> step.quantity >= 0
    ensures var t2 := CartStore(t.carts[o := ApplyStep(t.carts[o], itemId, step).value], t.nextLineId);
      StoreValid(t2) && StoreResolves(c, t2)
  {
    var before := t.carts[o];
    if step.DropLine? {
      RemoveLineWellFormed(before, itemId);
    } else {
      RequantifyWellFormed(before, itemId, step.quantity);
    }
    StepShape(before, itemId, step);
    ReplaceBySubset(c, t, o, ApplyStep(before, itemId, step).value);
  }

  /** A well-formed replacement whose lines all keep ids and keys from the
      cart they replace keeps the store valid and resolvable. */
  lemma ReplaceBySubset(c: Catalog, s: CartStore, o: Owner, ls: Lines)
    requires StoreValid(s) && StoreResolves(c, s) && o in s.carts && WellFormed(ls)
    requires forall i :: 0 <= i < |ls| ==> exists j :: 0 <= j < |s.carts[o]| && s.carts[o][j].id == ls[i].id && s.carts[o][j].key == ls[i].key
    ensures StoreValid(CartStore(s.carts[o := ls], s.nextLineId))
    ensures StoreResolves(c, CartStore(s.carts[o := ls], s.nextLineId))
  {
    var before := s.carts[o];
    forall i | 0 <= i < |ls| ensures ls[i].id < s.nextLineId && Resolves(c, ls[i].key) && ls[i].id in Ids(before) {
      assert exists j :: 0 <= j < |before| && before[j].id == ls[i].id && before[j].key == ls[i].key;
      var j :| 0 <= j < |before| && before[j].id == ls[i].id && before[j].key == ls[i].key;
    }
    ReplaceValid(s, o, ls, s.nextLineId);
  }

  lemma StepShape(before: Lines, itemId: nat, step: PatchStep)
    requires ApplyStep(before, itemId, step).Ok?
    ensures var ls := ApplyStep(before, itemId, step).value;
      forall i :: 0 <= i < |ls| ==> exists j :: 0 <= j < |before| && before[j].id == ls[i].id && before[j].key == ls[i].key
  {
    var ls := ApplyStep(before, itemId, step).value;
    var k := IdIndex(before, itemId).value;
    forall i | 0 <= i < |ls| ensures exists j :: 0 <= j < |before| && before[j].id == ls[i].id && before[j].key == ls[i].key {
      if step.DropLine? {
        var j := if i < k then i else i + 1;
        assert ls[i] == before[j];
      } else {
        assert before[i].id == ls[i].id && before[i].key == ls[i].key;
      }
    }
  }

  /** Deleting a line keeps the store valid and resolvable and never touches
      anyone else's cart. */
  lemma DeleteItemValid(c: Catalog, s: CartStore, caller: Caller, itemId: nat)
    requires StoreValid(s) && StoreResolves(c, s)
    ensures var r := DeleteItem(s, caller, itemId);
      && StoreValid(r.store) && StoreResolves(c, r.store)
      && forall o :: o in s.carts && Some(o) != FindCart(s, caller).owner ==> o in r.store.carts && r.store.carts[o] == s.carts[o]
  {
    var f := FindCart(s, caller);
    FindCartValid(c, s, caller);
    var r := DeleteItem(s, caller, itemId);
    if r.result.Ok? {
      DeletedCartValid(c, f.store, f.owner.value, itemId);
    }
  }

  lemma DeletedCartValid(c: Catalog, t: CartStore, o: Owner, itemId: nat)
    requires StoreValid(t) && StoreResolves(c, t) && o in t.carts && RemoveLine(t.carts[o], itemId).Ok?
    ensures var t2 := CartStore(t.carts[o := RemoveLine(t.carts[o], itemId).value], t.nextLineId);
      StoreValid(t2) && StoreResolves(c, t2)
  {
    var before := t.carts[o];
    var ls := RemoveLine(before, itemId).value;
    RemoveLineWellFormed(before, itemId);
    forall i | 0 <= i < |ls| ensures exists j :: 0 <= j < |before| && before[j].id == ls[i].id && before[j].key == ls[i].key {
      assert ls[i] in before;
      var j :| 0 <= j < |before| && before[j] == ls[i];
    }
    ReplaceBySubset(c, t, o, ls);
  }

  /** Clearing keeps the store valid and resolvable. */
  lemma ClearCartValid(c: Catalog, s: CartStore, caller: Caller, freshSession: string)
    requires freshSession != "" && StoreValid(s) && StoreResolves(c, s)
    ensures StoreValid(ClearCart(s, caller, freshSession).store)
    ensures StoreResolves(c, ClearCart(s, caller, freshSession).store)
  {
    var loc := GetCart(s, caller, freshSession);
    GetCartValid(c, s, caller, freshSession);
    ReplaceValid(loc.store, loc.owner, [], s.nextLineId);
  }
}
