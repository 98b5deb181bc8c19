/** Enterprise (device-as-a-service) orders: creation with the bundle total,
    the staff-only credit check, which approves whatever the status, and the
    quantity adjustment, which reprices the order but leaves the approval
    alone. */
module Enterprise {
  import opened Wrappers
  import opened Fields
  import opened Pricing
  import opened Access
  import opened Json

  datatype EStatus = Pending | CreditCheck | Approved | Rejected | Confirmed | Processing | Shipped | Delivered

  /** `bank_response`: empty until the simulated credit check records the
      amount it approved. */
  datatype BankAnswer = NoAnswer | ApprovedFor(amount: real)

  /** An enterprise order. The quantity column only holds non-negative
      integers. Company, contact and delivery details are not modelled. */
  datatype EnterpriseOrder = EnterpriseOrder(
    owner: Option<nat>,
    bundleId: nat,
    quantity: nat,
    approvedAmount: Option<real>,
    totalAmount: real,
    status: EStatus,
    bankResponse: BankAnswer)

  /** Bundles by id, each with its price per device. */
  type Bundles = map<nat, real>

  /** Orders by their lookup id. */
  type Orders = map<nat, EnterpriseOrder>

  /** What an enterprise-order handler leaves behind. */
  datatype EStep = EStep(orders: Orders, result: Result<EnterpriseOrder>)

  /** Every order's bundle exists (deleting a bundle deletes its orders). */
  predicate OrdersResolve(b: Bundles, os: Orders) {
    forall id :: id in os ==> os[id].bundleId in b
  }

  /** Every order's total is its bundle price times its quantity. */
  predicate TotalsMatch(b: Bundles, os: Orders) {
    && OrdersResolve(b, os)
    && forall id :: id in os ==> os[id].totalAmount == BundleTotal(b[os[id].bundleId], os[id].quantity)
  }

  // ---------------- creation ----------------

  /** `create`: the caller must be signed in; `bundle_id` is a required
      integer and `quantity` a required integer of at least 0 (any other
      invalid field is `formValid == false`); an unknown bundle makes the
      serializer's lookup raise (500); the order id is generated, and a
      clash with an existing one is refused by the unique column. The new
      order belongs to the caller, is pending, and costs the bundle price
      times the quantity. */
  function Create(b: Bundles, os: Orders, a: Actor, bundleId: Field, quantity: Field, formValid: bool, newId: nat): (r: EStep)
    ensures r.result.Err? ==> r.orders == os
    ensures a.Anonymous? ==> r.result == Err(NotAuthenticated)
    ensures a.Member? && (!formValid || !bundleId.Num? || !quantity.Num? || quantity.n < 0) ==>
      r.result == Err(ValidationError)
    ensures r.result == Err(ServerError) <==>
      && a.Member? && formValid && bundleId.Num? && quantity.Num? && quantity.n >= 0
      && (bundleId.n < 0 || bundleId.n as nat !in b)
    ensures r.result.Ok? <==>
      && a.Member? && formValid && bundleId.Num? && quantity.Num? && quantity.n >= 0
      && bundleId.n >= 0 && bundleId.n as nat in b && newId !in os
    ensures r.result.Ok? ==>
      var o := r.result.value;
      && r.orders == os[newId := o]
      && o.owner == Some(a.user.id) && o.bundleId == bundleId.n && o.quantity == quantity.n
      && o.totalAmount == BundleTotal(b[o.bundleId], o.quantity)
      && o.status == Pending && o.approvedAmount.None? && o.bankResponse == NoAnswer
  {
    match RequireMember(a)
    case Err(e) => EStep(os, Err(e))
    case Ok(u) =>
      var bid := RequiredInt(bundleId, None);
      var q := RequiredInt(quantity, Some(0));
      if !formValid || bid.Err? || q.Err? then EStep(os, Err(ValidationError))
      else if bid.value < 0 || bid.value as nat !in b then EStep(os, Err(ServerError))
      else if newId in os then EStep(os, Err(StorageRejected))
      else
        var bundle := bid.value as nat;
        var count := q.value as nat;
        var order := EnterpriseOrder(Some(u.id), bundle, count, None, BundleTotal(b[bundle], count), Pending, NoAnswer);
        EStep(os[newId := order], Ok(order))
  }

  // ---------------- credit check ----------------

  /** `credit_check`: staff only, checked before the lookup; staff see every
      order, so only an unknown id is NOT_FOUND. The order is approved for
      exactly its total, whatever its status was. */
  function CreditCheck(os: Orders, a: Actor, id: nat): (r: EStep)
    ensures r.result.Err? ==> r.orders == os
    ensures !AdminOrStaff(a) ==> r.result == Err(Refusal(a))
    ensures AdminOrStaff(a) && id !in os ==> r.result == Err(NotFound)
    ensures r.result.Ok? <==> AdminOrStaff(a) && id in os
    ensures r.result.Ok? ==>
      var o := r.result.value;
      && r.orders == os[id := o]
      && o.status == Approved
      && o.approvedAmount == Some(os[id].totalAmount)
      && o.bankResponse == ApprovedFor(os[id].totalAmount)
      && o.(status := os[id].status, approvedAmount := os[id].approvedAmount, bankResponse := os[id].bankResponse) == os[id]
  {
    match RequireAdmin(a)
    case Err(e) => EStep(os, Err(e))
    case Ok(_) =>
      if id !in os then EStep(os, Err(NotFound))
      else
        var before := os[id];
        var after := before.(status := Approved, approvedAmount := Some(before.totalAmount),
                             bankResponse := ApprovedFor(before.totalAmount));
        EStep(os[id := after], Ok(after))
  }

  /** The credit check does not look at the status: orders that differ only
      in status come out identical. */
  lemma CreditCheckIgnoresStatus(os: Orders, a: Actor, id: nat, s: EStatus)
    requires id in os
    ensures CreditCheck(os, a, id).result == CreditCheck(os[id := os[id].(status := s)], a, id).result
  {
  }

  // ---------------- quantity adjustment ----------------

  /** `adjust_order`: the caller must be signed in and see the order (staff
      all, others their own). A falsy quantity leaves the order as it is.
      Otherwise the quantity becomes `int(quantity)` (a value `int` refuses
      is a 500) and the total is recomputed; a negative quantity is refused
      by the column on save. Status, approval and bank answer are untouched. */
  function AdjustOrder(b: Bundles, os: Orders, a: Actor, id: nat, v: JsonValue): (r: EStep)
    requires OrdersResolve(b, os)
    ensures r.result.Err? ==> r.orders == os
    ensures a.Anonymous? ==> r.result == Err(NotAuthenticated)
    ensures a.Member? && (id !in os || !SeesOwnOrAll(a.user, os[id].owner)) ==> r.result == Err(NotFound)
    ensures a.Member? && id in os && SeesOwnOrAll(a.user, os[id].owner) && !JsonTruthy(v) ==>
      r == EStep(os, Ok(os[id]))
    ensures r.result == Err(ServerError) <==>
      a.Member? && id in os && SeesOwnOrAll(a.user, os[id].owner) && JsonTruthy(v) && PyInt(v).None?
    ensures r.result == Err(StorageRejected) <==>
      && a.Member? && id in os && SeesOwnOrAll(a.user, os[id].owner) && JsonTruthy(v)
      && PyInt(v).Some? && PyInt(v).value < 0
    ensures r.result.Ok? <==>
      && a.Member? && id in os && SeesOwnOrAll(a.user, os[id].owner)
      && (!JsonTruthy(v) || (PyInt(v).Some? && PyInt(v).value >= 0))
    ensures r.result.Ok? && JsonTruthy(v) ==>
      r.result.value.totalAmount == BundleTotal(b[os[id].bundleId], PyInt(v).value as nat)
    ensures r.result.Ok? ==>
      var o := r.result.value;
      && r.orders == os[id := o]
      && o.owner == os[id].owner && o.bundleId == os[id].bundleId
      && o.status == os[id].status && o.approvedAmount == os[id].approvedAmount
      && o.bankResponse == os[id].bankResponse
      && (JsonTruthy(v) ==> PyInt(v) == Some(o.quantity as int))
      && (!JsonTruthy(v) ==> o == os[id])
  {
    match RequireMember(a)
    case Err(e) => EStep(os, Err(e))
    case Ok(u) =>
      if id !in os || !SeesOwnOrAll(u, os[id].owner) then EStep(os, Err(NotFound))
      else if !JsonTruthy(v) then EStep(os, Ok(os[id]))
      else match PyInt(v)
        case None => EStep(os, Err(ServerError))
        case Some(q) =>
          if q < 0 then EStep(os, Err(StorageRejected))
          else
            var before := os[id];
            var after := before.(quantity := q as nat, totalAmount := BundleTotal(b[before.bundleId], q as nat));
            EStep(os[id := after], Ok(after))
  }

  /** Without a (truthy) quantity nothing changes. */
  lemma AdjustWithoutQuantity(b: Bundles, os: Orders, a: Actor, id: nat, v: JsonValue)
    requires OrdersResolve(b, os) && !JsonTruthy(v)
    ensures AdjustOrder(b, os, a, id, v).orders == os
  {
  }

  /** Adjusting twice to the same quantity is adjusting once. */
  lemma AdjustIdempotent(b: Bundles, os: Orders, a: Actor, id: nat, v: JsonValue)
    requires OrdersResolve(b, os)
    ensures var once := AdjustOrder(b, os, a, id, v).orders;
      OrdersResolve(b, once) && AdjustOrder(b, once, a, id, v).orders == once
  {
  }

  /** Every handler keeps the totals equal to bundle price times quantity. */
  lemma HandlersKeepTotals(b: Bundles, os: Orders, a: Actor, id: nat, v: JsonValue,
                           bundleId: Field, quantity: Field, formValid: bool)
    requires TotalsMatch(b, os)
    ensures TotalsMatch(b, Create(b, os, a, bundleId, quantity, formValid, id).orders)
    ensures TotalsMatch(b, CreditCheck(os, a, id).orders)
    ensures TotalsMatch(b, AdjustOrder(b, os, a, id, v).orders)
  {
  }

  /** The adjustment does not consult the approval: after a credit check, a
      larger quantity of a priced bundle pushes the total past the approved
      amount, which stays as it was. */
  lemma AdjustOutgrowsApproval(b: Bundles, os: Orders, staff: User, owner: User, id: nat, v: JsonValue)
    requires TotalsMatch(b, os) && IsAdmin(staff) && id in os && os[id].owner == Some(owner.id)
    requires b[os[id].bundleId] > 0.0
    requires PyInt(v).Some? && PyInt(v).value > os[id].quantity
    ensures var checked := CreditCheck(os, Member(staff), id).orders;
      var r := AdjustOrder(b, checked, Member(owner), id, v);
      && r.result.Ok?
      && r.result.value.approvedAmount == Some(os[id].totalAmount)
      && r.result.value.totalAmount > os[id].totalAmount
  {
    var checked := CreditCheck(os, Member(staff), id).orders;
    var o := os[id];
    var q := PyInt(v).value;
    assert JsonTruthy(v) by {
      if !JsonTruthy(v) {
        assert v.JsonInt? || v.JsonBool? || v.JsonFloat? || v.JsonString?;
      }
    }
    BundleTotalGrows(b[o.bundleId], o.quantity, q as nat);
  }

  lemma BundleTotalGrows(price: real, q1: nat, q2: nat)
    requires price > 0.0 && q1 < q2
    ensures BundleTotal(price, q1) < BundleTotal(price, q2)
  {
    assert BundleTotal(price, q2) - BundleTotal(price, q1) == price * (q2 - q1) as real;
    PositiveProduct(price, (q2 - q1) as real);
  }

  /** The handlers only ever write pending (on creation) and approved. */
  predicate HandlerStatus(s: EStatus) { s == Pending || s == Approved }

  predicate AllHandlerStatus(os: Orders) {
    forall id :: id in os ==> HandlerStatus(os[id].status)
  }

  lemma HandlersWriteOnlyPendingOrApproved(b: Bundles, os: Orders, a: Actor, id: nat, v: JsonValue,
                                           bundleId: Field, quantity: Field, formValid: bool)
    requires OrdersResolve(b, os) && AllHandlerStatus(os)
    ensures AllHandlerStatus(Create(b, os, a, bundleId, quantity, formValid, id).orders)
    ensures AllHandlerStatus(CreditCheck(os, a, id).orders)
    ensures AllHandlerStatus(AdjustOrder(b, os, a, id, v).orders)
  {
  }
}
