/** Financing applications and their two handler transitions: the staff-only
    bank submission, which approves whatever the current status, and the
    customer's confirmation, the only guarded transition. */
module Financing {
  import opened Wrappers
  import opened Pricing
  import opened Access

  datatype AppStatus = Pending | BankReview | Approved | Rejected | Confirmed | Completed

  /** What the (simulated) bank answered, if anything. */
  datatype BankResponse = NoResponse | LoanApproved

  /** A financing application: who applied, for which product (and variant),
      under which plan, and where it stands. */
  datatype Application = Application(
    owner: Option<nat>,
    productId: nat,
    variantId: Option<nat>,
    plan: FinancingPlan,
    status: AppStatus,
    bankResponse: BankResponse,
    approvedAmount: Option<real>,
    monthlyPayment: Option<real>)

  type Applications = map<nat, Application>

  /** What a transition leaves behind: the applications and the response. */
  datatype Step = Step(apps: Applications, result: Result<Application>)

  /** Every application's product and variant rows exist. */
  predicate AppsResolve(c: Catalog, apps: Applications) {
    forall id :: id in apps ==>
      apps[id].productId in c.products && (apps[id].variantId.Some? ==> apps[id].variantId.value in c.variants)
  }

  /** The price the bank approves: the variant's final price when the
      application names a variant, else the product's current price. */
  function ApprovedPrice(c: Catalog, a: Application): (r: real)
    requires Consistent(c) && a.productId in c.products && (a.variantId.Some? ==> a.variantId.value in c.variants)
    ensures a.variantId.Some? ==> r == FinalPrice(c, a.variantId.value)
    ensures a.variantId.None? ==> r == CurrentPrice(c.products[a.productId])
  {
    if a.variantId.Some? then FinalPrice(c, a.variantId.value) else CurrentPrice(c.products[a.productId])
  }

  /** `submit_to_bank`: staff only; the application must exist; the status
      becomes approved whatever it was, with the approved amount and the
      plan's monthly payment on it. A plan of zero months divides by zero
      before anything is saved. */
  function SubmitToBank(c: Catalog, apps: Applications, a: Actor, id: nat): (r: Step)
    requires Consistent(c) && AppsResolve(c, apps)
    ensures r.result.Err? ==> r.apps == apps
    ensures !AdminOrStaff(a) ==> r.result == Err(Refusal(a))
    ensures AdminOrStaff(a) && id !in apps ==> r.result == Err(NotFound)
    ensures AdminOrStaff(a) && id in apps && apps[id].plan.months == 0 ==> r.result == Err(ServerError)
    ensures r.result.Ok? <==> AdminOrStaff(a) && id in apps && apps[id].plan.months > 0
    ensures r.result.Ok? ==>
      var before := apps[id];
      var price := ApprovedPrice(c, before);
      && r.apps == apps[id := r.result.value]
      && r.result.value == before.(status := Approved, bankResponse := LoanApproved,
                                   approvedAmount := Some(price),
                                   monthlyPayment := MonthlyPayment(before.plan, price))
      && r.result.value.monthlyPayment.value * before.plan.months as real
         == price * (1.0 + before.plan.interestRate / 100.0)
  {
    if !AdminOrStaff(a) then Step(apps, Err(Refusal(a)))
    else if id !in apps then Step(apps, Err(NotFound))
    else
      var before := apps[id];
      var price := ApprovedPrice(c, before);
      var monthly := MonthlyPayment(before.plan, price);
      if monthly.None? then Step(apps, Err(ServerError))
      else
        var after := before.(status := Approved, bankResponse := LoanApproved,
                             approvedAmount := Some(price), monthlyPayment := monthly);
        Step(apps[id := after], Ok(after))
  }

  /** The submission does not look at the status: two applications that
      differ only in status come out identical. */
  lemma SubmitIgnoresStatus(c: Catalog, apps: Applications, a: Actor, id: nat, s: AppStatus)
    requires Consistent(c) && AppsResolve(c, apps) && id in apps
    ensures var apps2 := apps[id := apps[id].(status := s)];
      AppsResolve(c, apps2) &&
      SubmitToBank(c, apps, a, id).result == SubmitToBank(c, apps2, a, id).result
  {
  }

  /** `confirm`: the caller must be signed in; `get_object` only finds
      applications the caller may see (staff and superusers all, anyone else
      their own); then a caller who is neither staff nor the owner is
      FORBIDDEN, an application that is not approved is INVALID_STATUS, and
      otherwise only the status changes, to confirmed. */
  function Confirm(apps: Applications, a: Actor, id: nat): (r: Step)
    ensures r.result.Err? ==> r.apps == apps
    ensures a.Anonymous? ==> r.result == Err(NotAuthenticated)
    ensures a.Member? && (id !in apps || !SeesOwnOrAll(a.user, apps[id].owner)) ==> r.result == Err(NotFound)
    ensures r.result == Err(Forbidden) <==>
      a.Member? && id in apps && SeesOwnOrAll(a.user, apps[id].owner)
      && !(a.user.isStaff || apps[id].owner == Some(a.user.id))
    ensures r.result == Err(InvalidStatus) <==>
      a.Member? && id in apps && (a.user.isStaff || apps[id].owner == Some(a.user.id))
      && apps[id].status != Approved
    ensures r.result.Ok? ==>
      && r.apps == apps[id := r.result.value]
      && r.result.value == apps[id].(status := Confirmed)
  {
    match RequireMember(a)
    case Err(e) => Step(apps, Err(e))
    case Ok(u) =>
      if id !in apps || !SeesOwnOrAll(u, apps[id].owner) then Step(apps, Err(NotFound))
      else if !(u.isStaff || apps[id].owner == Some(u.id)) then Step(apps, Err(Forbidden))
      else if apps[id].status != Approved then Step(apps, Err(InvalidStatus))
      else
        var after := apps[id].(status := Confirmed);
        Step(apps[id := after], Ok(after))
  }

  /** Confirmation succeeds exactly for an approved application confirmed by
      a staff member or by its owner. */
  lemma ConfirmSucceedsIff(apps: Applications, a: Actor, id: nat)
    ensures Confirm(apps, a, id).result.Ok? <==>
      a.Member? && id in apps && apps[id].status == Approved
      && (a.user.isStaff || apps[id].owner == Some(a.user.id))
  {
  }

  /** Since `get_object` already hides other users' applications, the
      FORBIDDEN answer is reachable only by a superuser who is neither staff
      nor the owner. */
  lemma ForbiddenOnlyForSuperuser(apps: Applications, a: Actor, id: nat)
    requires Confirm(apps, a, id).result == Err(Forbidden)
    ensures a.Member? && a.user.isSuperuser && !a.user.isStaff
    ensures id in apps && apps[id].owner != Some(a.user.id)
  {
  }

  /** The handlers only ever write pending (the default), approved and
      confirmed: bank review, rejected and completed are never set. */
  predicate HandlerStatus(s: AppStatus) { s == Pending || s == Approved || s == Confirmed }

  predicate AllHandlerStatus(apps: Applications) {
    forall id :: id in apps ==> HandlerStatus(apps[id].status)
  }

  lemma TransitionsKeepHandlerStatus(c: Catalog, apps: Applications, a: Actor, id: nat)
    requires Consistent(c) && AppsResolve(c, apps) && AllHandlerStatus(apps)
    ensures AllHandlerStatus(SubmitToBank(c, apps, a, id).apps)
    ensures AllHandlerStatus(Confirm(apps, a, id).apps)
    ensures AppsResolve(c, SubmitToBank(c, apps, a, id).apps)
    ensures AppsResolve(c, Confirm(apps, a, id).apps)
  {
  }

  /** Approval then confirmation by the owner ends in the confirmed state,
      whatever state the application started in. */
  lemma SubmitThenConfirm(c: Catalog, apps: Applications, staff: User, id: nat)
    requires Consistent(c) && AppsResolve(c, apps) && IsAdmin(staff) && id in apps && apps[id].plan.months > 0
    requires apps[id].owner.Some?
    ensures var s := SubmitToBank(c, apps, Member(staff), id);
      var owner := User(apps[id].owner.value, false, false);
      && Confirm(s.apps, Member(owner), id).result.Ok?
      && Confirm(s.apps, Member(owner), id).result.value.status == Confirmed
      && Confirm(s.apps, Member(owner), id).result.value.monthlyPayment == MonthlyPayment(apps[id].plan, ApprovedPrice(c, apps[id]))
  {
  }
}
