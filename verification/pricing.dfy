/** The price and total properties of the store's models: products and their
    variants, education tablets, financing plans, enterprise bundles,
    fundraiser progress, tablet-order items and product ratings. Money is an
    exact `real`; the two-decimal rounding the database applies on save is not
    modelled. */
module Pricing {
  import opened Wrappers

  datatype Product = Product(price: real, salePrice: Option<real>, stock: nat)

  /** A variant belongs to exactly one product; its price is an adjustment on
      that product's current price. */
  datatype Variant = Variant(productId: nat, priceAdjustment: real, stock: nat)

  datatype Tablet = Tablet(price: real, stock: nat)

  /** The catalog rows the cart and the approval handlers read, by id. */
  datatype Catalog = Catalog(
    products: map<nat, Product>,
    variants: map<nat, Variant>,
    tablets: map<nat, Tablet>)

  /** A variant's product always exists (the foreign key cascades on delete). */
  predicate Consistent(c: Catalog) {
    forall v :: v in c.variants ==> c.variants[v].productId in c.products
  }

  predicate InStock(p: Product) { p.stock > 0 }

  /** A sale price counts only when it is set and not zero (Python truthiness). */
  predicate OnSale(p: Product) { p.salePrice.Some? && p.salePrice.value != 0.0 }

  /** `Product.current_price`: the sale price while the product is on sale,
      the list price otherwise. */
  function CurrentPrice(p: Product): (r: real)
    ensures OnSale(p) ==> r == p.salePrice.value
    ensures !OnSale(p) ==> r == p.price
  {
    if OnSale(p) then p.salePrice.value else p.price
  }

  /** A sale price of zero is ignored, exactly as an absent one is. */
  lemma ZeroSaleIsNoSale(p: Product)
    requires p.salePrice == Some(0.0)
    ensures CurrentPrice(p) == CurrentPrice(p.(salePrice := None))
  {
  }

  /** `ProductVariant.final_price`: the variant's OWN product's current price
      plus the adjustment. */
  function FinalPrice(c: Catalog, v: nat): (r: real)
    requires Consistent(c) && v in c.variants
    ensures r - c.variants[v].priceAdjustment == CurrentPrice(c.products[c.variants[v].productId])
  {
    CurrentPrice(c.products[c.variants[v].productId]) + c.variants[v].priceAdjustment
  }

  /** Putting a variant's product on sale moves the variant's final price by
      exactly the same amount as the product's current price. */
  lemma FinalPriceFollowsProduct(c: Catalog, v: nat, sale: real)
    requires Consistent(c) && v in c.variants
    requires sale != 0.0
    ensures var pid := c.variants[v].productId;
            var p := c.products[pid];
            var c' := c.(products := c.products[pid := p.(salePrice := Some(sale))]);
            Consistent(c') && FinalPrice(c', v) - FinalPrice(c, v) == sale - CurrentPrice(p)
  {
  }

  // ---------------- financing plans ----------------

  datatype FinancingPlan = FinancingPlan(months: nat, interestRate: real)

  /** `FinancingPlan.calculate_monthly_payment`. `months` is a non-negative
      integer column, so it may be 0; the Decimal division then raises, which
      is `None` here. */
  function MonthlyPayment(plan: FinancingPlan, price: real): (r: Option<real>)
    ensures r.Some? <==> plan.months > 0
    ensures r.Some? ==> r.value * (plan.months as real) == price * (1.0 + plan.interestRate / 100.0)
  {
    if plan.months == 0 then None
    else Some(price * (1.0 + plan.interestRate / 100.0) / (plan.months as real))
  }

  /** With no interest the price is simply split evenly over the months. */
  lemma InterestFreePlanSplitsEvenly(plan: FinancingPlan, price: real)
    requires plan.months > 0 && plan.interestRate == 0.0
    ensures MonthlyPayment(plan, price) == Some(price / plan.months as real)
  {
  }

  /** A positive rate makes every month dearer than an even split of a positive price. */
  lemma InterestRaisesPayment(plan: FinancingPlan, price: real)
    requires plan.months > 0 && plan.interestRate > 0.0 && price > 0.0
    ensures MonthlyPayment(plan, price).value > price / plan.months as real
  {
    var m := plan.months as real;
    var r := MonthlyPayment(plan, price).value;
    assert r * m == price * (1.0 + plan.interestRate / 100.0);
    assert price * (1.0 + plan.interestRate / 100.0) > price;
    assert (price / m) * m == price;
  }

  // ---------------- enterprise bundles ----------------

  /** `EnterpriseOrder.calculate_total` (and the create-time total): the bundle's
      per-device price times the number of devices. */
  function BundleTotal(pricePerDevice: real, quantity: nat): (r: real)
    ensures quantity == 0 ==> r == 0.0
    ensures quantity > 0 ==> r / quantity as real == pricePerDevice
  {
    pricePerDevice * quantity as real
  }

  /** More devices never cost less while the per-device price is non-negative. */
  lemma BundleTotalMonotone(pricePerDevice: real, q1: nat, q2: nat)
    requires pricePerDevice >= 0.0 && q1 <= q2
    ensures BundleTotal(pricePerDevice, q1) <= BundleTotal(pricePerDevice, q2)
  {
    assert BundleTotal(pricePerDevice, q2) - BundleTotal(pricePerDevice, q1)
        == pricePerDevice * (q2 - q1) as real;
  }

  // ---------------- fundraiser progress ----------------

  /** `Fundraiser.progress_percentage`. */
  function ProgressPercentage(current: real, target: real): (r: real)
    ensures target > 0.0 ==> r * target == current * 100.0
    ensures target > 0.0 ==> (r >= 100.0 <==> current >= target)
    ensures target <= 0.0 ==> r == 0.0
  {
    if target > 0.0 then ProgressFacts(current, target); (current / target) * 100.0 else 0.0
  }

  lemma ProgressFacts(current: real, target: real)
    requires target > 0.0
    ensures ((current / target) * 100.0) * target == current * 100.0
    ensures (current / target) * 100.0 >= 100.0 <==> current >= target
  {
    var q := current / target;
    assert q * target == current;
    if current >= target {
      assert q >= 1.0;
    } else {
      assert q < 1.0;
    }
  }

  // ---------------- tablet order items ----------------

  function Sum(xs: seq<real>): real {
    if |xs| == 0 then 0.0 else Sum(xs[..|xs| - 1]) + xs[|xs| - 1]
  }

  /** `SchoolTabletOrderItem.total_price`: the tablet's unit price plus the
      price of every software option chosen, per tablet, times the quantity.
      `software` lists the prices of the distinct options chosen. */
  function TabletItemTotal(unitPrice: real, software: seq<real>, quantity: nat): (r: real)
    ensures software == [] ==> r == unitPrice * quantity as real
  {
    (unitPrice + Sum(software)) * quantity as real
  }

  /** Choosing one more software option adds its price once per tablet. */
  lemma {:induction false} TabletItemTotalAddSoftware(unitPrice: real, software: seq<real>, p: real, quantity: nat)
    ensures TabletItemTotal(unitPrice, software + [p], quantity)
         == TabletItemTotal(unitPrice, software, quantity) + p * quantity as real
  {
    assert (software + [p])[..|software + [p]| - 1] == software;
  }

  /** `OrderItem.total_price`: the price frozen into the order line times its
      quantity. Nothing in it refers to the catalog. */
  function OrderItemTotal(unitPrice: real, quantity: int): (r: real)
    ensures quantity == 0 ==> r == 0.0
    ensures quantity == 1 ==> r == unitPrice
    ensures quantity != 0 ==> r / quantity as real == unitPrice
  {
    unitPrice * quantity as real
  }

  // ---------------- ratings ----------------

  function SumNat(xs: seq<nat>): nat {
    if |xs| == 0 then 0 else SumNat(xs[..|xs| - 1]) + xs[|xs| - 1]
  }

  predicate ValidRatings(ratings: seq<nat>) {
    forall i :: 0 <= i < |ratings| ==> 1 <= ratings[i] <= 5
  }

  lemma {:induction false} SumNatBounds(xs: seq<nat>)
    requires ValidRatings(xs)
    ensures |xs| <= SumNat(xs) <= 5 * |xs|
  {
    if |xs| > 0 {
      SumNatBounds(xs[..|xs| - 1]);
    }
  }

  /** `ProductDetailSerializer.get_average_rating`: no rating without reviews,
      else the mean, which the 1..5 rating choices keep within [1, 5]. */
  function AverageRating(ratings: seq<nat>): (r: Option<real>)
    ensures r.None? <==> |ratings| == 0
    ensures r.Some? ==> r.value * |ratings| as real == SumNat(ratings) as real
    ensures r.Some? && ValidRatings(ratings) ==> 1.0 <= r.value <= 5.0
  {
    if |ratings| == 0 then None
    else
      MeanWithinRatingRange(ratings);
      Some(SumNat(ratings) as real / |ratings| as real)
  }

  lemma MeanWithinRatingRange(xs: seq<nat>)
    requires |xs| > 0
    ensures ValidRatings(xs) ==>
      1.0 <= SumNat(xs) as real / |xs| as real <= 5.0
  {
    if ValidRatings(xs) {
      SumNatBounds(xs);
      QuotientBounds(SumNat(xs) as real, |xs| as real);
    }
  }

  lemma QuotientBounds(s: real, n: real)
    requires n > 0.0 && n <= s <= 5.0 * n
    ensures 1.0 <= s / n <= 5.0
  {
    var q := s / n;
    assert q * n == s;
    if q > 5.0 {
      PositiveProduct(q - 5.0, n);
      assert false;
    }
    if q < 1.0 {
      PositiveProduct(1.0 - q, n);
      assert false;
    }
  }

  lemma PositiveProduct(a: real, b: real)
    requires a > 0.0 && b > 0.0
    ensures a * b > 0.0
  {
  }
}
