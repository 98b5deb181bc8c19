# tepstore backend core, in Dafny

A model of the server side of tepstore, a Django shop that sells devices
outright, on financing plans, in enterprise bundles, and to schools through
alumni fundraisers. The model covers:

- the price and total properties of the store's models;
- the cart engine, which resolves a caller's cart, adds with aggregation by
  line key, patches, deletes and clears lines, and merges a guest cart into
  the account cart on login;
- order creation from a cart, with frozen unit prices;
- the financing-application and enterprise-order transitions, the two
  permission classes and the `get_queryset` visibility filters;
- fundraiser creation, the donation accumulator, the donor count and the
  leaderboard;
- the request helpers of `utils.py`: input sanitising and validation, the
  client address, the error-message extraction and the throttle cache keys.

The database is a set of immutable values. Tables are maps from row id to
record; a cart is a sequence of lines. Every handler is a pure function from
the old state and the request to the new state and a `Result`. Money is `real`,
so decimal arithmetic is exact here. A cart line is keyed by the tagged union
`LineKey = ProductLine(productId, variantId?) | TabletLine(tabletId)`.

Modules, one per file:

| file | module | what it holds |
|---|---|---|
| wrappers.dfy | Wrappers | `Option`, `Result`, the error answers and their HTTP statuses |
| text.dfy | Text | `str.strip`, `str.split`, `str.lower`, `str(n)` and `int(s)` on strings |
| json.dfy | Json | payload values, their truthiness, Python `int()` and the numeric reading `<=` compares |
| fields.dfy | Fields | how serializer integer and character fields read a payload entry |
| access.dfy | Access | `IsAdminOrStaff`, `IsOwnerOrAdmin`, the refusal answers, visibility |
| pricing.dfy | Pricing | `current_price`, `final_price`, monthly payment, bundle total, progress, item totals, average rating |
| carts.dfy | Carts | cart lines, unit price, cart total, aggregation, patch, remove, login merge |
| cart_views.dfy | CartViews | the cart store and the `CartView` / `CartItemView` handlers |
| checkout.dfy | Checkout | `OrderViewSet.create` |
| accounts.dfy | Accounts | `LoginView.post`: identifier resolution, authentication, merge |
| financing.dfy | Financing | `submit_to_bank` and `confirm` |
| enterprise.dfy | Enterprise | enterprise-order creation, `credit_check`, `adjust_order` |
| fundraising.dfy | Fundraising | fundraiser creation, `donate`, donor count, leaderboard |
| validators.dfy | Validators | `sanitize_string`, `validate_id`, `validate_phone`, `validate_email` |
| request_utils.dfy | RequestUtils | `get_client_ip`, `get_error_message`, throttle cache keys |

Behaviours of the code a reader might not expect:

- `submit_to_bank` and `credit_check` do not check the current status. No
  handler ever writes `rejected`, `bank_review`, `credit_check` or
  `completed`, and there are no terminal states.
- `confirm` lets through staff and the owner only. A superuser who is neither
  staff nor the owner gets FORBIDDEN.
- A `GET /cart` from a new anonymous caller opens a session and creates an
  empty cart. It does not return a cart that is never stored.
- A product, variant or tablet id that names no row makes the add handler
  raise inside its catch-all, so the answer is a 500. A product id together
  with a tablet id is an ordinary validation error.
- The add handler picks the tablet branch when `education_tablet_id` is
  present, even if its value is 0. Validation looks at truthiness instead.
- `sanitize_string` strips before it cuts, so its result can end in
  whitespace.
- The cart item's quantity column admits 0, and a patch quantity between 0
  and 1 (0.5, say) passes the `<= 0` test and is stored as 0. The cart
  invariant is therefore "no negative quantity", not "at least one".

## Model

| member | source | states |
|---|---|---|
| Wrappers.Status | backend/store/utils.py:68-102 | the status of an answer: 500 exactly for an escaped exception, 404 exactly for a missing row, 400 for a database integrity refusal, always a 4xx or 5xx code |
| Access.AdminOrStaff | backend/store/views.py:41-49 | passes exactly a signed-in user who is staff or superuser; an anonymous caller never passes |
| Access.OwnerOrAdmin | backend/store/views.py:52-63 | an anonymous caller never passes; staff or superuser always pass; otherwise only the user the record's `user` field names passes; a record without a `user` field, or with an empty one, passes only for admins |
| Access.Refusal | backend/store/views.py:41-49 | a refused anonymous caller gets 401, a refused signed-in caller 403 |
| Access.RequireMember | backend/store/views.py:213 | the `IsAuthenticated` gate: succeeds with the user exactly when someone is signed in, otherwise NotAuthenticated |
| Access.RequireAdmin | backend/store/views.py:228-236 | succeeds exactly when `IsAdminOrStaff` holds, and then with an admin user; otherwise the refusal answer for that caller |
| Access.OwnerOrAdminIsVisibility | backend/store/views.py:222-226 | on records with an owner, `IsOwnerOrAdmin` holds exactly when the `get_queryset` filter shows the record to that user |
| Access.AdminPassesOwnerCheck | backend/store/views.py:52-63 | whoever passes the staff gate passes the owner gate on any record |
| Fields.OptionalInt | backend/store/serializers.py:415-417 | an optional integer field is accepted exactly when it is missing or an integer; an integer is kept as given |
| Fields.RequiredInt | backend/store/serializers.py:418 | an integer field with a minimum is accepted exactly when it is an integer at or above the minimum |
| Fields.RequiredText | backend/accounts/serializers.py:99-101 | a required character field is accepted exactly when it is a string that is not blank after trimming and holds no NUL character; the value is the trimmed string, which is its own trim; a refusal is a validation error |
| Json.Truncate | backend/store/views.py:375 | `int()` of a float truncates toward zero: the result is within 1 of the input, on the zero side |
| Json.PyInt | backend/store/views.py:375 | `int()` keeps integers, maps booleans to 1 and 0, truncates floats, parses strings, and raises on null, containers and missing values |
| Json.PyIntOfRendered | backend/store/views.py:372-375 | a count sent as its decimal text is truthy and reads back as that count |
| Json.PyNumber | backend/store/views.py:601 | the number `quantity <= 0` compares: defined exactly for integers, booleans and floats, truncating to the `int()` value, equal to it for integers and booleans, and non-zero exactly when the value is truthy |
| Pricing.CurrentPrice | backend/store/models.py:215-217 | the sale price when it is set and non-zero, otherwise the list price |
| Pricing.ZeroSaleIsNoSale | backend/store/models.py:215-217 | a sale price of zero gives the same current price as no sale price |
| Pricing.FinalPrice | backend/store/models.py:234-236 | a variant's price less its adjustment is the current price of the variant's own product |
| Pricing.FinalPriceFollowsProduct | backend/store/models.py:234-236 | putting the variant's product on sale moves the variant price to the sale price plus the adjustment |
| Pricing.MonthlyPayment | backend/store/models.py:263-266 | defined exactly when the plan has months; the payment times the months is the price with the interest added |
| Pricing.InterestFreePlanSplitsEvenly | backend/store/models.py:263-266 | with a zero rate the payment is the price divided by the months |
| Pricing.InterestRaisesPayment | backend/store/models.py:263-266 | with a positive rate and a positive price each payment exceeds the even split |
| Pricing.BundleTotal | backend/store/models.py:390-391 | zero devices cost nothing; otherwise the total divided by the quantity is the per-device price |
| Pricing.BundleTotalMonotone | backend/store/models.py:390-391 | with a non-negative device price, more devices never cost less |
| Pricing.ProgressPercentage | backend/store/models.py:484-488 | with a positive target, percentage times target is current times 100, and the percentage reaches 100 exactly when the current amount reaches the target; otherwise 0 |
| Pricing.ProgressFacts | backend/store/models.py:484-488 | the same two facts about the quotient `current / target * 100` itself |
| Pricing.TabletItemTotal | backend/store/models.py:616-619 | without software the total is unit price times quantity |
| Pricing.TabletItemTotalAddSoftware | backend/store/models.py:616-619 | one more software option adds its price once per tablet |
| Pricing.OrderItemTotal | backend/store/models.py:755-757 | the stored unit price for one unit, 0 for no units, and the total divided by the quantity is the stored unit price |
| Pricing.SumNatBounds | backend/store/models.py:763 | ratings between 1 and 5 sum to between n and 5n |
| Pricing.AverageRating | backend/store/serializers.py:131-135 | none exactly when there are no reviews; otherwise the mean times the count is the rating sum, and valid ratings give a mean in [1, 5] |
| Pricing.MeanWithinRatingRange | backend/store/serializers.py:131-135 | the mean of valid ratings lies in [1, 5] |
| Carts.KeyIndex | backend/store/views.py:530-533 | the first line holding the key, or none exactly when no line holds it |
| Carts.IdIndex | backend/store/views.py:598 | the line with the row id, or none exactly when the cart has no such id |
| Carts.UnitPrice | backend/store/models.py:661-667 | tablet price for a tablet line, else the variant's final price when a variant is set, else the product's current price |
| Carts.LineTotal | backend/store/models.py:669-671 | a line's total: nothing for no units, the unit price for one unit; `Carts.LineTotalOf` and `Carts.LineTotalAdd` give the general case |
| Carts.Total | backend/store/models.py:635-637 | the cart total: 0 for an empty cart, the line's total for a single line; `Carts.TotalUpdate` and `Carts.MergeTotal` tie it to the cart operations |
| Carts.ItemCount | backend/store/models.py:639-641 | the number of units in the cart: a single line's quantity; `Carts.ItemCountUpdate` and `Carts.MergeItemCount` tie it to the cart operations |
| Carts.VariantPricedFromOwnProduct | backend/store/views.py:545-549 | a variant line is priced from the variant's own product, whichever product the line names |
| Carts.ItemType | backend/store/serializers.py:398-401 | "education_tablet" exactly for tablet lines, "product" exactly for product lines |
| Carts.ItemCountUpdate | backend/store/models.py:639-641 | replacing one line changes the item count by the quantity difference |
| Carts.QuantityOfUpdate | backend/store/models.py:639-641 | replacing one line moves the units of its old and new key accordingly |
| Carts.TotalUpdate | backend/store/models.py:635-637 | replacing one line changes the cart total by the line-total difference |
| Carts.QuantityOfAbsent | backend/store/models.py:639-641 | a key no line holds has zero units |
| Carts.QuantityOfUniqueLine | backend/store/models.py:639-641 | with one line per key, a key's units are its line's quantity |
| Carts.AddQuantity | backend/store/views.py:526-561 | a line with the key keeps its place and grows; otherwise one line is appended; every other line keeps id, key and quantity |
| Carts.AddQuantityUnits | backend/store/views.py:526-561 | with unique keys, adding q units of a key raises that key's units by q and no other key's |
| Carts.AddQuantityItemCount | backend/store/views.py:526-561 | adding q units raises the item count by q |
| Carts.AddQuantityTotal | backend/store/views.py:526-561 | adding q units raises the cart total by q units at the key's unit price |
| Carts.LineTotalOf | backend/store/models.py:669-671 | q units of a key are worth the key's unit price q times |
| Carts.LineTotalAdd | backend/store/models.py:669-671 | raising a line by q units raises its total by q units' worth |
| Carts.AddQuantityIds | backend/store/views.py:539-557 | an add uses no line id but the cart's own and the fresh one |
| Carts.AddQuantityWellFormed | backend/store/views.py:526-561 | with a fresh id and q not negative, an add keeps keys unique, ids unique and no quantity negative |
| Carts.AddQuantityKeepsOtherLines | backend/store/views.py:526-561 | every line of another key survives an add unchanged |
| Carts.DropAt | backend/store/views.py:602 | dropping one line shifts the later lines down by one and keeps the rest |
| Carts.DropAtWellFormed | backend/store/views.py:602 | dropping a line keeps the cart invariant and removes exactly that line's id |
| Carts.Requantify | backend/store/views.py:598-605 | an unknown line id is NotFound; otherwise that line gets the new quantity and every line keeps its place, id and key, and every other line its quantity |
| Carts.RemoveLine | backend/store/views.py:615-616 | an unknown line id is NotFound; otherwise exactly one line goes and no line is invented |
| Carts.RequantifyWellFormed | backend/store/views.py:603-605 | storing a quantity that is not negative keeps the cart invariant and the set of ids |
| Carts.RemoveLineWellFormed | backend/store/views.py:615-616 | a delete keeps the cart invariant and introduces no id |
| Carts.Merge | backend/accounts/views.py:66-78 | the account lines stay first with their ids and keys; the merged cart has between the account's and both carts' number of lines |
| Carts.MergeUnits | backend/accounts/views.py:66-78 | with unique account keys the merged cart has unique keys and holds, of every key, the account units plus the guest units |
| Carts.MergeKeysUnique | backend/accounts/views.py:67-78 | unique account keys stay unique after the merge, whatever the guest cart holds |
| Carts.MergeItemCount | backend/accounts/views.py:66-80 | the merged item count is the account count plus the guest count |
| Carts.MergeResolves | backend/accounts/views.py:66-78 | merged lines still refer to catalog rows |
| Carts.MergeTotal | backend/accounts/views.py:66-78 | at one set of prices the merged cart is worth both carts together |
| Carts.MergeIds | backend/accounts/views.py:73-78 | the merged cart carries only ids the two carts already used |
| Carts.MergeWellFormed | backend/accounts/views.py:66-78 | two well-formed carts with disjoint ids merge into a well-formed cart |
| Carts.MergeAccountLines | backend/accounts/views.py:73-75 | each account line keeps its place, id and key, and gains the guest units of its key |
| Carts.MergeMovesUnmatched | backend/accounts/views.py:76-78 | a guest line whose key nothing else holds moves over whole: same id, key and quantity |
| Carts.MergeNoKey | backend/accounts/views.py:66-78 | a key neither cart holds is not in the merged cart |
| Carts.MergeEmptyGuest | backend/accounts/views.py:63 | merging an empty guest cart changes nothing |
| CartViews.SessionOf | backend/store/views.py:504-505 | a session key counts exactly when it is present and non-empty |
| CartViews.GetCart | backend/store/views.py:500-509 | a signed-in caller gets the account cart, anyone else the session cart, opening a session when there is none; a missing cart is created empty and nothing else changes |
| CartViews.GetCartValid | backend/store/views.py:500-509 | resolving a cart keeps the store invariant and every line resolving |
| CartViews.FindCart | backend/store/views.py:584-590 | a signed-in caller's cart is created as in `get_cart`; a guest's cart is found only for a session that has one, and nothing is created for a guest |
| CartViews.FindCartValid | backend/store/views.py:584-590 | the lookup keeps the store invariant and every line resolving |
| CartViews.ShowCart | backend/store/views.py:511-514 | always succeeds with the caller's cart and stores what `get_cart` stores; a new anonymous caller sees an empty cart unless the fresh session already had one |
| CartViews.ValidateAdd | backend/store/serializers.py:414-425 | accepted exactly when the fields are integers or missing, the quantity is at least 1 (1 when missing), and exactly one of product and tablet id is truthy |
| CartViews.ResolveKey | backend/store/views.py:526-549 | the tablet branch is taken whenever a tablet id is present; a missing tablet, product or truthy variant row is a server error; otherwise the key names those rows |
| CartViews.AddToCart | backend/store/views.py:516-569 | a failed add changes nothing but the cart resolution; an invalid payload is a validation error, a missing row a server error; a successful one aggregates into the caller's cart only |
| CartViews.AddToCartEffect | backend/store/views.py:526-563 | a successful add raises the key's units by the quantity, leaves every other key's units, raises the item count by the quantity and the total by that many units' worth |
| CartViews.AddEffect | backend/store/views.py:526-561 | the same facts for the aggregation step on any cart with unique keys |
| CartViews.AddToCartValid | backend/store/views.py:516-569 | every add keeps the store invariant (keys unique, ids unique, no negative quantity, ids distinct across carts) and leaves other carts untouched |
| CartViews.ZeroTabletIdHidesProduct | backend/store/views.py:526-527 | a payload with product 5 and tablet id 0 passes validation and ends in a server error, so the product is not added |
| CartViews.PatchStepOf | backend/store/views.py:599-605 | a missing quantity stores 1; a number, boolean or float, at or below 0 drops the line; a larger one stores its `int()`, which is not negative and can be 0 for a fraction; a string, null or container raises |
| CartViews.PatchItem | backend/store/views.py:592-607 | no cart, or a line id outside the caller's cart, is NotFound and changes nothing; a quantity `<=` cannot compare with 0 is a server error and changes nothing; otherwise only the caller's cart changes, by `RemoveLine` for a drop and by `Requantify` with the stored quantity |
| CartViews.PatchItemEffect | backend/store/views.py:601-605 | after a patch that stores a quantity the key is still there with exactly those units; after a drop the key is gone; the item count moves by the difference |
| CartViews.FractionalPatchKeepsEmptyLine | backend/store/views.py:601-605 | a quantity of 0.5 passes the `<= 0` test and is stored as 0, so the line stays with no units |
| CartViews.StepEffect | backend/store/views.py:601-605 | the same facts for one patch step on a well-formed cart |
| CartViews.DropItemCount | backend/store/views.py:602 | dropping a line lowers the item count by its quantity |
| CartViews.DeleteItem | backend/store/views.py:609-618 | no cart, or a line id outside the caller's cart, is NotFound and changes nothing; otherwise exactly that line goes from the caller's cart |
| CartViews.ClearCart | backend/store/views.py:571-575 | every line of the caller's cart goes, the cart stays, and its item count is 0 |
| CartViews.PatchItemValid | backend/store/views.py:592-607 | a patch, whatever the payload, keeps the store invariant (no negative quantity, which admits 0) and touches no other cart |
| CartViews.DeleteItemValid | backend/store/views.py:609-618 | a delete keeps the store invariant and touches no other cart |
| CartViews.ClearCartValid | backend/store/views.py:571-575 | clearing keeps the store invariant |
| Checkout.CheckoutCart | backend/store/views.py:660-665 | a signed-in caller's account cart, or the session's guest cart, found only if it exists; nothing is created |
| Checkout.ItemsTotal | backend/store/models.py:755-757 | what an order's stored lines are worth: a single line's stored unit price times its quantity; `Checkout.FreezeTotal` ties it to the cart total |
| Checkout.Freeze | backend/store/views.py:681-690 | one order line per cart line, in order, with the same key and quantity and the unit price of the moment |
| Checkout.FreezeTotal | backend/store/views.py:675-690 | the frozen lines add up to the cart total they were taken from |
| Checkout.PlaceOrder | backend/store/views.py:650-705 | succeeds exactly for a valid form and a non-empty cart; an invalid form is a validation error and a missing or empty cart is EMPTY_CART, both changing nothing; a success stores one order with subtotal = total = cart total, no shipping, pending statuses, the frozen lines, and empties the cart |
| Checkout.PlacedOrderAddsUp | backend/store/views.py:675-690 | an order's stored lines add up to its subtotal and total, from the stored prices alone |
| Checkout.PlacedOrderKeepsUnits | backend/store/views.py:681-690 | the order holds, key by key, the units the cart held |
| Checkout.FreezeUnits | backend/store/views.py:681-690 | frozen lines hold, key by key, the cart's units |
| Checkout.PlaceOrderValid | backend/store/views.py:692-693 | order creation keeps the cart store invariant |
| Accounts.EmailMatches | backend/accounts/views.py:48 | exactly the accounts with that e-mail |
| Accounts.ResolveIdentifier | backend/accounts/views.py:45-51 | an identifier without '@', or one no account has as e-mail, is used as given; one matching account gives its username; several raise, a server error |
| Accounts.UniqueEmailResolves | backend/accounts/views.py:45-51 | an e-mail exactly one account has resolves to that account's username |
| Accounts.SingleRowMatches | backend/accounts/views.py:48 | an e-mail exactly one account has matches that account alone |
| Accounts.NoRowMatches | backend/accounts/views.py:48-51 | an e-mail no account has matches nothing |
| Accounts.MergeGuestCart | backend/accounts/views.py:57-82 | without a session key or a non-empty guest cart nothing changes; otherwise the account cart (created if missing) becomes the merge, the guest cart is gone, and every other cart is unchanged |
| Accounts.MergeGuestCartConserves | backend/accounts/views.py:66-80 | key by key the account now holds its old units plus the guest units, and its item count is the sum of both counts |
| Accounts.MergeGuestCartTotal | backend/accounts/views.py:66-80 | the merged account cart is worth both carts together |
| Accounts.MergeGuestCartValid | backend/accounts/views.py:57-82 | the merge keeps the store invariant |
| Accounts.MergeGuestCartResolves | backend/accounts/views.py:57-82 | the merge keeps every line resolving |
| Accounts.ReadSignIn | backend/accounts/views.py:40-51 | an unreadable form is a validation error; otherwise the trimmed identifier is resolved and paired with the trimmed password |
| Accounts.Login | backend/accounts/views.py:39-94 | succeeds exactly when the form is readable and `authenticate` accepts it, with that account; a bad form changes nothing; failed authentication is 401 with no merge; success merges the request's guest cart into the authenticated account |
| Accounts.LoginValid | backend/accounts/views.py:39-94 | every login keeps the store invariant and every line resolving |
| Financing.ApprovedPrice | backend/store/views.py:257 | the variant's final price when a variant is set, else the product's current price |
| Financing.SubmitToBank | backend/store/views.py:245-265 | a non-admin is refused and a missing record is NotFound, both changing nothing; a zero-month plan raises; otherwise status approved, that price approved, the plan's monthly payment, the bank answer, whatever the prior status |
| Financing.SubmitIgnoresStatus | backend/store/views.py:245-265 | two applications that differ only in status get the same answer |
| Financing.Confirm | backend/store/views.py:267-300 | anonymous is 401; a hidden or missing record is NotFound; FORBIDDEN exactly for a visible record of someone else to a non-staff caller; INVALID_STATUS exactly when it is not approved; errors change nothing; success changes only the status to confirmed |
| Financing.ConfirmSucceedsIff | backend/store/views.py:267-300 | confirmation succeeds exactly for an approved record confirmed by staff or its owner |
| Financing.ForbiddenOnlyForSuperuser | backend/store/views.py:222-226 | FORBIDDEN is reached only by a superuser who is not staff, on someone else's record |
| Financing.TransitionsKeepHandlerStatus | backend/store/views.py:256 | the handlers only ever write pending, approved or confirmed |
| Financing.SubmitThenConfirm | backend/store/views.py:245-300 | approval followed by the owner's confirmation ends confirmed, with the plan's monthly payment |
| Enterprise.Create | backend/store/serializers.py:216-232 | anonymous is 401; invalid fields or a negative quantity are a validation error; a bundle id naming no row raises; otherwise a pending order of the caller, not yet approved, with total = device price times quantity |
| Enterprise.CreditCheck | backend/store/views.py:347-366 | a non-admin is refused and a missing record is NotFound, both changing nothing; otherwise status approved and approved amount = total, whatever the prior status |
| Enterprise.CreditCheckIgnoresStatus | backend/store/views.py:347-366 | orders that differ only in status get the same answer |
| Enterprise.AdjustOrder | backend/store/views.py:368-379 | succeeds exactly for a signed-in caller who sees the order and a quantity that is falsy or reads as a non-negative integer; anonymous is 401; a hidden order is NotFound; a falsy quantity changes nothing; an unreadable one raises; a negative one is refused by the database; otherwise the quantity is replaced, the total becomes device price times the new quantity, and status and approved amount are kept |
| Enterprise.AdjustWithoutQuantity | backend/store/views.py:374 | without a truthy quantity nothing changes |
| Enterprise.AdjustIdempotent | backend/store/views.py:368-379 | adjusting twice to the same quantity is adjusting once |
| Enterprise.HandlersKeepTotals | backend/store/views.py:368-379 | every handler keeps each total equal to device price times quantity |
| Enterprise.AdjustOutgrowsApproval | backend/store/views.py:368-379 | after a credit check the owner can raise the quantity, and the total then exceeds the approved amount |
| Enterprise.BundleTotalGrows | backend/store/models.py:390-391 | with a positive device price, more devices cost strictly more |
| Enterprise.HandlersWriteOnlyPendingOrApproved | backend/store/views.py:358 | the handlers only ever write pending or approved |
| Fundraising.Create | backend/store/serializers.py:324-343 | succeeds exactly for a signed-in caller with a valid form, readable ids, a truthy board or package id, each truthy id naming a row, and an unused share link; anonymous is 401; invalid ids are a validation error; a truthy board or package id naming no row raises; with neither id, or with a taken link, the insert is refused; a success is an active fundraiser of the caller with no donations and 0 raised, whose target is the package price when a package is given and the board price otherwise |
| Fundraising.DonorCount | backend/store/serializers.py:286-287 | the completed donations counted, never more than there are donations |
| Fundraising.Donate | backend/store/views.py:431-452 | only an active fundraiser is found; an invalid form is a validation error, both changing nothing; otherwise a completed donation is recorded, the amount added, and the fundraiser completes exactly when the target is reached; nothing else changes |
| Fundraising.DonateAsWritten | backend/store/views.py:417-420 | an anonymous caller is refused with 401; a signed-in caller donates |
| Fundraising.AnonymousDonationRefused | backend/store/views.py:417-432 | a valid anonymous donation to an active fundraiser is refused, though the donation itself would succeed |
| Fundraising.CompletedSumAppend | backend/store/views.py:446 | a new donation adds its amount to the completed sum exactly when completed |
| Fundraising.DonorCountAppend | backend/store/serializers.py:286-287 | a new donation adds one donor exactly when completed |
| Fundraising.DonateKeepsBooks | backend/store/views.py:438-449 | every fundraiser's current amount stays equal to its completed donations, a completed one has met its target, and a donation adds one donor |
| Fundraising.CreateKeepsBooks | backend/store/serializers.py:324-343 | a new fundraiser starts balanced |
| Fundraising.CompletedTakesNoMore | backend/store/views.py:447-448 | a fundraiser a donation completes takes no further donation |
| Fundraising.Eligible | backend/store/serializers.py:309 | the completed, non-anonymous donations, each as often as donated |
| Fundraising.Insert | backend/store/serializers.py:309 | inserting into a descending list keeps it descending and adds exactly that donation |
| Fundraising.SortDescending | backend/store/serializers.py:309 | a descending permutation of its input |
| Fundraising.TopDonations | backend/store/serializers.py:308-310 | ten of the eligible donations, or all of them when there are fewer, descending, each completed, not anonymous and among the fundraiser's donations, and no eligible donation left out is larger than one shown |
| Fundraising.PrefixOfSorted | backend/store/serializers.py:309 | the first k of a descending list are at least as large as the rest |
| Fundraising.Leaderboard | backend/store/serializers.py:308-310 | name and amount of each top donation, in order |
| Fundraising.LeaderboardIsTopTen | backend/store/serializers.py:308-310 | a listed donation left off is no larger than any shown, and with ten or fewer eligible all are shown |
| Text.SpaceRunEnd | backend/store/utils.py:255 | the end of the whitespace run that starts at a position |
| Text.SpaceRunStart | backend/store/utils.py:255 | the start of the whitespace run that ends at a position |
| Text.Strip | backend/store/utils.py:255 | the piece between the leading and trailing whitespace runs, with no whitespace at either end |
| Text.StripFixed | backend/store/utils.py:255 | a string without whitespace at either end is its own strip |
| Text.RemoveChar | backend/store/utils.py:253 | the character is gone, every other character is kept as often as it was, and a one-character string is kept or dropped whole |
| Text.RemoveCharAppend | backend/store/utils.py:253 | removal works piece by piece on a concatenation, so the other characters keep their order |
| Text.Take | backend/store/utils.py:255 | Python's prefix slice, a prefix of the input, with negative lengths counting from the end |
| Text.FirstField | backend/store/utils.py:127 | the prefix before the first separator, which holds no separator |
| Text.Lower | backend/store/utils.py:275 | ASCII letters lowered, all other characters kept |
| Text.NatToString | backend/store/utils.py:169-174 | decimal digits, at least one, with no leading zero for positive numbers |
| Text.DigitsValueOfNatToString | backend/store/utils.py:169-174 | the digits read back as the number |
| Text.NatToStringInjective | backend/store/utils.py:169-174 | distinct numbers render as distinct strings |
| Text.RunValue | backend/store/utils.py:261 | a value exactly for a digit run (digits with single underscores between) |
| Text.ParseInt | backend/store/utils.py:261 | `int()` of a string gives a value only for a non-blank string, non-negative for a leading digit and non-positive for a leading minus |
| Text.ParseIntOfDigits | backend/store/utils.py:261 | a non-empty string of digits parses to its value |
| Text.ParseIntOfNatToString | backend/store/utils.py:261 | `int(str(n)) == n` |
| Validators.Clean | backend/store/utils.py:252-255 | the input without NUL, cut to the part between its leading and trailing whitespace runs: no NUL, no whitespace at either end, no longer than the input |
| Validators.Sanitize | backend/store/utils.py:241-255 | a string's result is the prefix of its cleaned form of the length Python's slice gives (the whole cleaned form when it fits a non-negative limit, otherwise the limit; for a negative limit that many characters fewer), without NUL or leading whitespace; a non-string gives its cut text when truthy, else "" |
| Validators.SanitizeFixedPoint | backend/store/utils.py:241-255 | a clean string within the limit comes back unchanged |
| Validators.SanitizeCutKeepsTrailingSpace | backend/store/utils.py:254-255 | the cut can end on a space, and sanitizing again changes the result |
| Validators.ValidateId | backend/store/utils.py:257-266 | a value exactly when `int()` succeeds and is positive, and then that integer |
| Validators.ValidateIdRoundTrip | backend/store/utils.py:257-266 | a positive id, as an integer or as its decimal text, is accepted as itself |
| Validators.ValidateIdQuirks | backend/store/utils.py:260-263 | `True` is id 1, 1.5 is id 1, and no integer at or below 0 is accepted |
| Validators.RemoveFormatting | backend/store/utils.py:282 | no formatting character is left, nothing new appears, a one-character string is kept or dropped whole, and a string without formatting is unchanged |
| Validators.RemoveFormattingAppend | backend/store/utils.py:282 | removal works piece by piece on a concatenation, so the remaining characters keep their order |
| Validators.ValidatePhone | backend/store/utils.py:277-286 | accepted exactly when the sanitized, unformatted input is an optional '+' and 10 to 15 digits, and then the result is that sanitized, unformatted input, with at most 16 characters and no formatting |
| Validators.PhoneCharacters | backend/store/utils.py:284 | an accepted number holds only digits and '+' |
| Validators.PhoneIsClean | backend/store/utils.py:280-284 | an accepted number has nothing for sanitizing or formatting removal to change |
| Validators.ValidatePhoneIdempotent | backend/store/utils.py:277-286 | validating an accepted number gives it back |
| Validators.ValidateEmailAsWritten | backend/store/utils.py:268-275 | accepted exactly when the sanitized input matches the pattern as `re.match` applies it, and then the result is the sanitized input lowered, with no upper-case ASCII and at most 254 characters |
| Validators.ValidateEmail | backend/store/utils.py:268-275 | accepted exactly when the whole sanitized input has the form local@domain.tld, and then the result is the sanitized input lowered, of that form, with no upper case or whitespace and at most 254 characters |
| Validators.LowerKeepsEmailShape | backend/store/utils.py:272-275 | lowering an address keeps its form |
| Validators.NewlineEndIsNoEmail | backend/store/utils.py:272 | no string ending in a newline has the address form |
| Validators.TrailingNewlineGetsThrough | backend/store/utils.py:268-275 | a 253-character address followed by a newline and more text is accepted with the newline kept, while the whole-string check refuses it |
| RequestUtils.ClientIp | backend/store/utils.py:123-130 | a non-empty X-Forwarded-For gives its first comma-separated entry, trimmed; otherwise REMOTE_ADDR, or "unknown" without it |
| RequestUtils.ClientIpTakesFirstEntry | backend/store/utils.py:126-127 | the address is the trimmed first entry whatever follows the first comma |
| RequestUtils.ClientIpSingleEntry | backend/store/utils.py:126-127 | a single-entry header gives that entry, trimmed |
| RequestUtils.Lookup | backend/store/utils.py:108-110 | none exactly when no entry has the key; otherwise the value of an entry with the key |
| RequestUtils.NonFieldMessage | backend/store/utils.py:110-111 | the first item of a non-empty list, the first character of a non-empty string, the default message for an empty or falsy value, and a raise for a truthy value of another kind |
| RequestUtils.FieldMessage | backend/store/utils.py:113-117 | none exactly when no field holds a non-empty list or a string |
| RequestUtils.FieldMessageIsFirst | backend/store/utils.py:113-117 | the first reportable field is the one reported |
| RequestUtils.ErrorMessage | backend/store/utils.py:105-120 | 'detail' first, then 'non_field_errors', then the first reportable field, else the default; a raise exactly when the 'non_field_errors' value taken is truthy but neither list nor string; a list payload gives its first item or the default; any other payload gives the default |
| RequestUtils.DetailWins | backend/store/utils.py:108-109 | a 'detail' entry wins wherever it stands among the fields |
| RequestUtils.LookupFindsFirst | backend/store/utils.py:108-110 | the first entry under a key is the one looked up |
| RequestUtils.FieldMessageIgnoresLaterFields | backend/store/utils.py:113-117 | fields after the first reportable one do not change the message |
| RequestUtils.SingleFieldError | backend/store/utils.py:113-115 | a one-field serializer error reads "field: message" |
| RequestUtils.LoginKey | backend/store/utils.py:135-148 | none exactly for a signed-in caller; otherwise keyed by the client address |
| RequestUtils.RegistrationKey | backend/store/utils.py:150-160 | the registration key of every caller is "throttle_register_" followed by the client address, which can be read back from it |
| RequestUtils.SensitiveKey | backend/store/utils.py:163-175 | keyed by account number for a signed-in caller, by client address otherwise |
| RequestUtils.ScopesApart | backend/store/utils.py:135-175 | the login, registration and sensitive limits never share a key |
| RequestUtils.CacheKeyInjective | backend/store/utils.py:145-148 | within one limit two keys are equal exactly when their idents are |
| RequestUtils.SensitiveKeyPerAccount | backend/store/utils.py:167-175 | two signed-in callers share a sensitive key exactly when they are the same account |
| RequestUtils.ForwardedPkSharesAccountCounter | backend/store/utils.py:163-175 | an anonymous request whose X-Forwarded-For is an account number shares that account's sensitive-operation key |

## Left out

- The frontend, the Django admin, management commands, settings and routing. They are not part of the server's logic.
- Decimal quantisation to two places when a row is saved. Money is exact `real`, so rounding never happens.
- UUIDs, session keys and fundraiser share links are random in the source. They are parameters here (`freshSession`, `newId`, `link`).
- The `created`/`updated` timestamps, logging, security logging and the `print` in the cart handler's catch-all.
- Throttle rates and counting. Only the cache keys are modelled.
- `check_sql_injection`, `check_xss` and the mixins. They depend on regex-engine and framework behaviour.
- `custom_exception_handler`: only its status mapping is modelled, as `Wrappers.Status` (an integrity error is 400, an unhandled exception 500). The response bodies and the logging are not.
- `TradeInRequestView`. It sends mail and calls validator methods that `utils.py` does not define.
- Registration, logout, profile and password change. They wrap Django's user model, which is not part of this model.
- Read-only list and detail endpoints other than the cart. They are queries with no logic beyond the `get_queryset` filters modelled in `Access`.
- Concurrency and transactions. Every handler is one sequential step.
- `Product.in_stock` is the predicate `Pricing.InStock`, stock above zero. It is a plain definition, so it needs no contract.
- `CartView.post`, `LoginView.post`: only the failures the model names are modelled. Any other exception inside the catch-alls is not.
- Accounts.Login: an exception during the merge is swallowed by the source and the login still succeeds. The model assumes the merge does not raise.
- Enterprise.Create: the serializer's other fields (company, contact, delivery) are the single flag `formValid`, and so are the order form fields of `Checkout.PlaceOrder`.
- Text.ParseInt: Unicode digits, which Python's `int()` also accepts, are not modelled. Only ASCII digits are.
- Text.ParseInt: the contract gives the sign of the result, not its value, for signed strings. Only unsigned digit strings have the round trip (`Text.ParseIntOfNatToString`).
- Validators.Sanitize: a non-string input's `str()` text is a parameter. Python's `str()` of arbitrary objects is not modelled.
- Enterprise.AdjustOrder: the upper bound of `PositiveIntegerField` is not modelled. Only the refusal of negative quantities is.
- Enterprise.Create: the serializer's `max_value`, derived from the upper bound of `PositiveIntegerField`, is not modelled, so a quantity above the database's integer range is a success here and a validation error in the source.
- CartViews.AddToCart: the database's integer width is not modelled, so a quantity, or an aggregated sum, above the column's range succeeds here where the database would refuse it.
- CartViews.PatchItem: the database's integer width is not modelled, so a quantity above the column's range is stored here where the database would refuse it.
- Accounts.EmailMatches: e-mails are compared exactly, as SQLite, the default database, compares them. With `DB_NAME` set (backend/config/settings.py:72-83) the database is MySQL, whose default collation compares case- and accent-insensitively; that comparison is not modelled.
- Accounts.ResolveIdentifier: inherits the exact comparison of `Accounts.EmailMatches`, so under MySQL an identifier that differs from the stored e-mail only in case resolves in the source and is used as given here.
- Fundraising.TopDonations: the database decides the order among equal amounts. The model fixes one admissible order (insertion order), and the contract only constrains amounts.
- Pricing.AverageRating: Python's `/` gives a float, so the source's mean is rounded to the nearest double. The model gives the exact mean. The [1, 5] bound holds for both.
- Pricing.MonthlyPayment: a plan of zero months makes Decimal division raise. The function gives `None`, and `Financing.SubmitToBank` answers that with a server error.
- Fundraising.Donate: the donation form's own field checks are the single flag `formValid`.
- RequestUtils.ErrorMessage: `str()` of a payload value is its recorded text. Python's rendering of nested structures is not modelled.

## Findings

| source | as written | input that shows it | evidently intended | confidence | as-written member | corrected member |
|---|---|---|---|---|---|---|
| backend/store/views.py:417-432 | `get_permissions` returns `IsAuthenticated` for every action except list and retrieve, and this overrides the `AllowAny` that `donate` declares | an anonymous POST of a valid donation to an active fundraiser answers 401 | anyone may donate, as the action's own `permission_classes=[AllowAny]` says | medium, not executed | Fundraising.DonateAsWritten (shown by Fundraising.AnonymousDonationRefused) | Fundraising.Donate |
| backend/store/utils.py:268-275 | `re.match` with a pattern ending in `$` also matches before a final newline, and sanitizing strips before it cuts to 254 characters | a valid 253-character address, then "\n", then "x": the cut keeps the newline, the pattern matches, and the result ends in "\n" | only a whole string of the form local@domain.tld is accepted (`re.fullmatch` or `\Z`) | high, not executed | Validators.ValidateEmailAsWritten (shown by Validators.TrailingNewlineGetsThrough) | Validators.ValidateEmail |
