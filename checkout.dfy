/**
 * The checkout opt-in (`includes/checkout.php`): the field offered for the
 * enabled products in the cart, the posted field merged into the order
 * data, its validation, and the insert once the order is placed.
 */
module Checkout {
  import opened Php
  import opened WordPress
  import opened Helpers
  import opened Database
  import opened Queries

  // ---------------------------------------------------------------------------
  // display_product_interest_fields

  /** What the checkout shows before its submit button. */
  datatype CheckoutField = NoField | OptInField(products: seq<nat>, value: string) | CheckoutFatal

  /** The IDs a cached enabled list holds (only an ID list is ever stored under its key). */
  function EnabledIds(c: Cached): seq<nat> {
    if c.IdList? then c.ids else []
  }

  /**
   * `display_product_interest_fields()` given the answer of
   * `get_enabled_products()`: the field lists the enabled cart products and
   * carries them joined with ',' as its value. A `WP_Error` reaches `in_array`,
   * which refuses an object.
   */
  function FieldFor(loggedIn: bool, cart: seq<CartItem>, enable: Reply<Cached>): CheckoutField {
    if !loggedIn || cart == [] then NoField
    else match enable
      case NotFound => NoField
      case Failed(_) => CheckoutFatal
      case Found(c) =>
        var ids := EnabledIds(c);
        if ids == [] || CartMatches(cart, ids) == [] then NoField
        else OptInField(CartMatches(cart, ids), Implode(',', NatStrings(CartMatches(cart, ids))))
  }

  /** The field is shown only to a logged-in customer with a cart, and offers enabled cart products only. */
  lemma FieldOffersEnabledCartProducts(loggedIn: bool, cart: seq<CartItem>, enable: Reply<Cached>)
    requires FieldFor(loggedIn, cart, enable).OptInField?
    ensures loggedIn && cart != [] && enable.Found?
    ensures var field := FieldFor(loggedIn, cart, enable);
      && field.products != []
      && (forall x :: x in field.products ==> x in CartIds(cart) && x in EnabledIds(enable.value))
      && AbsInts(Explode(',', field.value)) == field.products
  {
    var ids := EnabledIds(enable.value);
    CartMatchesSpec(cart, ids);
    var field := FieldFor(loggedIn, cart, enable);
    forall x | x in field.products ensures x in CartIds(cart) && x in ids {
      assert multiset(field.products)[x] > 0;
      SubsequenceMembers(field.products, CartIds(cart));
    }
    ExplodeImplodeNats(field.products);
  }

  /** `display_product_interest_fields()`; `queryFailed` is the database's answer if the enabled list is read. */
  method DisplayProductInterestFields(site: Site, loggedIn: bool, cart: seq<CartItem>, queryFailed: bool) returns (field: CheckoutField)
    modifies site
    ensures !loggedIn || cart == [] ==> field == NoField && site.transients == old(site.transients)
    ensures loggedIn && cart != [] ==>
      var (enable, cache) := ReadThrough(old(site.transients), EnabledProductsKey, site.debug,
                                         EnabledProductsFresh(old(site.productMeta)), queryFailed);
      field == FieldFor(loggedIn, cart, enable) && site.transients == cache
    ensures site.table == old(site.table) && site.nextId == old(site.nextId) && site.options == old(site.options)
    ensures site.productMeta == old(site.productMeta) && site.tableExists == old(site.tableExists)
  {
    if !loggedIn || |cart| == 0 {
      return NoField;
    }
    var enable := GetEnabledProducts(site, false, queryFailed);
    match enable
    case NotFound => field := NoField;
    case Failed(_) => field := CheckoutFatal;
    case Found(c) =>
      var ids := EnabledIds(c);
      if |ids| == 0 {
        return NoField;
      }
      var filter := FilterProductCart(cart, ids);
      field := if filter.None? then NoField else OptInField(filter.value, Implode(',', NatStrings(filter.value)));
  }

  // ---------------------------------------------------------------------------
  // merge_product_interest_data

  /** A value of the posted checkout data. */
  datatype DataValue = Text(text: string) | Ids(ids: seq<nat>)

  /** The posted checkout data WooCommerce hands to its filters, keys in order. */
  type CheckoutData = OMap<string, DataValue>

  const InterestField := "product-interest"

  /** `$data['product-interest']` as a list of IDs (a value of another kind is read as none). */
  function InterestOf(data: CheckoutData): seq<nat> {
    match Lookup(data, InterestField)
    case Some(v) => if v.Ids? then v.ids else []
    case None => []
  }

  /**
   * `merge_product_interest_data($data)`: `posted` is the field's value
   * ("" when not posted). A logged-in customer with a valid nonce gets
   * `product-interest` set to the `absint` of each comma piece; every other key is kept.
   */
  function MergeProductInterestData(loggedIn: bool, posted: string, nonceValid: bool, data: CheckoutData): (r: CheckoutData)
    ensures !loggedIn || EmptyString(posted) || !nonceValid ==> r == data
    ensures loggedIn && !EmptyString(posted) && nonceValid ==>
      Lookup(r, InterestField) == Some(Ids(AbsInts(Explode(',', posted))))
    ensures forall k :: k != InterestField ==> Lookup(r, k) == Lookup(data, k)
  {
    if !loggedIn || EmptyString(posted) || !nonceValid then data
    else Merge(data, [(InterestField, Ids(AbsInts(Explode(',', posted))))])
  }

  /**
   * The field's value, posted back, gives the offered products as the
   * order's interest list, unless that list is the lone ID 0, whose "0" PHP reads as empty.
   */
  lemma MergeRoundTrip(products: seq<nat>, data: CheckoutData)
    requires products != [] && products != [0]
    ensures InterestOf(MergeProductInterestData(true, Implode(',', NatStrings(products)), true, data)) == products
  {
    ExplodeImplodeNats(products);
    assert Explode(',', "") == [""];
    assert Explode(',', "0") == ["0"];
    NatStringsOfZero(products);
  }

  /** A lone ID 0 is dropped: the posted "0" leaves the data as it was. */
  lemma ZeroAloneIsDropped(data: CheckoutData)
    ensures MergeProductInterestData(true, Implode(',', NatStrings([0])), true, data) == data
  {
    assert NatStrings([0]) == ["0"];
  }

  lemma NatStringsOfZero(products: seq<nat>)
    ensures NatStrings(products) == ["0"] ==> products == [0]
  {
    if NatStrings(products) == ["0"] {
      assert NatToString(products[0]) == NatToString(0);
      NatToStringInjective(products[0], 0);
    }
  }

  // ---------------------------------------------------------------------------
  // validate_product_interest_data

  /** One error added to WooCommerce's error object: its code and message. */
  datatype CheckoutError = CheckoutError(code: string, message: string, productId: nat)

  function InvalidProductError(id: nat): CheckoutError {
    CheckoutError("invalid_product_id", "ID " + NatToString(id) + " is not a valid product", id)
  }

  function NotEnabledError(id: nat): CheckoutError {
    CheckoutError("product_not_enabled", "Signups have not been enabled for product ID " + NatToString(id), id)
  }

  /** The errors for one ID: not a product, and independently not enabled. */
  function ProductErrors(site: Site, id: nat): seq<CheckoutError>
    reads site
  {
    (if !site.IsProduct(id) then [InvalidProductError(id)] else [])
    + (if !MaybeProductEnabled(site, id) then [NotEnabledError(id)] else [])
  }

  /** The errors for each ID in turn. */
  function ValidationErrors(site: Site, ids: seq<nat>): seq<CheckoutError>
    reads site
    decreases |ids|
  {
    if ids == [] then [] else ValidationErrors(site, ids[..|ids| - 1]) + ProductErrors(site, ids[|ids| - 1])
  }

  lemma ErrorsDistinct(x: nat, y: nat)
    ensures InvalidProductError(x) != NotEnabledError(y)
    ensures InvalidProductError(x) == InvalidProductError(y) ==> x == y
    ensures NotEnabledError(x) == NotEnabledError(y) ==> x == y
  {
    assert InvalidProductError(x).code[0] != NotEnabledError(y).code[0];
  }

  lemma ProductErrorsExact(site: Site, id: nat)
    ensures forall x :: InvalidProductError(x) in ProductErrors(site, id) <==> x == id && !site.IsProduct(x)
    ensures forall x :: NotEnabledError(x) in ProductErrors(site, id) <==> x == id && !MaybeProductEnabled(site, x)
    ensures forall e :: e in ProductErrors(site, id) ==> e == InvalidProductError(e.productId) || e == NotEnabledError(e.productId)
    ensures |ProductErrors(site, id)| <= 2
  {
    forall x ensures InvalidProductError(x) != NotEnabledError(id) && NotEnabledError(x) != InvalidProductError(id) {
      ErrorsDistinct(x, id);
      ErrorsDistinct(id, x);
    }
  }

  /**
   * Exactly the IDs that are not products get `invalid_product_id`, exactly
   * the IDs not enabled get `product_not_enabled`, and nothing else is added:
   * at most two errors per ID.
   */
  lemma {:induction false} ValidationErrorsExact(site: Site, ids: seq<nat>)
    ensures forall x :: InvalidProductError(x) in ValidationErrors(site, ids) <==> x in ids && !site.IsProduct(x)
    ensures forall x :: NotEnabledError(x) in ValidationErrors(site, ids) <==> x in ids && !MaybeProductEnabled(site, x)
    ensures forall e :: e in ValidationErrors(site, ids) ==> e == InvalidProductError(e.productId) || e == NotEnabledError(e.productId)
    ensures |ValidationErrors(site, ids)| <= 2 * |ids|
    decreases |ids|
  {
    if ids != [] {
      var init := ids[..|ids| - 1];
      var last := ids[|ids| - 1];
      ValidationErrorsExact(site, init);
      ProductErrorsExact(site, last);
      assert ids == init + [last];
      assert ValidationErrors(site, ids) == ValidationErrors(site, init) + ProductErrors(site, last);
    }
  }

  lemma ValidationErrorsStep(site: Site, ids: seq<nat>, i: nat)
    requires i < |ids|
    ensures ValidationErrors(site, ids[..i + 1]) == ValidationErrors(site, ids[..i]) + ProductErrors(site, ids[i])
  {
    assert ids[..i + 1][..i] == ids[..i];
  }

  /** The two checks of one ID, one after the other, add that ID's errors. */
  lemma OneProductChecked(site: Site, id: nat, before: seq<CheckoutError>, mid: seq<CheckoutError>, after: seq<CheckoutError>)
    requires mid == if !site.IsProduct(id) then before + [InvalidProductError(id)] else before
    requires after == if !MaybeProductEnabled(site, id) then mid + [NotEnabledError(id)] else mid
    ensures after == before + ProductErrors(site, id)
  {
  }

  /** `validate_product_interest_data($data, $errors)`: the errors it adds, in order. */
  method ValidateProductInterestData(site: Site, loggedIn: bool, data: CheckoutData) returns (errors: seq<CheckoutError>)
    ensures errors == if !loggedIn || InterestOf(data) == [] then [] else ValidationErrors(site, InterestOf(data))
  {
    errors := [];
    if !loggedIn {
      return;
    }
    var ids := InterestOf(data);
    if |ids| == 0 {
      return;
    }
    for i := 0 to |ids|
      invariant errors == ValidationErrors(site, ids[..i])
    {
      ValidationErrorsStep(site, ids, i);
      var before := errors;
      if !site.IsProduct(ids[i]) {
        errors := errors + [InvalidProductError(ids[i])];
      }
      var mid := errors;
      if !MaybeProductEnabled(site, ids[i]) {
        errors := errors + [NotEnabledError(ids[i])];
      }
      OneProductChecked(site, ids[i], before, mid, errors);
    }
    assert ids[..|ids|] == ids;
  }

  // ---------------------------------------------------------------------------
  // update_customer_product_interest

  /** The guards before the insert: logged in, a customer, data, and a non-empty interest list. */
  predicate UpdateApplies(loggedIn: bool, customerId: nat, data: CheckoutData) {
    loggedIn && customerId != 0 && data != [] && InterestOf(data) != []
  }

  /**
   * `update_customer_product_interest($customer_id, $data)`: one call of
   * `insert` with the interest list when the guards pass (None when it is not called).
   */
  method UpdateCustomerProductInterest(site: Site, loggedIn: bool, customerId: nat, data: CheckoutData, now: string)
    returns (r: Option<InsertResult>)
    requires site.Valid()
    modifies site
    ensures site.Valid()
    ensures !UpdateApplies(loggedIn, customerId, data) ==>
      r == None && site.table == old(site.table) && site.nextId == old(site.nextId)
    ensures UpdateApplies(loggedIn, customerId, data) ==>
      var ids := InterestOf(data);
      var k := AcceptedPrefix(site, ids);
      && site.table == old(site.table) + NewRows(old(site.nextId), customerId, ids[..k], now)
      && r == Some(if k == |ids| then Inserted else InsertFailed(InvalidProductId))
    ensures site.transients == old(site.transients) && site.options == old(site.options)
    ensures site.productMeta == old(site.productMeta) && site.tableExists == old(site.tableExists)
  {
    if !loggedIn {
      return None;
    }
    if customerId == 0 || |data| == 0 {
      return None;
    }
    var ids := InterestOf(data);
    if |ids| == 0 {
      return None;
    }
    var update := Insert(site, customerId, ids, now);
    r := Some(update);
  }

  lemma AcceptedPrefixAll(site: Site, ids: seq<nat>)
    requires forall i :: 0 <= i < |ids| ==> AcceptedProduct(site, ids[i])
    ensures AcceptedPrefix(site, ids) == |ids|
  {
  }

  /**
   * An order that passed validation (WooCommerce places no order with
   * errors) gets one row per product: `insert` accepts every ID, since
   * `get_post_type(0)` is never a product.
   */
  lemma ValidatedOrderInsertsAll(site: Site, ids: seq<nat>)
    requires ValidationErrors(site, ids) == []
    requires !site.IsProduct(0)
    ensures AcceptedPrefix(site, ids) == |ids|
  {
    ValidationErrorsExact(site, ids);
    forall i | 0 <= i < |ids| ensures AcceptedProduct(site, ids[i]) {
      assert InvalidProductError(ids[i]) !in ValidationErrors(site, ids);
    }
    AcceptedPrefixAll(site, ids);
  }
}
