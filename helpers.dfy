/**
 * The plugin's helper functions (`includes/helpers.php`): the notice-code
 * table, the product enable flag, the cart filter, the "My Account" tab
 * order, recursive sanitising, the ID-list comparison, and the two
 * redirect helpers, whose `exit` is a terminal outcome here.
 */
module Helpers {
  import opened Php
  import opened WordPress

  /** `MENU_SLUG`. */
  const MenuSlug := "product-interest-list"
  /** `FRONT_VAR`: the "My Account" endpoint and query var. */
  const FrontVar := "product-interest"
  const LogoutKey := "customer-logout"

  // ---------------------------------------------------------------------------
  // notice_text

  const ChangeInterestsText := "Your interest selections have been updated."
  const SuccessText := "Success! Your request has been completed."
  const UpdateErrorText := "Your settings could not be updated."
  const MissingNonceText := "The required nonce was missing."
  const BadNonceText := "The required nonce was invalid."
  const InvalidNonceText := "The required nonce was missing or invalid."
  const MissingCustomerText := "The required customer ID was not provided."
  const NoCustomerText := "The current customer could not be determined."
  const NoOriginalIdsText := "No existing product signups were found."
  const CustomerUpdateFailedText := "Your interest selections could not be updated."
  const MissingFieldText := "Please review all the required fields."
  const UnknownErrorText := "There was an unknown error with your request."
  const GenericErrorText := "There was an error with your request."

  /** The codes with a message of their own, in lower case. */
  const NoticeCodes: set<string> := {
    "success-change-interests", "success-general", "success", "update-error",
    "missing-nonce", "bad-nonce", "invalid-nonce", "missing-customer-id",
    "no-customer", "no-original-ids", "customer-update-failed",
    "missing-required-field", "unknown", "unknown-error"}

  /**
   * `notice_text($code)`, with the `notice_text` filter as the identity: the
   * message for the lower-cased code, and the generic error text for any
   * code without one of its own.
   */
  function NoticeText(code: string): (msg: string)
    ensures msg == GenericErrorText <==> ToLower(code) !in NoticeCodes
  {
    var c := ToLower(code);
    if c == "success-change-interests" then ChangeInterestsText
    else if c == "success-general" || c == "success" then SuccessText
    else if c == "update-error" then UpdateErrorText
    else if c == "missing-nonce" then MissingNonceText
    else if c == "bad-nonce" then BadNonceText
    else if c == "invalid-nonce" then InvalidNonceText
    else if c == "missing-customer-id" then MissingCustomerText
    else if c == "no-customer" then NoCustomerText
    else if c == "no-original-ids" then NoOriginalIdsText
    else if c == "customer-update-failed" then CustomerUpdateFailedText
    else if c == "missing-required-field" then MissingFieldText
    else if c == "unknown" || c == "unknown-error" then UnknownErrorText
    else GenericErrorText
  }

  lemma ToLowerIdempotent(s: string)
    ensures ToLower(ToLower(s)) == ToLower(s)
  {
  }

  /** Codes match without regard to case. */
  lemma NoticeTextIgnoresCase(code: string)
    ensures NoticeText(ToLower(code)) == NoticeText(code)
  {
    ToLowerIdempotent(code);
  }

  /** Two pairs of codes share a message; the codes the Ajax handler sends for a missing customer has none of its own. */
  lemma NoticeTextAliases()
    ensures NoticeText("success") == NoticeText("success-general") == SuccessText
    ensures NoticeText("unknown") == NoticeText("unknown-error") == UnknownErrorText
    ensures NoticeText("no-customer-id") == GenericErrorText
    ensures NoticeText("SUCCESS") == SuccessText
  {
    assert ToLower("success") == "success";
    assert ToLower("success-general") == "success-general";
    assert ToLower("unknown") == "unknown";
    assert ToLower("unknown-error") == "unknown-error";
    assert ToLower("no-customer-id") == "no-customer-id";
    assert ToLower("SUCCESS") == "success";
  }

  // ---------------------------------------------------------------------------
  // maybe_product_enabled

  /** `maybe_product_enabled($id)`: the product's enable meta is non-empty. */
  predicate MaybeProductEnabled(site: Site, id: nat)
    reads site
    ensures MaybeProductEnabled(site, id)
        <==> Lookup(site.productMeta, id).Some? && Lookup(site.productMeta, id).value !in {"", "0"}
  {
    !EmptyString(site.MetaValue(id))
  }

  /** `maybe_product_enabled($id, true)`: the same answer as "yes" or "no". */
  function MaybeProductEnabledString(site: Site, id: nat): (s: string)
    reads site
    ensures s == "yes" || s == "no"
    ensures s == "yes" <==> MaybeProductEnabled(site, id)
  {
    if !EmptyString(site.MetaValue(id)) then "yes" else "no"
  }

  // ---------------------------------------------------------------------------
  // account_page_redirect, admin_page_redirect

  /** A query argument of a redirect. */
  datatype Arg = IntArg(i: int) | StrArg(s: string)

  /** The query arguments of a redirect, in the order they are added. */
  type Args = OMap<string, Arg>

  const ResponseKey := "wc-product-interest-response"

  /**
   * `account_page_redirect($args)`: the arguments the account tab link is
   * redirected with, or None when nothing happens (on the admin side or
   * without arguments).
   */
  function AccountPageRedirect(isAdmin: bool, args: Args): (target: Option<Args>)
    ensures target.Some? <==> !isAdmin && |args| > 0
    ensures target.Some? ==> target.value == args
  {
    if isAdmin || |args| == 0 then None else Some(args)
  }

  const AdminDefaults: Args := [("post_type", StrArg("product")), ("page", StrArg(MenuSlug))]

  /** The value an admin redirect carries for `k`: the response flag, else the caller's, else the default. */
  function AdminArg(args: Args, response: bool, k: string): Option<Arg> {
    if response && k == ResponseKey then Some(IntArg(1))
    else if Lookup(args, k).Some? then Lookup(args, k)
    else Lookup(AdminDefaults, k)
  }

  /**
   * `admin_page_redirect($args, $response)`: the arguments of the redirect
   * to the product interest list, or None without arguments.
   */
  function AdminPageRedirect(args: Args, response: bool): (target: Option<Args>)
    ensures target.Some? <==> |args| > 0
    ensures target.Some? ==> forall k :: Lookup(target.value, k) == AdminArg(args, response, k)
    ensures target.Some? ==> Keys(AdminDefaults) <= Keys(target.value)
  {
    if |args| == 0 then None
    else
      var setup := Merge(AdminDefaults, args);
      MergeKeysPrefix(AdminDefaults, args);
      if response then
        var r := Merge(setup, [(ResponseKey, IntArg(1))]);
        MergeKeysPrefix(setup, [(ResponseKey, IntArg(1))]);
        Some(r)
      else Some(setup)
  }

  // ---------------------------------------------------------------------------
  // filter_product_cart

  /** A cart line; only its `product_id` is read. */
  datatype CartItem = CartItem(productId: int)

  /** The `absint` product IDs of the cart, in cart order. */
  function CartIds(cart: seq<CartItem>): (ids: seq<nat>)
    ensures |ids| == |cart| && forall i :: 0 <= i < |cart| ==> ids[i] == Abs(cart[i].productId)
  {
    seq(|cart|, i requires 0 <= i < |cart| => Abs(cart[i].productId))
  }

  /**
   * The cart's product IDs that are in the enabled list: each ID as many
   * times as the cart has it, and none that is not enabled.
   */
  function CartMatches(cart: seq<CartItem>, enable: seq<nat>): seq<nat> {
    if cart == [] then []
    else
      var rest := CartMatches(cart[..|cart| - 1], enable);
      var id := Abs(cart[|cart| - 1].productId);
      if id in enable then rest + [id] else rest
  }

  /** The matches keep cart order, and each enabled ID as often as the cart has it. */
  lemma {:induction false} CartMatchesSpec(cart: seq<CartItem>, enable: seq<nat>)
    ensures forall x :: multiset(CartMatches(cart, enable))[x] == if x in enable then multiset(CartIds(cart))[x] else 0
    ensures Subsequence(CartMatches(cart, enable), CartIds(cart))
  {
    if cart != [] {
      var init := cart[..|cart| - 1];
      var id := Abs(cart[|cart| - 1].productId);
      assert CartIds(cart) == CartIds(init) + [id];
      CartMatchesSpec(init, enable);
      var rest := CartMatches(init, enable);
      if id in enable {
        SubsequenceExtendBoth(rest, CartIds(init), id);
      } else {
        SubsequenceExtend(rest, CartIds(init), id);
      }
    }
  }

  /**
   * `filter_product_cart($cart, $enable)`: false (None) for an empty cart or
   * enabled list, and when no cart product is enabled; otherwise the enabled
   * cart products.
   */
  method FilterProductCart(cart: seq<CartItem>, enable: seq<nat>) returns (r: Option<seq<nat>>)
    ensures cart == [] || enable == [] ==> r == None
    ensures cart != [] && enable != [] ==>
      r == if CartMatches(cart, enable) == [] then None else Some(CartMatches(cart, enable))
  {
    if |cart| == 0 || |enable| == 0 {
      return None;
    }
    var data: seq<nat> := [];
    for k := 0 to |cart|
      invariant data == CartMatches(cart[..k], enable)
    {
      var id := Abs(cart[k].productId);
      if id in enable {
        data := data + [id];
      }
      assert cart[..k + 1][..k] == cart[..k];
    }
    assert cart[..|cart|] == cart;
    r := if |data| == 0 then None else Some(data);
  }

  // ---------------------------------------------------------------------------
  // adjust_account_tab_order

  /**
   * `adjust_account_tab_order($items)`: the same tabs with the same labels,
   * the logout tab moved to the end, the others in their order.
   */
  function AdjustAccountTabOrder(items: OMap<string, string>): (r: OMap<string, string>)
    ensures LogoutKey !in Keys(items) ==> r == items
    ensures forall k :: Lookup(r, k) == Lookup(items, k)
    ensures LogoutKey in Keys(items) ==> Keys(r) == Without(Keys(items), LogoutKey) + [LogoutKey]
  {
    match Lookup(items, LogoutKey)
    case None => items
    case Some(logout) =>
      UnsetKeys(items, LogoutKey);
      Put(Unset(items, LogoutKey), LogoutKey, logout)
  }

  // ---------------------------------------------------------------------------
  // sanitize_text_recursive

  /** An input value: a string, or an array of strings. */
  datatype Field = Scalar(text: string) | List(texts: seq<string>)

  /** `empty()` on a field. */
  predicate EmptyField(f: Field) {
    match f
    case Scalar(s) => EmptyString(s)
    case List(l) => l == []
  }

  /** `sanitize_text_field` on a string, or mapped over an array. */
  function SanitizeField(f: Field, clean: string -> string): Field {
    match f
    case Scalar(s) => Scalar(clean(s))
    case List(l) => List(seq(|l|, i requires 0 <= i < |l| => clean(l[i])))
  }

  /** What `sanitize_text_recursive` keeps of one entry. */
  function SanitizedEntry(f: Field, filter: bool, clean: string -> string): Option<Field> {
    var s := SanitizeField(f, clean);
    if filter && EmptyField(s) then None else Some(s)
  }

  function SanitizedLookup(o: Option<Field>, filter: bool, clean: string -> string): Option<Field> {
    match o
    case None => None
    case Some(f) => SanitizedEntry(f, filter, clean)
  }

  /**
   * The output of `sanitize_text_recursive($input, $filter)`: each entry
   * sanitised in place, and with `$filter` the ones that came out empty dropped.
   */
  function Sanitized(input: seq<(string, Field)>, filter: bool, clean: string -> string): seq<(string, Field)> {
    if input == [] then []
    else
      var rest := Sanitized(input[..|input| - 1], filter, clean);
      var (k, f) := input[|input| - 1];
      match SanitizedEntry(f, filter, clean)
      case None => rest
      case Some(s) => rest + [(k, s)]
  }

  /** Sanitising keeps each key with its sanitised value, and drops with `$filter` exactly the empty ones. */
  lemma {:induction false} SanitizedLookups(input: OMap<string, Field>, filter: bool, clean: string -> string)
    ensures DistinctKeys(Sanitized(input, filter, clean))
    ensures forall k :: Lookup(Sanitized(input, filter, clean), k) == SanitizedLookup(Lookup(input, k), filter, clean)
    decreases |input|
  {
    if input != [] {
      var init: OMap<string, Field> := input[..|input| - 1];
      var (k, f) := input[|input| - 1];
      assert input == init + [(k, f)];
      assert k !in Keys(init) by {
        assert forall i :: 0 <= i < |init| ==> Keys(init)[i] == input[i].0;
      }
      SanitizedLookups(init, filter, clean);
      SanitizedAppend(init, k, f, filter, clean);
    }
  }

  lemma SanitizedAppend(init: OMap<string, Field>, k: string, f: Field, filter: bool, clean: string -> string)
    requires k !in Keys(init)
    requires DistinctKeys(Sanitized(init, filter, clean))
    requires forall k' :: Lookup(Sanitized(init, filter, clean), k') == SanitizedLookup(Lookup(init, k'), filter, clean)
    ensures DistinctKeys(Sanitized(init + [(k, f)], filter, clean))
    ensures forall k' :: Lookup(Sanitized(init + [(k, f)], filter, clean), k') == SanitizedLookup(Lookup(init + [(k, f)], k'), filter, clean)
  {
    SanitizedLast(init, k, f, filter, clean);
    LookupAppend(init, k, f);
    var rest := Sanitized(init, filter, clean);
    var out := Sanitized(init + [(k, f)], filter, clean);
    assert k !in Keys(rest) by {
      assert Lookup(rest, k) == SanitizedLookup(Lookup(init, k), filter, clean);
    }
    var entry := SanitizedEntry(f, filter, clean);
    if entry.Some? {
      LookupAppend(rest, k, entry.value);
    }
    forall k' ensures Lookup(out, k') == SanitizedLookup(Lookup(init + [(k, f)], k'), filter, clean) {
      if k' != k {
        assert Lookup(out, k') == Lookup(rest, k');
      }
    }
  }

  /** One step of `Sanitized`: the last entry is appended when it is kept. */
  lemma SanitizedLast(init: seq<(string, Field)>, k: string, f: Field, filter: bool, clean: string -> string)
    ensures Sanitized(init + [(k, f)], filter, clean)
         == match SanitizedEntry(f, filter, clean)
            case None => Sanitized(init, filter, clean)
            case Some(s) => Sanitized(init, filter, clean) + [(k, s)]
  {
    var input := init + [(k, f)];
    assert input[..|input| - 1] == init;
    assert input[|input| - 1] == (k, f);
  }

  /** Sanitising keeps the keys in their order; without `$filter` it keeps all of them. */
  lemma {:induction false} SanitizedKeys(input: seq<(string, Field)>, filter: bool, clean: string -> string)
    ensures Subsequence(Keys(Sanitized(input, filter, clean)), Keys(input))
    ensures !filter ==> Keys(Sanitized(input, filter, clean)) == Keys(input)
    decreases |input|
  {
    if input != [] {
      var init := input[..|input| - 1];
      var (k, f) := input[|input| - 1];
      assert Keys(input) == Keys(init) + [k];
      SanitizedKeys(init, filter, clean);
      var rest := Sanitized(init, filter, clean);
      match SanitizedEntry(f, filter, clean)
      case None =>
        SubsequenceExtend(Keys(rest), Keys(init), k);
      case Some(s) =>
        assert Keys(rest + [(k, s)]) == Keys(rest) + [k];
        SubsequenceExtendBoth(Keys(rest), Keys(init), k);
    }
  }

  /** `sanitize_text_recursive($input, $filter)`, with `sanitize_text_field` as `clean`. */
  method SanitizeTextRecursive(input: OMap<string, Field>, filter: bool, clean: string -> string)
    returns (output: seq<(string, Field)>)
    ensures output == Sanitized(input, filter, clean)
  {
    output := [];
    for i := 0 to |input|
      invariant output == Sanitized(input[..i], filter, clean)
    {
      var (key, data) := input[i];
      var setup := SanitizeField(data, clean);
      assert input[..i + 1][..i] == input[..i];
      if filter && EmptyField(setup) {
        continue;
      }
      output := output + [(key, setup)];
    }
    assert input[..|input|] == input;
  }

  // ---------------------------------------------------------------------------
  // compare_id_arrays

  /** An entry of an ID list: a posted string, an integer, or a whole table row. */
  datatype IdValue = IdText(text: string) | IdNumber(n: int) | IdRow(row: Relationship)

  /** `absint($v)`; a (non-empty) array casts to 1. */
  function AbsId(v: IdValue): nat {
    match v
    case IdText(s) => AbsInt(s)
    case IdNumber(n) => Abs(n)
    case IdRow(_) => 1
  }

  /** `array_map('absint', $s)`. */
  function AbsIds(s: seq<IdValue>): (r: seq<nat>)
    ensures |r| == |s|
  {
    if s == [] then [] else [AbsId(s[0])] + AbsIds(s[1..])
  }

  predicate SortedNats(s: seq<nat>) {
    forall i, j :: 0 <= i < j < |s| ==> s[i] <= s[j]
  }

  /** A bound below `x` and every element of `t` bounds any arrangement of them. */
  lemma LowerBoundKept(lo: nat, x: nat, t: seq<nat>, r: seq<nat>)
    requires lo <= x && forall i :: 0 <= i < |t| ==> lo <= t[i]
    requires multiset(r) == multiset(t) + multiset{x}
    ensures forall i :: 0 <= i < |r| ==> lo <= r[i]
  {
    forall i | 0 <= i < |r| ensures lo <= r[i] {
      assert r[i] in multiset(r);
      if r[i] != x {
        assert r[i] in multiset(t);
        var j :| 0 <= j < |t| && t[j] == r[i];
      }
    }
  }

  function InsertNat(x: nat, s: seq<nat>): (r: seq<nat>)
    requires SortedNats(s)
    ensures SortedNats(r) && multiset(r) == multiset(s) + multiset{x}
  {
    if s == [] || x <= s[0] then
      assert forall i :: 0 <= i < |s| ==> x <= s[i] by {
        forall i | 0 <= i < |s| ensures x <= s[i] {
          if i > 0 { assert s[0] <= s[i]; }
        }
      }
      SortedCons(x, s);
      [x] + s
    else
      assert s == [s[0]] + s[1..];
      var rest := InsertNat(x, s[1..]);
      LowerBoundKept(s[0], x, s[1..], rest);
      SortedCons(s[0], rest);
      assert multiset([s[0]] + rest) == multiset{s[0]} + multiset(rest);
      assert multiset(s) == multiset{s[0]} + multiset(s[1..]);
      [s[0]] + rest
  }

  lemma SortedCons(x: nat, s: seq<nat>)
    requires SortedNats(s)
    requires forall i :: 0 <= i < |s| ==> x <= s[i]
    ensures SortedNats([x] + s)
  {
    forall i, j | 0 <= i < j < |s| + 1 ensures ([x] + s)[i] <= ([x] + s)[j] {
      assert ([x] + s)[j] == s[j - 1];
      if i > 0 {
        assert ([x] + s)[i] == s[i - 1];
      }
    }
  }

  lemma SortedHeadIsMin(s: seq<nat>)
    requires SortedNats(s) && s != []
    ensures forall y :: y in s ==> s[0] <= y
  {
  }

  /** PHP's `sort` on a list of integers. */
  function SortNats(s: seq<nat>): (r: seq<nat>)
    ensures SortedNats(r) && multiset(r) == multiset(s)
  {
    if s == [] then []
    else
      assert s == [s[0]] + s[1..];
      InsertNat(s[0], SortNats(s[1..]))
  }

  lemma TailMultiset(s: seq<nat>)
    requires s != []
    ensures multiset(s[1..]) == multiset(s) - multiset{s[0]}
  {
    assert s == [s[0]] + s[1..];
  }

  lemma SameHeadSameTail(a: seq<nat>, b: seq<nat>)
    requires a != [] && b != [] && a[0] == b[0] && a[1..] == b[1..]
    ensures a == b
  {
    assert a == [a[0]] + a[1..] && b == [b[0]] + b[1..];
  }

  /** A sorted list is determined by its elements. */
  lemma {:induction false} SortedPermutationsEqual(a: seq<nat>, b: seq<nat>)
    requires SortedNats(a) && SortedNats(b) && multiset(a) == multiset(b)
    ensures a == b
    decreases |a|
  {
    if a != [] {
      assert a[0] in multiset(b);
      assert b != [] && b[0] in multiset(a);
      SortedHeadIsMin(a);
      SortedHeadIsMin(b);
      assert a[0] == b[0];
      TailMultiset(a);
      TailMultiset(b);
      SortedPermutationsEqual(a[1..], b[1..]);
      SameHeadSameTail(a, b);
    } else {
      assert |multiset(b)| == 0;
    }
  }

  /**
   * `compare_id_arrays($source, $update)`: both lists `absint`-ed, sorted and
   * compared with `===`; true exactly when they hold the same IDs the same
   * number of times.
   */
  function CompareIdArrays(source: seq<IdValue>, update: seq<IdValue>): (same: bool)
    ensures same <==> multiset(AbsIds(source)) == multiset(AbsIds(update))
  {
    var a := SortNats(AbsIds(source));
    var b := SortNats(AbsIds(update));
    if multiset(a) == multiset(b) then
      SortedPermutationsEqual(a, b);
      a == b
    else a == b
  }

  lemma {:induction false} AbsIdsAppend(a: seq<IdValue>, b: seq<IdValue>)
    ensures AbsIds(a + b) == AbsIds(a) + AbsIds(b)
  {
    if a == [] {
      assert a + b == b;
    } else {
      assert (a + b)[0] == a[0];
      assert (a + b)[1..] == a[1..] + b;
      AbsIdsAppend(a[1..], b);
    }
  }

  lemma RemoveAt(t: seq<IdValue>, j: nat)
    requires j < |t|
    ensures multiset(t[..j] + t[j + 1..]) == multiset(t) - multiset{t[j]}
  {
    assert t == t[..j] + [t[j]] + t[j + 1..];
  }

  lemma SplitAt(t: seq<IdValue>, j: nat)
    requires j < |t|
    ensures t == t[..j] + [t[j]] + t[j + 1..]
  {
  }

  lemma AbsIdsRemoveAt(t: seq<IdValue>, j: nat)
    requires j < |t|
    ensures multiset(AbsIds(t)) == multiset(AbsIds(t[..j] + t[j + 1..])) + multiset{AbsId(t[j])}
  {
    SplitAt(t, j);
    AbsIdsRemove(t[..j], t[j], t[j + 1..]);
  }

  lemma AbsIdsRemove(a: seq<IdValue>, x: IdValue, b: seq<IdValue>)
    ensures multiset(AbsIds(a + [x] + b)) == multiset(AbsIds(a + b)) + multiset{AbsId(x)}
  {
    AbsIdsAppend(a + [x], b);
    AbsIdsAppend(a, [x]);
    AbsIdsAppend(a, b);
    assert AbsIds([x]) == [AbsId(x)];
  }

  /** Reordering a list does not change the multiset of its `absint` IDs. */
  lemma {:induction false} AbsIdsPermutation(s: seq<IdValue>, t: seq<IdValue>)
    requires multiset(s) == multiset(t)
    ensures multiset(AbsIds(s)) == multiset(AbsIds(t))
    decreases |s|
  {
    if s == [] {
      assert |multiset(t)| == 0;
    } else {
      assert s == [s[0]] + s[1..];
      assert multiset(s[1..]) == multiset(s) - multiset{s[0]};
      assert s[0] in multiset(t);
      var j :| 0 <= j < |t| && t[j] == s[0];
      RemoveAt(t, j);
      AbsIdsRemoveAt(t, j);
      AbsIdsPermutation(s[1..], t[..j] + t[j + 1..]);
      AbsIdsAppend([s[0]], s[1..]);
      assert AbsIds([s[0]]) == [AbsId(s[0])];
    }
  }

  /** The comparison is symmetric and does not depend on the order of either list. */
  lemma CompareIdArraysOrderFree(source: seq<IdValue>, source': seq<IdValue>, update: seq<IdValue>, update': seq<IdValue>)
    requires multiset(source) == multiset(source') && multiset(update) == multiset(update')
    ensures CompareIdArrays(source, update) == CompareIdArrays(update', source')
  {
    AbsIdsPermutation(source, source');
    AbsIdsPermutation(update, update');
  }

  // ---------------------------------------------------------------------------
  // check_ajax_constants

  /** `check_ajax_constants($check_admin)`: no REST request, autosave or cron run, and the admin side if asked for. */
  predicate CheckAjaxConstants(checkAdmin: bool, isAdmin: bool, restRequest: bool, doingAutosave: bool, doingCron: bool)
    ensures restRequest || doingAutosave || doingCron ==> !CheckAjaxConstants(checkAdmin, isAdmin, restRequest, doingAutosave, doingCron)
    ensures checkAdmin && !isAdmin ==> !CheckAjaxConstants(checkAdmin, isAdmin, restRequest, doingAutosave, doingCron)
    ensures (!checkAdmin || isAdmin) && !restRequest && !doingAutosave && !doingCron
            ==> CheckAjaxConstants(checkAdmin, isAdmin, restRequest, doingAutosave, doingCron)
  {
    !(checkAdmin && !isAdmin) && !restRequest && !doingAutosave && !doingCron
  }
}
