/**
 * The "My Account" tab (`includes/account.php`): the form a customer posts
 * to keep or drop their product interests, the redirect that answers it,
 * the notice shown after the redirect, and the tab's menu entry.
 */
module AccountPage {
  import opened Php
  import opened WordPress
  import opened Helpers
  import opened Database
  import opened Queries

  // ---------------------------------------------------------------------------
  // redirect_account_page_action

  const ActionFlagKey := "woo-interest-in-products-action"

  /** The value the account redirect carries for `k`: the caller's custom one, else the basic one. */
  function AccountArg(errorCode: string, success: int, custom: Args, k: string): Option<Arg> {
    if Lookup(custom, k).Some? then Lookup(custom, k)
    else if k == "success" then Some(IntArg(Abs(success)))
    else if k == ActionFlagKey then Some(IntArg(1))
    else if k == "errcode" && !EmptyString(errorCode) then Some(StrArg(errorCode))
    else None
  }

  /** The basic arguments, with `errcode` under them when one is given. */
  function SetupArgs(errorCode: string, success: int): (setup: Args)
    ensures forall k :: Lookup(setup, k) == AccountArg(errorCode, success, [], k)
  {
    var basic: Args := [("success", IntArg(Abs(success))), (ActionFlagKey, IntArg(1))];
    BasicArgsLookup(success);
    if EmptyString(errorCode) then basic
    else
      var code: Args := [("errcode", StrArg(errorCode))];
      assert code[1..] == [];
      Merge(code, basic)
  }

  /** The query arguments `redirect_account_page_action` builds: the basic ones, then the custom ones over them. */
  function AccountRedirectArgs(errorCode: string, success: int, custom: Args): (args: Args)
    ensures forall k :: Lookup(args, k) == AccountArg(errorCode, success, custom, k)
  {
    var setup := SetupArgs(errorCode, success);
    if |custom| != 0 then Merge(setup, custom) else setup
  }

  lemma BasicArgsLookup(success: int)
    ensures forall k :: (Lookup([("success", IntArg(Abs(success))), (ActionFlagKey, IntArg(1))], k)
                         == if k == "success" then Some(IntArg(Abs(success))) else if k == ActionFlagKey then Some(IntArg(1)) else None)
  {
    var basic: Args := [("success", IntArg(Abs(success))), (ActionFlagKey, IntArg(1))];
    assert basic[1..] == [(ActionFlagKey, IntArg(1))];
    assert basic[1..][1..] == [];
  }

  /**
   * `redirect_account_page_action($error_code, $success, $custom)`: the
   * arguments of the redirect to the account tab (None on the admin side,
   * where `account_page_redirect` does nothing).
   */
  function RedirectAccountPageAction(isAdmin: bool, errorCode: string, success: int, custom: Args): (target: Option<Args>)
    ensures target.Some? <==> !isAdmin
    ensures target.Some? ==> forall k :: Lookup(target.value, k) == AccountArg(errorCode, success, custom, k)
  {
    var args := AccountRedirectArgs(errorCode, success, custom);
    assert Lookup(args, "success").Some?;
    AccountPageRedirect(isAdmin, args)
  }

  /** Without custom arguments the redirect always reports `success` and the action flag, and `errcode` only when given. */
  lemma RedirectCarriesBasics(errorCode: string, success: int)
    ensures var target := RedirectAccountPageAction(false, errorCode, success, []);
      && target.Some?
      && Lookup(target.value, "success") == Some(IntArg(Abs(success)))
      && Lookup(target.value, ActionFlagKey) == Some(IntArg(1))
      && (Lookup(target.value, "errcode").Some? <==> !EmptyString(errorCode))
  {
    var target := RedirectAccountPageAction(false, errorCode, success, []);
    assert Lookup(target.value, "errcode") == AccountArg(errorCode, success, [], "errcode");
  }

  // ---------------------------------------------------------------------------
  // check_user_product_interest_changes

  /** What the form posts, with the request context it arrives in. */
  datatype ChangeForm = ChangeForm(
    isAdmin: bool,
    doingAjax: bool,
    nonceValid: bool,                 // `wc_customer_interests_change_nonce` is set and verifies
    action: string,                   // `$_POST['action']`
    refererIsTab: bool,               // the referer, less a trailing '/', is the account tab link
    customerId: string,               // `wc_product_interest_customer_id`
    originalIds: string,              // `wc_product_interest_original_ids`, "" when absent
    interestIds: Option<seq<string>>) // `wc_product_interest_ids`, None when not set

  /** The original IDs the handler works from: a list, the `false` of an empty read, or a `WP_Error`. */
  datatype Originals = IdValues(values: seq<IdValue>) | NoOriginals | ErrorObject

  predicate EmptyOriginals(o: Originals) {
    o.NoOriginals? || (o.IdValues? && o.values == [])
  }

  /** One call of `remove_single_relationships`, which is not part of this model; `customer` is None when no customer ID is passed. */
  datatype Removal = RemoveAll(originals: Originals, customer: Option<nat>) | RemoveOne(original: IdValue, customer: Option<nat>)

  /** How the handler ends: it returns, redirects (and exits), or `array_map` meets a `WP_Error`. */
  datatype AccountOutcome = Ignored | AccountRedirect(target: Option<Args>) | AccountFatal

  const ChangeAction := "wc_product_interest_change"

  /** Request context, nonce, action and referer all pass. */
  predicate ChangeGuardsPass(form: ChangeForm) {
    !form.isAdmin && !form.doingAjax && form.nonceValid
    && !EmptyString(form.action) && form.action == ChangeAction && form.refererIsTab
  }

  function IdTexts(s: seq<string>): (r: seq<IdValue>)
    ensures |r| == |s| && forall i :: 0 <= i < |s| ==> r[i] == IdText(s[i])
  {
    seq(|s|, i requires 0 <= i < |s| => IdText(s[i]))
  }

  function IdRows(rows: seq<Relationship>): (r: seq<IdValue>)
    ensures |r| == |rows| && forall i :: 0 <= i < |rows| ==> r[i] == IdRow(rows[i])
  {
    seq(|rows|, i requires 0 <= i < |rows| => IdRow(rows[i]))
  }

  function IdNumbers(s: seq<nat>): (r: seq<IdValue>)
    ensures |r| == |s| && forall i :: 0 <= i < |s| ==> r[i] == IdNumber(s[i])
  {
    seq(|s|, i requires 0 <= i < |s| => IdNumber(s[i]))
  }

  /**
   * The original IDs: the posted comma list, or else the customer's rows
   * read with `get_products_for_customer($customer_id, 'relationship_id')`,
   * whose second argument is a truthy `$flush`, so the read bypasses the cache.
   */
  function OriginalIds(postedIds: string, customerId: string, table: seq<Relationship>, queryFailed: bool): Originals {
    if !EmptyString(postedIds) then IdValues(IdTexts(Explode(',', postedIds)))
    else
      var id := AbsInt(customerId);
      if id == 0 || queryFailed then ErrorObject
      else match RowsFresh(table, CustomerIdColumn, id)
        case None => NoOriginals
        case Some(rows) => IdValues(IdRows(rows.rows))
  }

  /** Reading the original IDs, with the cache write the bypassing read makes. */
  method ReadOriginals(site: Site, postedIds: string, customerId: string, queryFailed: bool) returns (originals: Originals)
    modifies site
    ensures originals == OriginalIds(postedIds, customerId, old(site.table), queryFailed)
    ensures var id := AbsInt(customerId);
      site.transients
        == if EmptyString(postedIds) && id != 0
           then ReadThrough(old(site.transients), CustomerProductsKey(id), true,
                            RowsFresh(old(site.table), CustomerIdColumn, id), queryFailed).1
           else old(site.transients)
    ensures site.table == old(site.table) && site.nextId == old(site.nextId) && site.options == old(site.options)
    ensures site.productMeta == old(site.productMeta) && site.tableExists == old(site.tableExists)
  {
    if !EmptyString(postedIds) {
      return IdValues(IdTexts(Explode(',', postedIds)));
    }
    var reply := GetProductsForCustomer(site, AbsInt(customerId), true, queryFailed);
    match reply
    case Found(rows) => originals := IdValues(IdRows(rows.rows));
    case NotFound => originals := NoOriginals;
    case Failed(_) => originals := ErrorObject;
  }

  /** `$n == $v` for an ID against one value of the haystack (PHP 8 rules; an array never equals an int). */
  predicate LooseMatch(n: nat, v: IdValue) {
    match v
    case IdNumber(m) => n == m
    case IdText(s) => LooseEqualsInt(n, s)
    case IdRow(_) => false
  }

  /** `in_array($n, $haystack)`, loose. */
  predicate InArray(n: nat, haystack: seq<IdValue>) {
    exists i :: 0 <= i < |haystack| && LooseMatch(n, haystack[i])
  }

  /** A value in its canonical form: a non-negative number, or the decimal text of one. */
  predicate Canonical(v: IdValue) {
    (v.IdNumber? && v.n >= 0) || (v.IdText? && v.text == NatToString(AbsInt(v.text)))
  }

  /** For a canonical value, loose equality is equality of the `absint`s. */
  lemma CanonicalMatch(n: nat, v: IdValue)
    requires Canonical(v)
    ensures LooseMatch(n, v) <==> n == AbsId(v)
  {
    if v.IdText? {
      LooseEqualsNatToString(n, AbsInt(v.text));
      IntValOfNatToString(AbsInt(v.text));
    }
  }

  /** The originals whose `absint` is not `in_array` of the kept IDs, in order. */
  function KeepOut(originals: seq<IdValue>, interest: seq<IdValue>): (out: seq<IdValue>)
    decreases |originals|
  {
    if originals == [] then []
    else
      var last := originals[|originals| - 1];
      var init := KeepOut(originals[..|originals| - 1], interest);
      if InArray(AbsId(last), interest) then init else init + [last]
  }

  function RemoveEach(originals: seq<IdValue>, customer: Option<nat>): (r: seq<Removal>)
    ensures |r| == |originals| && forall i :: 0 <= i < |originals| ==> r[i] == RemoveOne(originals[i], customer)
  {
    seq(|originals|, i requires 0 <= i < |originals| => RemoveOne(originals[i], customer))
  }

  /** Exactly the originals whose `absint` is not kept are removed, in their order. */
  lemma {:induction false} KeepOutExact(originals: seq<IdValue>, interest: seq<IdValue>)
    ensures forall o :: o in KeepOut(originals, interest) <==> o in originals && !InArray(AbsId(o), interest)
    ensures Subsequence(KeepOut(originals, interest), originals)
    decreases |originals|
  {
    if originals != [] {
      var init := originals[..|originals| - 1];
      var last := originals[|originals| - 1];
      KeepOutExact(init, interest);
      assert originals == init + [last];
      if InArray(AbsId(last), interest) {
        SubsequenceExtend(KeepOut(init, interest), init, last);
      } else {
        SubsequenceExtendBoth(KeepOut(init, interest), init, last);
      }
    }
  }

  lemma AbsIdsMembers(s: seq<IdValue>, i: nat)
    requires i < |s|
    ensures AbsId(s[i]) in AbsIds(s)
    decreases i
  {
    if i > 0 {
      AbsIdsMembers(s[1..], i - 1);
    }
  }

  lemma AbsIdsIndex(s: seq<IdValue>, x: nat)
    requires x in AbsIds(s)
    ensures exists i :: 0 <= i < |s| && AbsId(s[i]) == x
  {
    if AbsId(s[0]) != x {
      AbsIdsIndex(s[1..], x);
      var i :| 0 <= i < |s[1..]| && AbsId(s[1..][i]) == x;
      assert AbsId(s[i + 1]) == x;
    }
  }

  /** When every original's `absint` is kept, the loop removes nothing. */
  lemma {:induction false} AllKeptRemovesNothing(originals: seq<IdValue>, interest: seq<IdValue>)
    requires forall i :: 0 <= i < |originals| ==> InArray(AbsId(originals[i]), interest)
    ensures KeepOut(originals, interest) == []
    decreases |originals|
  {
    if originals != [] {
      AllKeptRemovesNothing(originals[..|originals| - 1], interest);
    }
  }

  /**
   * When the kept IDs are canonical and match the originals as multisets
   * (the `compare_id_arrays` shortcut), the loop would remove nothing either.
   */
  lemma MatchingRemovesNothing(originals: seq<IdValue>, interest: seq<IdValue>)
    requires forall i :: 0 <= i < |interest| ==> Canonical(interest[i])
    requires CompareIdArrays(originals, interest)
    ensures KeepOut(originals, interest) == []
  {
    forall i | 0 <= i < |originals| ensures InArray(AbsId(originals[i]), interest) {
      AbsIdsMembers(originals, i);
      assert AbsId(originals[i]) in multiset(AbsIds(interest));
      AbsIdsIndex(interest, AbsId(originals[i]));
      var j :| 0 <= j < |interest| && AbsId(interest[j]) == AbsId(originals[i]);
      CanonicalMatch(AbsId(originals[i]), interest[j]);
    }
    AllKeptRemovesNothing(originals, interest);
  }

  /** The removal loop: each original not among the kept IDs is removed. */
  method RemoveUnkept(originals: seq<IdValue>, interest: seq<IdValue>, customer: Option<nat>) returns (removals: seq<Removal>)
    ensures removals == RemoveEach(KeepOut(originals, interest), customer)
  {
    removals := [];
    for i := 0 to |originals|
      invariant removals == RemoveEach(KeepOut(originals[..i], interest), customer)
    {
      assert originals[..i + 1][..i] == originals[..i];
      if InArray(AbsId(originals[i]), interest) {
        continue;
      }
      removals := removals + [RemoveOne(originals[i], customer)];
    }
    assert originals[..|originals|] == originals;
  }

  function SuccessRedirect(): Option<Args> {
    RedirectAccountPageAction(false, "success-change-interests", 1, [])
  }

  /** The kept IDs of the account form: `array_map('absint', ...)`, so canonical numbers. */
  function AccountInterest(posted: seq<string>): (interest: seq<IdValue>)
    ensures forall i :: 0 <= i < |interest| ==> Canonical(interest[i])
  {
    IdNumbers(AbsInts(posted))
  }

  /** What the handler does once it has a customer and the original IDs. */
  function Reconcile(originals: Originals, interestIds: Option<seq<string>>, customerId: nat): (AccountOutcome, seq<Removal>) {
    if EmptyOriginals(originals) then (AccountRedirect(RedirectAccountPageAction(false, "no-original-ids", 0, [])), [])
    else if interestIds.None? then (AccountRedirect(SuccessRedirect()), [RemoveAll(originals, Some(customerId))])
    else if originals.ErrorObject? then (AccountFatal, [])
    else
      var interest := AccountInterest(interestIds.value);
      if CompareIdArrays(originals.values, interest) then (AccountRedirect(SuccessRedirect()), [])
      else (AccountRedirect(SuccessRedirect()), RemoveEach(KeepOut(originals.values, interest), Some(customerId)))
  }

  /** On the account form, `in_array` against the kept IDs is membership among the posted IDs' `absint`s. */
  lemma AccountInterestMatches(posted: seq<string>, n: nat)
    ensures InArray(n, AccountInterest(posted)) <==> n in AbsInts(posted)
  {
    var interest := AccountInterest(posted);
    if n in AbsInts(posted) {
      var j :| 0 <= j < |posted| && AbsInts(posted)[j] == n;
      assert LooseMatch(n, interest[j]);
    }
  }

  lemma RemoveEachMembers(s: seq<IdValue>, customer: Option<nat>)
    ensures forall o :: RemoveOne(o, customer) in RemoveEach(s, customer) <==> o in s
  {
    var removals := RemoveEach(s, customer);
    forall o | RemoveOne(o, customer) in removals ensures o in s {
      var j :| 0 <= j < |removals| && removals[j] == RemoveOne(o, customer);
      assert s[j] == o;
    }
  }

  /**
   * On the account form the removals are exactly the originals whose
   * `absint` was not posted, whether or not the `compare_id_arrays` shortcut is taken.
   */
  lemma ReconcileRemovesUnposted(values: seq<IdValue>, posted: seq<string>, customerId: nat)
    requires values != []
    ensures var removals := Reconcile(IdValues(values), Some(posted), customerId).1;
      removals == RemoveEach(KeepOut(values, AccountInterest(posted)), Some(customerId))
      && forall o :: RemoveOne(o, Some(customerId)) in removals <==> o in values && AbsId(o) !in AbsInts(posted)
  {
    var interest := AccountInterest(posted);
    if CompareIdArrays(values, interest) {
      MatchingRemovesNothing(values, interest);
    }
    KeepOutExact(values, interest);
    RemoveEachMembers(KeepOut(values, interest), Some(customerId));
    forall o ensures InArray(AbsId(o), interest) <==> AbsId(o) in AbsInts(posted) {
      AccountInterestMatches(posted, AbsId(o));
    }
  }

  /** Every path after the original IDs are found ends in the same success redirect, or the `WP_Error` fatal. */
  lemma ReconcileReportsSuccess(originals: Originals, interestIds: Option<seq<string>>, customerId: nat)
    requires !EmptyOriginals(originals) && !(originals.ErrorObject? && interestIds.Some?)
    ensures Reconcile(originals, interestIds, customerId).0 == AccountRedirect(SuccessRedirect())
    ensures SuccessRedirect().Some?
    ensures Lookup(SuccessRedirect().value, "success") == Some(IntArg(1))
  {
    SuccessRedirectReportsSuccess();
  }

  lemma SuccessRedirectReportsSuccess()
    ensures SuccessRedirect().Some?
    ensures Lookup(SuccessRedirect().value, "success") == Some(IntArg(1))
  {
    RedirectCarriesBasics("success-change-interests", 1);
  }

  /**
   * `check_user_product_interest_changes()`. `queryFailed` is the database's
   * answer when the original IDs have to be read.
   */
  method CheckUserProductInterestChanges(site: Site, form: ChangeForm, queryFailed: bool)
    returns (outcome: AccountOutcome, removals: seq<Removal>)
    modifies site
    ensures !ChangeGuardsPass(form) ==> outcome == Ignored && removals == []
    ensures ChangeGuardsPass(form) && EmptyString(form.customerId) ==>
      outcome == AccountRedirect(RedirectAccountPageAction(false, "missing-customer-id", 0, [])) && removals == []
    ensures ChangeGuardsPass(form) && !EmptyString(form.customerId) ==>
      (outcome, removals) == Reconcile(OriginalIds(form.originalIds, form.customerId, old(site.table), queryFailed),
                                       form.interestIds, AbsInt(form.customerId))
    ensures var id := AbsInt(form.customerId);
      site.transients
        == if ChangeGuardsPass(form) && !EmptyString(form.customerId) && EmptyString(form.originalIds) && id != 0
           then ReadThrough(old(site.transients), CustomerProductsKey(id), true,
                            RowsFresh(old(site.table), CustomerIdColumn, id), queryFailed).1
           else old(site.transients)
    ensures site.table == old(site.table) && site.nextId == old(site.nextId) && site.options == old(site.options)
    ensures site.productMeta == old(site.productMeta) && site.tableExists == old(site.tableExists)
  {
    removals := [];
    if form.isAdmin || form.doingAjax {
      return Ignored, [];
    }
    if !form.nonceValid {
      return Ignored, [];
    }
    if EmptyString(form.action) || ChangeAction != form.action {
      return Ignored, [];
    }
    if !form.refererIsTab {
      return Ignored, [];
    }
    if EmptyString(form.customerId) {
      return AccountRedirect(RedirectAccountPageAction(false, "missing-customer-id", 0, [])), [];
    }
    var customerId := AbsInt(form.customerId);
    var originals := ReadOriginals(site, form.originalIds, form.customerId, queryFailed);
    if EmptyOriginals(originals) {
      return AccountRedirect(RedirectAccountPageAction(false, "no-original-ids", 0, [])), [];
    }
    if form.interestIds.None? {
      return AccountRedirect(SuccessRedirect()), [RemoveAll(originals, Some(customerId))];
    }
    if originals.ErrorObject? {
      return AccountFatal, [];
    }
    var interest := AccountInterest(form.interestIds.value);
    if CompareIdArrays(originals.values, interest) {
      return AccountRedirect(SuccessRedirect()), [];
    }
    removals := RemoveUnkept(originals.values, interest, Some(customerId));
    outcome := AccountRedirect(SuccessRedirect());
  }

  // ---------------------------------------------------------------------------
  // add_endpoint_notices

  /** What the account page shows above its navigation. */
  datatype Notice = NoNotice | Placeholder | Message(text: string, kind: string)

  /** `add_endpoint_notices()` from the query arguments of the redirect ("" when absent). */
  function EndpointNotice(onEndpoint: bool, actionFlag: string, errcode: string, message: string, success: string): (n: Notice)
    ensures !onEndpoint ==> n == NoNotice
    ensures onEndpoint && EmptyString(actionFlag) ==> n == Placeholder
    ensures n.Message? ==> (n.kind == "success" <==> !EmptyString(success)) && (n.kind == "success" || n.kind == "error")
    ensures n.Message? && !EmptyString(message) ==> n.text == message
    ensures n.Message? && EmptyString(message) ==>
      n.text == NoticeText(if EmptyString(errcode) then "unknown" else errcode)
  {
    if !onEndpoint then NoNotice
    else if EmptyString(actionFlag) then Placeholder
    else
      var code := if !EmptyString(errcode) then errcode else "unknown";
      var text := if !EmptyString(message) then message else NoticeText(code);
      var kind := if EmptyString(success) then "error" else "success";
      Message(text, kind)
  }

  /** A redirect without an error code or message shows the unknown-error text. */
  lemma NoticeDefaultIsUnknown(actionFlag: string, success: string)
    requires !EmptyString(actionFlag)
    ensures EndpointNotice(true, actionFlag, "", "", success).text == UnknownErrorText
  {
    NoticeTextAliases();
  }

  // ---------------------------------------------------------------------------
  // add_endpoint_menu_item

  /** `add_endpoint_menu_item($items)`: the tab under `FRONT_VAR`, the logout entry moved last. */
  function AddEndpointMenuItem(items: OMap<string, string>, title: string): (r: OMap<string, string>)
    ensures Lookup(r, FrontVar) == Some(title)
    ensures forall k :: k != FrontVar ==> Lookup(r, k) == Lookup(items, k)
    ensures LogoutKey in Keys(items) ==> Keys(r)[|r| - 1] == LogoutKey
  {
    var merged := Merge(items, [(FrontVar, title)]);
    assert Lookup(merged, LogoutKey) == Lookup(items, LogoutKey);
    AdjustAccountTabOrder(merged)
  }
}
