/**
 * The Ajax form handler (`includes/ajax-actions.php`): the same interest
 * change as the account form, answered with a JSON payload instead of a
 * redirect. `wp_send_json_*` ends the request, so each response is the
 * handler's final value.
 */
module AjaxActions {
  import opened Php
  import opened WordPress
  import opened Helpers
  import opened Database
  import opened Queries
  import opened AccountPage

  /** The list markup `customer_interest_list_items` renders, or the literal `false`. */
  datatype Markup = NoMarkup | Html(text: string)

  /** `! $markup`. */
  predicate Falsy(m: Markup) {
    m.NoMarkup? || EmptyString(m.text)
  }

  /** The JSON the handler sends, or how it ends without one. */
  datatype AjaxResponse =
    | Silent
    | AjaxError(errcode: string, message: string)
    | AjaxSuccess(message: string, markup: Markup, showsEmpty: bool)
    | AjaxFatal

  /** `send_ajax_error_response($errcode)`: the code and its notice text (the notice markup is not modelled). */
  function ErrorResponse(errcode: string): (r: AjaxResponse)
    ensures r.AjaxError? && r.errcode == errcode
    ensures r.message == GenericErrorText <==> ToLower(errcode) !in NoticeCodes
  {
    AjaxError(errcode, NoticeText(errcode))
  }

  /**
   * `send_ajax_success_response($markup, $msgcode)`: `errcode` is null, and
   * `empty` holds the no-items text exactly when the markup is falsy.
   */
  function SuccessResponse(markup: Markup, msgcode: string): (r: AjaxResponse)
    ensures r.AjaxSuccess? && r.markup == markup
    ensures r.showsEmpty <==> Falsy(markup)
    ensures r.message == GenericErrorText <==> ToLower(msgcode) !in NoticeCodes
  {
    AjaxSuccess(NoticeText(msgcode), markup, Falsy(markup))
  }

  /** The default message code of a success, and what it reads. */
  lemma SuccessUsesChangeText(markup: Markup)
    ensures SuccessResponse(markup, "success-change-interests").message == ChangeInterestsText
  {
    assert ToLower("success-change-interests") == "success-change-interests";
  }

  /** The missing-customer error as the handler sends it: a code `notice_text` does not know. */
  function MissingCustomerResponseAsWritten(): (r: AjaxResponse)
    ensures r.AjaxError? && r.errcode == "no-customer-id"
    ensures r.message == GenericErrorText
  {
    assert ToLower("no-customer-id") == "no-customer-id";
    ErrorResponse("no-customer-id")
  }

  /** The missing-customer error with the code the account form uses for the same case. */
  function MissingCustomerResponse(): AjaxResponse {
    ErrorResponse("missing-customer-id")
  }

  /** As written, a missing customer ID shows only the generic error text. */
  lemma MissingCustomerAsWrittenIsGeneric()
    ensures MissingCustomerResponseAsWritten().message == GenericErrorText
  {
    assert ToLower("no-customer-id") == "no-customer-id";
  }

  /** With the corrected code, the message names the missing customer ID. */
  lemma MissingCustomerNamesTheField()
    ensures MissingCustomerResponse().message == MissingCustomerText
    ensures MissingCustomerResponse().message != GenericErrorText
  {
    assert ToLower("missing-customer-id") == "missing-customer-id";
  }

  /** What the Ajax call posts, with the request context it arrives in. */
  datatype AjaxForm = AjaxForm(
    restRequest: bool,
    doingAutosave: bool,
    doingCron: bool,
    action: string,                // `$_POST['action']`
    nonceValid: bool,              // `nonce` is non-empty and verifies
    customerId: string,            // `customer_id`
    originalIds: string,           // `original_ids`, "" when absent
    interestIds: Option<string>)   // `interest_ids`, None when not set

  const AjaxAction := "woo_save_customer_product_interest"

  /** `check_ajax_constants()` (no admin check) and the action name. */
  predicate AjaxApplies(form: AjaxForm) {
    CheckAjaxConstants(false, false, form.restRequest, form.doingAutosave, form.doingCron)
    && !EmptyString(form.action) && form.action == AjaxAction
  }

  /** The kept IDs: the comma pieces of `interest_ids`, compared loosely with each original's `absint`. */
  function AjaxInterest(posted: string): (interest: seq<IdValue>)
    ensures |interest| == |Explode(',', posted)|
  {
    IdTexts(Explode(',', posted))
  }

  /** What the handler does once it has a customer and the original IDs (it passes no customer to the removals). */
  function AjaxReconcile(originals: Originals, interestIds: Option<string>, markup: Markup): (AjaxResponse, seq<Removal>) {
    if EmptyOriginals(originals) then (ErrorResponse("no-original-ids"), [])
    else if interestIds.None? then (SuccessResponse(NoMarkup, "success-change-interests"), [RemoveAll(originals, None)])
    else if originals.ErrorObject? then (AjaxFatal, [])
    else
      var interest := AjaxInterest(interestIds.value);
      if CompareIdArrays(originals.values, interest) then (SuccessResponse(markup, "success-change-interests"), [])
      else (SuccessResponse(markup, "success-change-interests"), RemoveEach(KeepOut(originals.values, interest), None))
  }

  /**
   * `save_customer_product_interest()`. `queryFailed` is the database's
   * answer when the original IDs have to be read; `markup` is the list the
   * layout renders after the removals.
   */
  method SaveCustomerProductInterest(site: Site, form: AjaxForm, queryFailed: bool, markup: Markup)
    returns (response: AjaxResponse, removals: seq<Removal>)
    modifies site
    ensures !AjaxApplies(form) ==> response == Silent && removals == []
    ensures AjaxApplies(form) && !form.nonceValid ==> response == ErrorResponse("invalid-nonce") && removals == []
    ensures AjaxApplies(form) && form.nonceValid && EmptyString(form.customerId) ==>
      response == MissingCustomerResponseAsWritten() && removals == []
    ensures AjaxApplies(form) && form.nonceValid && !EmptyString(form.customerId) ==>
      (response, removals) == AjaxReconcile(OriginalIds(form.originalIds, form.customerId, old(site.table), queryFailed),
                                            form.interestIds, markup)
    ensures var id := AbsInt(form.customerId);
      site.transients
        == if AjaxApplies(form) && form.nonceValid && !EmptyString(form.customerId) && EmptyString(form.originalIds) && id != 0
           then ReadThrough(old(site.transients), CustomerProductsKey(id), true,
                            RowsFresh(old(site.table), CustomerIdColumn, id), queryFailed).1
           else old(site.transients)
    ensures site.table == old(site.table) && site.nextId == old(site.nextId) && site.options == old(site.options)
    ensures site.productMeta == old(site.productMeta) && site.tableExists == old(site.tableExists)
  {
    removals := [];
    if !CheckAjaxConstants(false, false, form.restRequest, form.doingAutosave, form.doingCron) {
      return Silent, [];
    }
    if EmptyString(form.action) || AjaxAction != form.action {
      return Silent, [];
    }
    if !form.nonceValid {
      return ErrorResponse("invalid-nonce"), [];
    }
    if EmptyString(form.customerId) {
      return MissingCustomerResponseAsWritten(), [];
    }
    var originals := ReadOriginals(site, form.originalIds, form.customerId, queryFailed);
    if EmptyOriginals(originals) {
      return ErrorResponse("no-original-ids"), [];
    }
    if form.interestIds.None? {
      return SuccessResponse(NoMarkup, "success-change-interests"), [RemoveAll(originals, None)];
    }
    if originals.ErrorObject? {
      return AjaxFatal, [];
    }
    var interest := AjaxInterest(form.interestIds.value);
    if CompareIdArrays(originals.values, interest) {
      return SuccessResponse(markup, "success-change-interests"), [];
    }
    removals := RemoveUnkept(originals.values, interest, None);
    response := SuccessResponse(markup, "success-change-interests");
  }

  /** The comma pieces are canonical when the posted list is the decimal IDs joined with ','. */
  lemma JoinedIdsAreCanonical(ids: seq<nat>)
    requires |ids| >= 1
    ensures var interest := AjaxInterest(Implode(',', NatStrings(ids)));
      forall i :: 0 <= i < |interest| ==> Canonical(interest[i])
  {
    ExplodeImplodeNats(ids);
    var interest := AjaxInterest(Implode(',', NatStrings(ids)));
    forall i | 0 <= i < |interest| ensures Canonical(interest[i]) {
      IntValOfNatToString(ids[i]);
    }
  }

  /**
   * When the front end posts the kept IDs as decimal IDs joined with ',',
   * the removals are exactly the originals whose `absint` is not one of them,
   * whether or not the `compare_id_arrays` shortcut is taken.
   */
  lemma AjaxRemovesUnposted(values: seq<IdValue>, ids: seq<nat>, markup: Markup)
    requires values != [] && ids != []
    ensures var removals := AjaxReconcile(IdValues(values), Some(Implode(',', NatStrings(ids))), markup).1;
      forall o :: RemoveOne(o, None) in removals <==> o in values && AbsId(o) !in ids
  {
    var interest := AjaxInterest(Implode(',', NatStrings(ids)));
    JoinedIdsAreCanonical(ids);
    ExplodeImplodeNats(ids);
    if CompareIdArrays(values, interest) {
      MatchingRemovesNothing(values, interest);
    }
    KeepOutExact(values, interest);
    RemoveEachMembers(KeepOut(values, interest), None);
    forall o ensures InArray(AbsId(o), interest) <==> AbsId(o) in ids {
      if AbsId(o) in ids {
        var j :| 0 <= j < |ids| && ids[j] == AbsId(o);
        IntValOfNatToString(ids[j]);
        CanonicalMatch(AbsId(o), interest[j]);
      }
      if InArray(AbsId(o), interest) {
        var j :| 0 <= j < |interest| && LooseMatch(AbsId(o), interest[j]);
        CanonicalMatch(AbsId(o), interest[j]);
        IntValOfNatToString(ids[j]);
      }
    }
  }
}
