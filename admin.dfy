/**
 * The one-time "enable all products?" prompt (`includes/admin.php`): the
 * notice shown while the prompt option is set, the yes/no request that
 * answers it, and the result notice after the redirect.
 */
module Admin {
  import opened Php
  import opened WordPress

  const PromptOption := "wc_product_interest_enable_all_prompt"
  const EnabledResultText := "All your current products have been enabled."
  const DoneResultText := "Your selection has been recorded."

  /** `empty(get_option($key, false))`. */
  predicate OptionEmpty(value: Option<OptionValue>) {
    match value
    case None => true
    case Some(Text(s)) => EmptyString(s)
    case Some(IdsOption(ids)) => ids == []
  }

  /** `activation_prompt_notice()`: whether the prompt is shown. */
  function PromptShown(site: Site): (shown: bool)
    reads site
    ensures shown ==> PromptOption in site.options
  {
    !OptionEmpty(site.GetOption(PromptOption))
  }

  /** What `activation_prompt_results()` prints. */
  datatype ResultNotice =
    | NoResultNotice
    | ResultMessage(text: string)
    | UndefinedMessage   // any other value: `$msgtxt` is never set and the notice is empty

  /** `activation_prompt_results()` for the `prod-interest-enable-result` query value ("" when absent). */
  function ResultNoticeFor(result: string): (n: ResultNotice)
    ensures EmptyString(result) <==> n.NoResultNotice?
    ensures n.ResultMessage? <==> result == "enabled" || result == "done"
    ensures result == "enabled" ==> n == ResultMessage(EnabledResultText)
    ensures result == "done" ==> n == ResultMessage(DoneResultText)
  {
    if EmptyString(result) then NoResultNotice
    else if result == "enabled" then ResultMessage(EnabledResultText)
    else if result == "done" then ResultMessage(DoneResultText)
    else UndefinedMessage
  }

  /** The enable flags after `update_post_meta($id, $key, true)` for each product in turn. */
  function EnabledAll(meta: OMap<nat, string>, products: seq<nat>): (r: OMap<nat, string>)
    decreases |products|
  {
    if products == [] then meta else Put(EnabledAll(meta, products[..|products| - 1]), products[|products| - 1], "1")
  }

  /** Every listed product ends up enabled; every other product keeps its flag. */
  lemma {:induction false} EnabledAllSpec(meta: OMap<nat, string>, products: seq<nat>)
    ensures forall id :: id in products ==> Lookup(EnabledAll(meta, products), id) == Some("1")
    ensures forall id :: id !in products ==> Lookup(EnabledAll(meta, products), id) == Lookup(meta, id)
    decreases |products|
  {
    if products != [] {
      EnabledAllSpec(meta, products[..|products| - 1]);
      assert products == products[..|products| - 1] + [products[|products| - 1]];
    }
  }

  /** Enabling all twice changes nothing the second time. */
  lemma EnableAllIdempotent(meta: OMap<nat, string>, products: seq<nat>)
    ensures forall id :: Lookup(EnabledAll(EnabledAll(meta, products), products), id) == Lookup(EnabledAll(meta, products), id)
  {
    EnabledAllSpec(meta, products);
    EnabledAllSpec(EnabledAll(meta, products), products);
  }

  /** `activation_prompt_enable()`'s loop over the IDs of `get_all_products()`. */
  method EnableProducts(site: Site, products: seq<nat>)
    modifies site
    ensures site.productMeta == EnabledAll(old(site.productMeta), products)
    ensures site.table == old(site.table) && site.nextId == old(site.nextId) && site.transients == old(site.transients)
    ensures site.options == old(site.options) && site.tableExists == old(site.tableExists)
  {
    for i := 0 to |products|
      invariant site.productMeta == EnabledAll(old(site.productMeta), products[..i])
      invariant site.table == old(site.table) && site.nextId == old(site.nextId) && site.transients == old(site.transients)
      invariant site.options == old(site.options) && site.tableExists == old(site.tableExists)
    {
      assert products[..i + 1][..i] == products[..i];
      site.EnableProductMeta(products[i]);
    }
    assert products[..|products|] == products;
  }

  /**
   * `activation_prompt_request()` for the `prod-interest-enable-all` query
   * value ("" when absent): "yes" enables every product of `get_all_products()`
   * (passed as `products`) and "no" only dismisses; both delete the prompt
   * option and redirect with their result key. Any other value does nothing.
   */
  method ActivationPromptRequest(site: Site, choice: string, products: seq<nat>) returns (redirect: Option<string>)
    modifies site
    ensures choice != "yes" && choice != "no" ==>
      redirect == None && site.options == old(site.options) && site.productMeta == old(site.productMeta)
    ensures choice == "yes" ==>
      redirect == Some("enabled") && site.options == old(site.options) - {PromptOption}
      && site.productMeta == EnabledAll(old(site.productMeta), products)
    ensures choice == "no" ==>
      redirect == Some("done") && site.options == old(site.options) - {PromptOption}
      && site.productMeta == old(site.productMeta)
    ensures redirect.Some? ==> !PromptShown(site) && ResultNoticeFor(redirect.value).ResultMessage?
    ensures site.table == old(site.table) && site.nextId == old(site.nextId) && site.transients == old(site.transients)
    ensures site.tableExists == old(site.tableExists)
  {
    if EmptyString(choice) {
      return None;
    }
    if choice == "yes" {
      EnableProducts(site, products);
      ghost var before := site.options;
      site.DeleteOption(PromptOption);
      AnsweredPromptIsGone(site, before);
      return Some("enabled");
    }
    if choice == "no" {
      ghost var before := site.options;
      site.DeleteOption(PromptOption);
      AnsweredPromptIsGone(site, before);
      return Some("done");
    }
    return None;
  }

  /** Once the prompt option is deleted, `activation_prompt_notice()` no longer shows the prompt. */
  lemma AnsweredPromptIsGone(site: Site, before: map<string, OptionValue>)
    requires site.options == before - {PromptOption}
    ensures !PromptShown(site)
  {
    assert site.GetOption(PromptOption) == None;
  }
}
