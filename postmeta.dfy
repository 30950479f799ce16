/**
 * The product editor (`includes/post-meta.php`): the "Include product
 * signup" checkbox, saving it as the product's enable flag, and the
 * interested-customers metabox shown on enabled products.
 */
module PostMeta {
  import opened Php
  import opened WordPress
  import opened Helpers
  import opened Database
  import opened Queries

  // ---------------------------------------------------------------------------
  // save_product_subscribe

  /**
   * The enable flags after a save: `update_meta_data($key, true)` stores "1"
   * for a non-empty checkbox, `delete_meta_data($key)` removes the flag otherwise.
   */
  function SavedMeta(meta: OMap<nat, string>, postId: nat, checkbox: string): (r: OMap<nat, string>)
    ensures forall id :: id != postId ==> Lookup(r, id) == Lookup(meta, id)
    ensures Lookup(r, postId) == if EmptyString(checkbox) then None else Some("1")
  {
    if !EmptyString(checkbox) then Put(meta, postId, "1") else Unset(meta, postId)
  }

  /** The guards: a `product`, a user who may edit it, and a valid nonce. */
  predicate SaveApplies(site: Site, postId: nat, canEdit: bool, nonceValid: bool) {
    site.IsProduct(postId) && canEdit && nonceValid
  }

  /**
   * `save_product_subscribe($post_id)`: `checkbox` is the posted
   * `include_product_subscribe` ("" when absent). Past the guards, the flag
   * follows the checkbox and the cached enabled list is dropped.
   */
  method SaveProductSubscribe(site: Site, postId: nat, canEdit: bool, nonceValid: bool, checkbox: string)
    modifies site
    ensures !SaveApplies(site, postId, canEdit, nonceValid) ==>
      site.productMeta == old(site.productMeta) && site.transients == old(site.transients)
    ensures SaveApplies(site, postId, canEdit, nonceValid) ==>
      && site.productMeta == SavedMeta(old(site.productMeta), postId, checkbox)
      && site.transients == old(site.transients) - {EnabledProductsKey}
      && (MaybeProductEnabled(site, postId) <==> !EmptyString(checkbox))
    ensures site.table == old(site.table) && site.nextId == old(site.nextId) && site.options == old(site.options)
    ensures site.tableExists == old(site.tableExists)
  {
    if !site.IsProduct(postId) {
      return;
    }
    if !canEdit {
      return;
    }
    if !nonceValid {
      return;
    }
    if !EmptyString(checkbox) {
      site.EnableProductMeta(postId);
    } else {
      site.DeleteProductMeta(postId);
    }
    site.DeleteTransient(EnabledProductsKey);
  }

  /**
   * Dropping the cached list makes the next `get_enabled_products()` read
   * the flags again: the saved product is listed exactly when its box was checked.
   */
  lemma NextEnabledReadSeesSave(cache: map<string, Cached>, meta: OMap<nat, string>, postId: nat, checkbox: string)
    ensures var (r, _) := ReadThrough(cache - {EnabledProductsKey}, EnabledProductsKey, false,
                                      EnabledProductsFresh(SavedMeta(meta, postId, checkbox)), false);
      (!EmptyString(checkbox) ==> r.Found? && postId in r.value.ids)
      && (EmptyString(checkbox) ==> r.NotFound? || (r.Found? && r.value.IdList? && postId !in r.value.ids))
  {
  }

  // ---------------------------------------------------------------------------
  // display_product_subscribe_checkbox, load_subscribed_customers_metabox

  /** The fields of `woocommerce_wp_checkbox` that decide its state. */
  datatype Checkbox = Checkbox(value: string, cbvalue: string)

  /** `woocommerce_wp_checkbox` marks the box checked when its value equals `cbvalue`. */
  predicate Checked(box: Checkbox) {
    box.value == box.cbvalue
  }

  /** `display_product_subscribe_checkbox()` for the product being edited. */
  function SubscribeCheckbox(site: Site, postId: nat): (box: Checkbox)
    reads site
    ensures Checked(box) <==> MaybeProductEnabled(site, postId)
  {
    Checkbox(MaybeProductEnabledString(site, postId), "yes")
  }

  /** `load_subscribed_customers_metabox($post)`: whether the metabox is added. */
  function CustomersMetaboxShown(site: Site, postId: nat): (shown: bool)
    reads site
    ensures shown <==> !EmptyString(site.MetaValue(postId))
  {
    MaybeProductEnabled(site, postId)
  }

  /** After a save, the editor shows the box as it was submitted, and the metabox with it. */
  lemma SavedCheckboxShowsAgain(site: Site, before: OMap<nat, string>, postId: nat, checkbox: string)
    requires site.productMeta == SavedMeta(before, postId, checkbox)
    ensures Checked(SubscribeCheckbox(site, postId)) <==> !EmptyString(checkbox)
    ensures CustomersMetaboxShown(site, postId) <==> !EmptyString(checkbox)
  {
    assert Lookup(site.productMeta, postId) == Lookup(SavedMeta(before, postId, checkbox), postId);
  }
}
