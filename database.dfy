/**
 * The plugin's table operations (`includes/database.php`): the schema
 * version check and install, the insert of a customer's signups, and the
 * three deletes, each of which clears the transient its reader caches under.
 * The transient keys every part of the plugin uses are defined here.
 */
module Database {
  import opened Php
  import opened WordPress
  import opened Helpers

  /** The `WP_Error` codes of the table and query functions. */
  datatype ErrorCode =
    | MissingCustomerId
    | MissingInvalidProducts
    | InvalidProductId
    | DbInsertError
    | ProductNotEnabled
    | MissingRelationshipId
    | DbQueryError

  /** `SCHEMA_KEY` and `DB_VERS`. */
  const SchemaKey := "woo_products_interest_db_version"
  const DbVers := "1"

  // ---------------------------------------------------------------------------
  // Transient keys

  const EnabledProductsKey := "woo_product_interest_ids"
  const AllCustomersKey := "woo_product_interest_customers_all"
  const ProductCustomersPrefix := "woo_product_interest_customers_"
  const CustomerProductsPrefix := "woo_customer_interest_products_"
  const RelationshipPrefix := "woo_customer_relationship_data_"

  /** The key `get_customers_for_product` caches under and `delete_by_product` clears. */
  function ProductCustomersKey(productId: nat): string {
    ProductCustomersPrefix + NatToString(productId)
  }

  /** The key `get_products_for_customer` caches under and `delete_by_customer` clears. */
  function CustomerProductsKey(customerId: nat): string {
    CustomerProductsPrefix + NatToString(customerId)
  }

  /** The key `get_data_by_relationship` caches under and `delete_by_relationship` clears. */
  function RelationshipKey(relationshipId: nat): string {
    RelationshipPrefix + NatToString(relationshipId)
  }

  lemma PrefixedKeyInjective(prefix: string, m: nat, n: nat)
    requires prefix + NatToString(m) == prefix + NatToString(n)
    ensures m == n
  {
    assert NatToString(m) == (prefix + NatToString(m))[|prefix|..];
    assert NatToString(n) == (prefix + NatToString(n))[|prefix|..];
    NatToStringInjective(m, n);
  }

  /**
   * Each per-ID key names one ID, the families never share a key, and no
   * per-product key is the all-customers key.
   */
  lemma TransientKeysDistinct(m: nat, n: nat)
    ensures ProductCustomersKey(m) == ProductCustomersKey(n) ==> m == n
    ensures CustomerProductsKey(m) == CustomerProductsKey(n) ==> m == n
    ensures RelationshipKey(m) == RelationshipKey(n) ==> m == n
    ensures ProductCustomersKey(m) != CustomerProductsKey(n)
    ensures ProductCustomersKey(m) != RelationshipKey(n)
    ensures CustomerProductsKey(m) != RelationshipKey(n)
    ensures ProductCustomersKey(m) != AllCustomersKey
  {
    if ProductCustomersKey(m) == ProductCustomersKey(n) {
      PrefixedKeyInjective(ProductCustomersPrefix, m, n);
    }
    if CustomerProductsKey(m) == CustomerProductsKey(n) {
      PrefixedKeyInjective(CustomerProductsPrefix, m, n);
    }
    if RelationshipKey(m) == RelationshipKey(n) {
      PrefixedKeyInjective(RelationshipPrefix, m, n);
    }
    assert ProductCustomersKey(m)[4] != CustomerProductsKey(n)[4];
    assert ProductCustomersKey(m)[4] != RelationshipKey(n)[4];
    assert CustomerProductsKey(m)[13] != RelationshipKey(n)[13];
    assert ProductCustomersKey(m)[31] == NatToString(m)[0];
    assert IsDigit(ProductCustomersKey(m)[31]) && !IsDigit(AllCustomersKey[31]);
  }

  // ---------------------------------------------------------------------------
  // Schema version

  /** `(int) get_option(SCHEMA_KEY)`: an absent option reads as `false`, that is 0. */
  function SchemaVersion(options: map<string, OptionValue>): int {
    if SchemaKey !in options then 0
    else match options[SchemaKey]
      case Text(s) => IntVal(s)
      case IdsOption(ids) => if ids == [] then 0 else 1
  }

  /** `install_table()`: create the table (`dbDelta`) and record `DB_VERS`. */
  method InstallTable(site: Site) returns (r: bool)
    modifies site
    ensures r && site.tableExists
    ensures site.options == old(site.options)[SchemaKey := Text(DbVers)]
    ensures site.table == old(site.table) && site.nextId == old(site.nextId)
    ensures site.transients == old(site.transients) && site.productMeta == old(site.productMeta)
  {
    site.CreateTable();
    site.UpdateOption(SchemaKey, Text(DbVers));
    r := true;
  }

  /** The version `install_table` records is the current one. */
  lemma InstalledVersionIsCurrent(options: map<string, OptionValue>)
    ensures SchemaVersion(options[SchemaKey := Text(DbVers)]) == IntVal(DbVers) == 1
  {
    assert NatToString(1) == DbVers;
    IntValOfNatToString(1);
  }

  /** `maybe_update_table()`: install unless the stored version is `DB_VERS`. */
  method MaybeUpdateTable(site: Site) returns (installed: bool)
    modifies site
    ensures installed <==> SchemaVersion(old(site.options)) != IntVal(DbVers)
    ensures !installed ==> site.options == old(site.options) && site.tableExists == old(site.tableExists)
    ensures installed ==> site.options == old(site.options)[SchemaKey := Text(DbVers)] && site.tableExists
    ensures site.table == old(site.table) && site.nextId == old(site.nextId)
    ensures site.transients == old(site.transients) && site.productMeta == old(site.productMeta)
  {
    if SchemaVersion(site.options) == IntVal(DbVers) {
      return false;
    }
    var _ := InstallTable(site);
    installed := true;
  }

  /** After an install, the version check finds nothing to do. */
  lemma UpdateAfterInstallIsNoOp(options: map<string, OptionValue>)
    ensures SchemaVersion(options[SchemaKey := Text(DbVers)]) == IntVal(DbVers)
  {
    InstalledVersionIsCurrent(options);
  }

  /**
   * The value `maybe_table_exists()` returns. The comparison with the table
   * name is evaluated but not returned, so the call gives null (None)
   * whether or not the table is there.
   */
  function TableCheckAsWritten(tableExists: bool): (r: Option<bool>)
    ensures r != TableCheckIntended(tableExists)
    ensures InstallNeeded(r)
  {
    None
  }

  /** What `maybe_table_exists()` is documented to return: whether the table is there. */
  function TableCheckIntended(tableExists: bool): Option<bool> {
    Some(tableExists)
  }

  /** `! $check` in `maybe_install_table`. */
  predicate InstallNeeded(check: Option<bool>) {
    check != Some(true)
  }

  /** With the table present, the check as written still asks for an install; the intended one does not. */
  lemma TableCheckAlwaysInstalls(tableExists: bool)
    ensures InstallNeeded(TableCheckAsWritten(tableExists))
    ensures InstallNeeded(TableCheckIntended(tableExists)) <==> !tableExists
  {
  }

  /** `maybe_install_table()` as written: `install_table` runs every time. */
  method MaybeInstallTable(site: Site) returns (installed: bool)
    modifies site
    ensures installed && site.tableExists
    ensures site.options == old(site.options)[SchemaKey := Text(DbVers)]
    ensures site.table == old(site.table) && site.nextId == old(site.nextId)
    ensures site.transients == old(site.transients) && site.productMeta == old(site.productMeta)
  {
    var check := TableCheckAsWritten(site.tableExists);
    installed := InstallNeeded(check);
    if installed {
      var _ := InstallTable(site);
    }
  }

  /** `maybe_install_table()` with the check returning its result: an existing table is left alone. */
  method MaybeInstallTableIntended(site: Site) returns (installed: bool)
    modifies site
    ensures installed <==> !old(site.tableExists)
    ensures site.tableExists
    ensures !installed ==> site.options == old(site.options)
    ensures installed ==> site.options == old(site.options)[SchemaKey := Text(DbVers)]
    ensures site.table == old(site.table) && site.nextId == old(site.nextId)
    ensures site.transients == old(site.transients) && site.productMeta == old(site.productMeta)
  {
    var check := TableCheckIntended(site.tableExists);
    installed := InstallNeeded(check);
    if installed {
      var _ := InstallTable(site);
    }
  }

  // ---------------------------------------------------------------------------
  // insert

  /** `empty($product_id) || 'product' !== get_post_type($product_id)` fails for this ID. */
  predicate AcceptedProduct(site: Site, productId: nat) {
    productId != 0 && site.IsProduct(productId)
  }

  /** How many products `insert` writes before it meets one it rejects. */
  function AcceptedPrefix(site: Site, products: seq<nat>): (k: nat)
    ensures k <= |products|
    ensures forall i :: 0 <= i < k ==> AcceptedProduct(site, products[i])
    ensures k < |products| ==> !AcceptedProduct(site, products[k])
  {
    if products == [] || !AcceptedProduct(site, products[0]) then 0
    else 1 + AcceptedPrefix(site, products[1..])
  }

  /** The rows `insert` writes for `products`, under consecutive IDs from `firstId`. */
  function NewRows(firstId: nat, customerId: nat, products: seq<nat>, signup: string): (rows: seq<Relationship>)
    ensures |rows| == |products|
  {
    seq(|products|, i requires 0 <= i < |products| => Relationship(firstId + i, products[i], customerId, signup))
  }

  datatype InsertResult = Inserted | InsertFailed(code: ErrorCode)

  /**
   * `insert($customer_id, $products)`, with `current_time('mysql')` passed
   * as `now`. It is not atomic: the products before the first rejected
   * one keep their rows.
   */
  method Insert(site: Site, customerId: nat, products: seq<nat>, now: string) returns (r: InsertResult)
    requires site.Valid()
    modifies site
    ensures site.Valid()
    ensures customerId == 0 ==> r == InsertFailed(MissingCustomerId)
    ensures customerId != 0 && products == [] ==> r == InsertFailed(MissingInvalidProducts)
    ensures customerId == 0 || products == [] ==> site.table == old(site.table) && site.nextId == old(site.nextId)
    ensures customerId != 0 && products != [] ==>
      var k := AcceptedPrefix(site, products);
      && site.table == old(site.table) + NewRows(old(site.nextId), customerId, products[..k], now)
      && site.nextId == old(site.nextId) + k
      && r == (if k == |products| then Inserted else InsertFailed(InvalidProductId))
    ensures site.transients == old(site.transients) && site.options == old(site.options)
    ensures site.productMeta == old(site.productMeta) && site.tableExists == old(site.tableExists)
  {
    if customerId == 0 {
      return InsertFailed(MissingCustomerId);
    }
    if |products| == 0 {
      return InsertFailed(MissingInvalidProducts);
    }
    var signup := now;
    ghost var k := AcceptedPrefix(site, products);
    for i := 0 to |products|
      invariant i <= k
      invariant site.Valid()
      invariant site.table == old(site.table) + NewRows(old(site.nextId), customerId, products[..i], signup)
      invariant site.nextId == old(site.nextId) + i
      invariant site.transients == old(site.transients) && site.options == old(site.options)
      invariant site.productMeta == old(site.productMeta) && site.tableExists == old(site.tableExists)
    {
      var productId := products[i];
      if productId == 0 || !site.IsProduct(productId) {
        return InsertFailed(InvalidProductId);
      }
      var _ := site.InsertRow(productId, customerId, signup);
      assert products[..i + 1] == products[..i] + [productId];
    }
    assert products[..|products|] == products;
    r := Inserted;
  }

  lemma FilterAppend(a: seq<Relationship>, b: seq<Relationship>, keep: Relationship -> bool)
    ensures Filter(a + b, keep) == Filter(a, keep) + Filter(b, keep)
  {
    if a == [] {
      assert a + b == b;
    } else {
      assert (a + b)[1..] == a[1..] + b;
      FilterAppend(a[1..], b, keep);
    }
  }

  /** Deleting a customer's rows takes away every row an insert for that customer added. */
  lemma DeleteByCustomerUndoesInsert(rows: seq<Relationship>, firstId: nat, customerId: nat, products: seq<nat>, now: string)
    ensures Filter(rows + NewRows(firstId, customerId, products, now), NotMatching(CustomerIdColumn, customerId))
         == Filter(rows, NotMatching(CustomerIdColumn, customerId))
  {
    var added := NewRows(firstId, customerId, products, now);
    FilterAppend(rows, added, NotMatching(CustomerIdColumn, customerId));
    FilterNone(added, NotMatching(CustomerIdColumn, customerId));
  }

  // ---------------------------------------------------------------------------
  // Deletes

  /** `delete_by_customer($customer_id)`: None is the function's void return. */
  method DeleteByCustomer(site: Site, customerId: nat) returns (err: Option<ErrorCode>)
    requires site.Valid()
    modifies site
    ensures site.Valid()
    ensures customerId == 0 ==>
      (err == Some(MissingCustomerId) && site.table == old(site.table) && site.transients == old(site.transients))
    ensures customerId != 0 ==>
      (&& err == None
       && site.table == Filter(old(site.table), NotMatching(CustomerIdColumn, customerId))
       && site.transients == old(site.transients) - {CustomerProductsKey(customerId)})
    ensures site.nextId == old(site.nextId) && site.options == old(site.options)
    ensures site.productMeta == old(site.productMeta) && site.tableExists == old(site.tableExists)
  {
    if customerId == 0 {
      return Some(MissingCustomerId);
    }
    site.DeleteRows(CustomerIdColumn, customerId);
    site.DeleteTransient(CustomerProductsKey(customerId));
    err := None;
  }

  /** `delete_by_product($product_id)`: only for an enabled `product` post. */
  method DeleteByProduct(site: Site, productId: nat) returns (err: Option<ErrorCode>)
    requires site.Valid()
    modifies site
    ensures site.Valid()
    ensures !AcceptedProduct(site, productId) ==> err == Some(InvalidProductId)
    ensures AcceptedProduct(site, productId) && !MaybeProductEnabled(site, productId) ==> err == Some(ProductNotEnabled)
    ensures err.Some? ==> site.table == old(site.table) && site.transients == old(site.transients)
    ensures err.None? <==> AcceptedProduct(site, productId) && MaybeProductEnabled(site, productId)
    ensures err.None? ==>
      && site.table == Filter(old(site.table), NotMatching(ProductIdColumn, productId))
      && site.transients == old(site.transients) - {ProductCustomersKey(productId)}
    ensures site.nextId == old(site.nextId) && site.options == old(site.options)
    ensures site.productMeta == old(site.productMeta) && site.tableExists == old(site.tableExists)
  {
    if productId == 0 || !site.IsProduct(productId) {
      return Some(InvalidProductId);
    }
    if !MaybeProductEnabled(site, productId) {
      return Some(ProductNotEnabled);
    }
    site.DeleteRows(ProductIdColumn, productId);
    site.DeleteTransient(ProductCustomersKey(productId));
    err := None;
  }

  /** `delete_by_relationship($relationship_id)`. */
  method DeleteByRelationship(site: Site, relationshipId: nat) returns (err: Option<ErrorCode>)
    requires site.Valid()
    modifies site
    ensures site.Valid()
    ensures relationshipId == 0 ==>
      (err == Some(MissingRelationshipId) && site.table == old(site.table) && site.transients == old(site.transients))
    ensures relationshipId != 0 ==>
      (&& err == None
       && site.table == Filter(old(site.table), NotMatching(RelationshipIdColumn, relationshipId))
       && site.transients == old(site.transients) - {RelationshipKey(relationshipId)})
    ensures site.nextId == old(site.nextId) && site.options == old(site.options)
    ensures site.productMeta == old(site.productMeta) && site.tableExists == old(site.tableExists)
  {
    if relationshipId == 0 {
      return Some(MissingRelationshipId);
    }
    site.DeleteRows(RelationshipIdColumn, relationshipId);
    site.DeleteTransient(RelationshipKey(relationshipId));
    err := None;
  }

  /** Relationship IDs are a primary key, so a delete by relationship removes at most one row. */
  lemma {:induction false} DeleteByRelationshipRemovesAtMostOne(rows: seq<Relationship>, id: nat)
    requires IdsIncreasing(rows)
    ensures |Filter(rows, NotMatching(RelationshipIdColumn, id))| >= |rows| - 1
    ensures (forall i :: 0 <= i < |rows| ==> rows[i].relationshipId != id) ==> Filter(rows, NotMatching(RelationshipIdColumn, id)) == rows
  {
    if rows != [] {
      assert IdsIncreasing(rows[1..]);
      DeleteByRelationshipRemovesAtMostOne(rows[1..], id);
      if rows[0].relationshipId == id {
        assert forall i :: 0 <= i < |rows[1..]| ==> rows[1..][i].relationshipId != id by {
          forall i | 0 <= i < |rows[1..]| ensures rows[1..][i].relationshipId != id {
            assert rows[0].relationshipId < rows[i + 1].relationshipId;
          }
        }
      }
    }
  }
}
