/**
 * The read side of the plugin (`includes/queries.php`). Every reader is a
 * read-through of one transient: a flush (or `WP_DEBUG`) deletes the key
 * first, a cached value is returned as it is, and otherwise the query runs;
 * an empty query result is `false` (or a `WP_Error` when the database
 * reported an error) and is not cached, anything else is cached and returned.
 * Whether the database reported an error is a parameter of each reader.
 */
module Queries {
  import opened Php
  import opened WordPress
  import opened Helpers
  import opened Database

  /** What a reader returns: the data, `false`, or a `WP_Error` with its code. */
  datatype Reply<T> = Found(value: T) | NotFound | Failed(code: ErrorCode)

  type Cache = map<string, Cached>

  // ---------------------------------------------------------------------------
  // The read-through every reader performs

  /**
   * One read of the transient `key`. `computed` is what the query produces,
   * None when it comes back empty; `queryFailed` is `$wpdb->last_error` after
   * an empty result. Gives the reply and the transients afterwards.
   */
  function ReadThrough(cache: Cache, key: string, bypass: bool, computed: Option<Cached>, queryFailed: bool)
    : (out: (Reply<Cached>, Cache))
    ensures out.0.Found? <==> key in out.1
    ensures out.0.Found? ==> out.1[key] == out.0.value
    ensures out.0.Failed? ==> out.0.code == DbQueryError
    ensures forall k :: k != key ==> (k in out.1 <==> k in cache)
    ensures forall k :: k != key && k in cache ==> out.1[k] == cache[k]
  {
    var c := if bypass then cache - {key} else cache;
    if key in c then (Found(c[key]), c)
    else if queryFailed then (Failed(DbQueryError), c)
    else match computed
      case None => (NotFound, c)
      case Some(v) => (Found(v), c[key := v])
  }

  /** Without a flush, a cached value is returned untouched and nothing is written. */
  lemma CachedValueWins(cache: Cache, key: string, computed: Option<Cached>, queryFailed: bool)
    requires key in cache
    ensures ReadThrough(cache, key, false, computed, queryFailed) == (Found(cache[key]), cache)
  {
  }

  /** With a flush the reply is always what the database says now. */
  lemma FlushReadsDatabase(cache: Cache, key: string, computed: Option<Cached>, queryFailed: bool)
    ensures ReadThrough(cache, key, true, computed, queryFailed).0
         == (if queryFailed then Failed(DbQueryError) else if computed.Some? then Found(computed.value) else NotFound)
  {
  }

  /**
   * Once a read has found something, a second read without a flush returns the
   * same value and writes nothing, whatever the database holds by then.
   */
  lemma SecondReadAgrees(cache: Cache, key: string, bypass: bool, computed: Option<Cached>, queryFailed: bool,
                         computed': Option<Cached>, queryFailed': bool)
    ensures var first := ReadThrough(cache, key, bypass, computed, queryFailed);
      first.0.Found? ==> ReadThrough(first.1, key, false, computed', queryFailed') == first
  {
  }

  /** An empty or failed query caches nothing: the next read runs the query again. */
  lemma EmptyResultNotCached(cache: Cache, key: string, bypass: bool, queryFailed: bool)
    requires key !in cache
    ensures ReadThrough(cache, key, bypass, None, queryFailed).1 == cache
  {
  }

  // ---------------------------------------------------------------------------
  // get_enabled_products

  /** `SELECT post_id FROM postmeta WHERE meta_key = ...`, made unique with `array_unique`. */
  function EnabledProductsFresh(meta: OMap<nat, string>): (r: Option<Cached>)
    ensures r.None? <==> |meta| == 0
    ensures r.Some? ==> r.value.IdList?
    ensures r.Some? ==> forall id :: id in r.value.ids <==> Lookup(meta, id).Some?
    ensures r.Some? ==> forall i, j :: 0 <= i < j < |r.value.ids| ==> r.value.ids[i] != r.value.ids[j]
  {
    var query := Keys(meta);
    if query == [] then None else Some(IdList(Dedup(query)))
  }

  /** `get_enabled_products($flush)`. */
  method GetEnabledProducts(site: Site, flush: bool, queryFailed: bool) returns (r: Reply<Cached>)
    modifies site
    ensures (r, site.transients)
         == ReadThrough(old(site.transients), EnabledProductsKey, flush || site.debug,
                        EnabledProductsFresh(old(site.productMeta)), queryFailed)
    ensures site.table == old(site.table) && site.nextId == old(site.nextId) && site.options == old(site.options)
    ensures site.productMeta == old(site.productMeta) && site.tableExists == old(site.tableExists)
  {
    var key := EnabledProductsKey;
    if flush || site.debug {
      site.DeleteTransient(key);
    }
    if key in site.transients {
      return Found(site.transients[key]);
    }
    if queryFailed {
      return Failed(DbQueryError);
    }
    var query := Keys(site.productMeta);
    if query == [] {
      return NotFound;
    }
    var items := Dedup(query);
    site.SetTransient(key, IdList(items));
    r := Found(IdList(items));
  }

  // ---------------------------------------------------------------------------
  // get_all_customers

  /** `SELECT customer_id FROM` the table. */
  function CustomerIds(table: seq<Relationship>): (ids: seq<nat>)
    ensures |ids| == |table| && forall i :: 0 <= i < |table| ==> ids[i] == table[i].customerId
  {
    seq(|table|, i requires 0 <= i < |table| => table[i].customerId)
  }

  /** `$customer_data[$customer_id] = (array) get_userdata($customer_id)->data` for each ID. */
  function CustomerRecords(site: Site, ids: seq<nat>): (data: seq<(nat, UserData)>)
    ensures |data| == |ids|
  {
    seq(|ids|, i requires 0 <= i < |ids| => (ids[i], site.UserOf(ids[i])))
  }

  function AllCustomersFresh(site: Site, table: seq<Relationship>): Option<Cached> {
    var query := CustomerIds(table);
    if query == [] then None else Some(CustomerList(CustomerRecords(site, Dedup(query))))
  }

  /**
   * The cached customer list is a PHP array keyed by customer ID: every
   * customer with a row appears once, under their own user data.
   */
  lemma AllCustomersKeyedByCustomer(site: Site, table: seq<Relationship>)
    requires table != []
    ensures AllCustomersFresh(site, table).Some?
    ensures var data := AllCustomersFresh(site, table).value.customers;
      && DistinctKeys(data)
      && (forall c :: c in Keys(data) <==> exists i :: 0 <= i < |table| && table[i].customerId == c)
      && (forall c :: c in Keys(data) ==> Lookup(data, c) == Some(site.UserOf(c)))
  {
    var ids := Dedup(CustomerIds(table));
    var data := CustomerRecords(site, ids);
    assert Keys(data) == ids;
    forall c | c in Keys(data) ensures Lookup(data, c) == Some(site.UserOf(c)) {
      var i :| 0 <= i < |data| && data[i] == (c, Lookup(data, c).value);
    }
    forall c | c in Keys(data) ensures exists i :: 0 <= i < |table| && table[i].customerId == c {
      var i :| 0 <= i < |table| && CustomerIds(table)[i] == c;
    }
    forall c | exists i :: 0 <= i < |table| && table[i].customerId == c ensures c in Keys(data) {
      var i :| 0 <= i < |table| && table[i].customerId == c;
      assert CustomerIds(table)[i] == c;
    }
  }

  /** `get_all_customers($flush)`. */
  method GetAllCustomers(site: Site, flush: bool, queryFailed: bool) returns (r: Reply<Cached>)
    modifies site
    ensures (r, site.transients)
         == ReadThrough(old(site.transients), AllCustomersKey, flush || site.debug,
                        AllCustomersFresh(site, old(site.table)), queryFailed)
    ensures site.table == old(site.table) && site.nextId == old(site.nextId) && site.options == old(site.options)
    ensures site.productMeta == old(site.productMeta) && site.tableExists == old(site.tableExists)
  {
    var key := AllCustomersKey;
    if flush || site.debug {
      site.DeleteTransient(key);
    }
    if key in site.transients {
      return Found(site.transients[key]);
    }
    if queryFailed {
      return Failed(DbQueryError);
    }
    var query := CustomerIds(site.table);
    if query == [] {
      return NotFound;
    }
    var customers := Dedup(query);
    var data: seq<(nat, UserData)> := [];
    for i := 0 to |customers|
      invariant data == CustomerRecords(site, customers[..i])
    {
      data := data + [(customers[i], site.UserOf(customers[i]))];
    }
    assert customers[..|customers|] == customers;
    site.SetTransient(key, CustomerList(data));
    r := Found(CustomerList(data));
  }

  // ---------------------------------------------------------------------------
  // get_customers_for_product, get_products_for_customer

  /** `SELECT * FROM` the table `WHERE column = value`, in table order; None when no row matches. */
  function RowsFresh(table: seq<Relationship>, column: Column, value: nat): (r: Option<Cached>)
    ensures r.Some? ==> r.value.RowList?
    ensures r.Some? ==> forall x :: x in r.value.rows <==> x in table && ColumnValue(x, column) == value
    ensures r.Some? ==> Subsequence(r.value.rows, table)
  {
    FilterSubsequence(table, Matching(column, value));
    var rows := Filter(table, Matching(column, value));
    if rows == [] then None else Some(RowList(rows))
  }

  lemma {:induction false} FilterSubsequence(rows: seq<Relationship>, keep: Relationship -> bool)
    ensures Subsequence(Filter(rows, keep), rows)
  {
    if rows != [] {
      FilterSubsequence(rows[1..], keep);
      var rest := Filter(rows[1..], keep);
      if keep(rows[0]) {
        SubsequencePrependBoth(rest, rows[1..], rows[0]);
        assert [rows[0]] + rows[1..] == rows;
      } else {
        SubsequencePrepend(rest, rows[1..], rows[0]);
        assert [rows[0]] + rows[1..] == rows;
      }
    }
  }

  /** The query comes back empty exactly when no row carries the value. */
  lemma RowsFreshEmpty(table: seq<Relationship>, column: Column, value: nat)
    ensures RowsFresh(table, column, value).None?
        <==> forall i :: 0 <= i < |table| ==> ColumnValue(table[i], column) != value
  {
    if forall i :: 0 <= i < |table| ==> ColumnValue(table[i], column) != value {
      FilterNone(table, Matching(column, value));
    } else {
      var i :| 0 <= i < |table| && ColumnValue(table[i], column) == value;
      assert table[i] in Filter(table, Matching(column, value));
    }
  }

  /** `get_customers_for_product($product_id, $flush)`. */
  method GetCustomersForProduct(site: Site, productId: nat, flush: bool, queryFailed: bool) returns (r: Reply<Cached>)
    modifies site
    ensures !AcceptedProduct(site, productId) ==> r == Failed(InvalidProductId)
    ensures AcceptedProduct(site, productId) && !MaybeProductEnabled(site, productId) ==> r == Failed(ProductNotEnabled)
    ensures !(AcceptedProduct(site, productId) && MaybeProductEnabled(site, productId)) ==>
      site.transients == old(site.transients)
    ensures AcceptedProduct(site, productId) && MaybeProductEnabled(site, productId) ==>
      (r, site.transients)
        == ReadThrough(old(site.transients), ProductCustomersKey(productId), flush || site.debug,
                       RowsFresh(old(site.table), ProductIdColumn, productId), queryFailed)
    ensures site.table == old(site.table) && site.nextId == old(site.nextId) && site.options == old(site.options)
    ensures site.productMeta == old(site.productMeta) && site.tableExists == old(site.tableExists)
  {
    if productId == 0 || !site.IsProduct(productId) {
      return Failed(InvalidProductId);
    }
    if !MaybeProductEnabled(site, productId) {
      return Failed(ProductNotEnabled);
    }
    var key := ProductCustomersKey(productId);
    if flush || site.debug {
      site.DeleteTransient(key);
    }
    if key in site.transients {
      return Found(site.transients[key]);
    }
    if queryFailed {
      return Failed(DbQueryError);
    }
    var query := Filter(site.table, Matching(ProductIdColumn, productId));
    if query == [] {
      return NotFound;
    }
    site.SetTransient(key, RowList(query));
    r := Found(RowList(query));
  }

  /** `get_products_for_customer($customer_id, $flush)`. */
  method GetProductsForCustomer(site: Site, customerId: nat, flush: bool, queryFailed: bool) returns (r: Reply<Cached>)
    modifies site
    ensures customerId == 0 ==> r == Failed(MissingCustomerId) && site.transients == old(site.transients)
    ensures customerId != 0 ==>
      (r, site.transients)
        == ReadThrough(old(site.transients), CustomerProductsKey(customerId), flush || site.debug,
                       RowsFresh(old(site.table), CustomerIdColumn, customerId), queryFailed)
    ensures site.table == old(site.table) && site.nextId == old(site.nextId) && site.options == old(site.options)
    ensures site.productMeta == old(site.productMeta) && site.tableExists == old(site.tableExists)
  {
    if customerId == 0 {
      return Failed(MissingCustomerId);
    }
    var key := CustomerProductsKey(customerId);
    if flush || site.debug {
      site.DeleteTransient(key);
    }
    if key in site.transients {
      return Found(site.transients[key]);
    }
    if queryFailed {
      return Failed(DbQueryError);
    }
    var query := Filter(site.table, Matching(CustomerIdColumn, customerId));
    if query == [] {
      return NotFound;
    }
    site.SetTransient(key, RowList(query));
    r := Found(RowList(query));
  }

  /**
   * `delete_by_customer` removes both the customer's rows and their cached
   * list, so the next read of that list finds nothing, flushed or not.
   */
  lemma ReadAfterDeleteByCustomer(table: seq<Relationship>, cache: Cache, customerId: nat, flush: bool)
    requires customerId != 0
    ensures ReadThrough(cache - {CustomerProductsKey(customerId)}, CustomerProductsKey(customerId), flush,
                        RowsFresh(Filter(table, NotMatching(CustomerIdColumn, customerId)), CustomerIdColumn, customerId),
                        false).0 == NotFound
  {
    var rest := Filter(table, NotMatching(CustomerIdColumn, customerId));
    forall i | 0 <= i < |rest| ensures ColumnValue(rest[i], CustomerIdColumn) != customerId {
      assert rest[i] in rest;
    }
    RowsFreshEmpty(rest, CustomerIdColumn, customerId);
  }

  // ---------------------------------------------------------------------------
  // get_data_by_relationship

  /** `$wpdb->get_row(... WHERE relationship_id = id)`: the first row with that ID. */
  function FindRelationship(table: seq<Relationship>, id: nat): (found: Option<Relationship>)
    ensures found.Some? ==> found.value in table && found.value.relationshipId == id
    ensures found.None? <==> forall i :: 0 <= i < |table| ==> table[i].relationshipId != id
  {
    if table == [] then None
    else if table[0].relationshipId == id then Some(table[0])
    else FindRelationship(table[1..], id)
  }

  /** The array `get_data_by_relationship` assembles from a row. */
  function EntryOf(site: Site, row: Relationship): (e: RelationshipData)
    ensures e.customerId == row.customerId && e.productId == row.productId
    ensures e.customer == site.UserOf(row.customerId) && e.product == site.PostOf(row.productId)
  {
    RelationshipData(row.customerId, row.productId, site.UserOf(row.customerId), site.PostOf(row.productId), row.signupDate)
  }

  function RelationshipFresh(site: Site, table: seq<Relationship>, id: nat): Option<Cached> {
    match FindRelationship(table, id)
    case None => None
    case Some(row) => Some(RelationshipEntry(EntryOf(site, row)))
  }

  /**
   * The whole of `get_data_by_relationship($relationship_id)`. Its `$flush`
   * is never defined, so only `WP_DEBUG` bypasses the cache.
   */
  function RelationshipRead(site: Site, table: seq<Relationship>, cache: Cache, id: nat, queryFailed: bool)
    : (out: (Reply<Cached>, Cache))
    ensures id == 0 ==> out == (Failed(MissingRelationshipId), cache)
    ensures id != 0 && !site.debug && RelationshipKey(id) in cache ==> out == (Found(cache[RelationshipKey(id)]), cache)
  {
    if id == 0 then (Failed(MissingRelationshipId), cache)
    else ReadThrough(cache, RelationshipKey(id), site.debug, RelationshipFresh(site, table, id), queryFailed)
  }

  /** `get_data_by_relationship($relationship_id)`. */
  method GetDataByRelationship(site: Site, relationshipId: nat, queryFailed: bool) returns (r: Reply<Cached>)
    modifies site
    ensures (r, site.transients) == RelationshipRead(site, old(site.table), old(site.transients), relationshipId, queryFailed)
    ensures site.table == old(site.table) && site.nextId == old(site.nextId) && site.options == old(site.options)
    ensures site.productMeta == old(site.productMeta) && site.tableExists == old(site.tableExists)
  {
    if relationshipId == 0 {
      return Failed(MissingRelationshipId);
    }
    var key := RelationshipKey(relationshipId);
    if site.debug {
      site.DeleteTransient(key);
    }
    if key in site.transients {
      return Found(site.transients[key]);
    }
    if queryFailed {
      return Failed(DbQueryError);
    }
    var query := FindRelationship(site.table, relationshipId);
    if query.None? {
      return NotFound;
    }
    var relationship := RelationshipEntry(EntryOf(site, query.value));
    site.SetTransient(key, relationship);
    r := Found(relationship);
  }

  /** A relationship found on a cold cache describes the row with that ID. */
  lemma RelationshipReadDescribesRow(site: Site, table: seq<Relationship>, cache: Cache, id: nat)
    requires id != 0 && RelationshipKey(id) !in cache
    requires exists i :: 0 <= i < |table| && table[i].relationshipId == id
    ensures var out := RelationshipRead(site, table, cache, id, false);
      && out.0.Found? && out.0.value.RelationshipEntry?
      && exists row :: row in table && row.relationshipId == id && out.0.value.data == EntryOf(site, row)
  {
    var row := FindRelationship(table, id).value;
    assert row in table;
  }

  /** After `delete_by_relationship`, a read of that relationship finds nothing. */
  lemma ReadAfterDeleteByRelationship(site: Site, table: seq<Relationship>, cache: Cache, id: nat)
    requires id != 0
    ensures RelationshipRead(site, Filter(table, NotMatching(RelationshipIdColumn, id)),
                             cache - {RelationshipKey(id)}, id, false).0 == NotFound
  {
    var rest := Filter(table, NotMatching(RelationshipIdColumn, id));
    forall i | 0 <= i < |rest| ensures rest[i].relationshipId != id {
      assert rest[i] in rest;
    }
  }

  // ---------------------------------------------------------------------------
  // get_all_subscription_data

  /** `SELECT relationship_id FROM` the table, through `absint`. */
  function RelationshipIds(table: seq<Relationship>): (ids: seq<nat>)
    ensures |ids| == |table| && forall i :: 0 <= i < |table| ==> ids[i] == table[i].relationshipId
  {
    seq(|table|, i requires 0 <= i < |table| => table[i].relationshipId)
  }

  /**
   * The loop `$relationships[$id] = get_data_by_relationship($id)` over `ids`,
   * threading the transients through the reads.
   */
  function AllSubscriptionData(site: Site, table: seq<Relationship>, cache: Cache, ids: seq<nat>, queryFailed: bool)
    : (out: (seq<(nat, Reply<Cached>)>, Cache))
    ensures Keys(out.0) == ids
    decreases |ids|
  {
    if ids == [] then ([], cache)
    else
      var prev := AllSubscriptionData(site, table, cache, ids[..|ids| - 1], queryFailed);
      var id := ids[|ids| - 1];
      var step := RelationshipRead(site, table, prev.1, id, queryFailed);
      assert Keys(prev.0 + [(id, step.0)]) == Keys(prev.0) + [id];
      (prev.0 + [(id, step.0)], step.1)
  }

  /** Relationship IDs are a primary key, so the result is a PHP array with one entry per row. */
  lemma RelationshipIdsDistinct(table: seq<Relationship>)
    requires IdsIncreasing(table)
    ensures forall i, j :: 0 <= i < j < |table| ==> RelationshipIds(table)[i] != RelationshipIds(table)[j]
  {
  }

  /**
   * `get_all_subscription_data()`. `queryFailed` is the outcome of the ID
   * query, `rowQueriesFailed` that of each relationship's own query.
   */
  method GetAllSubscriptionData(site: Site, queryFailed: bool, rowQueriesFailed: bool)
    returns (r: Reply<seq<(nat, Reply<Cached>)>>)
    requires site.Valid()
    modifies site
    ensures queryFailed ==> r == Failed(DbQueryError) && site.transients == old(site.transients)
    ensures !queryFailed && old(site.table) == [] ==> r == NotFound && site.transients == old(site.transients)
    ensures !queryFailed && old(site.table) != [] ==>
      && r.Found?
      && (r.value, site.transients)
         == AllSubscriptionData(site, old(site.table), old(site.transients), RelationshipIds(old(site.table)), rowQueriesFailed)
    ensures r.Found? ==> DistinctKeys(r.value) && Keys(r.value) == RelationshipIds(old(site.table))
    ensures site.Valid()
    ensures site.table == old(site.table) && site.nextId == old(site.nextId) && site.options == old(site.options)
    ensures site.productMeta == old(site.productMeta) && site.tableExists == old(site.tableExists)
  {
    if queryFailed {
      return Failed(DbQueryError);
    }
    var query := RelationshipIds(site.table);
    if query == [] {
      return NotFound;
    }
    var relationships: seq<(nat, Reply<Cached>)> := [];
    for i := 0 to |query|
      invariant (relationships, site.transients)
             == AllSubscriptionData(site, old(site.table), old(site.transients), query[..i], rowQueriesFailed)
      invariant site.table == old(site.table) && site.nextId == old(site.nextId) && site.options == old(site.options)
      invariant site.productMeta == old(site.productMeta) && site.tableExists == old(site.tableExists)
    {
      var data := GetDataByRelationship(site, query[i], rowQueriesFailed);
      assert query[..i + 1][..i] == query[..i];
      relationships := relationships + [(query[i], data)];
    }
    assert query[..|query|] == query;
    RelationshipIdsDistinct(site.table);
    r := Found(relationships);
  }
}
