/**
 * The WordPress state the plugin reads and writes, held in memory: the rows
 * of the plugin's custom table `wc_product_interest`, the transient cache,
 * the options table, and the `postmeta` rows carrying the product enable
 * flag. What the plugin only asks WordPress about (`get_post_type`,
 * `get_userdata`, `get_post`, `WP_DEBUG`) is fixed when the site is created.
 */
module WordPress {
  import opened Php

  /** A row of `wc_product_interest`: one customer's signup for one product. */
  datatype Relationship = Relationship(relationshipId: nat, productId: nat, customerId: nat, signupDate: string)

  /** `(array) get_userdata($id)->data`; an unknown user gives the empty array. */
  type UserData = map<string, string>

  /** `(array) get_post($id)`. */
  type PostData = map<string, string>

  /** What `get_data_by_relationship` assembles for one row. */
  datatype RelationshipData = RelationshipData(
    customerId: nat, productId: nat, customer: UserData, product: PostData, signup: string)

  /** The values the plugin stores in transients. */
  datatype Cached =
    | IdList(ids: seq<nat>)
    | CustomerList(customers: seq<(nat, UserData)>)
    | RowList(rows: seq<Relationship>)
    | RelationshipEntry(data: RelationshipData)

  /** The values the plugin stores in options. */
  datatype OptionValue = Text(text: string) | IdsOption(ids: seq<nat>)

  /** The columns the plugin deletes by. */
  datatype Column = RelationshipIdColumn | ProductIdColumn | CustomerIdColumn

  function ColumnValue(r: Relationship, c: Column): nat {
    match c
    case RelationshipIdColumn => r.relationshipId
    case ProductIdColumn => r.productId
    case CustomerIdColumn => r.customerId
  }

  /** `WHERE column != value`, as a row test. */
  function NotMatching(column: Column, value: nat): Relationship -> bool {
    (r: Relationship) => ColumnValue(r, column) != value
  }

  /** `WHERE column = value`, as a row test. */
  function Matching(column: Column, value: nat): Relationship -> bool {
    (r: Relationship) => ColumnValue(r, column) == value
  }

  /** The rows of `rows` that satisfy `keep`, in their order. */
  function Filter(rows: seq<Relationship>, keep: Relationship -> bool): (r: seq<Relationship>)
    ensures |r| <= |rows|
    ensures forall x :: x in r <==> x in rows && keep(x)
  {
    if rows == [] then []
    else if keep(rows[0]) then [rows[0]] + Filter(rows[1..], keep)
    else Filter(rows[1..], keep)
  }

  lemma {:induction false} FilterNone(rows: seq<Relationship>, keep: Relationship -> bool)
    requires forall i :: 0 <= i < |rows| ==> !keep(rows[i])
    ensures Filter(rows, keep) == []
  {
    if rows != [] {
      FilterNone(rows[1..], keep);
    }
  }

  /** Relationship IDs strictly increase along the table: the primary key, in key order. */
  predicate IdsIncreasing(rows: seq<Relationship>) {
    forall i, j :: 0 <= i < j < |rows| ==> rows[i].relationshipId < rows[j].relationshipId
  }

  lemma {:induction false} FilterKeepsIdsIncreasing(rows: seq<Relationship>, keep: Relationship -> bool)
    requires IdsIncreasing(rows)
    ensures IdsIncreasing(Filter(rows, keep))
  {
    if rows != [] {
      FilterKeepsIdsIncreasing(rows[1..], keep);
      var rest := Filter(rows[1..], keep);
      forall x | x in rest ensures rows[0].relationshipId < x.relationshipId {
        var k :| 0 <= k < |rows[1..]| && rows[1..][k] == x;
        assert rows[k + 1] == x;
      }
    }
  }

  class Site {
    /** `wc_product_interest`, in primary-key order. */
    var table: seq<Relationship>
    /** The table's AUTO_INCREMENT counter: the next relationship ID. */
    var nextId: nat
    /** Whether `SHOW TABLES` finds the table. */
    var tableExists: bool
    var transients: map<string, Cached>
    var options: map<string, OptionValue>
    /** `postmeta` values under the key `_product_interest_enabled`, by post ID, in insertion order. */
    var productMeta: OMap<nat, string>

    /** `get_post_type($id)`; an ID that is not a post has no entry. */
    const postTypes: map<nat, string>
    const users: map<nat, UserData>
    const posts: map<nat, PostData>
    /** `WP_DEBUG`. */
    const debug: bool

    ghost predicate Valid()
      reads this
    {
      && nextId >= 1
      && IdsIncreasing(table)
      && forall i :: 0 <= i < |table| ==> 1 <= table[i].relationshipId < nextId
    }

    constructor (table: seq<Relationship>, nextId: nat, tableExists: bool,
                 transients: map<string, Cached>, options: map<string, OptionValue>,
                 productMeta: OMap<nat, string>, postTypes: map<nat, string>,
                 users: map<nat, UserData>, posts: map<nat, PostData>, debug: bool)
      requires nextId >= 1 && IdsIncreasing(table)
      requires forall i :: 0 <= i < |table| ==> 1 <= table[i].relationshipId < nextId
      ensures Valid()
      ensures this.table == table && this.nextId == nextId && this.tableExists == tableExists
      ensures this.transients == transients && this.options == options
      ensures this.productMeta == productMeta && this.postTypes == postTypes
      ensures this.users == users && this.posts == posts && this.debug == debug
    {
      this.table := table;
      this.nextId := nextId;
      this.tableExists := tableExists;
      this.transients := transients;
      this.options := options;
      this.productMeta := productMeta;
      this.postTypes := postTypes;
      this.users := users;
      this.posts := posts;
      this.debug := debug;
    }

    /** `'product' === get_post_type($id)`. */
    predicate IsProduct(id: nat) {
      id in postTypes && postTypes[id] == "product"
    }

    /** `get_userdata($id)->data`, as an array. */
    function UserOf(id: nat): UserData {
      if id in users then users[id] else map[]
    }

    /** `get_post($id)`, as an array. */
    function PostOf(id: nat): PostData {
      if id in posts then posts[id] else map[]
    }

    /** `get_post_meta($id, '_product_interest_enabled', true)`: the first value, "" when there is none. */
    function MetaValue(id: nat): string
      reads this
    {
      match Lookup(productMeta, id)
      case Some(v) => v
      case None => ""
    }

    /** `get_option($key)`. */
    function GetOption(key: string): Option<OptionValue>
      reads this
    {
      if key in options then Some(options[key]) else None
    }

    /** `$wpdb->insert`: a new row under the next AUTO_INCREMENT ID. */
    method InsertRow(productId: nat, customerId: nat, signup: string) returns (id: nat)
      requires Valid()
      modifies this
      ensures Valid()
      ensures id == old(nextId) && nextId == old(nextId) + 1
      ensures table == old(table) + [Relationship(id, productId, customerId, signup)]
      ensures transients == old(transients) && options == old(options)
      ensures productMeta == old(productMeta) && tableExists == old(tableExists)
    {
      id := nextId;
      table := table + [Relationship(id, productId, customerId, signup)];
      nextId := nextId + 1;
    }

    /** `$wpdb->delete($table, array($column => $value))`. */
    method DeleteRows(column: Column, value: nat)
      requires Valid()
      modifies this
      ensures Valid()
      ensures table == Filter(old(table), NotMatching(column, value))
      ensures nextId == old(nextId) && transients == old(transients) && options == old(options)
      ensures productMeta == old(productMeta) && tableExists == old(tableExists)
    {
      FilterKeepsIdsIncreasing(table, NotMatching(column, value));
      table := Filter(table, NotMatching(column, value));
      forall i | 0 <= i < |table| ensures 1 <= table[i].relationshipId < nextId {
        assert table[i] in old(table);
      }
    }

    method DeleteTransient(key: string)
      modifies this
      ensures transients == old(transients) - {key}
      ensures table == old(table) && nextId == old(nextId) && options == old(options)
      ensures productMeta == old(productMeta) && tableExists == old(tableExists)
    {
      transients := transients - {key};
    }

    method SetTransient(key: string, value: Cached)
      modifies this
      ensures transients == old(transients)[key := value]
      ensures table == old(table) && nextId == old(nextId) && options == old(options)
      ensures productMeta == old(productMeta) && tableExists == old(tableExists)
    {
      transients := transients[key := value];
    }

    method UpdateOption(key: string, value: OptionValue)
      modifies this
      ensures options == old(options)[key := value]
      ensures table == old(table) && nextId == old(nextId) && transients == old(transients)
      ensures productMeta == old(productMeta) && tableExists == old(tableExists)
    {
      options := options[key := value];
    }

    method DeleteOption(key: string)
      modifies this
      ensures options == old(options) - {key}
      ensures table == old(table) && nextId == old(nextId) && transients == old(transients)
      ensures productMeta == old(productMeta) && tableExists == old(tableExists)
    {
      options := options - {key};
    }

    /** `dbDelta` of the table's CREATE statement. */
    method CreateTable()
      modifies this
      ensures tableExists
      ensures table == old(table) && nextId == old(nextId) && transients == old(transients)
      ensures options == old(options) && productMeta == old(productMeta)
    {
      tableExists := true;
    }

    /**
     * `update_post_meta($id, '_product_interest_enabled', true)`: the post's
     * value becomes "1" (how `true` is stored); a post without one gets a new row.
     */
    method EnableProductMeta(id: nat)
      modifies this
      ensures productMeta == Put(old(productMeta), id, "1")
      ensures table == old(table) && nextId == old(nextId) && transients == old(transients)
      ensures options == old(options) && tableExists == old(tableExists)
    {
      productMeta := Put(productMeta, id, "1");
    }

    /** `delete_post_meta($id, '_product_interest_enabled')`. */
    method DeleteProductMeta(id: nat)
      modifies this
      ensures productMeta == Unset(old(productMeta), id)
      ensures table == old(table) && nextId == old(nextId) && transients == old(transients)
      ensures options == old(options) && tableExists == old(tableExists)
    {
      productMeta := Unset(productMeta, id);
    }
  }

}
