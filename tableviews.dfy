/**
 * The admin list of signups (`includes/table-views.php`, the class
 * `ProductInterestSignups_Table`): the rows are optionally filtered by
 * product and customer, sorted in place with `usort` and `sort_data`, and
 * cut into pages of ten; a bulk action posted with the list unsubscribes or
 * exports the checked relationships.
 */
module TableViews {
  import opened Php
  import opened WordPress
  import opened Helpers
  import opened Database
  import opened Queries

  /** A row of the list as `table_data` builds it: column name to its text, IDs in decimal. */
  type Row = map<string, string>

  /** `$row[$column]`; a missing column reads as "" (null). */
  function Cell(row: Row, column: string): string {
    if column in row then row[column] else ""
  }

  /** What one page load of the list posts and asks for. */
  datatype ListRequest = ListRequest(
    filterSubmitted: bool,    // `wc-product-interest-filter-submit` is non-empty
    page: string,             // `$_GET['page']`
    nonceValid: bool,         // `wc_product_interest_nonce_name` is present and verifies
    productFilter: string,    // `wc-product-interest-product-filter`
    customerFilter: string,   // `wc-product-interest-customer-filter`
    orderby: string,          // `$_GET['orderby']`
    order: string,            // `$_GET['order']`
    paged: nat,               // `absint($_REQUEST['paged'])`
    action: string,           // `current_action()`, "" for false
    postedIds: seq<string>,   // `wc_product_interest_ids`
    postedCustomerIds: seq<string>,
    postedProductIds: seq<string>,
    exportNonce: string)      // `wp_create_nonce('wc_product_interest_export')`

  // ---------------------------------------------------------------------------
  // filter_dataset_by_id

  /** The rows whose `absint($row[$column])` is `id`, in order. */
  function RowsWithId(rows: seq<Row>, id: nat, column: string): (kept: seq<Row>)
    ensures |kept| <= |rows|
    ensures forall r :: r in kept <==> r in rows && AbsInt(Cell(r, column)) == id
    decreases |rows|
  {
    if rows == [] then []
    else
      var last := rows[|rows| - 1];
      var init := RowsWithId(rows[..|rows| - 1], id, column);
      assert rows == rows[..|rows| - 1] + [last];
      if AbsInt(Cell(last, column)) == id then init + [last] else init
  }

  lemma {:induction false} RowsWithIdSubsequence(rows: seq<Row>, id: nat, column: string)
    ensures Subsequence(RowsWithId(rows, id, column), rows)
    decreases |rows|
  {
    if rows != [] {
      var init := rows[..|rows| - 1];
      var last := rows[|rows| - 1];
      RowsWithIdSubsequence(init, id, column);
      assert rows == init + [last];
      if AbsInt(Cell(last, column)) == id {
        SubsequenceExtendBoth(RowsWithId(init, id, column), init, last);
      } else {
        SubsequenceExtend(RowsWithId(init, id, column), init, last);
      }
    }
  }

  /**
   * `filter_dataset_by_id($dataset, $id, $type)`: None is the null it
   * returns for an empty (or null) dataset, an ID of 0 or an empty type.
   */
  function FilterById(dataset: Option<seq<Row>>, id: nat, column: string): (r: Option<seq<Row>>)
    ensures r.None? <==> dataset.None? || dataset.value == [] || id == 0 || EmptyString(column)
    ensures r.Some? ==> forall x :: x in r.value <==> x in dataset.value && AbsInt(Cell(x, column)) == id
  {
    if dataset.None? || dataset.value == [] || id == 0 || EmptyString(column) then None
    else Some(RowsWithId(dataset.value, id, column))
  }

  /**
   * The filter keeps exactly the rows carrying the ID, in their order; it
   * gives null only for the inputs it bails on.
   */
  lemma FilterByIdKeepsMatches(dataset: Option<seq<Row>>, id: nat, column: string)
    ensures FilterById(dataset, id, column).None?
        <==> dataset.None? || dataset.value == [] || id == 0 || EmptyString(column)
    ensures FilterById(dataset, id, column).Some? ==>
      && Subsequence(FilterById(dataset, id, column).value, dataset.value)
      && forall r :: r in FilterById(dataset, id, column).value <==> r in dataset.value && AbsInt(Cell(r, column)) == id
  {
    if dataset.Some? {
      RowsWithIdSubsequence(dataset.value, id, column);
    }
  }

  // ---------------------------------------------------------------------------
  // maybe_filter_dataset

  /** What `maybe_filter_dataset` does: give a dataset (None for null) or redirect. */
  datatype FilterOutcome = Filtered(dataset: Option<seq<Row>>) | FilterRedirect(target: Option<Args>)

  const BadNonceArgs: Args := [("success", IntArg(0)), ("errcode", StrArg("bad_nonce"))]
  const NoIdsArgs: Args := [("success", IntArg(0)), ("errcode", StrArg("no_ids"))]
  const UnknownArgs: Args := [("success", IntArg(0)), ("errcode", StrArg("unknown"))]

  /** The request is for this list page: `$_GET['page']` is `MENU_SLUG`. */
  predicate OnListPage(req: ListRequest) {
    !EmptyString(req.page) && req.page == MenuSlug
  }

  function MaybeFilter(dataset: seq<Row>, req: ListRequest, site: Site): (out: FilterOutcome)
    ensures !req.filterSubmitted || !OnListPage(req) ==> out == Filtered(Some(dataset))
    ensures req.filterSubmitted && OnListPage(req) && !req.nonceValid ==> out == FilterRedirect(AdminPageRedirect(BadNonceArgs, true))
  {
    if !req.filterSubmitted || !OnListPage(req) then Filtered(Some(dataset))
    else if !req.nonceValid then FilterRedirect(AdminPageRedirect(BadNonceArgs, true))
    else
      var byProduct := ByProduct(dataset, req, site);
      var byCustomer :=
        if !EmptyString(req.customerFilter)
        then FilterById(byProduct, AbsInt(req.customerFilter), "customer_id")
        else byProduct;
      Filtered(byCustomer)
  }

  /** The dataset after the product filter step of `maybe_filter_dataset`. */
  function ByProduct(dataset: seq<Row>, req: ListRequest, site: Site): Option<seq<Row>>
  {
    if ProductFilterApplies(req, site)
    then FilterById(Some(dataset), AbsInt(req.productFilter), "product_id")
    else Some(dataset)
  }

  /** Whatever the request, filtering leaves a subsequence of the rows (or null). */
  lemma MaybeFilterSubsequence(dataset: seq<Row>, req: ListRequest, site: Site)
    ensures var out := MaybeFilter(dataset, req, site);
      out.Filtered? && out.dataset.Some? ==> Subsequence(out.dataset.value, dataset)
  {
    SubsequenceReflexive(dataset);
    if req.filterSubmitted && OnListPage(req) && req.nonceValid {
      var byProduct := ByProduct(dataset, req, site);
      FilterByIdKeepsMatches(Some(dataset), AbsInt(req.productFilter), "product_id");
      if !EmptyString(req.customerFilter) {
        FilterByIdKeepsMatches(byProduct, AbsInt(req.customerFilter), "customer_id");
        var byCustomer := FilterById(byProduct, AbsInt(req.customerFilter), "customer_id");
        if byCustomer.Some? {
          SubsequenceTransitive(byCustomer.value, byProduct.value, dataset);
        }
      }
    }
  }

  /** The product filter runs: a non-empty ID that is a `product` post. */
  predicate ProductFilterApplies(req: ListRequest, site: Site)
  {
    !EmptyString(req.productFilter) && site.IsProduct(AbsInt(req.productFilter))
  }

  /** No row of `rows` carries `id` in `column`. */
  predicate NoneWithId(rows: seq<Row>, id: nat, column: string) {
    forall r :: r in rows ==> AbsInt(Cell(r, column)) != id
  }

  /**
   * The product step gives null exactly for an empty dataset or ID 0 when it
   * applies; otherwise the rows matching it, none exactly when no row does.
   */
  lemma ByProductSpec(dataset: seq<Row>, req: ListRequest, site: Site)
    ensures var p := AbsInt(req.productFilter);
      var out := ByProduct(dataset, req, site);
      && (out.None? <==> ProductFilterApplies(req, site) && (dataset == [] || p == 0))
      && (out.Some? ==>
            && (forall r :: r in out.value <==>
                  r in dataset && (ProductFilterApplies(req, site) ==> AbsInt(Cell(r, "product_id")) == p))
            && (out.value == [] <==> dataset == [] || (ProductFilterApplies(req, site) && NoneWithId(dataset, p, "product_id"))))
  {
    var p := AbsInt(req.productFilter);
    var out := ByProduct(dataset, req, site);
    if !ProductFilterApplies(req, site) {
      assert out == Some(dataset);
      if dataset != [] {
        assert dataset[0] in out.value;
      }
    } else if dataset == [] || p == 0 {
      assert out.None?;
    } else {
      var kept := RowsWithId(dataset, p, "product_id");
      assert out == Some(kept);
      if kept == [] {
        forall r | r in dataset
          ensures AbsInt(Cell(r, "product_id")) != p
        {
          assert r !in kept;
        }
      } else {
        assert kept[0] in kept;
      }
    }
  }

  /**
   * A valid filter request gives null exactly when one of the filters bails
   * (an empty dataset, an ID of 0, or a customer filter after a product
   * filter that left no rows); otherwise it keeps exactly the rows that
   * match every filter set.
   */
  lemma MaybeFilterValid(dataset: seq<Row>, req: ListRequest, site: Site)
    requires req.filterSubmitted && OnListPage(req) && req.nonceValid
    ensures var out := MaybeFilter(dataset, req, site);
      var p, c := AbsInt(req.productFilter), AbsInt(req.customerFilter);
      && out.Filtered?
      && (out.dataset.None? <==>
            || (ProductFilterApplies(req, site) && (dataset == [] || p == 0))
            || (!EmptyString(req.customerFilter)
                && (c == 0 || dataset == [] || (ProductFilterApplies(req, site) && NoneWithId(dataset, p, "product_id")))))
      && (out.dataset.Some? ==>
            forall r :: r in out.dataset.value <==>
              && r in dataset
              && (ProductFilterApplies(req, site) ==> AbsInt(Cell(r, "product_id")) == p)
              && (!EmptyString(req.customerFilter) ==> AbsInt(Cell(r, "customer_id")) == c))
  {
    ByProductSpec(dataset, req, site);
  }

  /** The product filter applies only to an ID that is a `product` post. */
  lemma ProductFilterNeedsProduct(dataset: seq<Row>, req: ListRequest, site: Site)
    requires req.filterSubmitted && OnListPage(req) && req.nonceValid
    requires !site.IsProduct(AbsInt(req.productFilter)) && EmptyString(req.customerFilter)
    ensures MaybeFilter(dataset, req, site) == Filtered(Some(dataset))
  {
  }

  // ---------------------------------------------------------------------------
  // sort_data

  /** The column `sort_data` compares: `$_GET['orderby']`, or `signup_date` when it is empty. */
  function SortColumn(orderby: string): string {
    if EmptyString(orderby) then "signup_date" else orderby
  }

  /** `sort_data($a, $b)`: `strcmp` on the chosen column, negated unless the order is exactly `asc`. */
  function SortCompare(a: Row, b: Row, orderby: string, order: string): (r: int)
    ensures -1 <= r <= 1
    ensures r == 0 <==> Cell(a, SortColumn(orderby)) == Cell(b, SortColumn(orderby))
  {
    var direction := if EmptyString(order) then "asc" else order;
    var result := StrCmp(Cell(a, SortColumn(orderby)), Cell(b, SortColumn(orderby)));
    if "asc" == direction then result else -result
  }

  /** `a` may stay before `b`: `usort` only moves a pair the comparator ranks above zero. */
  predicate InOrder(a: Row, b: Row, orderby: string, order: string) {
    SortCompare(a, b, orderby, order) <= 0
  }

  predicate SortedBy(s: seq<Row>, orderby: string, order: string) {
    forall k, l :: 0 <= k < l < |s| ==> InOrder(s[k], s[l], orderby, order)
  }

  /** Any two rows are ordered one way or the other. */
  lemma SortCompareTotal(a: Row, b: Row, orderby: string, order: string)
    ensures InOrder(a, b, orderby, order) || InOrder(b, a, orderby, order)
    ensures SortCompare(a, b, orderby, order) > 0 ==> InOrder(b, a, orderby, order)
  {
    StrCmpAntisymmetric(Cell(a, SortColumn(orderby)), Cell(b, SortColumn(orderby)));
  }

  /** Two rows ordered both ways carry the same sort key. */
  lemma SortCompareAntisymmetric(a: Row, b: Row, orderby: string, order: string)
    requires InOrder(a, b, orderby, order) && InOrder(b, a, orderby, order)
    ensures Cell(a, SortColumn(orderby)) == Cell(b, SortColumn(orderby))
  {
    StrCmpAntisymmetric(Cell(a, SortColumn(orderby)), Cell(b, SortColumn(orderby)));
  }

  lemma SortCompareTransitive(a: Row, b: Row, c: Row, orderby: string, order: string)
    requires InOrder(a, b, orderby, order) && InOrder(b, c, orderby, order)
    ensures InOrder(a, c, orderby, order)
  {
    var direction := if EmptyString(order) then "asc" else order;
    var ka, kb, kc := Cell(a, SortColumn(orderby)), Cell(b, SortColumn(orderby)), Cell(c, SortColumn(orderby));
    if "asc" == direction {
      StrCmpTransitive(ka, kb, kc);
    } else {
      StrCmpAntisymmetric(ka, kb);
      StrCmpAntisymmetric(kb, kc);
      StrCmpAntisymmetric(ka, kc);
      StrCmpTransitive(kc, kb, ka);
    }
  }

  /** With no `orderby` and no `order`, rows come by ascending signup date. */
  lemma DefaultOrderIsSignupAscending(s: seq<Row>)
    requires SortedBy(s, "", "")
    ensures forall k, l :: 0 <= k < l < |s| ==> StrCmp(Cell(s[k], "signup_date"), Cell(s[l], "signup_date")) <= 0
  {
  }

  /** Any order other than `asc` is descending. */
  lemma OtherOrderIsDescending(s: seq<Row>, orderby: string, order: string)
    requires !EmptyString(orderby) && !EmptyString(order) && order != "asc"
    requires SortedBy(s, orderby, order)
    ensures forall k, l :: 0 <= k < l < |s| ==> StrCmp(Cell(s[l], orderby), Cell(s[k], orderby)) <= 0
  {
    forall k, l | 0 <= k < l < |s| ensures StrCmp(Cell(s[l], orderby), Cell(s[k], orderby)) <= 0 {
      assert InOrder(s[k], s[l], orderby, order);
      StrCmpAntisymmetric(Cell(s[k], orderby), Cell(s[l], orderby));
    }
  }

  /**
   * One insertion step: `x` is placed after the sorted rows `s`, then moves
   * left past every row the comparator ranks above it, and no further.
   */
  function InsertRow(s: seq<Row>, x: Row, orderby: string, order: string): (r: seq<Row>)
    ensures |r| == |s| + 1
    decreases |s|
  {
    if s == [] then [x]
    else if SortCompare(s[|s| - 1], x, orderby, order) > 0
    then InsertRow(s[..|s| - 1], x, orderby, order) + [s[|s| - 1]]
    else s + [x]
  }

  /**
   * The order `usort($rows, 'sort_data')` leaves. The sort of PHP 8 is
   * stable, so its result is the stable sort of the rows, which insertion
   * gives (StableSortUnique shows there is only one).
   */
  function StableSort(s: seq<Row>, orderby: string, order: string): (r: seq<Row>)
    ensures |r| == |s|
    decreases |s|
  {
    if s == [] then [] else InsertRow(StableSort(s[..|s| - 1], orderby, order), s[|s| - 1], orderby, order)
  }

  /** The rows whose sort column holds `key`, in their order. */
  function WithKey(s: seq<Row>, column: string, key: string): seq<Row>
    decreases |s|
  {
    if s == [] then []
    else WithKey(s[..|s| - 1], column, key) + (if Cell(s[|s| - 1], column) == key then [s[|s| - 1]] else [])
  }

  lemma {:induction false} WithKeyAppend(a: seq<Row>, b: seq<Row>, column: string, key: string)
    ensures WithKey(a + b, column, key) == WithKey(a, column, key) + WithKey(b, column, key)
    decreases |b|
  {
    if b == [] {
      assert a + b == a;
    } else {
      var init, last := b[..|b| - 1], b[|b| - 1];
      var tail := if Cell(last, column) == key then [last] else [];
      WithKeyAppend(a, init, column, key);
      assert (a + b)[..|a + b| - 1] == a + init && (a + b)[|a + b| - 1] == last;
      assert WithKey(a + b, column, key) == WithKey(a + init, column, key) + tail;
      assert WithKey(b, column, key) == WithKey(init, column, key) + tail;
    }
  }

  lemma {:induction false} WithKeyMembers(s: seq<Row>, column: string, key: string)
    ensures forall r :: r in WithKey(s, column, key) <==> r in s && Cell(r, column) == key
    decreases |s|
  {
    if s != [] {
      WithKeyMembers(s[..|s| - 1], column, key);
      assert s == s[..|s| - 1] + [s[|s| - 1]];
    }
  }

  lemma {:induction false} InsertRowMultiset(s: seq<Row>, x: Row, orderby: string, order: string)
    ensures multiset(InsertRow(s, x, orderby, order)) == multiset(s) + multiset{x}
    decreases |s|
  {
    if s != [] && SortCompare(s[|s| - 1], x, orderby, order) > 0 {
      InsertRowMultiset(s[..|s| - 1], x, orderby, order);
      assert s == s[..|s| - 1] + [s[|s| - 1]];
    }
  }

  /** Inserting a row keeps, for every key, the order of the rows carrying it, with the new row last. */
  lemma {:induction false} InsertRowWithKey(s: seq<Row>, x: Row, orderby: string, order: string, key: string)
    ensures WithKey(InsertRow(s, x, orderby, order), SortColumn(orderby), key) == WithKey(s + [x], SortColumn(orderby), key)
    decreases |s|
  {
    if s != [] && SortCompare(s[|s| - 1], x, orderby, order) > 0 {
      var init, last := s[..|s| - 1], s[|s| - 1];
      InsertRowWithKey(init, x, orderby, order, key);
      assert s == init + [last];
      assert InsertRow(s, x, orderby, order) == InsertRow(init, x, orderby, order) + [last];
      PassedRowWithKey(init, last, x, InsertRow(init, x, orderby, order), SortColumn(orderby), key);
    } else {
      assert InsertRow(s, x, orderby, order) == s + [x];
    }
  }

  /** Moving `x` in front of a row with another key leaves every key's rows as they were. */
  lemma PassedRowWithKey(init: seq<Row>, last: Row, x: Row, t: seq<Row>, column: string, key: string)
    requires Cell(last, column) != Cell(x, column)
    requires WithKey(t, column, key) == WithKey(init + [x], column, key)
    ensures WithKey(t + [last], column, key) == WithKey(init + [last] + [x], column, key)
  {
    calc {
      WithKey(t + [last], column, key);
      { WithKeyAppend(t, [last], column, key); }
      WithKey(t, column, key) + WithKey([last], column, key);
      { WithKeyAppend(init, [x], column, key); }
      WithKey(init, column, key) + WithKey([x], column, key) + WithKey([last], column, key);
      { SingletonsCommute(last, x, column, key); }
      WithKey(init, column, key) + WithKey([last], column, key) + WithKey([x], column, key);
      { WithKeyAppend(init, [last], column, key); }
      WithKey(init + [last], column, key) + WithKey([x], column, key);
      { WithKeyAppend(init + [last], [x], column, key); }
      WithKey(init + [last] + [x], column, key);
    }
  }

  /** Two rows with different keys can be listed in either order without changing any key's rows. */
  lemma SingletonsCommute(a: Row, b: Row, column: string, key: string)
    requires Cell(a, column) != Cell(b, column)
    ensures WithKey([a], column, key) + WithKey([b], column, key) == WithKey([b], column, key) + WithKey([a], column, key)
  {
    assert [a][..0] == [] && [b][..0] == [];
  }

  lemma SortedAppend(t: seq<Row>, y: Row, orderby: string, order: string)
    requires SortedBy(t, orderby, order)
    requires forall k :: 0 <= k < |t| ==> InOrder(t[k], y, orderby, order)
    ensures SortedBy(t + [y], orderby, order)
  {
  }

  lemma {:induction false} InsertRowSorted(s: seq<Row>, x: Row, orderby: string, order: string)
    requires SortedBy(s, orderby, order)
    ensures SortedBy(InsertRow(s, x, orderby, order), orderby, order)
    decreases |s|
  {
    if s != [] {
      var init, last := s[..|s| - 1], s[|s| - 1];
      if SortCompare(last, x, orderby, order) > 0 {
        assert s == init + [last];
        InsertRowSorted(init, x, orderby, order);
        InsertBeforeLastSorted(init, last, x, orderby, order);
      } else {
        forall k | 0 <= k < |s| ensures InOrder(s[k], x, orderby, order) {
          if k < |s| - 1 {
            SortCompareTransitive(s[k], last, x, orderby, order);
          }
        }
        SortedAppend(s, x, orderby, order);
      }
    }
  }

  /** The row passed by the insertion follows everything inserted before it. */
  lemma InsertBeforeLastSorted(init: seq<Row>, last: Row, x: Row, orderby: string, order: string)
    requires SortedBy(init + [last], orderby, order)
    requires SortedBy(InsertRow(init, x, orderby, order), orderby, order)
    requires SortCompare(last, x, orderby, order) > 0
    ensures SortedBy(InsertRow(init, x, orderby, order) + [last], orderby, order)
  {
    var t := InsertRow(init, x, orderby, order);
    InsertRowMultiset(init, x, orderby, order);
    SortCompareTotal(last, x, orderby, order);
    forall k | 0 <= k < |t| ensures InOrder(t[k], last, orderby, order) {
      assert t[k] in multiset(t);
      if t[k] != x {
        assert t[k] in init;
        var m :| 0 <= m < |init| && init[m] == t[k];
        assert (init + [last])[m] == t[k] && (init + [last])[|init|] == last;
      }
    }
    SortedAppend(t, last, orderby, order);
  }

  /** `usort` leaves the rows ordered by `sort_data`. */
  lemma {:induction false} StableSortSorted(s: seq<Row>, orderby: string, order: string)
    ensures SortedBy(StableSort(s, orderby, order), orderby, order)
    decreases |s|
  {
    if s != [] {
      StableSortSorted(s[..|s| - 1], orderby, order);
      InsertRowSorted(StableSort(s[..|s| - 1], orderby, order), s[|s| - 1], orderby, order);
    }
  }

  /** `usort` neither loses nor duplicates a row. */
  lemma {:induction false} StableSortPermutation(s: seq<Row>, orderby: string, order: string)
    ensures multiset(StableSort(s, orderby, order)) == multiset(s)
    decreases |s|
  {
    if s != [] {
      StableSortPermutation(s[..|s| - 1], orderby, order);
      InsertRowMultiset(StableSort(s[..|s| - 1], orderby, order), s[|s| - 1], orderby, order);
      assert s == s[..|s| - 1] + [s[|s| - 1]];
    }
  }

  /** `usort` is stable: rows with the same sort key keep their input order. */
  lemma {:induction false} StableSortStable(s: seq<Row>, orderby: string, order: string, key: string)
    ensures WithKey(StableSort(s, orderby, order), SortColumn(orderby), key) == WithKey(s, SortColumn(orderby), key)
    decreases |s|
  {
    if s != [] {
      var init, last := s[..|s| - 1], s[|s| - 1];
      StableSortStable(init, orderby, order, key);
      InsertRowWithKey(StableSort(init, orderby, order), last, orderby, order, key);
      WithKeyAppend(StableSort(init, orderby, order), [last], SortColumn(orderby), key);
    }
  }

  /** Sorted rows with the same rows under every key are the same rows in the same order. */
  lemma {:induction false} SortedSameKeysEqual(t1: seq<Row>, t2: seq<Row>, orderby: string, order: string)
    requires SortedBy(t1, orderby, order) && SortedBy(t2, orderby, order)
    requires forall key :: WithKey(t1, SortColumn(orderby), key) == WithKey(t2, SortColumn(orderby), key)
    ensures t1 == t2
    decreases |t1| + |t2|
  {
    var column := SortColumn(orderby);
    if t1 == [] || t2 == [] {
      if t1 != [] {
        EmptyHasNoKey(t2, t1, column);
      } else if t2 != [] {
        EmptyHasNoKey(t1, t2, column);
      }
    } else {
      var x1, x2 := t1[|t1| - 1], t2[|t2| - 1];
      var init1, init2 := t1[..|t1| - 1], t2[..|t2| - 1];
      LastKeyBelow(t1, t2, orderby, order);
      LastKeyBelow(t2, t1, orderby, order);
      SortCompareAntisymmetric(x1, x2, orderby, order);
      var k := Cell(x1, column);
      assert t1 == init1 + [x1] && t2 == init2 + [x2];
      var w1, w2 := WithKey(init1, column, k), WithKey(init2, column, k);
      assert WithKey(t1, column, k) == w1 + [x1];
      assert WithKey(t2, column, k) == w2 + [x2];
      assert w1 + [x1] == w2 + [x2];
      assert x1 == (w1 + [x1])[|w1|] == (w2 + [x2])[|w2|] == x2;
      assert w1 == (w1 + [x1])[..|w1|] == (w2 + [x2])[..|w2|] == w2;
      forall key ensures WithKey(init1, column, key) == WithKey(init2, column, key) {
        assert WithKey(t1, column, key) == WithKey(t2, column, key);
        if key != k {
          assert WithKey(t1, column, key) == WithKey(init1, column, key);
          assert WithKey(t2, column, key) == WithKey(init2, column, key);
        }
      }
      assert SortedBy(init1, orderby, order) && SortedBy(init2, orderby, order);
      SortedSameKeysEqual(init1, init2, orderby, order);
    }
  }

  /** A non-empty list has a row under its last row's key, which an empty list lacks. */
  lemma EmptyHasNoKey(e: seq<Row>, t: seq<Row>, column: string)
    requires e == [] && t != []
    ensures WithKey(e, column, Cell(t[|t| - 1], column)) != WithKey(t, column, Cell(t[|t| - 1], column))
  {
  }

  /** In sorted lists with the same rows per key, the last row of `t2` is ordered before that of `t1`. */
  lemma LastKeyBelow(t1: seq<Row>, t2: seq<Row>, orderby: string, order: string)
    requires t1 != [] && t2 != []
    requires SortedBy(t1, orderby, order)
    requires forall key :: WithKey(t1, SortColumn(orderby), key) == WithKey(t2, SortColumn(orderby), key)
    ensures InOrder(t2[|t2| - 1], t1[|t1| - 1], orderby, order)
  {
    var column := SortColumn(orderby);
    var x2 := t2[|t2| - 1];
    var k := Cell(x2, column);
    WithKeyMembers(t1, column, k);
    WithKeyMembers(t2, column, k);
    assert x2 in t2;
    assert x2 in WithKey(t1, column, k);
    var m :| 0 <= m < |t1| && t1[m] == x2;
    if m < |t1| - 1 {
      assert InOrder(t1[m], t1[|t1| - 1], orderby, order);
    }
  }

  /**
   * `usort`'s result is the only arrangement of the rows that is sorted and
   * keeps tied rows in input order, whatever algorithm produces it.
   */
  lemma StableSortUnique(s: seq<Row>, t: seq<Row>, orderby: string, order: string)
    requires SortedBy(t, orderby, order)
    requires forall key :: WithKey(t, SortColumn(orderby), key) == WithKey(s, SortColumn(orderby), key)
    ensures t == StableSort(s, orderby, order)
  {
    StableSortSorted(s, orderby, order);
    forall key ensures WithKey(t, SortColumn(orderby), key) == WithKey(StableSort(s, orderby, order), SortColumn(orderby), key) {
      StableSortStable(s, orderby, order, key);
    }
    SortedSameKeysEqual(t, StableSort(s, orderby, order), orderby, order);
  }

  /** Rows already in order are left as they are. */
  lemma {:induction false} SortedInputKept(s: seq<Row>, orderby: string, order: string)
    requires SortedBy(s, orderby, order)
    ensures StableSort(s, orderby, order) == s
    decreases |s|
  {
    if s != [] {
      var init := s[..|s| - 1];
      SortedInputKept(init, orderby, order);
      if init != [] {
        assert InOrder(init[|init| - 1], s[|s| - 1], orderby, order);
      }
      assert s == init + [s[|s| - 1]];
    }
  }

  /**
   * When every row has the same text in the sort column, as every row of
   * the list has for `signup_date` (`table_data` reads a key the relationship
   * data lacks), the list keeps the order `table_data` built.
   */
  lemma AllTiedKeepsOrder(s: seq<Row>, orderby: string, order: string)
    requires forall k :: 0 <= k < |s| ==> Cell(s[k], SortColumn(orderby)) == Cell(s[0], SortColumn(orderby))
    ensures StableSort(s, orderby, order) == s
  {
    SortedInputKept(s, orderby, order);
  }

  /** `usort($rows, 'sort_data')`, in place: an insertion sort by swaps. */
  method SortRows(a: array<Row>, orderby: string, order: string)
    modifies a
    ensures a[..] == StableSort(old(a[..]), orderby, order)
    ensures SortedBy(a[..], orderby, order)
    ensures multiset(a[..]) == multiset(old(a[..]))
  {
    ghost var s := a[..];
    var i := 0;
    while i < a.Length
      invariant 0 <= i <= a.Length
      invariant a[..i] == StableSort(s[..i], orderby, order)
      invariant a[i..] == s[i..]
    {
      InsertLast(a, i, orderby, order);
      assert s[..i + 1][..i] == s[..i];
      i := i + 1;
    }
    assert a[..] == a[..a.Length];
    assert s == s[..a.Length];
    StableSortSorted(s, orderby, order);
    StableSortPermutation(s, orderby, order);
  }

  /** One pass of the insertion sort: moves `a[i]` left into the sorted `a[..i]`. */
  method InsertLast(a: array<Row>, i: int, orderby: string, order: string)
    requires 0 <= i < a.Length
    modifies a
    ensures a[..i + 1] == InsertRow(old(a[..i]), old(a[i]), orderby, order)
    ensures a[i + 1..] == old(a[i + 1..])
  {
    ghost var s, x, rest := a[..i], a[i], a[i + 1..];
    var j := i;
    PlacedStart(a[..], i);
    assert s[..j] == s && s[j..] == [];
    while j > 0 && SortCompare(a[j - 1], a[j], orderby, order) > 0
      invariant 0 <= j <= i
      invariant a[..] == Placed(s, x, j, rest)
      invariant InsertRow(s, x, orderby, order) == InsertRow(s[..j], x, orderby, order) + s[j..]
    {
      PlacedSwap(s, x, j, rest);
      InsertRowStep(s, x, j, orderby, order);
      Swap(a, j - 1, j);
      j := j - 1;
    }
    PlacedAt(s, x, j, rest);
    InsertRowStop(s, x, j, orderby, order);
    PlacedDone(s, x, j, rest, InsertRow(s, x, orderby, order));
    assert a[..i + 1] == a[..][..i + 1] && a[i + 1..] == a[..][i + 1..];
  }

  /** The array during a pass: `x` at position `j`, the rows of `s` from `j` on shifted right by one. */
  function Placed(s: seq<Row>, x: Row, j: int, rest: seq<Row>): (r: seq<Row>)
    requires 0 <= j <= |s|
    ensures |r| == |s| + 1 + |rest|
  {
    s[..j] + [x] + s[j..] + rest
  }

  lemma PlacedStart(t: seq<Row>, i: int)
    requires 0 <= i < |t|
    ensures t == Placed(t[..i], t[i], i, t[i + 1..])
  {
    assert t[..i][..i] == t[..i] && t[..i][i..] == [];
  }

  lemma PlacedAt(s: seq<Row>, x: Row, j: int, rest: seq<Row>)
    requires 0 <= j <= |s|
    ensures Placed(s, x, j, rest)[j] == x
    ensures j > 0 ==> Placed(s, x, j, rest)[j - 1] == s[j - 1]
  {
  }

  /** Swapping `x` with the row before it is the next position of the pass. */
  lemma PlacedSwap(s: seq<Row>, x: Row, j: int, rest: seq<Row>)
    requires 0 < j <= |s|
    ensures Placed(s, x, j, rest)[j] == x && Placed(s, x, j, rest)[j - 1] == s[j - 1]
    ensures Placed(s, x, j, rest)[j - 1 := x][j := s[j - 1]] == Placed(s, x, j - 1, rest)
  {
    var t := Placed(s, x, j, rest)[j - 1 := x][j := s[j - 1]];
    var u := Placed(s, x, j - 1, rest);
    assert |t| == |u|;
    forall k | 0 <= k < |t| ensures t[k] == u[k] {
      if k < j - 1 {
        assert t[k] == s[k] == u[k];
      } else if j + 1 <= k < |s| + 1 {
        assert t[k] == s[k - 1] == u[k];
      }
    }
  }

  /** When the pass stops, the first |s| + 1 cells are the insertion step's result and the rest is untouched. */
  lemma PlacedDone(s: seq<Row>, x: Row, j: int, rest: seq<Row>, inserted: seq<Row>)
    requires 0 <= j <= |s|
    requires inserted == s[..j] + [x] + s[j..]
    ensures Placed(s, x, j, rest)[..|s| + 1] == inserted
    ensures Placed(s, x, j, rest)[|s| + 1..] == rest
  {
  }

  /** Passing a row the comparator ranks above `x` moves it behind `x`. */
  lemma InsertRowStep(s: seq<Row>, x: Row, j: int, orderby: string, order: string)
    requires 0 < j <= |s| && SortCompare(s[j - 1], x, orderby, order) > 0
    ensures InsertRow(s[..j], x, orderby, order) + s[j..] == InsertRow(s[..j - 1], x, orderby, order) + s[j - 1..]
  {
    var t := s[..j];
    assert t[|t| - 1] == s[j - 1] && t[..|t| - 1] == s[..j - 1];
    var u := InsertRow(s[..j - 1], x, orderby, order);
    assert InsertRow(t, x, orderby, order) == u + [s[j - 1]];
    assert s[j - 1..] == [s[j - 1]] + s[j..];
    assert u + [s[j - 1]] + s[j..] == u + ([s[j - 1]] + s[j..]);
  }

  /** Insertion stops at the front or behind a row that may stay before `x`. */
  lemma InsertRowStop(s: seq<Row>, x: Row, j: int, orderby: string, order: string)
    requires 0 <= j <= |s| && (j == 0 || SortCompare(s[j - 1], x, orderby, order) <= 0)
    ensures InsertRow(s[..j], x, orderby, order) == s[..j] + [x]
  {
  }

  method Swap(a: array<Row>, i: int, j: int)
    requires 0 <= i < a.Length && 0 <= j < a.Length
    modifies a
    ensures a[..] == old(a[..])[i := old(a[j])][j := old(a[i])]
    ensures a[i] == old(a[j]) && a[j] == old(a[i])
    ensures forall k :: 0 <= k < a.Length && k != i && k != j ==> a[k] == old(a[k])
    ensures multiset(a[..]) == multiset(old(a[..]))
  {
    a[i], a[j] := a[j], a[i];
  }

  // ---------------------------------------------------------------------------
  // Pagination

  const PerPage := 10

  /** `get_pagenum()`: the requested page, at least 1. */
  function CurrentPage(paged: nat): (p: nat)
    ensures p >= 1
  {
    if paged == 0 then 1 else paged
  }

  /** `array_slice($rows, ($current - 1) * 10, 10)`. */
  function Page(rows: seq<Row>, current: nat): (page: seq<Row>)
    requires current >= 1
    ensures |page| <= PerPage
  {
    var start := (current - 1) * PerPage;
    if start >= |rows| then [] else rows[start..if start + PerPage <= |rows| then start + PerPage else |rows|]
  }

  /** `ceil($count / 10)`. */
  function TotalPages(count: nat): (pages: nat)
    ensures pages * PerPage >= count && (pages == 0 || (pages - 1) * PerPage < count)
  {
    (count + PerPage - 1) / PerPage
  }

  /** Row k of the sorted list is entry k % 10 of page k / 10 + 1, a page the navigation offers. */
  lemma RowOnPage(rows: seq<Row>, k: nat)
    requires k < |rows|
    ensures 1 <= k / PerPage + 1 <= TotalPages(|rows|)
    ensures var page := Page(rows, k / PerPage + 1); k % PerPage < |page| && page[k % PerPage] == rows[k]
  {
    var p := k / PerPage;
    assert p * PerPage <= k < (p + 1) * PerPage;
  }

  // ---------------------------------------------------------------------------
  // Bulk actions and cache purges

  const UnsubscribeAction := "wc_product_interest_unsubscribe"
  const ExportAction := "wc_product_interest_export"
  /** The option the export reads its relationship IDs from. */
  const ExportIdsOption := "wc_product_interest_export_ids"
  /** The prefix the bulk purge deletes customer keys under; no reader uses it. */
  const SubscribedProductsPrefix := "woo_customer_subscribed_products_"

  /** The action is one of `get_bulk_actions()`' keys and the page is the list. */
  predicate BulkApplies(req: ListRequest) {
    !EmptyString(req.action) && (req.action == UnsubscribeAction || req.action == ExportAction) && OnListPage(req)
  }

  /** The keys a purge deletes: one per distinct `absint` of the posted IDs. */
  function PurgedKeys(prefix: string, posted: seq<string>): set<string> {
    PrefixKeys(prefix, AbsInts(posted))
  }

  /** The relationship keys the deletes clear: one per non-zero ID. */
  function RelationshipKeys(ids: seq<nat>): set<string> {
    set id | id in ids && id != 0 :: RelationshipKey(id)
  }

  /** The table after `delete_by_relationship` for each ID in turn. */
  function WithoutRelationships(rows: seq<Relationship>, ids: seq<nat>): seq<Relationship>
    decreases |ids|
  {
    if ids == [] then rows
    else
      var prev := WithoutRelationships(rows, ids[..|ids| - 1]);
      var id := ids[|ids| - 1];
      if id == 0 then prev else Filter(prev, NotMatching(RelationshipIdColumn, id))
  }

  /** A row survives the bulk unsubscribe exactly when its ID was not posted (0 is never deleted). */
  lemma {:induction false} WithoutRelationshipsKeeps(rows: seq<Relationship>, ids: seq<nat>)
    ensures forall r :: r in WithoutRelationships(rows, ids)
                    <==> r in rows && (r.relationshipId == 0 || r.relationshipId !in ids)
    decreases |ids|
  {
    if ids != [] {
      var init := ids[..|ids| - 1];
      WithoutRelationshipsKeeps(rows, init);
      assert ids == init + [ids[|ids| - 1]];
    }
  }

  function UnsubscribedArgs(count: nat): Args {
    [("success", IntArg(1)), ("action", StrArg("unsubscribed")), ("count", IntArg(count))]
  }

  function ExportArgs(nonce: string): Args {
    [("wc_product_interest_export", IntArg(1)), ("nonce", StrArg(nonce))]
  }

  datatype BulkOutcome = NoBulkAction | BulkRedirect(target: Option<Args>)

  /** `delete_transient(prefix . absint($id))` for each distinct posted ID. */
  method PurgeTransients(site: Site, prefix: string, posted: seq<string>)
    modifies site
    ensures site.transients == old(site.transients) - PurgedKeys(prefix, posted)
    ensures site.table == old(site.table) && site.nextId == old(site.nextId) && site.options == old(site.options)
    ensures site.productMeta == old(site.productMeta) && site.tableExists == old(site.tableExists)
  {
    var ids := Dedup(AbsInts(posted));
    PrefixKeysSame(prefix, ids, AbsInts(posted));
    for i := 0 to |ids|
      invariant site.transients == old(site.transients) - PrefixKeys(prefix, ids[..i])
      invariant site.table == old(site.table) && site.nextId == old(site.nextId) && site.options == old(site.options)
      invariant site.productMeta == old(site.productMeta) && site.tableExists == old(site.tableExists)
    {
      PrefixKeysStep(prefix, ids, i);
      site.DeleteTransient(prefix + NatToString(ids[i]));
    }
    assert ids[..|ids|] == ids;
  }

  /** The keys `prefix . id` for the IDs in `ids`. */
  function PrefixKeys(prefix: string, ids: seq<nat>): set<string> {
    set id | id in ids :: prefix + NatToString(id)
  }

  lemma PrefixKeysAppend(prefix: string, ids: seq<nat>, id: nat)
    ensures PrefixKeys(prefix, ids + [id]) == PrefixKeys(prefix, ids) + {prefix + NatToString(id)}
  {
    assert forall x :: x in ids + [id] <==> x in ids || x == id;
  }

  lemma PrefixKeysStep(prefix: string, ids: seq<nat>, i: nat)
    requires i < |ids|
    ensures PrefixKeys(prefix, ids[..i + 1]) == PrefixKeys(prefix, ids[..i]) + {prefix + NatToString(ids[i])}
  {
    assert ids[..i + 1] == ids[..i] + [ids[i]];
    PrefixKeysAppend(prefix, ids[..i], ids[i]);
  }

  lemma PrefixKeysSame(prefix: string, a: seq<nat>, b: seq<nat>)
    requires forall x :: x in a <==> x in b
    ensures PrefixKeys(prefix, a) == PrefixKeys(prefix, b)
  {
  }

  /** `purge_customer_transients($customer_ids)` as written, under the unused prefix. */
  method PurgeCustomerTransientsAsWritten(site: Site, posted: seq<string>)
    modifies site
    ensures site.transients == old(site.transients) - PurgedKeys(SubscribedProductsPrefix, posted)
    ensures site.table == old(site.table) && site.nextId == old(site.nextId) && site.options == old(site.options)
    ensures site.productMeta == old(site.productMeta) && site.tableExists == old(site.tableExists)
  {
    PurgeTransients(site, SubscribedProductsPrefix, posted);
  }

  /** `purge_customer_transients` with the prefix `get_products_for_customer` caches under. */
  method PurgeCustomerTransients(site: Site, posted: seq<string>)
    modifies site
    ensures site.transients == old(site.transients) - PurgedKeys(CustomerProductsPrefix, posted)
    ensures site.table == old(site.table) && site.nextId == old(site.nextId) && site.options == old(site.options)
    ensures site.productMeta == old(site.productMeta) && site.tableExists == old(site.tableExists)
  {
    PurgeTransients(site, CustomerProductsPrefix, posted);
  }

  /** `purge_product_transients($product_ids)`. */
  method PurgeProductTransients(site: Site, posted: seq<string>)
    modifies site
    ensures site.transients == old(site.transients) - PurgedKeys(ProductCustomersPrefix, posted)
    ensures site.table == old(site.table) && site.nextId == old(site.nextId) && site.options == old(site.options)
    ensures site.productMeta == old(site.productMeta) && site.tableExists == old(site.tableExists)
  {
    PurgeTransients(site, ProductCustomersPrefix, posted);
  }

  /** No key under the purge's customer prefix is a key `get_products_for_customer` reads. */
  lemma SubscribedKeysMissReaderKeys(m: nat, n: nat)
    ensures SubscribedProductsPrefix + NatToString(m) != CustomerProductsKey(n)
  {
    assert (SubscribedProductsPrefix + NatToString(m))[13] == 's';
    assert CustomerProductsKey(n)[13] == 'i';
  }

  /**
   * As written, the bulk purge leaves a customer's cached product list in
   * place: the next read returns it, whatever the table now holds.
   */
  lemma PurgeAsWrittenLeavesStaleList(cache: Cache, posted: seq<string>, customerId: nat,
                                      computed: Option<Cached>, queryFailed: bool)
    requires CustomerProductsKey(customerId) in cache
    ensures var purged := cache - PurgedKeys(SubscribedProductsPrefix, posted);
      ReadThrough(purged, CustomerProductsKey(customerId), false, computed, queryFailed).0
        == Found(cache[CustomerProductsKey(customerId)])
  {
    forall m ensures SubscribedProductsPrefix + NatToString(m) != CustomerProductsKey(customerId) {
      SubscribedKeysMissReaderKeys(m, customerId);
    }
    assert CustomerProductsKey(customerId) !in PurgedKeys(SubscribedProductsPrefix, posted);
  }

  /** With the reader's prefix, a purged customer's next read reflects the table. */
  lemma PurgeRefreshesCustomerList(cache: Cache, posted: seq<string>, i: nat, computed: Option<Cached>)
    requires i < |posted|
    ensures var purged := cache - PurgedKeys(CustomerProductsPrefix, posted);
      ReadThrough(purged, CustomerProductsKey(AbsInt(posted[i])), false, computed, false).0
        == (if computed.Some? then Found(computed.value) else NotFound)
  {
    assert AbsInts(posted)[i] == AbsInt(posted[i]);
    assert CustomerProductsKey(AbsInt(posted[i])) in PurgedKeys(CustomerProductsPrefix, posted);
  }

  lemma NothingPurged(prefix: string, posted: seq<string>)
    requires posted == []
    ensures PurgedKeys(prefix, posted) == {}
  {
  }

  lemma RelationshipKeysAppend(ids: seq<nat>, id: nat)
    ensures RelationshipKeys(ids + [id]) == RelationshipKeys(ids) + (if id != 0 then {RelationshipKey(id)} else {})
  {
  }

  /** The loop of `process_bulk_unsubscribe`: `delete_by_relationship` for each ID. */
  method DeleteRelationships(site: Site, ids: seq<nat>)
    requires site.Valid()
    modifies site
    ensures site.Valid()
    ensures site.table == WithoutRelationships(old(site.table), ids)
    ensures site.transients == old(site.transients) - RelationshipKeys(ids)
    ensures site.nextId == old(site.nextId) && site.options == old(site.options)
    ensures site.productMeta == old(site.productMeta) && site.tableExists == old(site.tableExists)
  {
    for i := 0 to |ids|
      invariant site.Valid()
      invariant site.table == WithoutRelationships(old(site.table), ids[..i])
      invariant site.transients == old(site.transients) - RelationshipKeys(ids[..i])
      invariant site.nextId == old(site.nextId) && site.options == old(site.options)
      invariant site.productMeta == old(site.productMeta) && site.tableExists == old(site.tableExists)
    {
      assert ids[..i + 1] == ids[..i] + [ids[i]];
      RelationshipKeysAppend(ids[..i], ids[i]);
      var _ := DeleteByRelationship(site, ids[i]);
    }
    assert ids[..|ids|] == ids;
  }

  /** The guards of `process_bulk_action` all pass, so the posted IDs reach an action. */
  predicate BulkActs(req: ListRequest) {
    BulkApplies(req) && req.nonceValid && req.postedIds != []
  }

  /** Where `process_bulk_action` sends the browser; it depends on the request alone. */
  function BulkTarget(req: ListRequest): (r: BulkOutcome)
    ensures r == NoBulkAction <==> !BulkApplies(req)
    ensures BulkApplies(req) && !req.nonceValid ==> r.target == AdminPageRedirect(BadNonceArgs, true)
    ensures BulkActs(req) && req.action == UnsubscribeAction ==>
      r.target.Some? && Lookup(r.target.value, "count") == Some(IntArg(|req.postedIds|))
    ensures BulkActs(req) && req.action == ExportAction ==>
      r.target.Some? && Lookup(r.target.value, "nonce") == Some(StrArg(req.exportNonce))
  {
    if !BulkApplies(req) then NoBulkAction
    else if !req.nonceValid then BulkRedirect(AdminPageRedirect(BadNonceArgs, true))
    else if req.postedIds == [] then BulkRedirect(AdminPageRedirect(NoIdsArgs, true))
    else if req.action == UnsubscribeAction then
      var args := UnsubscribedArgs(|req.postedIds|);
      assert Lookup(args[1..], "count") == Some(IntArg(|req.postedIds|));
      BulkRedirect(AdminPageRedirect(args, true))
    else BulkRedirect(AdminPageRedirect(ExportArgs(req.exportNonce), false))
  }

  /** The parts of the site a bulk action may change. */
  datatype Store = Store(table: seq<Relationship>, transients: map<string, Cached>, options: map<string, OptionValue>)

  function StoreOf(site: Site): Store
    reads site
  {
    Store(site.table, site.transients, site.options)
  }

  /**
   * The store after `process_bulk_action`: the unsubscribe deletes the
   * relationships and purges the keys, the export records the IDs, and a
   * request that stops at a guard changes nothing.
   */
  function BulkStore(req: ListRequest, s: Store): (r: Store)
    ensures !BulkActs(req) ==> r == s
    ensures req.action == ExportAction ==> r.table == s.table && r.transients == s.transients
    ensures req.action != ExportAction ==> r.options == s.options && r.transients.Keys <= s.transients.Keys
  {
    if !BulkActs(req) then s
    else
      var ids := AbsInts(req.postedIds);
      if req.action == UnsubscribeAction then
        Store(WithoutRelationships(s.table, ids),
              s.transients - RelationshipKeys(ids)
                - PurgedKeys(SubscribedProductsPrefix, req.postedCustomerIds)
                - PurgedKeys(ProductCustomersPrefix, req.postedProductIds),
              s.options)
      else
        Store(s.table, s.transients, s.options[ExportIdsOption := IdsOption(ids)])
  }

  /** After a bulk unsubscribe no posted relationship is left, and every other row is. */
  lemma BulkUnsubscribeRemovesPosted(req: ListRequest, s: Store)
    requires BulkActs(req) && req.action == UnsubscribeAction
    ensures forall r :: r in BulkStore(req, s).table
                    <==> r in s.table && (r.relationshipId == 0 || r.relationshipId !in AbsInts(req.postedIds))
  {
    WithoutRelationshipsKeeps(s.table, AbsInts(req.postedIds));
  }

  class SignupsTable {
    /** `$this->items`: the rows of the current page. */
    var items: seq<Row>
    /** The pagination arguments. */
    var totalItems: nat
    var perPage: nat
    var totalPages: nat

    constructor ()
      ensures items == [] && totalItems == 0 && perPage == 0 && totalPages == 0
    {
      items := [];
      totalItems := 0;
      perPage := 0;
      totalPages := 0;
    }

    /** `filter_dataset_by_id`: the loop unsets the rows without the ID; the rest, reindexed. */
    method FilterDatasetById(dataset: Option<seq<Row>>, id: nat, column: string) returns (r: Option<seq<Row>>)
      ensures r == FilterById(dataset, id, column)
    {
      if dataset.None? || |dataset.value| == 0 || id == 0 || EmptyString(column) {
        return None;
      }
      var rows := dataset.value;
      var kept: seq<Row> := [];
      for i := 0 to |rows|
        invariant kept == RowsWithId(rows[..i], id, column)
      {
        assert rows[..i + 1][..i] == rows[..i];
        if AbsInt(Cell(rows[i], column)) == id {
          kept := kept + [rows[i]];
        }
      }
      assert rows[..|rows|] == rows;
      r := Some(kept);
    }

    /** `maybe_filter_dataset($dataset)`. */
    method MaybeFilterDataset(dataset: seq<Row>, req: ListRequest, site: Site) returns (out: FilterOutcome)
      ensures out == MaybeFilter(dataset, req, site)
    {
      if !req.filterSubmitted {
        return Filtered(Some(dataset));
      }
      if EmptyString(req.page) || MenuSlug != req.page {
        return Filtered(Some(dataset));
      }
      if !req.nonceValid {
        return FilterRedirect(AdminPageRedirect(BadNonceArgs, true));
      }
      var filtered := Some(dataset);
      if !EmptyString(req.productFilter) && site.IsProduct(AbsInt(req.productFilter)) {
        filtered := FilterDatasetById(filtered, AbsInt(req.productFilter), "product_id");
      }
      if !EmptyString(req.customerFilter) {
        filtered := FilterDatasetById(filtered, AbsInt(req.customerFilter), "customer_id");
      }
      out := Filtered(filtered);
    }

    /**
     * `process_bulk_unsubscribe($relationship_ids)`: None is its `return
     * false` on an empty list; otherwise the redirect it ends with. The
     * customer purge is the one written, under the prefix no reader uses.
     */
    method ProcessBulkUnsubscribe(site: Site, ids: seq<nat>, req: ListRequest) returns (target: Option<Option<Args>>)
      requires site.Valid()
      modifies site
      ensures site.Valid()
      ensures ids == [] ==> target == None && site.table == old(site.table) && site.transients == old(site.transients)
      ensures ids != [] ==>
        && target == Some(AdminPageRedirect(UnsubscribedArgs(|ids|), true))
        && site.table == WithoutRelationships(old(site.table), ids)
        && site.transients == old(site.transients) - RelationshipKeys(ids)
                              - PurgedKeys(SubscribedProductsPrefix, req.postedCustomerIds)
                              - PurgedKeys(ProductCustomersPrefix, req.postedProductIds)
      ensures site.nextId == old(site.nextId) && site.options == old(site.options)
      ensures site.productMeta == old(site.productMeta) && site.tableExists == old(site.tableExists)
    {
      if |ids| == 0 {
        return None;
      }
      DeleteRelationships(site, ids);
      ghost var afterDeletes := site.transients;
      if |req.postedCustomerIds| != 0 {
        PurgeCustomerTransientsAsWritten(site, req.postedCustomerIds);
      } else {
        NothingPurged(SubscribedProductsPrefix, req.postedCustomerIds);
      }
      assert site.transients == afterDeletes - PurgedKeys(SubscribedProductsPrefix, req.postedCustomerIds);
      ghost var afterCustomers := site.transients;
      if |req.postedProductIds| != 0 {
        PurgeProductTransients(site, req.postedProductIds);
      } else {
        NothingPurged(ProductCustomersPrefix, req.postedProductIds);
      }
      assert site.transients == afterCustomers - PurgedKeys(ProductCustomersPrefix, req.postedProductIds);
      target := Some(AdminPageRedirect(UnsubscribedArgs(|ids|), true));
    }

    /** `process_bulk_export($relationship_ids)`: stores the IDs for the export and redirects to it. */
    method ProcessBulkExport(site: Site, ids: seq<nat>, nonce: string) returns (target: Option<Option<Args>>)
      modifies site
      ensures ids == [] ==> target == None && site.options == old(site.options)
      ensures ids != [] ==>
        && target == Some(AdminPageRedirect(ExportArgs(nonce), false))
        && site.options == old(site.options)[ExportIdsOption := IdsOption(ids)]
      ensures site.table == old(site.table) && site.nextId == old(site.nextId) && site.transients == old(site.transients)
      ensures site.productMeta == old(site.productMeta) && site.tableExists == old(site.tableExists)
    {
      if |ids| == 0 {
        return None;
      }
      site.UpdateOption(ExportIdsOption, IdsOption(ids));
      target := Some(AdminPageRedirect(ExportArgs(nonce), false));
    }

    /** `process_bulk_action()`: the guards, then the chosen action. */
    method ProcessBulkAction(site: Site, req: ListRequest) returns (outcome: BulkOutcome)
      requires site.Valid()
      modifies site
      ensures site.Valid()
      ensures !BulkApplies(req) ==> outcome == NoBulkAction
      ensures BulkApplies(req) && !req.nonceValid ==> outcome == BulkRedirect(AdminPageRedirect(BadNonceArgs, true))
      ensures BulkApplies(req) && req.nonceValid && req.postedIds == [] ==>
        outcome == BulkRedirect(AdminPageRedirect(NoIdsArgs, true))
      ensures !(BulkApplies(req) && req.nonceValid && req.postedIds != []) ==>
        && site.table == old(site.table) && site.transients == old(site.transients) && site.options == old(site.options)
      ensures BulkApplies(req) && req.nonceValid && req.postedIds != [] && req.action == UnsubscribeAction ==>
        var ids := AbsInts(req.postedIds);
        && outcome == BulkRedirect(AdminPageRedirect(UnsubscribedArgs(|req.postedIds|), true))
        && site.table == WithoutRelationships(old(site.table), ids)
        && site.transients == old(site.transients) - RelationshipKeys(ids)
                              - PurgedKeys(SubscribedProductsPrefix, req.postedCustomerIds)
                              - PurgedKeys(ProductCustomersPrefix, req.postedProductIds)
        && site.options == old(site.options)
      ensures BulkApplies(req) && req.nonceValid && req.postedIds != [] && req.action == ExportAction ==>
        && outcome == BulkRedirect(AdminPageRedirect(ExportArgs(req.exportNonce), false))
        && site.options == old(site.options)[ExportIdsOption := IdsOption(AbsInts(req.postedIds))]
        && site.table == old(site.table) && site.transients == old(site.transients)
      ensures site.nextId == old(site.nextId)
      ensures site.productMeta == old(site.productMeta) && site.tableExists == old(site.tableExists)
    {
      if EmptyString(req.action) || !(req.action == UnsubscribeAction || req.action == ExportAction) {
        return NoBulkAction;
      }
      if EmptyString(req.page) || MenuSlug != req.page {
        return NoBulkAction;
      }
      if !req.nonceValid {
        return BulkRedirect(AdminPageRedirect(BadNonceArgs, true));
      }
      if |req.postedIds| == 0 {
        return BulkRedirect(AdminPageRedirect(NoIdsArgs, true));
      }
      var ids := AbsInts(req.postedIds);
      var target: Option<Option<Args>> := None;
      if req.action == UnsubscribeAction {
        target := ProcessBulkUnsubscribe(site, ids, req);
      } else {
        target := ProcessBulkExport(site, ids, req.exportNonce);
      }
      if target.Some? {
        outcome := BulkRedirect(target.value);
      } else {
        outcome := BulkRedirect(AdminPageRedirect(UnknownArgs, true));
      }
    }

    /** The dataset copied into an array and sorted there by `usort`. */
    method SortDataset(rows: seq<Row>, orderby: string, order: string) returns (sorted: seq<Row>)
      ensures sorted == StableSort(rows, orderby, order)
    {
      var a := new Row[|rows|](i requires 0 <= i < |rows| => rows[i]);
      assert a[..] == rows;
      SortRows(a, orderby, order);
      sorted := a[..];
    }

    /** The bulk step as `prepare_items` sees it: the redirect and the new store, by the request alone. */
    method RunBulkAction(site: Site, req: ListRequest) returns (outcome: BulkOutcome)
      requires site.Valid()
      modifies site
      ensures site.Valid()
      ensures outcome == BulkTarget(req)
      ensures StoreOf(site) == BulkStore(req, old(StoreOf(site)))
      ensures site.nextId == old(site.nextId)
      ensures site.productMeta == old(site.productMeta) && site.tableExists == old(site.tableExists)
    {
      outcome := ProcessBulkAction(site, req);
    }

    /** `set_pagination_args`: the item count, ten per page, and the page count. */
    method SetPaginationArgs(count: nat)
      modifies this
      ensures totalItems == count && perPage == PerPage && totalPages == TotalPages(count)
      ensures items == old(items)
    {
      totalItems := count;
      perPage := PerPage;
      totalPages := TotalPages(count);
    }

    /** `prepare_items()` past the filter: sort, paginate, run a posted bulk action, then keep the page. */
    method ListDataset(site: Site, rows: seq<Row>, req: ListRequest) returns (outcome: ListOutcome)
      requires site.Valid()
      modifies this, site
      ensures site.Valid()
      ensures totalItems == |rows| && perPage == PerPage && totalPages == TotalPages(|rows|)
      ensures outcome == Listed <==> !BulkApplies(req)
      ensures BulkTarget(req).BulkRedirect? ==> outcome == ListRedirect(BulkTarget(req).target)
      ensures outcome == Listed ==> items == Page(StableSort(rows, req.orderby, req.order), CurrentPage(req.paged))
      ensures outcome != Listed ==> items == old(items)
      ensures StoreOf(site) == BulkStore(req, old(StoreOf(site)))
      ensures site.nextId == old(site.nextId)
      ensures site.productMeta == old(site.productMeta) && site.tableExists == old(site.tableExists)
    {
      var sorted := SortDataset(rows, req.orderby, req.order);
      SetPaginationArgs(|sorted|);
      var page := Page(sorted, CurrentPage(req.paged));
      var bulk := RunBulkAction(site, req);
      if bulk.BulkRedirect? {
        return ListRedirect(bulk.target);
      }
      items := page;
      outcome := Listed;
    }

    /**
     * `prepare_items()` over the rows `table_data()` built: filter, sort,
     * paginate, run a posted bulk action, then keep the page.
     */
    method PrepareItems(site: Site, dataset: seq<Row>, req: ListRequest) returns (outcome: ListOutcome)
      requires site.Valid()
      modifies this, site
      ensures site.Valid()
      ensures var filtered := if req.filterSubmitted then MaybeFilter(dataset, req, site) else Filtered(Some(dataset));
        && (filtered.FilterRedirect? ==> outcome == ListRedirect(filtered.target))
        && (filtered == Filtered(None) ==> outcome == TypeErrorFatal)
        && (filtered.Filtered? && filtered.dataset.Some? ==>
              && totalItems == |filtered.dataset.value| && perPage == PerPage
              && totalPages == TotalPages(|filtered.dataset.value|)
              && (outcome == Listed <==> !BulkApplies(req))
              && (outcome == Listed ==>
                    items == Page(StableSort(filtered.dataset.value, req.orderby, req.order), CurrentPage(req.paged))))
      ensures var filtered := if req.filterSubmitted then MaybeFilter(dataset, req, site) else Filtered(Some(dataset));
        && (filtered.Filtered? && filtered.dataset.Some? ==>
              && (BulkTarget(req).BulkRedirect? ==> outcome == ListRedirect(BulkTarget(req).target))
              && StoreOf(site) == BulkStore(req, old(StoreOf(site))))
        && (!(filtered.Filtered? && filtered.dataset.Some?) ==> StoreOf(site) == old(StoreOf(site)))
      ensures outcome != Listed ==> items == old(items)
      ensures site.nextId == old(site.nextId)
      ensures site.productMeta == old(site.productMeta) && site.tableExists == old(site.tableExists)
    {
      var filtered := Filtered(Some(dataset));
      if req.filterSubmitted {
        filtered := MaybeFilterDataset(dataset, req, site);
      }
      if filtered.FilterRedirect? {
        return ListRedirect(filtered.target);
      }
      if filtered.dataset.None? {
        return TypeErrorFatal;
      }
      outcome := ListDataset(site, filtered.dataset.value, req);
    }
  }

  /**
   * How a page load of the list ends: the list is shown, a redirect (and
   * `exit`) happens, or `usort` receives the null a filter returned, a
   * `TypeError` in PHP 8.
   */
  datatype ListOutcome = Listed | ListRedirect(target: Option<Args>) | TypeErrorFatal
}
