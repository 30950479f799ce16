# Woo Interest In Products — a Dafny model

WooCommerce shop owners use this plugin to let logged-in customers sign up for
news about a product. The model covers the plugin's own bookkeeping:

- **Relationship table.** Rows pair a customer ID with a product ID.
  - `insert` adds rows, and it is not atomic.
  - `delete_by_customer`, `delete_by_product` and `delete_by_relationship` remove rows.
  - The schema-version option decides whether the table is (re)installed.
- **Read-through transient cache.** It sits in front of each query in `Queries`.
  The model fixes each reader's key prefix, when the cache is bypassed, and which
  writes clear which key.
- **Product enable flag.** This is the `_product_interest_enabled` post meta.
  - The product editor saves it.
  - The one-shot "enable all products?" admin prompt sets it on every product.
- **Checkout opt-in.**
  - The field lists the enabled products in the cart.
  - The posted comma list is parsed into `absint` IDs.
  - Each ID can raise up to two validation errors.
  - The IDs are passed on to `insert`.
- **Interest reconciliation**, in two places:
  - the "My Account" form, which answers with a redirect;
  - the Ajax handler, which answers with a JSON payload.

  Both compare the original relationship IDs with the IDs the customer kept, and
  decide which relationships go.
- **Admin "signups" list.**
  - Filtering by product or customer.
  - `strcmp` sorting in either direction.
  - Pages of 10 rows.
  - Bulk unsubscribe and export, including their transient purges.
- **Helpers.**
  - The notice-code table.
  - ID-list comparison.
  - Cart filtering.
  - The account tab order.
  - Recursive sanitising.
  - The account query var.

## How the model is built

There is one module per PHP file:
- `AccountPage`, `AjaxActions`, `Checkout`, `Database`, `Queries`, `PostMeta`,
  `Admin`, `QueryMods`, `TableViews` and `Helpers`;
- `Php`, which holds PHP value semantics: `empty()`, `intval`/`absint`,
  `explode`/`implode`, `strtolower`, `strcmp`, PHP 8 loose `int == string`, and
  ordered arrays as sequences of key/value pairs;
- `WordPress`, which holds the site state.

The site state is a class `WordPress.Site`. It holds:
- the custom table (`Relationship` rows and the next auto-increment ID);
- the transients;
- the options;
- the product enable meta;
- read-only lookups for `get_post_type`, `get_userdata`, `get_post` and `WP_DEBUG`.

Operations that change that state are methods with `modifies site`. Each method is
proved against a specification function. The properties are lemmas about those
functions.

Parts of WordPress outside the site state are handled as follows:
- **Redirects and JSON sends.** `wp_redirect` … `exit` and `wp_send_json_*` end the
  request. They are modelled as the handler's final result value.
- **Parameters.**
  - Nonce checks, capability checks and the request context are booleans passed in.
  - Whether a SQL query fails is a boolean passed in (`queryFailed`).
  - The current time is a string passed in.
  - The list markup the layout renders is a value passed in.
- **Logged calls.** `Queries\remove_single_relationships` and
  `Queries\get_all_products` are called but not defined in the plugin.
  - Each call of the first is recorded as a `Removal` value.
  - The product list the second returns is a parameter.

## Model

| member | source | states |
|---|---|---|
| Helpers.NoticeText | includes/helpers.php:21-84 | the message is the generic error text exactly when the lower-cased code is none of the listed codes |
| Helpers.NoticeTextIgnoresCase | includes/helpers.php:21-84 | codes are matched case-insensitively: a code and its lower-case form give the same text |
| Helpers.NoticeTextAliases | includes/helpers.php:21-84 | `success`/`success-general` share one text, `unknown`/`unknown-error` share one, `no-customer-id` is unlisted and gets the generic text |
| Helpers.MaybeProductEnabled | includes/helpers.php:94-106 | a product is enabled exactly when its enable meta is present and neither `""` nor `"0"`, as `! empty()` reads it |
| Helpers.MaybeProductEnabledString | includes/helpers.php:94-106 | the string form is `yes` or `no`, and `yes` exactly when the boolean form says the product is enabled |
| Helpers.AccountPageRedirect | includes/helpers.php:160-173 | a redirect happens only outside admin and with arguments, and carries exactly those arguments |
| Helpers.AdminPageRedirect | includes/helpers.php:275-296 | without arguments no redirect; otherwise every default key is present, given keys override the defaults, and `$response` forces `wc-product-interest-response = 1` |
| Helpers.CartMatchesSpec | includes/helpers.php:194-206 | the matched IDs keep cart order (a subsequence of the cart IDs) and contain each enabled ID as often as the cart does, and no other ID |
| Helpers.FilterProductCart | includes/helpers.php:183-207 | an empty cart or enabled list gives false; otherwise the matches, or false when none qualify |
| Helpers.AdjustAccountTabOrder | includes/helpers.php:216-234 | every key keeps its value; without `customer-logout` the items are unchanged; with it, that key is last and the others keep their order |
| Helpers.SanitizedLookups | includes/helpers.php:453-476 | each key keeps its sanitised value, keys stay distinct, and with `$filter` exactly the entries that sanitise to empty are dropped |
| Helpers.SanitizedKeys | includes/helpers.php:460-475 | the output keys are a subsequence of the input keys (order kept), and all of them without `$filter` |
| Helpers.SanitizeTextRecursive | includes/helpers.php:453-476 | the loop builds exactly the sanitised map the lemmas above describe |
| Helpers.SortNats | includes/helpers.php:577-578 | `sort` yields a sorted permutation of its input |
| Helpers.SortedPermutationsEqual | includes/helpers.php:577-581 | two sorted lists that are permutations of each other are identical, which is why `===` after `sort` compares multisets |
| Helpers.CompareIdArrays | includes/helpers.php:570-582 | true exactly when the two lists, mapped through `absint`, are equal as multisets (duplicate counts matter) |
| Helpers.CompareIdArraysOrderFree | includes/helpers.php:570-582 | the comparison is symmetric and unaffected by the order of either list |
| Helpers.AbsIdsPermutation | includes/helpers.php:573-574 | mapping `absint` over permuted lists gives permuted results |
| Helpers.CheckAjaxConstants | includes/helpers.php:323-347 | a REST request, an autosave or a cron run always fails the check, and so does a non-admin when the admin check is asked for; otherwise it passes |
| Database.TransientKeysDistinct | includes/database.php:226-279 | each reader key names one ID, and the customer, product, relationship and all-customers keys never collide |
| Database.InstallTable | includes/database.php:97-131 | the table exists afterwards and the schema option holds `DB_VERS`; rows and cache are untouched |
| Database.InstalledVersionIsCurrent | includes/database.php:127 | after an install the stored version reads as `DB_VERS` (1) |
| Database.MaybeUpdateTable | includes/database.php:81-90 | it reinstalls exactly when the stored version differs from `DB_VERS`, and otherwise changes nothing |
| Database.UpdateAfterInstallIsNoOp | includes/database.php:84-89 | after an install the version check passes, so a second update does nothing |
| Database.TableCheckAsWritten | includes/database.php:42-55 | as written the check never gives the intended answer, and its result always asks for an install |
| Database.TableCheckAlwaysInstalls | includes/database.php:42-74 | as written the existence check returns nothing, so an install is always asked for; the intended check asks only when the table is missing |
| Database.MaybeInstallTable | includes/database.php:62-74 | as written: the table is always (re)installed and the version option rewritten |
| Database.MaybeInstallTableIntended | includes/database.php:62-74 | corrected: it installs exactly when the table was missing, and otherwise leaves the options alone |
| Database.AcceptedPrefix | includes/database.php:163-168 | the products before the returned position are all non-zero `product` posts, and the one at it is not |
| Database.NewRows | includes/database.php:160-175 | one row per written product |
| Database.Insert | includes/database.php:141-203 | no customer gives `missing_customer_id`, no products gives `missing_invalid_products`, and neither writes. Otherwise the rows for the accepted prefix are appended in order with one customer and one timestamp, the result is true only if every product was accepted, and earlier rows stay when it stops at an invalid product |
| Database.DeleteByCustomerUndoesInsert | includes/database.php:141-227 | deleting a customer removes exactly the rows an insert for that customer added |
| Database.DeleteByCustomer | includes/database.php:212-227 | no ID gives an error and no change; otherwise every row of the customer goes, other rows stay, and `woo_customer_interest_products_<id>` is cleared |
| Database.DeleteByProduct | includes/database.php:236-256 | a non-product gives `invalid_product_id`, a product that is not enabled gives `product_not_enabled`, and neither changes anything. Otherwise the product's rows go and `woo_product_interest_customers_<id>` is cleared |
| Database.DeleteByRelationship | includes/database.php:265-280 | no ID gives an error; otherwise the row with that ID goes and only `woo_customer_relationship_data_<id>` is cleared |
| Database.DeleteByRelationshipRemovesAtMostOne | includes/database.php:274-276 | with unique IDs at most one row is removed, and none when the ID is absent |
| Queries.ReadThrough | includes/queries.php:22-68 | the reply is found exactly when the key is cached afterwards and holds that value. A failed query reports `db_query_error`. Every other key is untouched |
| Queries.CachedValueWins | includes/queries.php:33 | without a bypass, a cached value is returned as is and nothing is written |
| Queries.FlushReadsDatabase | includes/queries.php:28-30 | with a bypass the reply is the query's answer: an error, the fresh value, or false |
| Queries.SecondReadAgrees | includes/queries.php:33-63 | after a successful read, a second read without bypass returns the same value from the cache and writes nothing |
| Queries.EmptyResultNotCached | includes/queries.php:49-57 | an empty query result writes nothing to the cache |
| Queries.EnabledProductsFresh | includes/queries.php:39-60 | the query lists each product carrying the enable meta exactly once, and nothing else; false when there is none |
| Queries.GetEnabledProducts | includes/queries.php:22-68 | a read-through of `woo_product_interest_ids`, bypassed by `$flush` or `WP_DEBUG` |
| Queries.AllCustomersKeyedByCustomer | includes/queries.php:119-132 | the customer map is keyed by the distinct customer IDs in the table, each under that customer's user data |
| Queries.GetAllCustomers | includes/queries.php:78-140 | a read-through of `woo_product_interest_customers_all` over that map |
| Queries.RowsFresh | includes/queries.php:176-200 | the rows with the given column value, in table order, and false when there is none |
| Queries.FilterSubsequence | includes/queries.php:176-200 | the selected rows keep the table order |
| Queries.RowsFreshEmpty | includes/queries.php:188-199 | the query comes back empty exactly when no row has the value |
| Queries.GetCustomersForProduct | includes/queries.php:150-210 | a non-product or a product that is not enabled gives an error before the cache is touched; otherwise a read-through of `woo_product_interest_customers_<id>` |
| Queries.GetProductsForCustomer | includes/queries.php:220-275 | no ID gives `missing_customer_id`; otherwise a read-through of `woo_customer_interest_products_<id>` |
| Queries.ReadAfterDeleteByCustomer | includes/queries.php:220-275 | after `delete_by_customer` the next read of that customer finds nothing, because the delete clears the same key the reader uses |
| Queries.FindRelationship | includes/queries.php:309-320 | the row found carries the ID; none exactly when no row does |
| Queries.EntryOf | includes/queries.php:332-341 | the entry carries the row's customer and product IDs with their user and post data |
| Queries.RelationshipRead | includes/queries.php:284-355 | no ID gives `missing_relationship_id`; a cached entry is returned unless `WP_DEBUG` is set, because `$flush` is never defined |
| Queries.GetDataByRelationship | includes/queries.php:284-355 | the method computes that read and its cache write |
| Queries.RelationshipReadDescribesRow | includes/queries.php:300-352 | on a miss, an existing row is found and described by its own customer and product |
| Queries.ReadAfterDeleteByRelationship | includes/queries.php:284-355 | after `delete_by_relationship` the next read of that ID finds nothing |
| Queries.AllSubscriptionData | includes/queries.php:392-403 | the result is keyed by the relationship IDs, in order |
| Queries.RelationshipIdsDistinct | includes/queries.php:392-400 | the relationship IDs of the table are distinct |
| Queries.GetAllSubscriptionData | includes/queries.php:362-404 | a failed query gives an error and an empty table gives false, neither touching the cache; otherwise every relationship ID maps once to its `get_data_by_relationship` result |
| TableViews.RowsWithId | includes/table-views.php:826-835 | a row is kept exactly when `absint` of its column equals the ID |
| TableViews.RowsWithIdSubsequence | includes/table-views.php:826-835 | the kept rows keep their order |
| TableViews.FilterById | includes/table-views.php:818-836 | null exactly for a null or empty dataset, ID 0 or an empty type; otherwise the rows whose `absint` of the column is the ID, and only those |
| TableViews.FilterByIdKeepsMatches | includes/table-views.php:818-836 | null exactly for an empty dataset, ID 0 or an empty type; otherwise the order-preserving list of matching rows |
| TableViews.MaybeFilter | includes/table-views.php:778-809 | without the submit flag or on another page the dataset is unchanged; a bad nonce redirects with `bad_nonce` |
| TableViews.ByProductSpec | includes/table-views.php:796-798 | the product step gives null exactly for an empty dataset or ID 0 when it applies; otherwise the rows matching it, empty exactly when none does |
| TableViews.MaybeFilterValid | includes/table-views.php:791-808 | with the submit flag, the list page and a valid nonce: null exactly when a filter bails (an empty dataset, ID 0, or a customer filter after a product filter that matched no row); otherwise exactly the rows matching the product filter when it applies and the customer filter when it is set |
| TableViews.MaybeFilterSubsequence | includes/table-views.php:781-806 | a filtered dataset is always a subsequence of the input |
| TableViews.ProductFilterNeedsProduct | includes/table-views.php:796-798 | a selected ID that is not a `product` post does not filter |
| TableViews.SortCompare | includes/table-views.php:887-898 | the comparison is -1, 0 or 1, and 0 exactly when both rows hold the same text in the sort column |
| TableViews.SortCompareTotal | includes/table-views.php:887-898 | any two rows are ordered one way or the other |
| TableViews.SortCompareAntisymmetric | includes/table-views.php:887-898 | two rows ordered both ways hold the same text in the sort column |
| TableViews.SortCompareTransitive | includes/table-views.php:887-898 | the order is transitive, so a sorted list is well defined |
| TableViews.DefaultOrderIsSignupAscending | includes/table-views.php:890-897 | with no `orderby`/`order` the rows ascend by `signup_date` under `strcmp` |
| TableViews.OtherOrderIsDescending | includes/table-views.php:890-897 | any order other than `asc` reverses the comparison |
| TableViews.InsertRowMultiset | includes/table-views.php:64 | an insertion step adds the new row and loses none |
| TableViews.InsertRowSorted | includes/table-views.php:64 | inserting into sorted rows leaves them sorted |
| TableViews.InsertRowWithKey | includes/table-views.php:64 | an insertion step moves the new row only past rows with another key, so each key's rows keep their order |
| TableViews.StableSortSorted | includes/table-views.php:64 | `usort` leaves the rows ordered by `sort_data` |
| TableViews.StableSortPermutation | includes/table-views.php:64 | `usort` leaves a permutation of its input |
| TableViews.StableSortStable | includes/table-views.php:64 | `usort` is stable, as in PHP 8: for every key, the rows carrying it keep their input order |
| TableViews.SortedSameKeysEqual | includes/table-views.php:64 | two sorted lists with the same rows, in the same order, under every key are equal |
| TableViews.StableSortUnique | includes/table-views.php:64 | any sorted arrangement that keeps each key's rows in input order is exactly the modelled result, whatever algorithm produced it |
| TableViews.SortedInputKept | includes/table-views.php:64 | rows already in order are left as they are |
| TableViews.AllTiedKeepsOrder | includes/table-views.php:64 | when every row holds the same sort text, as every row does for the empty `signup_date` that line 760 sets, the list keeps the order `table_data` built |
| TableViews.SortRows | includes/table-views.php:64 | the in-place sort leaves exactly the stable sort of its input, hence sorted and a permutation |
| TableViews.InsertLast | includes/table-views.php:64 | one pass of swaps places the next row as the insertion step does, leaving the rest of the array alone |
| TableViews.Swap | includes/table-views.php:64 | an exchange of two cells keeps the multiset |
| TableViews.SignupsTable.SortDataset | includes/table-views.php:64 | sorting a copy of the dataset in an array gives the stable sort of the dataset |
| TableViews.CurrentPage | includes/table-views.php:69 | the current page is at least 1 |
| TableViews.Page | includes/table-views.php:79 | a page holds at most 10 rows |
| TableViews.TotalPages | includes/table-views.php:75 | the page count is ceil(count / 10) |
| TableViews.RowOnPage | includes/table-views.php:67-79 | row k appears on page k/10 + 1, at position k mod 10, and that page is within the page count |
| TableViews.WithoutRelationshipsKeeps | includes/table-views.php:396-398 | after the per-ID deletes, a row remains exactly when its ID was not submitted |
| TableViews.PurgeTransients | includes/table-views.php:445-475 | one key per distinct `absint` of the posted IDs is deleted, and nothing else |
| TableViews.PurgeCustomerTransientsAsWritten | includes/table-views.php:445-456 | as written: the `woo_customer_subscribed_products_` keys are deleted |
| TableViews.PurgeCustomerTransients | includes/table-views.php:445-456 | corrected: the keys the customer reader uses are deleted |
| TableViews.PurgeProductTransients | includes/table-views.php:464-475 | the `woo_product_interest_customers_` keys of the posted products are deleted |
| TableViews.SubscribedKeysMissReaderKeys | includes/table-views.php:453 | no purged key equals any `woo_customer_interest_products_<id>` key |
| TableViews.PurgeAsWrittenLeavesStaleList | includes/table-views.php:453 | after the bulk purge as written, the customer's cached product list is still returned |
| TableViews.PurgeRefreshesCustomerList | includes/table-views.php:445-456 | with the corrected prefix, the next read of a purged customer goes to the database |
| TableViews.NothingPurged | includes/table-views.php:401-408 | with no IDs posted, nothing is purged |
| TableViews.RelationshipKeysAppend | includes/table-views.php:396-398 | each delete adds its own relationship key to the cleared set |
| TableViews.DeleteRelationships | includes/table-views.php:396-398 | the loop leaves the table without the submitted relationships and clears their keys |
| TableViews.SignupsTable.FilterDatasetById | includes/table-views.php:818-836 | the loop over the dataset computes `FilterById` |
| TableViews.SignupsTable.MaybeFilterDataset | includes/table-views.php:778-809 | computes `MaybeFilter` |
| TableViews.SignupsTable.ProcessBulkUnsubscribe | includes/table-views.php:388-412 | no IDs do nothing. Otherwise the submitted relationships are deleted and their keys cleared, the posted customers' `woo_customer_subscribed_products_` keys and products' `woo_product_interest_customers_` keys are purged, and the redirect reports the number of submitted IDs |
| TableViews.SignupsTable.ProcessBulkExport | includes/table-views.php:421-436 | the IDs are stored in the export option and the redirect carries the export flag and nonce |
| TableViews.SignupsTable.ProcessBulkAction | includes/table-views.php:338-379 | it does nothing unless a bulk key is the action on the list page. A bad nonce gives `bad_nonce` before the IDs are looked at, and missing IDs give `no_ids`. Otherwise it unsubscribes (with the customer purge as written) or exports the `absint` IDs |
| TableViews.BulkTarget | includes/table-views.php:338-379 | no redirect exactly when no bulk action applies. A bad nonce gives `bad_nonce`. With IDs posted, the unsubscribe redirect counts them and the export redirect carries the nonce |
| TableViews.BulkStore | includes/table-views.php:388-436 | a request stopped at a guard changes nothing. The export changes only the options, and the unsubscribe leaves the options alone and only removes transients |
| TableViews.BulkUnsubscribeRemovesPosted | includes/table-views.php:396-398 | after a bulk unsubscribe, a row remains exactly when its ID was not posted (ID 0 is never deleted) |
| TableViews.SignupsTable.RunBulkAction | includes/table-views.php:88 | the redirect is `BulkTarget` of the request, the table, transients and options become `BulkStore` of the old ones, and the counter, product meta and table flag are unchanged |
| TableViews.SignupsTable.SetPaginationArgs | includes/table-views.php:72-76 | the item count, ten per page, and the page count |
| TableViews.SignupsTable.ListDataset | includes/table-views.php:64-91 | the pagination follows the rows. The page is listed exactly when no bulk action applies, and then the items are the current page of the stable sort. Otherwise the bulk redirect ends the page and the items are unchanged. The store becomes `BulkStore` of the old one |
| TableViews.SignupsTable.PrepareItems | includes/table-views.php:50-91 | a filter redirect or a null dataset ends the page and leaves the site unchanged. Otherwise the pagination follows the filtered dataset and the items are the current page of its stable sort, unless the bulk redirect ends the page. The store becomes `BulkStore` of the old one, and the counter, product meta and table flag never change |
| AccountPage.SetupArgs | includes/account.php:156-162 | the basic arguments always carry `success = absint` and the action flag, and `errcode` exactly when a code is given |
| AccountPage.AccountRedirectArgs | includes/account.php:156-168 | each key reads the custom value if given, else `success = absint`, the action flag 1, and `errcode` only when non-empty |
| AccountPage.RedirectAccountPageAction | includes/account.php:153-169 | outside admin it redirects with those arguments; in admin it does not redirect |
| AccountPage.RedirectCarriesBasics | includes/account.php:156-162 | without custom arguments the redirect carries `success`, the action flag, and `errcode` exactly when one is given |
| AccountPage.ReadOriginals | includes/account.php:98 | the posted IDs split on commas, or a bypassing read of the customer's rows; that read writes the customer key |
| AccountPage.CanonicalMatch | includes/account.php:132 | for a number or its decimal text, loose `in_array` equality is equality of `absint`s |
| AccountPage.KeepOutExact | includes/account.php:129-138 | an original is removed exactly when its `absint` is not loosely among the kept IDs, and the removals keep their order |
| AccountPage.AllKeptRemovesNothing | includes/account.php:129-138 | when every original is kept, nothing is removed |
| AccountPage.MatchingRemovesNothing | includes/account.php:119-126 | with canonical kept IDs, equal multisets mean the removal loop would remove nothing either |
| AccountPage.RemoveUnkept | includes/account.php:129-138 | the loop issues one removal for each unkept original, in order |
| AccountPage.AccountInterest | includes/account.php:116 | the kept IDs are `absint` numbers, so they are canonical |
| AccountPage.AccountInterestMatches | includes/account.php:116-132 | `in_array` against the kept IDs is membership among the `absint`s of the posted IDs |
| AccountPage.ReconcileRemovesUnposted | includes/account.php:116-141 | the removals are exactly the originals whose `absint` was not posted, each passed the customer ID; kept IDs that are not originals are ignored and nothing is added |
| AccountPage.ReconcileReportsSuccess | includes/account.php:106-141 | once past the empty check, the handler redirects with `success-change-interests` and `success = 1` |
| AccountPage.CheckUserProductInterestChanges | includes/account.php:67-143 | admin or Ajax context, a bad nonce, another action or another referer do nothing. A missing customer redirects with `missing-customer-id` and success 0. Otherwise the outcome and removals reconcile the originals read for that customer |
| AccountPage.EndpointNotice | includes/account.php:176-204 | off the endpoint nothing is shown, and without the action flag the placeholder. The type is `success` exactly when `success` is non-empty. An explicit message wins over `notice_text` of the code, which defaults to `unknown` |
| AccountPage.NoticeDefaultIsUnknown | includes/account.php:194-197 | with no code and no message the text is the unknown-error text |
| AccountPage.AddEndpointMenuItem | includes/account.php:237-246 | the tab map has the front var under the title, every other entry as before, and `customer-logout` still last |
| AjaxActions.ErrorResponse | includes/ajax-actions.php:112-129 | the payload carries the code and its `notice_text`, generic exactly for unlisted codes |
| AjaxActions.SuccessResponse | includes/ajax-actions.php:139-158 | the payload carries the markup, and the empty-list text exactly when the markup is falsy |
| AjaxActions.SuccessUsesChangeText | includes/ajax-actions.php:139 | the default message code reads as the interests-changed text |
| AjaxActions.MissingCustomerResponseAsWritten | includes/ajax-actions.php:45-47 | the reply to a missing customer carries `no-customer-id` and the generic error text |
| AjaxActions.MissingCustomerAsWrittenIsGeneric | includes/ajax-actions.php:45-47 | as written, a missing customer shows only the generic error text |
| AjaxActions.MissingCustomerNamesTheField | includes/ajax-actions.php:45-47 | corrected: the missing-customer message names the customer ID, as on the account form |
| AjaxActions.AjaxInterest | includes/ajax-actions.php:71 | one kept ID per comma piece of `interest_ids` |
| AjaxActions.SaveCustomerProductInterest | includes/ajax-actions.php:27-103 | failing constants or another action end silently. A bad nonce errs with `invalid-nonce` before the customer is checked, and a missing customer errs with `no-customer-id`, shown as the generic text. Otherwise the response and removals reconcile the originals, with no customer passed to the removals |
| AjaxActions.JoinedIdsAreCanonical | includes/ajax-actions.php:71 | decimal IDs joined with ',' split back into their canonical texts |
| AjaxActions.AjaxRemovesUnposted | includes/ajax-actions.php:71-96 | for IDs posted as a joined decimal list, the removals are exactly the originals whose `absint` is not posted, whether or not the multiset shortcut is taken |
| Checkout.FieldOffersEnabledCartProducts | includes/checkout.php:31-61 | the field appears only for a logged-in customer with a cart and a found enabled list. It offers only enabled cart products, and its value parses back to them |
| Checkout.DisplayProductInterestFields | includes/checkout.php:31-61 | without a login or cart nothing is read; otherwise the field follows the enabled-products read and its cache write |
| Checkout.MergeProductInterestData | includes/checkout.php:70-95 | without a login, a posted value or a valid nonce the data is unchanged; otherwise `product-interest` is the `absint` of each comma piece and every other key is kept |
| Checkout.MergeRoundTrip | includes/checkout.php:88-91 | joining non-empty IDs with ',' (includes/layout.php:33) and merging gives back the same list, unless the list is just `[0]` |
| Checkout.ZeroAloneIsDropped | includes/checkout.php:73-85 | the joined text "0" counts as empty, so the data is left unchanged |
| Checkout.ErrorsDistinct | includes/checkout.php:121-142 | the two error kinds never coincide, and each names its ID |
| Checkout.ProductErrorsExact | includes/checkout.php:121-142 | one ID raises `invalid_product_id` exactly when it is not a product and `product_not_enabled` exactly when it is not enabled, independently, so at most two errors |
| Checkout.ValidationErrorsExact | includes/checkout.php:105-146 | over the list, each error kind is raised exactly for the listed IDs that fail its test, and there are at most two errors per ID |
| Checkout.ValidateProductInterestData | includes/checkout.php:105-146 | no login or no IDs gives no errors; otherwise the loop collects those errors in ID order |
| Checkout.UpdateCustomerProductInterest | includes/checkout.php:156-185 | `insert` runs once with the parsed list exactly when the customer is logged in, the customer ID is set and the data and list are non-empty; otherwise nothing is written |
| Checkout.AcceptedPrefixAll | includes/database.php:163-168 | when every product is accepted, `insert` writes all of them |
| Checkout.ValidatedOrderInsertsAll | includes/checkout.php:105-185 | a list that passed validation is inserted in full |
| PostMeta.SavedMeta | includes/post-meta.php:153-157 | the product's flag is "1" for a non-empty checkbox and absent otherwise; other products keep theirs |
| PostMeta.SaveProductSubscribe | includes/post-meta.php:132-166 | nothing changes unless the post is a product, the user may edit it and the nonce is valid. Otherwise the flag follows the checkbox and `woo_product_interest_ids` is cleared |
| PostMeta.NextEnabledReadSeesSave | includes/post-meta.php:163 | the cleared key is the one `get_enabled_products` reads (includes/queries.php:25), so the next read lists the product exactly when its box was checked |
| PostMeta.SubscribeCheckbox | includes/post-meta.php:104-123 | the box is checked exactly when the product is enabled |
| PostMeta.CustomersMetaboxShown | includes/post-meta.php:62-71 | the customers metabox is added exactly for enabled products |
| PostMeta.SavedCheckboxShowsAgain | includes/post-meta.php:104-166 | after a save, the editor shows the box and the metabox exactly as submitted |
| Admin.PromptShown | includes/admin.php:27-61 | the prompt is shown only while the prompt option is set |
| Admin.ResultNoticeFor | includes/admin.php:68-101 | no result gives no notice; a message is defined only for `enabled` and `done` |
| Admin.EnabledAllSpec | includes/admin.php:150-165 | every listed product carries the flag and every other product keeps its own |
| Admin.EnableAllIdempotent | includes/admin.php:150-165 | enabling all twice leaves the same flags as once |
| Admin.EnableProducts | includes/admin.php:156-158 | the loop sets the flag on each listed product in turn |
| Admin.ActivationPromptRequest | includes/admin.php:108-179 | `yes` enables every product, deletes the option and redirects with `enabled`. `no` only deletes it and redirects with `done`. After either the prompt is no longer shown and the result has a message. Any other value does nothing |
| Admin.AnsweredPromptIsGone | includes/admin.php:30-35 | once the prompt option is deleted, the prompt notice is not shown |
| QueryMods.AddAccountEndpointVars | includes/query-mods.php:36-45 | the result contains the front var; the list is unchanged if it already did, and otherwise has the front var appended |
| QueryMods.AddAccountEndpointVarsIdempotent | includes/query-mods.php:36-45 | applying it twice equals once, the original list is a prefix, and the front var is added at most once |

## Left out

- **The SQL text and the `$wpdb` calls.** Each query is its value over the table, plus a `queryFailed` boolean for a database error.
- **Column names.** The code uses three names for the signup date. The table declares `signup_date` (includes/database.php:117). The queries order by and read `created` (includes/queries.php:184,249,313,347). Line 347 stores that value under the key `signup`, and includes/table-views.php:760 reads `signup_date` from the same data, which is never set; so every list row has an empty `signup_date` (see TableViews.AllTiedKeepsOrder). The names are not reconciled. Admin list rows are abstract string maps, and a query that fails on such a name is covered by `queryFailed`.
- **`Queries\remove_single_relationships` and `Queries\get_all_products`.** They are not part of this model because the plugin does not define them. The removals are recorded as `Removal` values, and the product list is a parameter.
- **HTML.** This covers the notice markup, the list markup from `includes/layout.php`, the column renderers, `table_data`, `display_interested_customers`, `add_endpoint_title`, `add_endpoint_content`, the filter dropdowns and the `load_*_assets` enqueues. Only the markup's truthiness is modelled, as `Markup`.
- **Nonces, capabilities and the request context.** Nonce checks, capability checks, `is_admin`, `wp_doing_ajax`, the referer test and the REST/autosave/cron constants are booleans. `get_pagenum` is `max(1, paged)`.
- **Sanitising functions.** `sanitize_text_field` and `esc_attr` are the identity on posted IDs and codes. In `sanitize_text_recursive` the sanitiser is a function parameter.
- Database.Insert: the `db_insert_error` branch is not modelled. An insert whose SQL fails is not distinguished from a successful one.
- **Integer width.** `intval`/`absint` read a leading decimal integer, unbounded. Neither 64-bit saturation nor float strings (`"1e3"`, `"1.5"`) are modelled.
- Queries.ReadThrough: a cached value of an unexpected shape is not modelled. `EnabledIds` and `InterestOf` read it as no IDs.
- **Type errors.** A `WP_Error` object reaching `in_array` or `array_map` is a PHP `TypeError`. It is modelled as a fatal outcome (`AccountFatal`, `AjaxFatal`, `CheckoutFatal`), not as an exception. The same goes for a null dataset reaching `usort` (`TypeErrorFatal`).
- Admin.ActivationPromptRequest: the redirect URL is reduced to its `prod-interest-enable-result` value. The enable loop does not clear the cached enabled-products list (includes/admin.php:150-165), and the model keeps that.
- **Transient expiry.** Every `set_transient` passes an expiry of `HOUR_IN_SECONDS` (includes/queries.php:63,135,205,270,350). The model's transients never expire, so each cache-hit property holds only within the hour after the entry was written.
- Queries.CachedValueWins: holds only until the cached entry expires, an hour after it was written.
- Queries.SecondReadAgrees: holds only while the entry the first read wrote has not expired.
- TableViews.PurgeAsWrittenLeavesStaleList: the stale list is served until its entry expires, not for ever.
- **`process_single_action`.** Its body is empty (includes/table-views.php:867-869), so the call in `prepare_items` is left out.
- **Other files.** `build_date_display` and `clean_export` depend on time, locale and encoding. Also out are `includes/export.php`, `includes/commands.php`, `includes/settings-tab.php`, the activation, deactivation and uninstall hooks, the bootstrap files and the JavaScript.

## Findings

| source | as written | input that shows it | evidently intended | confidence | as-written member | corrected member |
|---|---|---|---|---|---|---|
| includes/database.php:42-55 | `maybe_table_exists` computes whether the table exists but has no `return`, so `maybe_install_table` always sees a falsy value and reinstalls | any call of `maybe_install_table` when the table already exists | return the comparison, and install only when the table is missing | high (not executed) | Database.TableCheckAlwaysInstalls | Database.MaybeInstallTableIntended |
| includes/table-views.php:453 | the bulk purge deletes `woo_customer_subscribed_products_<id>`, but customers' product lists are cached under `woo_customer_interest_products_<id>` (includes/queries.php:228) | bulk-unsubscribe a relationship of customer 7 after `get_products_for_customer(7)` has cached its list; the next read still returns the cached list | purge the key the reader and `delete_by_customer` use | high (not executed) | TableViews.PurgeAsWrittenLeavesStaleList | TableViews.PurgeRefreshesCustomerList |
| includes/ajax-actions.php:46 | the Ajax handler reports a missing customer with the code `no-customer-id`, which `notice_text` does not list, so the payload shows the generic error text | an Ajax save with an empty `customer_id` | `missing-customer-id`, the code the account form sends for the same case (includes/account.php:91) and `notice_text` knows | medium (not executed) | AjaxActions.MissingCustomerAsWrittenIsGeneric | AjaxActions.MissingCustomerNamesTheField |

The handlers use the code as written: the bulk unsubscribe calls `TableViews.PurgeCustomerTransientsAsWritten`, and the Ajax handler answers a missing customer with `AjaxActions.MissingCustomerResponseAsWritten`. The corrected `TableViews.PurgeCustomerTransients`, `AjaxActions.MissingCustomerResponse` and `Database.MaybeInstallTableIntended` stand beside them with the intended property proved.
