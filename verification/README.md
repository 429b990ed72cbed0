# WooCommerce orders index: synchronisation model

A Dafny model of the synchronisation core of the "WC Orders Index for WPSWA"
plugin. The plugin adds a WooCommerce orders index to WP Search with Algolia.

- An order is projected into at most one flat search record (`get_records`).
- Each record lives at the positional address `{order_id}-{record_index}`.
- Each order keeps a record-count ledger in its own meta (`algolia_orders_records_count`).
- `update_records` deletes the counted addresses, writes the new records, then stores the new count.
- A change watcher routes four WordPress hooks through fixed guards to the index. The guards are the autosave skip, the `supports` check and exception swallowing.

Modules, one per component:

- `ObjectIds` (`object_ids.dfy`): the `Address(orderId, recordIndex)` pair and its objectID string `ToString`. `Parse` recovers every address from its `ToString` form. `ObjectIdRange` is the address range `delete_item` builds.
- `Orders` (`orders.dfy`): the order as the index reads it (`Order`, `Item`). `Env` is the host environment: whether WooCommerce is loaded, the autosave flag, the order store behind `wc_get_order`, the countries table, and the status-name and HTML-escaping functions.
- `Records` (`records.dfy`): the `Record` datatype and `get_records`.
- `OrdersIndex` (`orders_index.dfy`): the state and the index operations. The state is the remote index `map<Address, Record>` plus the ledger `map<OrderId, int>`. The operations are the ledger read and write, `delete_item`, `update_records`, the host's `update_records` step and the host's `sync`.
- `OrdersWatcher` (`orders_watcher.dfy`): `sync_item`, `delete_item` and the four hook handlers.

Exceptions are modelled as data. Every index operation returns an `Outcome`:

- the resulting state;
- the remote calls it issued (`deleteObjects` / `saveObjects`);
- the exception it raised, if any.

Which step throws is a parameter (`faults`). A step that throws has no effect, and the steps before it keep theirs. The watcher turns a raised exception into a logged value (`Handled.swallowed`). Its result type has no way to propagate one.

The central invariant is `OrdersIndex.Covered`. It says that every remote entry of an order lies below that order's ledger count, so deleting the counted range removes the whole order.

How the model reads the code:

- `supports` tests `class_exists('\WC_Order') && $item instanceof \WC_Order`. PHP's `instanceof` is false when the class does not exist, so this is the same as "the item is a `WC_Order`" (`Item.WcOrder?`).
- `should_index` admits every order (includes/Indices/OrdersIndex.php:45-48). The host's `sync` is therefore modelled as: refuse an unsupported item, else `update_records(get_records(item))`.
- The host's `update_records` is not part of this model. It is assumed to act as the comment at includes/Indices/OrdersIndex.php:321 describes:
  - an empty record list goes to `delete_item`;
  - otherwise one `saveObjects` call upserts each record at its objectID.
- `delete_item` never calls `set_post_records_count` (includes/Indices/OrdersIndex.php:264-284), so a delete leaves the ledger as it is, and so does `OrdersIndex.DeleteItem`. Repeating it issues the same `deleteObjects` call again and leaves the same state (`OrdersIndex.DeleteItemIdempotent`).
- Both deletion handlers call `sync_item` (includes/Watchers/OrdersWatcher.php:67-84), not the watcher's `delete_item`. See "## Findings".

## Model

| member | source | states |
|---|---|---|
| ObjectIds.ParseInverts | includes/Indices/OrdersIndex.php:295-309 | parsing the objectID string `{order_id}-{record_index}` of an address gives back exactly that order id and record index |
| ObjectIds.ToStringInjective | includes/Indices/OrdersIndex.php:295-309 | two addresses have the same objectID string if and only if they are the same address, so keying the remote index by pairs or by strings is equivalent |
| ObjectIds.ObjectIdRange | includes/Indices/OrdersIndex.php:268-272 | the counting loop yields `id-0 .. id-(count-1)` in order and nothing else; it is empty for a zero or negative count |
| Records.GetRecords | includes/Indices/OrdersIndex.php:58-142 | no record when `WC_VERSION` is undefined or the item is not a `WC_Order`; otherwise exactly one record, the order's projection, addressed at slot 0 |
| Records.Project | includes/Indices/OrdersIndex.php:69-125 | the record carries the order id at address `(id, 0)` and the status display name; a missing creation date gives timestamp 0 and an empty date string; the customer block is present iff the order has a user, with display name `first last`; both country fields follow the country-name rule |
| Records.ItemEntries | includes/Indices/OrdersIndex.php:127-139 | one `items` entry per line item, in iteration order, with the item id, escaped name and quantity; the sku is the product's sku when the product is a `WC_Product` and `''` otherwise |
| Records.SameAddressSameBlocks | includes/Indices/OrdersIndex.php:99-125 | billing and shipping blocks are built in parallel under the same country rule, so an order shipped to its billing address yields equal shared fields |
| OrdersIndex.SupportsAdmitsOnlyOrders | includes/Indices/OrdersIndex.php:32-35 | `supports` holds exactly for a `WC_Order`; sync and delete of anything else fail with "not supported" and leave the state untouched with no remote call |
| OrdersIndex.WriteLedger | includes/Indices/OrdersIndex.php:365-368 | a successful save stores the count for that order only and issues no remote call; a failed save changes nothing and raises |
| OrdersIndex.LedgerReadAfterWrite | includes/Indices/OrdersIndex.php:354-368 | after storing a count for a loadable order, reading its ledger gives that count, and other orders read as before |
| OrdersIndex.LedgerReadAfterUpdate | includes/Indices/OrdersIndex.php:340-357 | after a failure-free `update_records`, the ledger of a loadable order reads the number of records just written; an order `wc_get_order` cannot load reads 0 whatever was stored |
| OrdersIndex.DeleteItem | includes/Indices/OrdersIndex.php:264-284 | refuses an unsupported item; issues no remote call when the count is 0; otherwise one `deleteObjects` on exactly the counted addresses, after which precisely those entries are gone and all others are kept; the ledger is never changed |
| OrdersIndex.DeleteItemIdempotent | includes/Indices/OrdersIndex.php:264-284 | deleting an item twice leaves the same state as deleting it once |
| OrdersIndex.Upsert | includes/Indices/OrdersIndex.php:338 | the host write adds exactly the records' addresses to the remote index and keeps every other entry as it was |
| OrdersIndex.UpsertLastWins | includes/Indices/OrdersIndex.php:338 | after the host write, each address holds the last record written to it |
| OrdersIndex.ParentUpdateRecords | includes/Indices/OrdersIndex.php:321-338 | the host step: an empty list goes to `delete_item`; a non-empty list is one `saveObjects` call that upserts the records and leaves the ledger alone |
| OrdersIndex.UpdateRecords | includes/Indices/OrdersIndex.php:319-344 | without failures and with records, the calls are `deleteObjects` on the old counted range (omitted when it is empty) followed by `saveObjects`; afterwards the ledger equals the number of records; `delete_item` inside it never refuses the order |
| OrdersIndex.UpdateRecordsFrame | includes/Indices/OrdersIndex.php:319-344 | for records addressed to the order, other orders' remote entries and ledger values are unchanged, whichever step fails |
| OrdersIndex.UpdateRecordsKeepsCovered | includes/Indices/OrdersIndex.php:319-344 | for a loadable order whose ledger covers its entries, the ledger still covers them after `update_records`, whatever remote call fails, as long as the ledger save succeeds |
| OrdersIndex.UpdateRecordsExactSlots | includes/Indices/OrdersIndex.php:319-344 | starting from a covering ledger, after a failure-free `update_records` the order occupies exactly slots `0 .. n-1`, holding the new records, so a shrinking record set leaves no stale entry |
| OrdersIndex.UpdateRecordsEffect | includes/Indices/OrdersIndex.php:319-344 | without failures, `update_records` equals the reference effect "remove the counted range, upsert the records, store the count", for empty and non-empty lists alike |
| OrdersIndex.SyncEffectIdempotent | includes/Indices/OrdersIndex.php:319-344 | the reference effect of `update_records` with at most one record at slot 0, applied twice, leaves the same state as applied once |
| OrdersIndex.SyncIdempotent | includes/Indices/OrdersIndex.php:319-344 | syncing an unchanged order twice yields the same remote index and ledger as syncing it once |
| OrdersIndex.SyncPreservesCovered | includes/Indices/OrdersIndex.php:319-344 | a sync of a loadable order keeps every remote entry inside its order's counted range, whatever remote call fails, as long as the ledger save succeeds |
| OrdersIndex.LedgerSaveFailureBreaksCover | includes/Indices/OrdersIndex.php:338-342 | when the ledger save fails after a successful write, a new order's entry at slot 0 sits outside its counted range, where a later `delete_item` cannot reach it |
| OrdersIndex.ShrinkFromThree | includes/Indices/OrdersIndex.php:319-344 | with a stored count of 3 and one new record, addresses `id-0`, `id-1`, `id-2` are deleted, then `id-0` is written, and the ledger becomes 1 |
| OrdersIndex.GrowFromNothing | includes/Indices/OrdersIndex.php:319-344 | a new order with no stored count gets no delete call; `id-0` is written and the ledger becomes 1 |
| OrdersWatcher.SyncItem | includes/Watchers/OrdersWatcher.php:93-108 | during an autosave, or for an unsupported item, nothing happens and no remote call is made; otherwise the index sync runs and any exception it raises is caught; a "not supported" exception never arises |
| OrdersWatcher.DeleteItem | includes/Watchers/OrdersWatcher.php:118-129 | an unsupported item is ignored; otherwise the index's `delete_item` runs with any exception caught; the ledger never changes |
| OrdersWatcher.DeleteIgnoresAutosave | includes/Watchers/OrdersWatcher.php:118-122 | during an autosave `sync_item` issues no call and changes nothing, while `delete_item` still issues one `deleteObjects` on exactly the counted addresses and removes exactly those entries |
| OrdersWatcher.Dispatch | includes/Watchers/OrdersWatcher.php:26-84 | all four hooks, both deletion hooks included, go to `sync_item`; the legacy hook first resolves the post id and does nothing when it resolves to no order |
| OrdersWatcher.DeletionHookKeepsRecord | includes/Watchers/OrdersWatcher.php:67-70 | as written, `woocommerce_before_delete_order` on an order, with WooCommerce loaded and no autosave, leaves the order's record at `id-0` |
| OrdersWatcher.DeletionHookOrphansRecord | includes/Watchers/OrdersWatcher.php:67-70 | as written, once WooCommerce removes the order after `woocommerce_before_delete_order`, the rewritten entry at `id-0` lies outside the order's counted range (its ledger reads 0), so the covering-ledger invariant is broken |
| OrdersWatcher.DispatchIntended | includes/Watchers/OrdersWatcher.php:59-84 | corrected routing: the two deletion hooks go to the watcher's `delete_item`; the other hooks behave as written |
| OrdersWatcher.IntendedDeletionClearsOrder | includes/Watchers/OrdersWatcher.php:59-84 | with the corrected routing and a covering ledger, a deletion hook leaves no remote entry of the order and raises nothing |
| OrdersWatcher.DispatchPreservesCovered | includes/Watchers/OrdersWatcher.php:26-108 | every hook as written keeps the covering-ledger invariant at the moment the hook returns, whenever the ledger save does not fail and the hook's order is the stored one |
| OrdersWatcher.DispatchIntendedPreservesCovered | includes/Watchers/OrdersWatcher.php:59-129 | with the corrected routing every hook still keeps the covering-ledger invariant under the same conditions |

## Findings

| source | as written | input that shows it | evidently intended | confidence | as-written member | corrected member |
|---|---|---|---|---|---|---|
| includes/Watchers/OrdersWatcher.php:67-84 | both deletion handlers call `sync_item`. That rewrites the order's record and stores its count. | any order `o` with WooCommerce loaded and no autosave, passed to `woocommerce_before_delete_order`: afterwards `o.id-0` still holds the order's record | the deletion handlers call the watcher's `delete_item`, which is otherwise never called, and remove every counted address of the order | medium; not executed | OrdersWatcher.DeletionHookKeepsRecord | OrdersWatcher.DispatchIntended |

`OrdersWatcher.DeletionHookOrphansRecord` shows the consequence: once the order is gone from the store, that entry is outside its counted range and no later delete reaches it. `OrdersWatcher.IntendedDeletionClearsOrder` proves the intended property of the corrected routing. `OrdersWatcher.DispatchIntendedPreservesCovered` proves that the corrected routing keeps the ledger invariant as well.

## Left out

- `get_admin_name`, `get_id`, `get_settings`, `get_synonyms`: constant configuration data with no behaviour. The index id `orders` and the ledger meta key `algolia_orders_records_count` built from it are not modelled: the ledger is a map keyed by order id.
- `get_re_index_items_count`, `get_items`, `is_hpos_enabled`: SQL queries and host-environment probes.
- `apply_filters` hooks are treated as the identity. This covers the objectID filter (includes/Indices/OrdersIndex.php:303), the item-name filter (line 135) and the wait filter (line 334).
- The `$wait` flag and `->wait()`: remote acknowledgement is network behaviour. Deletes take effect at once.
- `error_log` calls: the log lines are not modelled. A caught exception is kept as `Handled.swallowed`.
- The `order_total` float is a `real` with no rounding. The localized date `date_i18n` is an opaque string carried by the order's `Date`.
- `esc_html` and `wc_get_order_status_name` are environment functions (`Env.escHtml`, `Env.statusName`). Their WordPress and WooCommerce implementations are not part of this model.
- Host `Algolia_Index` internals are not part of this model. This includes `sync`, `assert_is_supported`, record sanitisation and the real `update_records`. Only the steps described above are assumed.
- OrdersIndex.DeleteItem: a `deleteObjects` call that fails is modelled as having no effect. A network failure could also delete only part of the addresses. Removing entries never breaks `Covered`, so the invariant lemmas would still hold.
- OrdersIndex.ParentUpdateRecords: a `saveObjects` call that fails is modelled as having no effect. A partial write is not modelled.
- The order store `Env.orders` is fixed for the whole model. WooCommerce removing an order after the deletion hooks return is not modelled as an operation. So `OrdersWatcher.DispatchPreservesCovered` speaks of the state when a hook returns; `OrdersWatcher.DeletionHookOrphansRecord` states what the removal does to that state.
- Concurrent syncs of the same order: the model is sequential.
- Hook registration (`watch`), plugin bootstrap, script loading and the browser autocomplete UI are WordPress glue. The four hooks appear only as the `Hook` datatype.
