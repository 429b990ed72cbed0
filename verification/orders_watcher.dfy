/**
 * The change watcher of the orders index: four WordPress hooks, each routed
 * through a guard sequence (autosave skip, `supports` check, exception
 * swallowing) to the index. The watcher never lets an index failure escape:
 * a raised exception is logged and the hook returns normally.
 */
module OrdersWatcher {
  import opened Wrappers
  import opened ObjectIds
  import opened Orders
  import opened Records
  import Index = OrdersIndex

  /** The hooks the watcher subscribes to, with the arguments WordPress passes. */
  datatype Hook =
    | ProcessShopOrderMeta(orderId: OrderId, item: Item)  // `woocommerce_process_shop_order_meta`
    | NewOrder(orderId: OrderId, item: Item)              // `woocommerce_new_order`
    | BeforeDeleteOrder(orderId: OrderId, item: Item)     // `woocommerce_before_delete_order`
    | BeforeDeletePost(postId: OrderId)                   // `before_delete_post` (legacy storage)

  /**
   * What a handler leaves behind: the state, the remote calls issued, and the
   * exception the watcher caught and logged instead of propagating.
   */
  datatype Handled = Handled(state: Index.State, calls: seq<Index.RemoteCall>, swallowed: Option<Index.Failure>)

  /** The `catch` around an index call: the exception becomes a logged value. */
  function Caught(o: Index.Outcome): (h: Handled) {
    Handled(o.state, o.calls, o.failure)
  }

  /** The hook is one of the two order-deletion hooks. */
  predicate IsDeletion(hook: Hook) {
    hook.BeforeDeleteOrder? || hook.BeforeDeletePost?
  }

  /** The item a handler hands on; the legacy hook resolves it from the raw post id. */
  function HookItem(env: Env, hook: Hook): (item: Item)
    ensures hook.BeforeDeletePost? ==> item == LoadOrder(env, hook.postId)
    ensures !hook.BeforeDeletePost? ==> item == hook.item
  {
    match hook
    case ProcessShopOrderMeta(_, item) => item
    case NewOrder(_, item) => item
    case BeforeDeleteOrder(_, item) => item
    case BeforeDeletePost(postId) => LoadOrder(env, postId)
  }

  /**
   * `sync_item`: nothing during an autosave, nothing for an unsupported item,
   * otherwise the index sync with any exception caught.
   */
  function SyncItem(env: Env, st: Index.State, item: Item, faults: set<Index.Step>): (h: Handled)
    ensures env.doingAutosave ==> h == Handled(st, [], None)
    ensures !Index.Supports(item) ==> h == Handled(st, [], None)
    ensures !env.doingAutosave && Index.Supports(item) ==>
              h.state == Index.Sync(env, st, item, faults).state
              && h.swallowed == Index.Sync(env, st, item, faults).failure
    ensures h.swallowed != Some(Index.NotSupported)
  {
    if env.doingAutosave then Handled(st, [], None)
    else if !Index.Supports(item) then Handled(st, [], None)
    else Caught(Index.Sync(env, st, item, faults))
  }

  /**
   * `delete_item`: nothing for an unsupported item, otherwise the index's
   * `delete_item` with any exception caught. Unlike `sync_item` it does not
   * look at the autosave flag.
   */
  function DeleteItem(env: Env, st: Index.State, item: Item, faults: set<Index.Step>): (h: Handled)
    ensures !Index.Supports(item) ==> h == Handled(st, [], None)
    ensures Index.Supports(item) ==>
              h.state == Index.DeleteItem(env, st, item, faults).state
              && h.swallowed == Index.DeleteItem(env, st, item, faults).failure
    ensures h.state.ledger == st.ledger
    ensures h.swallowed != Some(Index.NotSupported)
  {
    if !Index.Supports(item) then Handled(st, [], None)
    else Caught(Index.DeleteItem(env, st, item, faults))
  }

  /** The four handlers as written: every hook, the deletion hooks included, goes to `sync_item`. */
  function Dispatch(env: Env, st: Index.State, hook: Hook, faults: set<Index.Step>): (h: Handled)
    ensures h == SyncItem(env, st, HookItem(env, hook), faults)
    ensures hook.BeforeDeletePost? && hook.postId !in env.orders ==> h == Handled(st, [], None)
  {
    match hook
    case ProcessShopOrderMeta(_, item) => SyncItem(env, st, item, faults)
    case NewOrder(_, item) => SyncItem(env, st, item, faults)
    case BeforeDeleteOrder(_, item) => SyncItem(env, st, item, faults)
    case BeforeDeletePost(postId) => SyncItem(env, st, LoadOrder(env, postId), faults)
  }

  /** The handlers with the deletion hooks routed to `delete_item`, as their names and doc comments intend. */
  function DispatchIntended(env: Env, st: Index.State, hook: Hook, faults: set<Index.Step>): (h: Handled)
    ensures !IsDeletion(hook) ==> h == Dispatch(env, st, hook, faults)
    ensures IsDeletion(hook) ==> h == DeleteItem(env, st, HookItem(env, hook), faults)
  {
    if IsDeletion(hook) then DeleteItem(env, st, HookItem(env, hook), faults)
    else Dispatch(env, st, hook, faults)
  }

  // ---------------------------------------------------------------------------
  // Properties of the watcher

  /**
   * During an autosave `sync_item` does nothing, while the watcher's
   * `delete_item` still deletes exactly the counted addresses of the order.
   */
  lemma DeleteIgnoresAutosave(env: Env, st: Index.State, item: Item)
    requires env.doingAutosave && Index.Supports(item)
    requires Index.ReadLedger(env, st, item.order.id) > 0
    ensures SyncItem(env, st, item, {}) == Handled(st, [], None)
    ensures DeleteItem(env, st, item, {}).calls
         == [Index.DeleteObjects(ObjectIdRange(item.order.id, Index.ReadLedger(env, st, item.order.id)))]
    ensures DeleteItem(env, st, item, {}).state.remote
         == Index.RemoveObjects(st.remote, ObjectIdRange(item.order.id, Index.ReadLedger(env, st, item.order.id)))
  {
  }

  /**
   * As written, deleting an order leaves it in the index: the deletion hook
   * syncs the order, which rewrites its record at slot 0.
   */
  lemma DeletionHookKeepsRecord(env: Env, st: Index.State, o: Order)
    requires env.wcLoaded && !env.doingAutosave
    ensures Address(o.id, 0) in Dispatch(env, st, BeforeDeleteOrder(o.id, WcOrder(o)), {}).state.remote
    ensures Dispatch(env, st, BeforeDeleteOrder(o.id, WcOrder(o)), {}).state.remote[Address(o.id, 0)] == Project(env, o)
  {
    var records := GetRecords(env, WcOrder(o));
    assert records == [Project(env, o)];
    Index.UpdateRecordsEffect(env, st, o, records);
    Index.UpsertOne(Index.RemoveObjects(st.remote, ObjectIdRange(o.id, Index.ReadLedger(env, st, o.id))), Project(env, o));
  }

  /**
   * As written, the record a deletion hook rewrites is orphaned once
   * WooCommerce removes the order from its store: `wc_get_order` no longer
   * loads it, its ledger reads 0, and the entry at slot 0 lies outside the
   * counted range where no later `delete_item` reaches it.
   */
  lemma DeletionHookOrphansRecord(env: Env, o: Order)
    requires env.wcLoaded && !env.doingAutosave
    ensures Index.Covered(env, Index.State(map[], map[]))
    ensures !Index.Covered(env.(orders := env.orders - {o.id}),
                           Dispatch(env, Index.State(map[], map[]), BeforeDeleteOrder(o.id, WcOrder(o)), {}).state)
  {
  }

  /**
   * With the deletion hooks routed to `delete_item`, a deletion removes every
   * entry of the order from the index, given a ledger that covers it.
   */
  lemma IntendedDeletionClearsOrder(env: Env, st: Index.State, hook: Hook)
    requires IsDeletion(hook) && Index.Supports(HookItem(env, hook))
    requires Index.Covered(env, st)
    ensures forall a :: a in DispatchIntended(env, st, hook, {}).state.remote ==>
              a.orderId != HookItem(env, hook).order.id
    ensures DispatchIntended(env, st, hook, {}).swallowed == None
  {
  }

  /**
   * Every hook as written keeps the ledger invariant, as long as the ledger
   * save does not fail and the order a hook hands over is the stored one.
   */
  lemma DispatchPreservesCovered(env: Env, st: Index.State, hook: Hook, faults: set<Index.Step>)
    requires StoreConsistent(env)
    requires Index.Covered(env, st)
    requires Index.LedgerSave !in faults
    requires !hook.BeforeDeletePost? && hook.item.WcOrder? ==> hook.item.order.id in env.orders
    ensures Index.Covered(env, Dispatch(env, st, hook, faults).state)
  {
    var item := HookItem(env, hook);
    if !env.doingAutosave && Index.Supports(item) {
      if hook.BeforeDeletePost? {
        // The legacy hook loads the order from the store, under its own id.
        assert item.order == env.orders[hook.postId];
      }
      Index.SyncPreservesCovered(env, st, item, faults);
    }
  }

  /** With the deletion hooks corrected, every hook still keeps the ledger invariant. */
  lemma DispatchIntendedPreservesCovered(env: Env, st: Index.State, hook: Hook, faults: set<Index.Step>)
    requires StoreConsistent(env)
    requires Index.Covered(env, st)
    requires Index.LedgerSave !in faults
    requires !hook.BeforeDeletePost? && hook.item.WcOrder? ==> hook.item.order.id in env.orders
    ensures Index.Covered(env, DispatchIntended(env, st, hook, faults).state)
  {
    if !IsDeletion(hook) {
      DispatchPreservesCovered(env, st, hook, faults);
    }
  }
}
