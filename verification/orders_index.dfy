/**
 * The synchronisation policy of the orders index: the record-count ledger,
 * `delete_item`, `update_records`, and the host's `sync` that drives them.
 *
 * State is the remote index (address to record) plus the ledger (the
 * `algolia_orders_records_count` meta value of each order). A remote call or
 * the ledger save may throw; which steps throw is a parameter (`faults`), a
 * failed step has no effect, and the outcome keeps whatever earlier steps did.
 */
module OrdersIndex {
  import opened Wrappers
  import opened ObjectIds
  import opened Orders
  import opened Records

  datatype State = State(remote: map<Address, Record>, ledger: map<OrderId, int>)

  /** The steps that can throw. */
  datatype Step = RemoteDelete | RemoteWrite | LedgerSave

  datatype Failure = NotSupported | RemoteDeleteFailed | RemoteWriteFailed | LedgerSaveFailed

  /** The calls issued against the remote index, failed ones included. */
  datatype RemoteCall = DeleteObjects(ids: seq<Address>) | SaveObjects(records: seq<Record>)

  /** The state after an operation, the remote calls it issued, and the exception it raised. */
  datatype Outcome = Outcome(state: State, calls: seq<RemoteCall>, failure: Option<Failure>)

  // ---------------------------------------------------------------------------
  // Views of the state used by the contracts

  /** `m` and `m'` agree at `k`: both lack it, or both hold the same value. */
  ghost predicate SameAt<K, V>(m: map<K, V>, m': map<K, V>, k: K) {
    (k in m <==> k in m') && (k in m ==> m[k] == m'[k])
  }

  /** Every remote entry and ledger value of orders other than `id` is as it was. */
  ghost predicate OthersUnchanged(st: State, st': State, id: OrderId) {
    && (forall a: Address :: a.orderId != id ==> SameAt(st.remote, st'.remote, a))
    && (forall o: OrderId :: o != id ==> SameAt(st.ledger, st'.ledger, o))
  }

  /** No remote entry of order `id` sits at slot `n` or above. */
  ghost predicate SlotsBelow(remote: map<Address, Record>, id: OrderId, n: int) {
    forall a :: a in remote && a.orderId == id ==> a.recordIndex < n
  }

  /** The ledger of order `id` counts every slot the order occupies remotely. */
  ghost predicate CoveredFor(env: Env, st: State, id: OrderId) {
    SlotsBelow(st.remote, id, ReadLedger(env, st, id))
  }

  /**
   * The ledger invariant: every remote entry lies inside its order's counted
   * range, so deleting the counted range removes every entry of the order.
   */
  ghost predicate Covered(env: Env, st: State) {
    forall a :: a in st.remote ==> a.recordIndex < ReadLedger(env, st, a.orderId)
  }

  /** Records addressed `{id}-0 .. {id}-(n-1)` in order. */
  ghost predicate WellAddressed(id: OrderId, records: seq<Record>) {
    forall j :: 0 <= j < |records| ==> records[j].objectId == Address(id, j)
  }

  // ---------------------------------------------------------------------------
  // Operations

  /** `supports`: only a `WC_Order` is admitted. */
  predicate Supports(item: Item) {
    item.WcOrder?
  }

  /**
   * `get_post_records_count`: the stored count when `wc_get_order` loads the
   * order and a count is stored, 0 otherwise.
   */
  function ReadLedger(env: Env, st: State, id: OrderId): (count: int)
    ensures id !in env.orders ==> count == 0
    ensures id in env.orders && id !in st.ledger ==> count == 0
    ensures id in env.orders && id in st.ledger ==> count == st.ledger[id]
  {
    if id in env.orders && id in st.ledger then st.ledger[id] else 0
  }

  /** `set_post_records_count`: stores the count in the order's meta and saves the order. */
  function WriteLedger(st: State, id: OrderId, count: nat, faults: set<Step>): (o: Outcome)
    ensures o.calls == [] && o.state.remote == st.remote
    ensures LedgerSave in faults ==> o.state == st && o.failure == Some(LedgerSaveFailed)
    ensures LedgerSave !in faults ==> o.failure == None
    ensures LedgerSave !in faults ==> id in o.state.ledger && o.state.ledger[id] == count
    ensures forall k :: k != id ==> SameAt(st.ledger, o.state.ledger, k)
  {
    if LedgerSave in faults then Outcome(st, [], Some(LedgerSaveFailed))
    else Outcome(st.(ledger := st.ledger[id := count]), [], None)
  }

  /** The remote index after `deleteObjects(ids)`; absent addresses are ignored. */
  function RemoveObjects(remote: map<Address, Record>, ids: seq<Address>): (r: map<Address, Record>)
    ensures forall a :: a in r <==> a in remote && a !in ids
    ensures forall a :: a in r ==> r[a] == remote[a]
  {
    remote - (set a | a in ids)
  }

  /** The addresses `records` are written to. */
  function ObjectIdsOf(records: seq<Record>): (ids: set<Address>) {
    set r | r in records :: r.objectId
  }

  /** No later record in `records` shares the address of `records[j]`. */
  ghost predicate LastAt(records: seq<Record>, j: int)
    requires 0 <= j < |records|
  {
    forall k :: j < k < |records| ==> records[k].objectId != records[j].objectId
  }

  /**
   * The remote index after `saveObjects(records)`: each record replaces
   * whatever is stored at its address, in order, so the last record written
   * to an address wins.
   */
  function Upsert(remote: map<Address, Record>, records: seq<Record>): (r: map<Address, Record>)
    ensures r.Keys == remote.Keys + ObjectIdsOf(records)
    ensures forall a :: a in remote && a !in ObjectIdsOf(records) ==> r[a] == remote[a]
    decreases |records|
  {
    if |records| == 0 then remote
    else
      var first, rest := records[0], records[1..];
      ObjectIdsOfCons(records);
      Upsert(remote[first.objectId := first], rest)
  }

  /** The last record written to an address is the one stored there. */
  lemma {:induction false} UpsertLastWins(remote: map<Address, Record>, records: seq<Record>, j: nat)
    requires j < |records| && LastAt(records, j)
    ensures records[j].objectId in Upsert(remote, records)
    ensures Upsert(remote, records)[records[j].objectId] == records[j]
    decreases |records|
  {
    var first, rest := records[0], records[1..];
    var next := remote[first.objectId := first];
    if j == 0 {
      ObjectIdsOfCons(records);
      assert first.objectId !in ObjectIdsOf(rest);
    } else {
      assert LastAt(rest, j - 1) by {
        forall k | j - 1 < k < |rest| ensures rest[k].objectId != rest[j - 1].objectId {
          assert rest[k] == records[k + 1];
        }
      }
      UpsertLastWins(next, rest, j - 1);
    }
  }

  /** The addresses of a non-empty list: its head's, then its tail's. */
  lemma ObjectIdsOfCons(records: seq<Record>)
    requires |records| > 0
    ensures ObjectIdsOf(records) == {records[0].objectId} + ObjectIdsOf(records[1..])
    ensures forall a :: a in ObjectIdsOf(records[1..]) ==> exists k :: 1 <= k < |records| && records[k].objectId == a
  {
    assert records == [records[0]] + records[1..];
    forall a | a in ObjectIdsOf(records[1..])
      ensures exists k :: 1 <= k < |records| && records[k].objectId == a
    {
      var r :| r in records[1..] && r.objectId == a;
      var k :| 0 <= k < |records[1..]| && records[1..][k] == r;
      assert records[k + 1].objectId == a;
    }
  }

  /**
   * `delete_item`: deletes the counted addresses `{id}-0 .. {id}-(count-1)`.
   * It refuses an unsupported item, issues no call when the count is 0, and
   * never touches the ledger.
   */
  function DeleteItem(env: Env, st: State, item: Item, faults: set<Step>): (o: Outcome)
    ensures !Supports(item) ==> o == Outcome(st, [], Some(NotSupported))
    ensures Supports(item) && ReadLedger(env, st, item.order.id) <= 0 ==> o == Outcome(st, [], None)
    ensures Supports(item) && ReadLedger(env, st, item.order.id) > 0 ==>
              o.calls == [DeleteObjects(ObjectIdRange(item.order.id, ReadLedger(env, st, item.order.id)))]
    ensures o.state.ledger == st.ledger
    ensures RemoteDelete !in faults && Supports(item) ==>
              && o.failure == None
              && o.state.remote == RemoveObjects(st.remote, ObjectIdRange(item.order.id, ReadLedger(env, st, item.order.id)))
    ensures RemoteDelete in faults ==> o.state == st
  {
    if !Supports(item) then Outcome(st, [], Some(NotSupported))
    else
      var ids := ObjectIdRange(item.order.id, ReadLedger(env, st, item.order.id));
      if |ids| == 0 then
        assert RemoveObjects(st.remote, ids) == st.remote;
        Outcome(st, [], None)
      else if RemoteDelete in faults then Outcome(st, [DeleteObjects(ids)], Some(RemoteDeleteFailed))
      else Outcome(st.(remote := RemoveObjects(st.remote, ids)), [DeleteObjects(ids)], None)
  }

  /**
   * The host's `update_records`, assumed: an empty record list deletes the
   * counted addresses through `delete_item`; otherwise one `saveObjects`
   * call upserts every record at its address.
   */
  function ParentUpdateRecords(env: Env, st: State, order: Order, records: seq<Record>, faults: set<Step>): (o: Outcome)
    ensures |records| == 0 ==> o == DeleteItem(env, st, WcOrder(order), faults)
    ensures |records| > 0 ==> o.calls == [SaveObjects(records)] && o.state.ledger == st.ledger
    ensures |records| > 0 && RemoteWrite !in faults ==>
              o.failure == None && o.state.remote == Upsert(st.remote, records)
    ensures |records| > 0 && RemoteWrite in faults ==>
              o.state == st && o.failure == Some(RemoteWriteFailed)
  {
    if |records| == 0 then DeleteItem(env, st, WcOrder(order), faults)
    else if RemoteWrite in faults then Outcome(st, [SaveObjects(records)], Some(RemoteWriteFailed))
    else Outcome(st.(remote := Upsert(st.remote, records)), [SaveObjects(records)], None)
  }

  /**
   * `update_records`: for a non-empty record list, first `delete_item` on the
   * counted addresses, then the host's write, then the ledger is set to the
   * number of records. An exception stops the sequence where it is raised.
   */
  function UpdateRecords(env: Env, st: State, order: Order, records: seq<Record>, faults: set<Step>): (o: Outcome)
    // The remote calls: the counted addresses are deleted before the write.
    ensures faults == {} && |records| > 0 ==>
              o.calls == (if ReadLedger(env, st, order.id) > 0
                          then [DeleteObjects(ObjectIdRange(order.id, ReadLedger(env, st, order.id)))]
                          else [])
                         + [SaveObjects(records)]
    // Afterwards the ledger holds the new record count.
    ensures faults == {} ==> o.failure == None
    ensures faults == {} ==> order.id in o.state.ledger && o.state.ledger[order.id] == |records|
    // `delete_item` is only ever called here with a supported item.
    ensures o.failure != Some(NotSupported)
  {
    var pre := if |records| > 0 then DeleteItem(env, st, WcOrder(order), faults) else Outcome(st, [], None);
    if pre.failure.Some? then pre
    else
      var mid := ParentUpdateRecords(env, pre.state, order, records, faults);
      if mid.failure.Some? then Outcome(mid.state, pre.calls + mid.calls, mid.failure)
      else
        var fin := WriteLedger(mid.state, order.id, |records|, faults);
        Outcome(fin.state, pre.calls + mid.calls, fin.failure)
  }

  /**
   * The host's `sync`, assumed: refuses an unsupported item, otherwise
   * projects the order and hands the records to `update_records`
   * (`should_index` admits every order).
   */
  function Sync(env: Env, st: State, item: Item, faults: set<Step>): (o: Outcome)
    ensures !Supports(item) ==> o == Outcome(st, [], Some(NotSupported))
    ensures Supports(item) ==> o == UpdateRecords(env, st, item.order, GetRecords(env, item), faults)
  {
    if !Supports(item) then Outcome(st, [], Some(NotSupported))
    else UpdateRecords(env, st, item.order, GetRecords(env, item), faults)
  }

  // ---------------------------------------------------------------------------
  // Properties of the synchronisation policy

  /**
   * Only a `WC_Order` is admitted, and the index refuses anything else
   * without touching the remote index or the ledger; a supported order
   * yields records only when WooCommerce is loaded.
   */
  lemma SupportsAdmitsOnlyOrders(env: Env, st: State, item: Item, faults: set<Step>)
    ensures Supports(item) <==> item.WcOrder?
    ensures !Supports(item) ==> Sync(env, st, item, faults) == Outcome(st, [], Some(NotSupported))
    ensures !Supports(item) ==> DeleteItem(env, st, item, faults) == Outcome(st, [], Some(NotSupported))
    ensures !Supports(item) ==> GetRecords(env, item) == []
    ensures Supports(item) ==> (GetRecords(env, item) != [] <==> env.wcLoaded)
  {
  }

  /** Reading the ledger after a successful write gives the written count back; other orders read as before. */
  lemma LedgerReadAfterWrite(env: Env, st: State, id: OrderId, count: nat, other: OrderId)
    requires id in env.orders
    requires other != id
    ensures ReadLedger(env, WriteLedger(st, id, count, {}).state, id) == count
    ensures ReadLedger(env, WriteLedger(st, id, count, {}).state, other) == ReadLedger(env, st, other)
  {
  }

  /**
   * After a failure-free `update_records`, reading the ledger of a loadable
   * order gives the number of records just written; an order `wc_get_order`
   * cannot load still reads 0, whatever was stored.
   */
  lemma LedgerReadAfterUpdate(env: Env, st: State, order: Order, records: seq<Record>)
    ensures order.id in env.orders ==>
              ReadLedger(env, UpdateRecords(env, st, order, records, {}).state, order.id) == |records|
    ensures order.id !in env.orders ==>
              ReadLedger(env, UpdateRecords(env, st, order, records, {}).state, order.id) == 0
  {
  }

  /** Agreement outside order `id` chains through consecutive states. */
  lemma OthersUnchangedTrans(s1: State, s2: State, s3: State, id: OrderId)
    requires OthersUnchanged(s1, s2, id) && OthersUnchanged(s2, s3, id)
    ensures OthersUnchanged(s1, s3, id)
  {
    forall a: Address | a.orderId != id ensures SameAt(s1.remote, s3.remote, a) {
      assert SameAt(s1.remote, s2.remote, a) && SameAt(s2.remote, s3.remote, a);
    }
    forall o: OrderId | o != id ensures SameAt(s1.ledger, s3.ledger, o) {
      assert SameAt(s1.ledger, s2.ledger, o) && SameAt(s2.ledger, s3.ledger, o);
    }
  }

  /** `delete_item` only removes entries of its own order. */
  lemma DeleteItemFrame(env: Env, st: State, order: Order, faults: set<Step>)
    ensures OthersUnchanged(st, DeleteItem(env, st, WcOrder(order), faults).state, order.id)
  {
  }

  /** The host write of records laid out for order `id` only adds entries of that order. */
  lemma ParentUpdateRecordsFrame(env: Env, st: State, order: Order, records: seq<Record>, faults: set<Step>)
    requires WellAddressed(order.id, records)
    ensures OthersUnchanged(st, ParentUpdateRecords(env, st, order, records, faults).state, order.id)
  {
    WellAddressedSlots(order.id, records);
    if |records| == 0 {
      DeleteItemFrame(env, st, order, faults);
    }
  }

  /** `update_records` never touches another order's entries or ledger value. */
  lemma UpdateRecordsFrame(env: Env, st: State, order: Order, records: seq<Record>, faults: set<Step>)
    requires WellAddressed(order.id, records)
    ensures OthersUnchanged(st, UpdateRecords(env, st, order, records, faults).state, order.id)
  {
    var id := order.id;
    var o := UpdateRecords(env, st, order, records, faults);
    var pre := if |records| > 0 then DeleteItem(env, st, WcOrder(order), faults) else Outcome(st, [], None);
    DeleteItemFrame(env, st, order, faults);
    assert OthersUnchanged(st, pre.state, id);
    if pre.failure.None? {
      var mid := ParentUpdateRecords(env, pre.state, order, records, faults);
      ParentUpdateRecordsFrame(env, pre.state, order, records, faults);
      OthersUnchangedTrans(st, pre.state, mid.state, id);
      if mid.failure.None? {
        var fin := WriteLedger(mid.state, id, |records|, faults);
        assert OthersUnchanged(mid.state, fin.state, id);
        OthersUnchangedTrans(st, mid.state, fin.state, id);
        assert o.state == fin.state;
      } else {
        assert o.state == mid.state;
      }
    } else {
      assert o.state == pre.state;
    }
  }

  /** Records laid out at consecutive slots are each the last write to their slot. */
  lemma WellAddressedSlots(id: OrderId, records: seq<Record>)
    requires WellAddressed(id, records)
    ensures forall j :: 0 <= j < |records| ==> LastAt(records, j)
    ensures forall a :: a in ObjectIdsOf(records) <==> a.orderId == id && a.recordIndex < |records|
  {
    forall a: Address | a.orderId == id && a.recordIndex < |records|
      ensures a in ObjectIdsOf(records)
    {
      assert records[a.recordIndex] in records;
    }
  }

  /**
   * A successful `update_records` with records laid out at consecutive slots,
   * starting from a state whose ledger covers the order, leaves the order at
   * exactly the slots `0 .. |records|-1`, holding the new records: a shrinking
   * record set leaves no stale entry behind.
   */
  lemma {:induction false} UpdateRecordsExactSlots(env: Env, st: State, order: Order, records: seq<Record>)
    requires WellAddressed(order.id, records)
    requires CoveredFor(env, st, order.id)
    ensures SlotsBelow(UpdateRecords(env, st, order, records, {}).state.remote, order.id, |records|)
    ensures forall j :: 0 <= j < |records| ==>
              && Address(order.id, j) in UpdateRecords(env, st, order, records, {}).state.remote
              && UpdateRecords(env, st, order, records, {}).state.remote[Address(order.id, j)] == records[j]
  {
    var id := order.id;
    var o := UpdateRecords(env, st, order, records, {});
    var pre := DeleteItem(env, st, WcOrder(order), {});
    // The delete clears every entry of the order, since the ledger covered them all.
    assert forall a :: a in pre.state.remote ==> a.orderId != id;
    WellAddressedSlots(id, records);
    if |records| > 0 {
      var mid := ParentUpdateRecords(env, pre.state, order, records, {});
      assert mid.state.remote == Upsert(pre.state.remote, records);
      forall j | 0 <= j < |records|
        ensures records[j].objectId in mid.state.remote && mid.state.remote[records[j].objectId] == records[j]
      {
        UpsertLastWins(pre.state.remote, records, j);
      }
      assert o.state.remote == mid.state.remote;
    } else {
      assert o.state.remote == pre.state.remote;
    }
  }

  /** `delete_item` keeps the order's ledger and only removes entries, so coverage survives it. */
  lemma DeleteItemKeepsCovered(env: Env, st: State, order: Order, faults: set<Step>)
    requires CoveredFor(env, st, order.id)
    ensures CoveredFor(env, DeleteItem(env, st, WcOrder(order), faults).state, order.id)
    ensures RemoteDelete !in faults ==>
              forall a :: a in DeleteItem(env, st, WcOrder(order), faults).state.remote ==> a.orderId != order.id
  {
  }

  /**
   * `update_records` keeps the order's ledger covering its entries whenever
   * the ledger save does not fail: a failed delete changes nothing, a failed
   * write only removes entries, and a complete run counts what it wrote.
   */
  lemma {:induction false} UpdateRecordsKeepsCovered(env: Env, st: State, order: Order, records: seq<Record>, faults: set<Step>)
    requires CoveredFor(env, st, order.id)
    requires WellAddressed(order.id, records)
    requires LedgerSave !in faults
    requires order.id in env.orders
    ensures CoveredFor(env, UpdateRecords(env, st, order, records, faults).state, order.id)
  {
    var id := order.id;
    var o := UpdateRecords(env, st, order, records, faults);
    var pre := if |records| > 0 then DeleteItem(env, st, WcOrder(order), faults) else Outcome(st, [], None);
    DeleteItemKeepsCovered(env, st, order, faults);
    assert CoveredFor(env, pre.state, id);
    if pre.failure.None? {
      var mid := ParentUpdateRecords(env, pre.state, order, records, faults);
      if |records| == 0 {
        DeleteItemKeepsCovered(env, pre.state, order, faults);
      } else {
        WellAddressedSlots(id, records);
      }
      if mid.failure.None? {
        // The order's entries now lie below the new count, which the ledger stores.
        assert SlotsBelow(mid.state.remote, id, |records|);
        var fin := WriteLedger(mid.state, id, |records|, faults);
        assert ReadLedger(env, fin.state, id) == |records|;
        assert o.state == fin.state;
      } else {
        assert mid.state.ledger == pre.state.ledger;
        assert o.state == mid.state;
      }
    } else {
      assert o.state == pre.state;
    }
  }

  /**
   * The ledger invariant survives a sync whenever the ledger save itself does
   * not fail. The order must be loadable, or its ledger reads as 0 whatever
   * was stored.
   */
  lemma {:induction false} SyncPreservesCovered(env: Env, st: State, item: Item, faults: set<Step>)
    requires Covered(env, st)
    requires LedgerSave !in faults
    requires Supports(item) ==> item.order.id in env.orders
    ensures Covered(env, Sync(env, st, item, faults).state)
  {
    if Supports(item) {
      var id := item.order.id;
      var records := GetRecords(env, item);
      var o := UpdateRecords(env, st, item.order, records, faults);
      assert Sync(env, st, item, faults) == o;
      UpdateRecordsFrame(env, st, item.order, records, faults);
      UpdateRecordsKeepsCovered(env, st, item.order, records, faults);
      forall a | a in o.state.remote
        ensures a.recordIndex < ReadLedger(env, o.state, a.orderId)
      {
        if a.orderId != id {
          assert SameAt(st.remote, o.state.remote, a);
          assert SameAt(st.ledger, o.state.ledger, a.orderId);
        }
      }
    }
  }

  /**
   * A failed ledger save after a successful write can break the invariant: a
   * new order is written at slot 0 but its ledger still reads 0, so a later
   * `delete_item` would not reach that entry.
   */
  lemma LedgerSaveFailureBreaksCover(env: Env, o: Order)
    requires env.wcLoaded && o.id in env.orders
    ensures Covered(env, State(map[], map[]))
    ensures !Covered(env, Sync(env, State(map[], map[]), WcOrder(o), {LedgerSave}).state)
  {
    var st := State(map[], map[]);
    var r := Sync(env, st, WcOrder(o), {LedgerSave});
    assert Address(o.id, 0) in r.state.remote;
  }

  /** Deleting twice leaves the same state as deleting once. */
  lemma DeleteItemIdempotent(env: Env, st: State, item: Item)
    ensures DeleteItem(env, DeleteItem(env, st, item, {}).state, item, {}).state
         == DeleteItem(env, st, item, {}).state
  {
  }

  /** Writing a single record stores it at its address. */
  lemma UpsertOne(remote: map<Address, Record>, r: Record)
    ensures Upsert(remote, [r]) == remote[r.objectId := r]
  {
    assert [r][1..] == [];
  }

  /**
   * The reference effect of a failure-free `update_records`: remove the
   * counted range of the order, upsert the records, store the new count.
   */
  function SyncEffect(env: Env, st: State, id: OrderId, records: seq<Record>): (st': State) {
    State(Upsert(RemoveObjects(st.remote, ObjectIdRange(id, ReadLedger(env, st, id))), records),
          st.ledger[id := |records|])
  }

  /** Without failures `update_records` has the reference effect, whether the record list is empty or not. */
  lemma UpdateRecordsEffect(env: Env, st: State, order: Order, records: seq<Record>)
    ensures UpdateRecords(env, st, order, records, {}).state == SyncEffect(env, st, order.id, records)
  {
    var ids := ObjectIdRange(order.id, ReadLedger(env, st, order.id));
    var pre := DeleteItem(env, st, WcOrder(order), {});
    assert pre.state.remote == RemoveObjects(st.remote, ids);
  }

  /** Removing a range and rewriting slot 0 with the record already there changes nothing. */
  lemma RewriteSlotZero(remote: map<Address, Record>, r: Record, count: int)
    requires r.objectId in remote && remote[r.objectId] == r
    requires count <= 1 && r.objectId.recordIndex == 0
    ensures RemoveObjects(remote, ObjectIdRange(r.objectId.orderId, count))[r.objectId := r] == remote
  {
    var removed := RemoveObjects(remote, ObjectIdRange(r.objectId.orderId, count));
    assert forall a :: a in remote && a != r.objectId ==> a in removed;
  }

  /** The reference effect of writing one record at slot 0 is idempotent. */
  lemma SyncEffectIdempotentOne(env: Env, st: State, r: Record)
    requires r.objectId.recordIndex == 0
    ensures SyncEffect(env, SyncEffect(env, st, r.objectId.orderId, [r]), r.objectId.orderId, [r])
         == SyncEffect(env, st, r.objectId.orderId, [r])
  {
    var id := r.objectId.orderId;
    var s1 := SyncEffect(env, st, id, [r]);
    var c := ReadLedger(env, s1, id);
    UpsertOne(RemoveObjects(st.remote, ObjectIdRange(id, ReadLedger(env, st, id))), r);
    assert s1.remote[r.objectId] == r;
    assert c <= 1;
    var removed := RemoveObjects(s1.remote, ObjectIdRange(id, c));
    UpsertOne(removed, r);
    RewriteSlotZero(s1.remote, r, c);
    assert SyncEffect(env, s1, id, [r]).remote == s1.remote;
  }

  /** The reference effect with no records is idempotent: the first call already stored 0. */
  lemma SyncEffectIdempotentNone(env: Env, st: State, id: OrderId)
    ensures SyncEffect(env, SyncEffect(env, st, id, []), id, []) == SyncEffect(env, st, id, [])
  {
    var s1 := SyncEffect(env, st, id, []);
    assert ReadLedger(env, s1, id) == 0;
    assert RemoveObjects(s1.remote, ObjectIdRange(id, 0)) == s1.remote;
  }

  /** The reference effect with at most one record, at slot 0, is idempotent. */
  lemma SyncEffectIdempotent(env: Env, st: State, id: OrderId, records: seq<Record>)
    requires |records| <= 1 && WellAddressed(id, records)
    ensures SyncEffect(env, SyncEffect(env, st, id, records), id, records) == SyncEffect(env, st, id, records)
  {
    if |records| == 1 {
      assert records == [records[0]];
      SyncEffectIdempotentOne(env, st, records[0]);
    } else {
      assert records == [];
      SyncEffectIdempotentNone(env, st, id);
    }
  }

  /**
   * Syncing an unchanged order twice leaves the same remote index and ledger
   * as syncing it once: no duplicate and no leaked entry.
   */
  lemma {:induction false} SyncIdempotent(env: Env, st: State, item: Item)
    ensures Sync(env, Sync(env, st, item, {}).state, item, {}).state == Sync(env, st, item, {}).state
  {
    if Supports(item) {
      var records := GetRecords(env, item);
      var s1 := UpdateRecords(env, st, item.order, records, {}).state;
      var s2 := UpdateRecords(env, s1, item.order, records, {}).state;
      UpdateRecordsEffect(env, st, item.order, records);
      UpdateRecordsEffect(env, s1, item.order, records);
      SyncEffectIdempotent(env, st, item.order.id, records);
      assert s2 == s1;
    }
  }

  /**
   * The shrink case: with three counted slots and one new record, the
   * three old slots are deleted, slot 0 is written, and the ledger becomes 1.
   */
  lemma ShrinkFromThree(env: Env, st: State, o: Order)
    requires env.wcLoaded && o.id in env.orders
    requires o.id in st.ledger && st.ledger[o.id] == 3
    ensures Sync(env, st, WcOrder(o), {}).calls ==
              [DeleteObjects([Address(o.id, 0), Address(o.id, 1), Address(o.id, 2)]),
               SaveObjects([Project(env, o)])]
    ensures Sync(env, st, WcOrder(o), {}).state.ledger[o.id] == 1
  {
    assert ObjectIdRange(o.id, 3) == [Address(o.id, 0), Address(o.id, 1), Address(o.id, 2)];
  }

  /**
   * The grow case: a new order with nothing counted gets no delete call;
   * slot 0 is written and the ledger becomes 1.
   */
  lemma GrowFromNothing(env: Env, st: State, o: Order)
    requires env.wcLoaded
    requires o.id !in st.ledger
    ensures Sync(env, st, WcOrder(o), {}).calls == [SaveObjects([Project(env, o)])]
    ensures Sync(env, st, WcOrder(o), {}).state.ledger[o.id] == 1
    ensures Sync(env, st, WcOrder(o), {}).state.remote == st.remote[Address(o.id, 0) := Project(env, o)]
  {
    UpdateRecordsEffect(env, st, o, [Project(env, o)]);
    assert RemoveObjects(st.remote, []) == st.remote;
    UpsertOne(st.remote, Project(env, o));
  }
}
