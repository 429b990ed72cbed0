/**
 * The record projection of the orders index (`get_records`): an order
 * becomes zero or one flat search record addressed at slot 0 of the order.
 */
module Records {
  import opened Wrappers
  import opened ObjectIds
  import opened Orders

  /** The `customer` block, present only for orders with a user. */
  datatype CustomerBlock = CustomerBlock(id: int, displayName: string, email: string)

  datatype BillingBlock = BillingBlock(
    displayName: string, email: string, phone: string, company: string,
    address1: string, address2: string, city: string, state: string,
    postcode: string, country: string)

  datatype ShippingBlock = ShippingBlock(
    displayName: string, company: string,
    address1: string, address2: string, city: string, state: string,
    postcode: string, country: string)

  /** One entry of the record's `items` list. */
  datatype ItemEntry = ItemEntry(id: int, name: string, qty: int, sku: string)

  /** One search record, stored remotely at `objectId`. */
  datatype Record = Record(
    objectId: Address,
    id: OrderId,
    kind: string,
    number: string,
    status: string,
    statusName: string,
    dateTimestamp: int,
    dateFormatted: string,
    orderTotal: real,
    formattedOrderTotal: string,
    itemsCount: int,
    paymentMethodTitle: string,
    shippingMethodTitle: string,
    customer: Option<CustomerBlock>,
    billing: BillingBlock,
    shipping: ShippingBlock,
    items: seq<ItemEntry>)

  /**
   * The country shown in an address block: the display name when the code is
   * in the countries table, the raw code otherwise.
   */
  function CountryName(countries: map<string, string>, code: string): (name: string)
    ensures code in countries ==> name == countries[code]
    ensures code !in countries ==> name == code
  {
    if code in countries then countries[code] else code
  }

  /** The timestamp and localized date of the record: `0` and `""` without a creation date. */
  function DateFields(date: Option<Date>): (fields: (int, string))
    ensures date.None? ==> fields == (0, "")
    ensures date.Some? ==> fields == (date.value.timestamp, date.value.localized)
  {
    match date
    case None => (0, "")
    case Some(d) => (d.timestamp, d.localized)
  }

  function CustomerOf(u: User): (c: CustomerBlock) {
    CustomerBlock(u.id, u.firstName + " " + u.lastName, u.email)
  }

  function BillingOf(countries: map<string, string>, b: Billing): (block: BillingBlock) {
    BillingBlock(b.fullName, b.email, b.phone, b.company, b.address1, b.address2,
                 b.city, b.state, b.postcode, CountryName(countries, b.country))
  }

  function ShippingOf(countries: map<string, string>, s: Shipping): (block: ShippingBlock) {
    ShippingBlock(s.fullName, s.company, s.address1, s.address2,
                  s.city, s.state, s.postcode, CountryName(countries, s.country))
  }

  function EntryOf(env: Env, li: LineItem): (e: ItemEntry) {
    ItemEntry(li.itemId, env.escHtml(li.name), li.quantity, li.sku.GetOr(""))
  }

  /** The `items` list: one entry per line item, appended in iteration order. */
  function ItemEntries(env: Env, lineItems: seq<LineItem>): (entries: seq<ItemEntry>)
    ensures |entries| == |lineItems|
    ensures forall i :: 0 <= i < |lineItems| ==>
              && entries[i].id == lineItems[i].itemId
              && entries[i].name == env.escHtml(lineItems[i].name)
              && entries[i].qty == lineItems[i].quantity
              && (lineItems[i].sku.Some? ==> entries[i].sku == lineItems[i].sku.value)
              && (lineItems[i].sku.None? ==> entries[i].sku == "")
    decreases |lineItems|
  {
    if |lineItems| == 0 then []
    else ItemEntries(env, lineItems[..|lineItems| - 1]) + [EntryOf(env, lineItems[|lineItems| - 1])]
  }

  /** The one record of a `WC_Order`. */
  function Project(env: Env, o: Order): (r: Record)
    ensures r.objectId == Address(o.id, 0) && r.id == o.id
    ensures r.statusName == env.statusName(o.status)
    ensures o.dateCreated.None? ==> r.dateTimestamp == 0 && r.dateFormatted == ""
    ensures o.dateCreated.Some? ==>
              r.dateTimestamp == o.dateCreated.value.timestamp
              && r.dateFormatted == o.dateCreated.value.localized
    ensures r.customer.Some? <==> o.user.Some?
    ensures o.user.Some? ==>
              r.customer.value.displayName == o.user.value.firstName + " " + o.user.value.lastName
    ensures r.billing.country == CountryName(env.countries, o.billing.country)
    ensures r.shipping.country == CountryName(env.countries, o.shipping.country)
    ensures |r.items| == |o.lineItems|
  {
    var (timestamp, formatted) := DateFields(o.dateCreated);
    Record(
      Address(o.id, 0), o.id, o.kind, o.number, o.status, env.statusName(o.status),
      timestamp, formatted, o.total, o.formattedTotal, o.itemCount,
      o.paymentMethodTitle, o.shippingMethod,
      if o.user.Some? then Some(CustomerOf(o.user.value)) else None,
      BillingOf(env.countries, o.billing),
      ShippingOf(env.countries, o.shipping),
      ItemEntries(env, o.lineItems))
  }

  /**
   * `get_records`: nothing when WooCommerce is not loaded or the item is not
   * a `WC_Order`, otherwise exactly the order's record at slot 0.
   */
  function GetRecords(env: Env, item: Item): (rs: seq<Record>)
    ensures |rs| <= 1
    ensures |rs| == 1 <==> env.wcLoaded && item.WcOrder?
    ensures |rs| == 1 ==> rs[0] == Project(env, item.order)
    ensures forall j :: 0 <= j < |rs| ==> rs[j].objectId == Address(item.order.id, j)
  {
    if !env.wcLoaded then []
    else if !item.WcOrder? then []
    else [Project(env, item.order)]
  }

  /** The address fields that billing and shipping blocks share, read off a billing block. */
  function SharedFields(b: BillingBlock): (block: ShippingBlock) {
    ShippingBlock(b.displayName, b.company, b.address1, b.address2,
                  b.city, b.state, b.postcode, b.country)
  }

  /** The shipping-side counterpart of an order's billing address. */
  function AsShipping(b: Billing): (s: Shipping) {
    Shipping(b.fullName, b.company, b.address1, b.address2, b.city, b.state, b.postcode, b.country)
  }

  /**
   * Billing and shipping blocks are built in parallel under the same country
   * rule: an order shipped to its billing address yields identical shared
   * fields, which is what lets a consumer collapse the two blocks.
   */
  lemma SameAddressSameBlocks(env: Env, o: Order)
    requires o.shipping == AsShipping(o.billing)
    ensures SharedFields(Project(env, o).billing) == Project(env, o).shipping
  {
  }
}
