/**
 * The WooCommerce side of the model: the order entity as the index reads it,
 * and the host environment the plugin consults (constants, lookup tables,
 * the order store behind `wc_get_order`).
 */
module Orders {
  import opened Wrappers
  import opened ObjectIds

  /** A creation date: its Unix timestamp and its rendering in the site's date format. */
  datatype Date = Date(timestamp: int, localized: string)

  /** The WordPress user attached to an order. */
  datatype User = User(id: int, firstName: string, lastName: string, email: string)

  /** The billing address fields of an order; `fullName` is the formatted full name. */
  datatype Billing = Billing(
    fullName: string, email: string, phone: string, company: string,
    address1: string, address2: string, city: string, state: string,
    postcode: string, country: string)

  /** The shipping address fields of an order; the same names as billing minus email and phone. */
  datatype Shipping = Shipping(
    fullName: string, company: string,
    address1: string, address2: string, city: string, state: string,
    postcode: string, country: string)

  /**
   * One line item of an order. `sku` is `Some` exactly when the item's
   * product resolves to a `WC_Product`, and then holds that product's SKU.
   */
  datatype LineItem = LineItem(itemId: int, name: string, quantity: int, sku: Option<string>)

  /** A `WC_Order`, reduced to the fields the projection reads. */
  datatype Order = Order(
    id: OrderId,
    kind: string,
    number: string,
    status: string,
    dateCreated: Option<Date>,
    total: real,
    formattedTotal: string,
    itemCount: int,
    paymentMethodTitle: string,
    shippingMethod: string,
    user: Option<User>,
    billing: Billing,
    shipping: Shipping,
    lineItems: seq<LineItem>)

  /**
   * Whatever a hook hands to the watcher: a `WC_Order`, or anything else
   * (`false` from a failed `wc_get_order`, a refund, a plain post).
   */
  datatype Item = WcOrder(order: Order) | Other

  /** The host environment, read but never changed by the index. */
  datatype Env = Env(
    wcLoaded: bool,                  // `WC_VERSION` is defined
    doingAutosave: bool,             // `DOING_AUTOSAVE` is defined and true
    orders: map<OrderId, Order>,     // the orders `wc_get_order` can load
    countries: map<string, string>,  // country code to display name
    statusName: string -> string,    // `wc_get_order_status_name`
    escHtml: string -> string)       // `esc_html`

  /** Every stored order is filed under its own id. */
  ghost predicate StoreConsistent(env: Env) {
    forall id :: id in env.orders ==> env.orders[id].id == id
  }

  /** `wc_get_order(id)`: the stored order, or a non-order when none is stored. */
  function LoadOrder(env: Env, id: OrderId): (item: Item)
    ensures item.WcOrder? <==> id in env.orders
    ensures item.WcOrder? ==> item.order == env.orders[id]
  {
    if id in env.orders then WcOrder(env.orders[id]) else Other
  }
}
