/**
 * The profile page (frontend/FH_book/src/pages/Profile.jsx): where the
 * order list comes from, and the statistics computed over it.
 */
module Profile {
  import opened Values
  import opened Storage
  import CartPage

  /**
   * `loadOrders`: a non-empty array from the orders call is used as it is;
   * otherwise (an empty array, something else, or a failed call: `None`)
   * the list stored under `orders_<user.id>`, or the empty list when that
   * is missing, empty, unparsable or not an array.
   */
  function LoadedOrders(api: Option<seq<Order>>, orderLists: map<string, Stored<Order>>, user: User): (orders: seq<Order>)
    ensures api.Some? && api.value != [] ==> orders == api.value
    ensures !(api.Some? && api.value != []) ==> orders == ReadStoredArray(Lookup(orderLists, TemplateId(user.id)))
  {
    if api.Some? && api.value != [] then api.value
    else ReadStoredArray(Lookup(orderLists, TemplateId(user.id)))
  }

  /** `order.items?.reduce((s, item) => s + (item.quantity || 1), 0) || 0`. */
  function ItemsOf(order: Order): int
  {
    match order.items
    case None => 0
    case Some(lines) => LineCount(lines)
  }

  function LineCount(lines: seq<OrderLine>): int
  {
    if lines == [] then 0 else OrDefault(lines[0].quantity, 1) + LineCount(lines[1..])
  }

  /** `totalSpent`: the sum of `order.totalAmount || 0`. */
  function TotalSpent(orders: seq<Order>): int
  {
    if orders == [] then 0 else OrDefault(orders[0].totalAmount, 0) + TotalSpent(orders[1..])
  }

  /** `totalItems`: the sum of each order's item count. */
  function TotalItems(orders: seq<Order>): int
  {
    if orders == [] then 0 else ItemsOf(orders[0]) + TotalItems(orders[1..])
  }

  datatype Stats = Stats(totalOrders: nat, totalSpent: int, totalItems: int, averageOrder: real)

  /** The `stats` memo; the average is 0 for no orders. */
  function StatsOf(orders: seq<Order>): (s: Stats)
    ensures s.totalOrders == |orders|
    ensures s.totalSpent == TotalSpent(orders) && s.totalItems == TotalItems(orders)
    ensures orders == [] ==> s.averageOrder == 0.0
    ensures orders != [] ==> s.averageOrder * (|orders| as real) == s.totalSpent as real
  {
    var spent := TotalSpent(orders);
    Stats(|orders|, spent, TotalItems(orders), if |orders| > 0 then spent as real / |orders| as real else 0.0)
  }

  // ---------------------------------------------------------------------
  // Facts

  /**
   * The order the cart page builds when the remote call fails, once placed
   * at the front of the history, adds one order, the cart's total price and
   * the cart's item count to the statistics.
   */
  lemma PlacedOrderStats(id: int, owner: string, today: string, items: seq<LineItem>, history: seq<Order>)
    ensures var s := StatsOf([CartPage.LocalOrder(id, owner, today, items)] + history);
      && s.totalOrders == |history| + 1
      && s.totalSpent == TotalSpent(history) + CartPage.TotalPrice(items)
      && s.totalItems == TotalItems(history) + CartPage.TotalItems(items)
  {
    var all := [CartPage.LocalOrder(id, owner, today, items)] + history;
    assert all[1..] == history;
    PayloadCount(items);
  }

  /** The payload lines carry `quantity || 1`, so counting them again gives the cart's item total. */
  lemma {:induction false} PayloadCount(items: seq<LineItem>)
    ensures LineCount(CartPage.PayloadLines(items)) == CartPage.TotalItems(items)
  {
    if items != [] {
      PayloadCount(items[1..]);
      assert CartPage.PayloadLines(items)[1..] == CartPage.PayloadLines(items[1..]);
    }
  }

  /** An order without items counts nothing; one with items counts at least one per line when quantities are positive. */
  lemma {:induction false} LineCountOfPositive(lines: seq<OrderLine>)
    requires forall i :: 0 <= i < |lines| ==> !(lines[i].quantity.Finite? && lines[i].quantity.n < 0)
    ensures LineCount(lines) >= |lines|
  {
    if lines != [] {
      LineCountOfPositive(lines[1..]);
    }
  }

  /** A failed orders call and an empty one both fall back to storage. */
  lemma FallbackToStorage(orderLists: map<string, Stored<Order>>, user: User)
    ensures LoadedOrders(None, orderLists, user) == LoadedOrders(Some([]), orderLists, user)
    ensures user.id.Some? && UserKey(user.id.value) !in orderLists ==> LoadedOrders(None, orderLists, user) == []
  {
  }
}
