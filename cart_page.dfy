/**
 * The cart page (frontend/FH_book/src/pages/Cart.jsx): the in-memory list of
 * line items loaded from `cart_<owner>`, the quantity, removal and clear
 * operations that write it back and broadcast `cartUpdated`, the totals, and
 * checkout, which turns the cart into an order in the owner's history.
 */
module CartPage {
  import opened Text
  import opened Values
  import opened Storage
  import opened Seqs
  import CartUtils

  /**
   * The two cart invariants: every entry has a numeric id and a whole
   * quantity of at least 1, and no two entries share an id.
   */
  predicate WellFormed(items: seq<LineItem>)
  {
    && (forall i :: 0 <= i < |items| ==> items[i].id.Finite? && items[i].quantity.Finite? && items[i].quantity.n >= 1)
    && (forall i, j :: 0 <= i < j < |items| ==> items[i].id != items[j].id)
  }

  /** The test `removeItem` filters with: the entry's id is not `===` to `id`. */
  function KeepOther(id: Num): LineItem -> bool
  {
    (it: LineItem) => !SameId(it.id, id)
  }

  /** `cartItems.filter(item => item.id !== id)`. */
  function Without(items: seq<LineItem>, id: Num): seq<LineItem>
  {
    Filter(items, KeepOther(id))
  }

  /** `cartItems.map(item => item.id === id ? { ...item, quantity: q } : item)`. */
  function WithQuantity(items: seq<LineItem>, id: Num, q: int): seq<LineItem>
  {
    seq(|items|, i requires 0 <= i < |items| =>
      if SameId(items[i].id, id) then items[i].(quantity := Finite(q)) else items[i])
  }

  /** The stock check of `updateQuantity`: a stock snapshot is present and the new quantity exceeds it. */
  predicate OverCeiling(stock: Num, q: int)
  {
    stock.Finite? && q > stock.n
  }

  /** `(item.price || 0) * (item.quantity || 1)`. */
  function LineTotal(it: LineItem): int
  {
    OrDefault(it.price, 0) * OrDefault(it.quantity, 1)
  }

  /** `totalPrice`: the sum of the line totals. */
  function TotalPrice(items: seq<LineItem>): int
  {
    if items == [] then 0 else LineTotal(items[0]) + TotalPrice(items[1..])
  }

  /** `totalItems`: the sum of `item.quantity || 1`. */
  function TotalItems(items: seq<LineItem>): int
  {
    if items == [] then 0 else OrDefault(items[0].quantity, 1) + TotalItems(items[1..])
  }

  /** One order line of the checkout payload, with the payload's defaults. */
  function PayloadLine(it: LineItem): OrderLine
  {
    OrderLine(it.id, if it.title == "" then "Unknown Book" else it.title,
              Finite(OrDefault(it.price, 0)), Finite(OrDefault(it.quantity, 1)))
  }

  function PayloadLines(items: seq<LineItem>): seq<OrderLine>
  {
    seq(|items|, i requires 0 <= i < |items| => PayloadLine(items[i]))
  }

  /** The order built locally when the remote call fails: `{ id: Date.now(), ...orderPayload }`. */
  function LocalOrder(id: int, owner: string, today: string, items: seq<LineItem>): Order
  {
    Order(id, owner, today, Finite(TotalPrice(items)), Some(PayloadLines(items)), None)
  }

  /** The value an order's own lines add up to: the sum of `(price || 0) * (quantity || 1)`. */
  function LinesTotal(lines: seq<OrderLine>): int
  {
    if lines == [] then 0
    else OrDefault(lines[0].price, 0) * OrDefault(lines[0].quantity, 1) + LinesTotal(lines[1..])
  }

  /**
   * The order history after prepending `order`: the stored text is parsed
   * with `|| "[]"`, so an absent or empty key starts a new list, and text
   * that is unparsable or not an array throws (`None`).
   */
  function HistoryAfter(entry: Option<Stored<Order>>, order: Order): (r: Option<seq<Order>>)
    ensures r.Some? ==> |r.value| >= 1 && r.value[0] == order && r.value[1..] == ReadStoredArray(entry)
    ensures r.None? <==> entry.Some? && (entry.value.Garbled? || entry.value.NonArray?)
  {
    match entry
    case None => Some([order])
    case Some(Blank) => Some([order])
    case Some(Array(orders)) => Some([order] + orders)
    case Some(_) => None
  }

  /** What `updateQuantity` and `removeItem` report. */
  datatype Change = Applied | Declined | NotInCart | OverStock(ceiling: int)

  /** What `handleCheckout` ends in. */
  datatype Checkout = EmptyCart | LoginRequired | Placed(order: Order, offline: bool) | Failed

  /** What the page shows for one line: quantity, the "+" ceiling, the "available" label and the button states. */
  datatype LineView = LineView(quantity: int, ceiling: int, shownAvailable: int, minusDisabled: bool, plusDisabled: bool)

  function ViewOf(it: LineItem): (v: LineView)
    ensures v.quantity == OrDefault(it.quantity, 0)
    ensures v.ceiling == OrDefault(it.stock, 99)
    ensures v.shownAvailable == v.ceiling - v.quantity
    ensures v.plusDisabled <==> v.quantity >= v.ceiling
    ensures v.minusDisabled <==> v.quantity <= 1
  {
    var q := OrDefault(it.quantity, 0);
    var ceiling := OrDefault(it.stock, 99);
    LineView(q, ceiling, ceiling - q, q <= 1, q >= ceiling)
  }

  // ---------------------------------------------------------------------
  // Facts about the pure parts

  lemma {:induction false} WithoutMembership(items: seq<LineItem>, id: Num, x: LineItem)
    ensures x in Without(items, id) <==> x in items && !SameId(x.id, id)
  {
    FilterMembership(items, KeepOther(id), x);
  }

  /** Removing keeps the survivors in order, and removing twice is removing once. */
  lemma WithoutProperties(items: seq<LineItem>, id: Num)
    ensures IsSubsequence(Without(items, id), items)
    ensures Without(Without(items, id), id) == Without(items, id)
    ensures (forall i :: 0 <= i < |items| ==> !SameId(items[i].id, id)) ==> Without(items, id) == items
  {
    FilterIsSubsequence(items, KeepOther(id));
    FilterIdempotent(items, KeepOther(id));
    if forall i :: 0 <= i < |items| ==> !SameId(items[i].id, id) {
      FilterAll(items, KeepOther(id));
    }
  }

  lemma {:induction false} SubsequenceKeepsWellFormed(a: seq<LineItem>, s: seq<LineItem>)
    requires IsSubsequence(a, s) && WellFormed(s)
    ensures WellFormed(a)
    decreases |s|
  {
    if a != [] && s != [] {
      if a[0] == s[0] && IsSubsequence(a[1..], s[1..]) {
        SubsequenceKeepsWellFormed(a[1..], s[1..]);
        forall j | 0 < j < |a| ensures a[0].id != a[j].id {
          SubsequenceMember(a[1..], s[1..], j - 1);
        }
      } else {
        SubsequenceKeepsWellFormed(a, s[1..]);
      }
    }
  }

  lemma RemoveKeepsWellFormed(items: seq<LineItem>, id: Num)
    requires WellFormed(items)
    ensures WellFormed(Without(items, id))
  {
    FilterIsSubsequence(items, KeepOther(id));
    SubsequenceKeepsWellFormed(Without(items, id), items);
  }

  /**
   * On a well-formed cart, setting a positive quantity changes the matching
   * entry's quantity and nothing else, and keeps the cart well formed.
   */
  lemma SetQuantityEffect(items: seq<LineItem>, id: Num, q: int)
    requires WellFormed(items) && q >= 1
    ensures WellFormed(WithQuantity(items, id, q))
    ensures |WithQuantity(items, id, q)| == |items|
    ensures forall i :: 0 <= i < |items| && !SameId(items[i].id, id) ==> WithQuantity(items, id, q)[i] == items[i]
    ensures IndexOfId(items, id).Some? ==>
      var k := IndexOfId(items, id).value;
      WithQuantity(items, id, q)[k] == items[k].(quantity := Finite(q))
  {
    var r := WithQuantity(items, id, q);
    forall i, j | 0 <= i < j < |r| ensures r[i].id != r[j].id {
      assert r[i].id == items[i].id && r[j].id == items[j].id;
    }
  }

  lemma {:induction false} TotalPriceAppend(a: seq<LineItem>, b: seq<LineItem>)
    ensures TotalPrice(a + b) == TotalPrice(a) + TotalPrice(b)
  {
    if a == [] {
      assert a + b == b;
    } else {
      assert (a + b)[1..] == a[1..] + b;
      calc {
        TotalPrice(a + b);
        LineTotal(a[0]) + TotalPrice(a[1..] + b);
        { TotalPriceAppend(a[1..], b); }
        LineTotal(a[0]) + TotalPrice(a[1..]) + TotalPrice(b);
      }
    }
  }

  /** Appending an entry adds its own count to `totalItems`. */
  lemma {:induction false} TotalItemsAppend(items: seq<LineItem>, x: LineItem)
    ensures TotalItems(items + [x]) == TotalItems(items) + OrDefault(x.quantity, 1)
  {
    if items == [] {
      assert items + [x] == [x];
    } else {
      assert (items + [x])[1..] == items[1..] + [x];
      TotalItemsAppend(items[1..], x);
    }
  }

  /** Replacing one entry changes `totalItems` by the difference of the two counts. */
  lemma {:induction false} TotalItemsReplace(items: seq<LineItem>, k: nat, x: LineItem)
    requires k < |items|
    ensures TotalItems(items[k := x]) == TotalItems(items) - OrDefault(items[k].quantity, 1) + OrDefault(x.quantity, 1)
  {
    if k > 0 {
      assert items[k := x][1..] == items[1..][k - 1 := x];
      TotalItemsReplace(items[1..], k - 1, x);
    } else {
      assert items[k := x][1..] == items[1..];
    }
  }

  /** In a well-formed cart every entry counts its own quantity, so there are at least as many items as entries. */
  lemma {:induction false} TotalItemsOfWellFormed(items: seq<LineItem>)
    requires WellFormed(items)
    ensures TotalItems(items) >= |items|
  {
    if items != [] {
      assert WellFormed(items[1..]) by {
        forall i, j | 0 <= i < j < |items[1..]| ensures items[1..][i].id != items[1..][j].id {
          assert items[1..][i] == items[i + 1] && items[1..][j] == items[j + 1];
        }
      }
      TotalItemsOfWellFormed(items[1..]);
    }
  }

  /**
   * The order checkout builds is consistent with the cart it came from: one
   * line per entry, and its lines add up to its `totalAmount`, which is the
   * cart's `totalPrice`.
   */
  lemma {:induction false} LocalOrderMatchesCart(id: int, owner: string, today: string, items: seq<LineItem>)
    ensures LocalOrder(id, owner, today, items).totalAmount == Finite(TotalPrice(items))
    ensures |PayloadLines(items)| == |items|
    ensures LinesTotal(PayloadLines(items)) == TotalPrice(items)
  {
    if items != [] {
      LocalOrderMatchesCart(id, owner, today, items[1..]);
      assert PayloadLines(items)[1..] == PayloadLines(items[1..]);
    }
  }

  /** A two-line cart: 2 × 200 + 1 × 50 = 450. */
  lemma CheckoutTotalExample()
    ensures TotalPrice([LineItem(Finite(1), "A", "", Finite(200), Missing, Finite(2)),
                        LineItem(Finite(2), "B", "", Finite(50), Missing, Finite(1))]) == 450
  {
  }

  /**
   * The "+" button and `updateQuantity` use different ceilings: the button
   * is enabled under a stock snapshot of 0 (shown as 99), and the press is
   * then refused; with any other snapshot an enabled "+" is accepted.
   */
  lemma PlusButtonCeiling(it: LineItem)
    requires it.quantity.Finite? && it.quantity.n >= 1
    ensures it.stock.Finite? && it.stock.n != 0 && !ViewOf(it).plusDisabled ==>
      !OverCeiling(it.stock, it.quantity.n + 1)
    ensures it.stock == Finite(0) ==> ViewOf(it).ceiling == 99 && OverCeiling(it.stock, it.quantity.n + 1)
  {
  }

  // ---------------------------------------------------------------------
  // The page

  class CartPage {
    var items: seq<LineItem>
    const b: Browser
    const user: Option<User>
    const owner: string

    /**
     * Mounting the page and its `userId` memo: the user's id when truthy,
     * else the session guest id, created and stored when missing.
     */
    constructor (b: Browser, user: Option<User>, uuid: Option<Uuid>, now: nat, rand: string)
      modifies b`guestId
      ensures this.b == b && this.user == user && items == []
      ensures owner != []
      ensures HasTruthyId(user) ==> owner == UserKey(user.value.id.value) && b.guestId == old(b.guestId)
      ensures !HasTruthyId(user) && old(b.guestId).Some? && old(b.guestId).value != [] ==>
        owner == old(b.guestId).value && b.guestId == old(b.guestId)
      ensures !HasTruthyId(user) && (old(b.guestId).None? || old(b.guestId).value == []) ==>
        owner == CartUtils.NewGuestId(uuid, now, rand) && b.guestId == Some(owner)
    {
      var o: string;
      if HasTruthyId(user) {
        o := UserKey(user.value.id.value);
      } else if b.guestId.Some? && b.guestId.value != [] {
        o := b.guestId.value;
      } else {
        o := CartUtils.NewGuestId(uuid, now, rand);
        b.guestId := Some(o);
      }
      this.b := b;
      this.user := user;
      this.owner := o;
      items := [];
    }

    /** `loadCart`: the stored array, or the empty cart when it is missing, unparsable or not an array. */
    method LoadCart()
      modifies this`items
      ensures items == ReadStoredArray(Lookup(b.carts, owner))
      ensures Lookup(b.carts, owner).None? || !Lookup(b.carts, owner).value.Array? ==> items == []
    {
      if owner in b.carts {
        match b.carts[owner]
        case Array(elems) => items := elems;
        case _ => items := [];
      } else {
        items := [];
      }
    }

    /** `silentClearCart`: empty the list, delete the key, then broadcast. */
    method SilentClearCart()
      modifies this`items, b`carts, b`trace
      ensures items == [] && b.carts == old(b.carts) - {owner}
      ensures b.trace == old(b.trace) + [CartRemoved(owner), CartUpdated]
      ensures ReadStoredArray(Lookup(b.carts, owner)) == []
    {
      items := [];
      RemoveCart(b, owner);
      Broadcast(b);
    }

    /**
     * `removeItem`: once confirmed, keep exactly the entries whose id differs,
     * save, then broadcast; declined, nothing changes. The list is set before
     * the save, so a save that throws (`writeFails`) still changes the list,
     * but leaves storage as it was and skips the broadcast.
     */
    method RemoveItem(itemId: Num, confirmed: bool, writeFails: bool)
      modifies this`items, b`carts, b`trace
      ensures !confirmed ==> items == old(items) && b.carts == old(b.carts) && b.trace == old(b.trace)
      ensures confirmed ==> items == Without(old(items), itemId)
      ensures confirmed && !writeFails ==> b.carts == old(b.carts)[owner := Array(items)]
      ensures confirmed && !writeFails ==> b.trace == old(b.trace) + [CartWritten(owner), CartUpdated]
      ensures confirmed && writeFails ==> b.carts == old(b.carts) && b.trace == old(b.trace)
      ensures WellFormed(old(items)) ==> WellFormed(items)
    {
      if confirmed {
        if WellFormed(items) { RemoveKeepsWellFormed(items, itemId); }
        items := Without(items, itemId);
        WriteStoredCart(b, owner, items, writeFails);
        if !writeFails {
          Broadcast(b);
        }
      }
    }

    /** `clearCart`: the silent clear, once confirmed. */
    method ClearCart(confirmed: bool)
      modifies this`items, b`carts, b`trace
      ensures !confirmed ==> items == old(items) && b.carts == old(b.carts) && b.trace == old(b.trace)
      ensures confirmed ==> items == [] && b.carts == old(b.carts) - {owner}
      ensures confirmed ==> b.trace == old(b.trace) + [CartRemoved(owner), CartUpdated]
    {
      if confirmed {
        SilentClearCart();
      }
    }

    /**
     * `updateQuantity`. A quantity of 0 or less is a (confirmed) removal. An
     * id not in the list, or a quantity above the entry's stock snapshot,
     * changes nothing. Otherwise every entry with that id gets the new
     * quantity, the list is saved, then the event is broadcast. As in
     * `removeItem`, a save that throws (`writeFails`) comes after the list
     * was set: the list changes, storage does not, no event is broadcast.
     */
    method UpdateQuantity(itemId: Num, newQuantity: int, confirmed: bool, writeFails: bool) returns (o: Change)
      modifies this`items, b`carts, b`trace
      ensures newQuantity <= 0 ==> o == (if confirmed then Applied else Declined)
      ensures newQuantity <= 0 && confirmed ==> items == Without(old(items), itemId)
      ensures newQuantity > 0 ==> (o == NotInCart <==> IndexOfId(old(items), itemId).None?)
      ensures newQuantity > 0 && IndexOfId(old(items), itemId).Some? ==>
        var item := old(items)[IndexOfId(old(items), itemId).value];
        (o.OverStock? <==> OverCeiling(item.stock, newQuantity)) && (o.OverStock? ==> o.ceiling == item.stock.n)
      ensures newQuantity > 0 && o == Applied ==> items == WithQuantity(old(items), itemId, newQuantity)
      ensures o == Applied && !writeFails ==> b.carts == old(b.carts)[owner := Array(items)]
      ensures o == Applied && !writeFails ==> b.trace == old(b.trace) + [CartWritten(owner), CartUpdated]
      ensures o == Applied && writeFails ==> b.carts == old(b.carts) && b.trace == old(b.trace)
      ensures o != Applied ==> items == old(items) && b.carts == old(b.carts) && b.trace == old(b.trace)
      ensures WellFormed(old(items)) ==> WellFormed(items)
    {
      if newQuantity <= 0 {
        RemoveItem(itemId, confirmed, writeFails);
        return if confirmed then Applied else Declined;
      }
      var k := IndexOfId(items, itemId);
      if k.None? {
        return NotInCart;
      }
      var item := items[k.value];
      if OverCeiling(item.stock, newQuantity) {
        return OverStock(item.stock.n);
      }
      if WellFormed(items) { SetQuantityEffect(items, itemId, newQuantity); }
      items := WithQuantity(items, itemId, newQuantity);
      WriteStoredCart(b, owner, items, writeFails);
      if !writeFails {
        Broadcast(b);
      }
      o := Applied;
    }

    /**
     * `handleCheckout`. An empty cart or a missing user ends at once with
     * nothing changed. Otherwise the remote order (or, when the call failed,
     * a local order built from the same payload) is prepended to the history
     * under the user's id, then the cart is cleared silently. History text
     * that cannot take the prepend, or a history save that throws
     * (`historyWriteFails`), lands in the handler's catch: the cart is not
     * cleared and there is no navigation.
     */
    method HandleCheckout(remote: Option<Order>, localId: int, today: string, historyWriteFails: bool)
      returns (o: Checkout)
      modifies this`items, b`carts, b`orderLists, b`trace
      ensures old(items) == [] ==> o == EmptyCart
      ensures old(items) != [] && user.None? ==> o == LoginRequired
      ensures old(items) != [] && user.Some? ==> o.Placed? || o == Failed
      ensures o.Placed? ==> o.offline == remote.None?
      ensures o.Placed? ==> o.order == (if remote.Some? then remote.value else LocalOrder(localId, owner, today, old(items)))
      ensures o.Placed? ==> items == [] && b.carts == old(b.carts) - {owner}
      ensures o.Placed? && HasTruthyId(user) ==>
        var key := UserKey(user.value.id.value);
        var history := HistoryAfter(Lookup(old(b.orderLists), key), o.order);
        history.Some? && b.orderLists == old(b.orderLists)[key := Array(history.value)]
        && ReadStoredArray(Lookup(b.orderLists, key)) == [o.order] + ReadStoredArray(Lookup(old(b.orderLists), key))
        && b.trace == old(b.trace) + [OrdersWritten(key), CartRemoved(owner), CartUpdated]
      ensures o.Placed? && !HasTruthyId(user) ==>
        b.orderLists == old(b.orderLists) && b.trace == old(b.trace) + [CartRemoved(owner), CartUpdated]
      ensures o == Failed <==>
        (&& old(items) != [] && HasTruthyId(user)
         && (|| HistoryAfter(Lookup(old(b.orderLists), UserKey(user.value.id.value)),
                             LocalOrder(localId, owner, today, old(items))).None?
             || historyWriteFails))
      ensures !o.Placed? ==>
        items == old(items) && b.carts == old(b.carts) && b.orderLists == old(b.orderLists) && b.trace == old(b.trace)
    {
      if items == [] {
        return EmptyCart;
      }
      if user.None? {
        return LoginRequired;
      }
      var order := if remote.Some? then remote.value else LocalOrder(localId, owner, today, items);
      if HasTruthyId(user) {
        var key := UserKey(user.value.id.value);
        var history := HistoryAfter(Lookup(b.orderLists, key), order);
        if history.None? || historyWriteFails {
          return Failed;
        }
        WriteStoredOrders(b, key, history.value, false);
      }
      SilentClearCart();
      o := Placed(order, remote.None?);
    }
  }
}
