/**
 * One browser tab as the storefront sees it: the localStorage keys it uses,
 * the session-scoped guest id, the signed-in user held by the auth context,
 * and the ordered trace of storage writes and `cartUpdated` broadcasts.
 *
 * localStorage is split by key prefix: `carts[k]` is the text under
 * `cart_<k>` and `orderLists[k]` the text under `orders_<k>`; the prefixes
 * never collide, so the split loses nothing.
 */
module Storage {
  import opened Values

  /** Effects whose order matters: writes and removals of cart and order keys, remote mirrors, broadcasts. */
  datatype Event =
    | CartWritten(key: string)
    | CartRemoved(key: string)
    | OrdersWritten(key: string)
    | RemoteCartAdd(key: string, bookId: int)
    | CartUpdated

  class Browser {
    var carts: map<string, Stored<LineItem>>
    var orderLists: map<string, Stored<Order>>
    var userEntry: Option<StoredRecord<User>>
    var roleEntry: Option<string>
    var guestId: Option<string>
    var user: Option<User>
    var trace: seq<Event>

    constructor (carts: map<string, Stored<LineItem>>, orderLists: map<string, Stored<Order>>,
                 userEntry: Option<StoredRecord<User>>, roleEntry: Option<string>, guestId: Option<string>)
      ensures this.carts == carts && this.orderLists == orderLists
      ensures this.userEntry == userEntry && this.roleEntry == roleEntry && this.guestId == guestId
      ensures this.user == None && this.trace == []
    {
      this.carts := carts;
      this.orderLists := orderLists;
      this.userEntry := userEntry;
      this.roleEntry := roleEntry;
      this.guestId := guestId;
      this.user := None;
      this.trace := [];
    }
  }

  /**
   * `readStoredArray`: the array under a key, or the empty array when the
   * key is absent, empty, unparsable or holds something other than an array.
   */
  function ReadStoredArray<T>(entry: Option<Stored<T>>): (r: seq<T>)
    ensures !(entry.Some? && entry.value.Array?) ==> r == []
    ensures entry.Some? && entry.value.Array? ==> r == entry.value.elems
  {
    match entry
    case Some(Array(elems)) => elems
    case _ => []
  }

  /**
   * `writeStoredArray` on a cart key: the array is stored, or, when storage
   * throws, the failure is swallowed and nothing changes. Reading the key
   * back yields the array written.
   */
  method WriteStoredCart(b: Browser, key: string, items: seq<LineItem>, fails: bool)
    modifies b`carts, b`trace
    ensures fails ==> b.carts == old(b.carts) && b.trace == old(b.trace)
    ensures !fails ==> b.carts == old(b.carts)[key := Array(items)]
    ensures !fails ==> b.trace == old(b.trace) + [CartWritten(key)]
    ensures !fails ==> ReadStoredArray(Lookup(b.carts, key)) == items
  {
    if !fails {
      b.carts := b.carts[key := Array(items)];
      b.trace := b.trace + [CartWritten(key)];
    }
  }

  /** `writeStoredArray` on an order-history key, with the same round trip. */
  method WriteStoredOrders(b: Browser, key: string, orders: seq<Order>, fails: bool)
    modifies b`orderLists, b`trace
    ensures fails ==> b.orderLists == old(b.orderLists) && b.trace == old(b.trace)
    ensures !fails ==> b.orderLists == old(b.orderLists)[key := Array(orders)]
    ensures !fails ==> b.trace == old(b.trace) + [OrdersWritten(key)]
    ensures !fails ==> ReadStoredArray(Lookup(b.orderLists, key)) == orders
  {
    if !fails {
      b.orderLists := b.orderLists[key := Array(orders)];
      b.trace := b.trace + [OrdersWritten(key)];
    }
  }

  /** `localStorage.removeItem("cart_" + key)`. */
  method RemoveCart(b: Browser, key: string)
    modifies b`carts, b`trace
    ensures b.carts == old(b.carts) - {key}
    ensures b.trace == old(b.trace) + [CartRemoved(key)]
    ensures ReadStoredArray(Lookup(b.carts, key)) == []
  {
    b.carts := b.carts - {key};
    b.trace := b.trace + [CartRemoved(key)];
  }

  /** `window.dispatchEvent(new Event('cartUpdated'))`. */
  method Broadcast(b: Browser)
    modifies b`trace
    ensures b.trace == old(b.trace) + [CartUpdated]
  {
    b.trace := b.trace + [CartUpdated];
  }
}
