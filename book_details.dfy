/**
 * The book details page (frontend/FH_book/src/pages/BookDetails.jsx): the
 * viewer's cart key, the availability of the shown book after what is
 * already in that cart, the stock badge, and "Add to Cart".
 */
module BookDetails {
  import opened Text
  import opened Values
  import opened Storage
  import opened BookCard
  import CartUtils
  import CartPage

  /** `user?.id || sessionStorage.getItem('guestId') || 'guest'`; the same rule keys the home page's cart. */
  function ViewerKey(user: Option<User>, guestId: Option<string>): (k: string)
    ensures k != []
    ensures HasTruthyId(user) ==> k == UserKey(user.value.id.value)
    ensures !HasTruthyId(user) && guestId.Some? && guestId.value != [] ==> k == guestId.value
    ensures !HasTruthyId(user) && !(guestId.Some? && guestId.value != []) ==> k == CartUtils.LegacyGuestKey
  {
    if HasTruthyId(user) then UserKey(user.value.id.value)
    else if guestId.Some? && guestId.value != [] then guestId.value
    else "guest"
  }

  /** `baseStock`: the book's stock as a finite number, 0 when absent or not finite; not clamped at 0. */
  function BaseStock(stock: Num): int
  {
    FiniteOr0(stock)
  }

  /**
   * `inCartQty`: the finite quantity of the first cart entry whose numeric
   * id equals the book's id; 0 for book id 0, for no such entry, and for a
   * cart that is missing, unparsable or not an array.
   */
  function InCartQty(entry: Option<Stored<LineItem>>, bookId: int): (q: int)
    ensures bookId == 0 || !(entry.Some? && entry.value.Array?) ==> q == 0
    ensures bookId != 0 && entry.Some? && entry.value.Array? ==>
      var k := IndexOfId(entry.value.elems, Finite(bookId));
      q == (if k.Some? then FiniteOr0(entry.value.elems[k.value].quantity) else 0)
  {
    if bookId == 0 then 0
    else match entry
      case Some(Array(items)) =>
        (match IndexOfId(items, Finite(bookId))
         case Some(k) => FiniteOr0(items[k].quantity)
         case None => 0)
      case _ => 0
  }

  /** `availableStock = Math.max(0, baseStock - inCartQty)`. */
  function Available(stock: Num, entry: Option<Stored<LineItem>>, bookId: int): (a: int)
    ensures a >= 0
    ensures a == 0 <==> BaseStock(stock) <= InCartQty(entry, bookId)
    ensures a > 0 ==> a == BaseStock(stock) - InCartQty(entry, bookId)
  {
    var d := BaseStock(stock) - InCartQty(entry, bookId);
    if d > 0 then d else 0
  }

  /** What the page shows for the book: the badge, and whether "Add to Cart" is disabled. */
  function StockView(available: int, busy: bool): (r: (Badge, bool))
    ensures r.0.OnlyLeft? <==> 0 < available <= 5
    ensures r.0.OutOfStock? <==> available <= 0
    ensures r.1 <==> busy || available <= 0
  {
    (BadgeOf(Finite(available)), busy || available <= 0)
  }

  /** The cart `handleAddToCart` starts from: `None` when the stored JSON is not an array, so `findIndex` throws. */
  function CartBefore(entry: Option<Stored<LineItem>>): (r: Option<seq<LineItem>>)
    ensures r.None? <==> entry.Some? && entry.value.NonArray?
    ensures r.Some? ==> r.value == ReadStoredArray(entry)
  {
    match entry
    case Some(NonArray) => None
    case Some(Array(items)) => Some(items)
    case _ => Some([])
  }

  /** The "no more stock" test: the book's entry already holds at least the base stock. */
  predicate AtLimit(items: seq<LineItem>, book: Book)
  {
    var k := IndexOfId(items, Finite(book.id));
    k.Some? && FiniteOr0(items[k.value].quantity) >= BaseStock(book.stock)
  }

  /** The cart after a successful add: the book's entry one higher, or a new entry with quantity 1 at the end. */
  function AddedItems(items: seq<LineItem>, book: Book): seq<LineItem>
  {
    match IndexOfId(items, Finite(book.id))
    case Some(k) => items[k := items[k].(quantity := Finite(FiniteOr0(items[k].quantity) + 1))]
    case None => items + [LineOf(book)]
  }

  datatype AddOutcome = Busy | Refused | AtStockLimit | Added | AddFailed

  /**
   * `handleAddToCart`. A click in flight is ignored; no book or no available
   * stock is refused. The stored cart (empty when missing or unparsable) has
   * the book's entry incremented, unless it already holds the base stock, or
   * gets a new entry. The cart is saved; for a signed-in user the remote
   * mirror call is made, whose failure is swallowed; then `cartUpdated` is
   * broadcast. A stored non-array, or a failing save, ends in the error alert
   * with nothing written. The availability is read from the stored cart at
   * the click, which is what the page rendered as long as no other tab has
   * written the cart since.
   */
  method HandleAddToCart(b: Browser, user: Option<User>, book: Option<Book>, busy: bool, writeFails: bool)
    returns (o: AddOutcome)
    modifies b`carts, b`trace
    ensures var key := ViewerKey(user, b.guestId);
      var before := CartBefore(Lookup(old(b.carts), key));
      var open := !busy && book.Some? && Available(book.value.stock, Lookup(old(b.carts), key), book.value.id) > 0;
      && (o == Busy <==> busy)
      && (o == Refused <==> !busy && !open)
      && (o == AtStockLimit <==> open && before.Some? && AtLimit(before.value, book.value))
      && (o == AddFailed <==> open && (before.None? || (!AtLimit(before.value, book.value) && writeFails)))
      && (o == Added ==>
            && b.carts == old(b.carts)[key := Array(AddedItems(before.value, book.value))]
            && b.trace == old(b.trace) + [CartWritten(key)]
                          + (if HasTruthyId(user) then [RemoteCartAdd(key, book.value.id)] else [])
                          + [CartUpdated])
      && (o != Added ==> b.carts == old(b.carts) && b.trace == old(b.trace))
  {
    if busy {
      return Busy;
    }
    var key := ViewerKey(user, b.guestId);
    if book.None? || Available(book.value.stock, Lookup(b.carts, key), book.value.id) <= 0 {
      return Refused;
    }
    var bk := book.value;
    var before := CartBefore(Lookup(b.carts, key));
    if before.None? {
      return AddFailed;
    }
    var items := before.value;
    var k := IndexOfId(items, Finite(bk.id));
    if k.Some? {
      var current := FiniteOr0(items[k.value].quantity);
      if current >= BaseStock(bk.stock) {
        return AtStockLimit;
      }
      items := items[k.value := items[k.value].(quantity := Finite(current + 1))];
    } else {
      items := items + [LineOf(bk)];
    }
    assert items == AddedItems(before.value, bk);
    WriteStoredCart(b, key, items, writeFails);
    if writeFails {
      return AddFailed;
    }
    if HasTruthyId(user) {
      b.trace := b.trace + [RemoteCartAdd(key, bk.id)];
    }
    Broadcast(b);
    o := Added;
  }

  // ---------------------------------------------------------------------
  // Facts

  /**
   * Adding a book already in a well-formed cart raises that entry by exactly
   * one and leaves every other entry as it was; a book not in the cart is
   * appended with quantity 1. Either way the cart stays well formed and
   * `totalItems` grows by one.
   */
  lemma AddKeepsWellFormed(items: seq<LineItem>, book: Book)
    requires CartPage.WellFormed(items)
    ensures CartPage.WellFormed(AddedItems(items, book))
    ensures CartPage.TotalItems(AddedItems(items, book)) == CartPage.TotalItems(items) + 1
    ensures IndexOfId(items, Finite(book.id)).Some? ==>
      var k := IndexOfId(items, Finite(book.id)).value;
      && |AddedItems(items, book)| == |items|
      && AddedItems(items, book)[k] == items[k].(quantity := Finite(items[k].quantity.n + 1))
      && (forall i :: 0 <= i < |items| && i != k ==> AddedItems(items, book)[i] == items[i])
    ensures IndexOfId(items, Finite(book.id)).None? ==> AddedItems(items, book) == items + [LineOf(book)]
  {
    var r := AddedItems(items, book);
    match IndexOfId(items, Finite(book.id))
    case Some(k) =>
      CartPage.TotalItemsReplace(items, k, r[k]);
      forall i, j | 0 <= i < j < |r| ensures r[i].id != r[j].id {
        assert r[i].id == items[i].id && r[j].id == items[j].id;
      }
    case None =>
      CartPage.TotalItemsAppend(items, LineOf(book));
      forall i, j | 0 <= i < j < |r| ensures r[i].id != r[j].id {
        if j == |items| {
          assert !SameId(items[i].id, Finite(book.id));
        } else {
          assert r[i] == items[i] && r[j] == items[j];
        }
      }
  }

  /** Ids kept, quantities aside: the first match of an id does not move when one entry's quantity changes. */
  lemma {:induction false} IndexOfIdIgnoresQuantity(items: seq<LineItem>, k: nat, q: Num, id: Num)
    requires k < |items|
    ensures IndexOfId(items[k := items[k].(quantity := q)], id) == IndexOfId(items, id)
  {
    if items != [] {
      var r := items[k := items[k].(quantity := q)];
      assert r[0].id == items[0].id;
      if k > 0 {
        assert r[1..] == items[1..][k - 1 := items[1..][k - 1].(quantity := q)];
        IndexOfIdIgnoresQuantity(items[1..], k - 1, q, id);
      } else {
        assert r[1..] == items[1..];
      }
    }
  }

  /**
   * For a book with a non-zero id, a successful add uses up exactly one unit
   * of the availability the page shows.
   */
  lemma AddConsumesOneUnit(entry: Option<Stored<LineItem>>, book: Book)
    requires book.id != 0 && CartBefore(entry).Some?
    requires Available(book.stock, entry, book.id) > 0
    requires !AtLimit(CartBefore(entry).value, book)
    ensures Available(book.stock, Some(Array(AddedItems(CartBefore(entry).value, book))), book.id)
         == Available(book.stock, entry, book.id) - 1
  {
    var items := CartBefore(entry).value;
    var id := Finite(book.id);
    match IndexOfId(items, id)
    case Some(k) =>
      IndexOfIdIgnoresQuantity(items, k, Finite(FiniteOr0(items[k].quantity) + 1), id);
    case None =>
      assert IndexOfId(items + [LineOf(book)], id) == Some(|items|) by {
        assert (items + [LineOf(book)])[|items|] == LineOf(book);
        assert forall j :: 0 <= j < |items| ==> (items + [LineOf(book)])[j] == items[j];
      }
  }

  /**
   * Within one tab, the "no more stock" alert cannot be reached for a book
   * with a non-zero id: an existing entry with quantity ≥ base stock already makes the
   * availability 0, which refuses the click first. For book id 0 the
   * availability ignores the cart and the alert is reachable.
   */
  lemma StockLimitOnlyForIdZero(entry: Option<Stored<LineItem>>, book: Book)
    requires CartBefore(entry).Some? && AtLimit(CartBefore(entry).value, book)
    ensures book.id != 0 ==> Available(book.stock, entry, book.id) == 0
  {
  }

  lemma StockLimitReachableForIdZero()
    ensures var book := Book(0, "T", "A", "C", "D", Finite(100), Finite(1), NoImage);
      var entry := Some(Array([LineOf(book)]));
      Available(book.stock, entry, 0) == 1 && AtLimit(CartBefore(entry).value, book)
  {
  }

  /**
   * The page that adds and the page that shows the cart resolve the same
   * owner for a signed-in user or an existing session guest id; with no
   * guest id yet, the details page writes to `cart_guest`, a key the cart
   * page never reads.
   */
  lemma ViewerKeyVersusCartOwner(user: Option<User>, guestId: Option<string>, uuid: Option<Uuid>, now: nat, rand: string)
    ensures !HasTruthyId(user) && (guestId.None? || guestId.value == []) ==>
      ViewerKey(user, guestId) == CartUtils.LegacyGuestKey
      && ViewerKey(user, guestId) != CartUtils.NewGuestId(uuid, now, rand)
  {
  }

  /** A book with stock 10 and 3 in the cart leaves 7 to add. */
  lemma AvailabilityExample()
    ensures Available(Finite(10), Some(Array([LineItem(Finite(7), "", "", Finite(100), Finite(10), Finite(3))])), 7) == 7
  {
  }
}
