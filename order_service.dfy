/**
 * Order placement on the backend
 * (backend/FireHorse/src/main/java/com/example/demo/service/OrderService.java):
 * validate every cart row of the user against its book's stock while
 * summing the total, then decrement stock and build the order items, save
 * the order, and delete the user's cart rows.
 */
module OrderService {
  import opened Database
  import opened Values

  datatype OrderError = CartEmpty | NotEnoughStock(title: string)

  predicate Refer(books: map<int, BookRow>, items: seq<CartRow>)
  {
    forall i :: 0 <= i < |items| ==> items[i].bookId in books
  }

  /** Σ book price × row quantity, over a prefix-closed definition the first loop follows. */
  function TotalOf(books: map<int, BookRow>, items: seq<CartRow>): int
    requires Refer(books, items)
  {
    if items == [] then 0
    else
      var last := items[|items| - 1];
      TotalOf(books, items[..|items| - 1]) + books[last.bookId].price * last.quantity
  }

  /** The first row whose book has less stock than the row's quantity. */
  function FirstShort(books: map<int, BookRow>, items: seq<CartRow>): (r: Option<nat>)
    requires Refer(books, items)
    ensures r.Some? ==> r.value < |items| && books[items[r.value].bookId].stock < items[r.value].quantity
    ensures r.Some? ==> forall j :: 0 <= j < r.value ==> books[items[j].bookId].stock >= items[j].quantity
    ensures r.None? ==> forall j :: 0 <= j < |items| ==> books[items[j].bookId].stock >= items[j].quantity
  {
    if items == [] then None
    else if books[items[0].bookId].stock < items[0].quantity then Some(0)
    else match FirstShort(books, items[1..])
      case None => None
      case Some(k) => Some(k + 1)
  }

  /** One row's quantity taken off its book's stock. */
  function TakeOff(books: map<int, BookRow>, row: CartRow): (r: map<int, BookRow>)
    requires row.bookId in books
  {
    books[row.bookId := books[row.bookId].(stock := books[row.bookId].stock - row.quantity)]
  }

  /** The book table after each row's quantity is taken off its book's stock, in row order. */
  function Decremented(books: map<int, BookRow>, items: seq<CartRow>): (r: map<int, BookRow>)
    requires Refer(books, items)
    ensures r.Keys == books.Keys
    ensures forall b :: b in books ==> r[b].title == books[b].title && r[b].price == books[b].price
  {
    if items == [] then books
    else TakeOff(Decremented(books, items[..|items| - 1]), items[|items| - 1])
  }

  /** One order item per cart row, copying quantity, price and title. */
  function ItemsOf(books: map<int, BookRow>, items: seq<CartRow>): (r: seq<OrderItem>)
    requires Refer(books, items)
    ensures |r| == |items|
  {
    seq(|items|, i requires 0 <= i < |items| =>
      OrderItem(items[i].bookId, items[i].quantity, books[items[i].bookId].price, books[items[i].bookId].title))
  }

  function BookSaves(items: seq<CartRow>): seq<DbOp>
  {
    seq(|items|, i requires 0 <= i < |items| => BookSaved(items[i].bookId))
  }

  /** The value an order's items add up to: Σ price × quantity. */
  function ItemsTotal(items: seq<OrderItem>): int
  {
    if items == [] then 0 else ItemsTotal(items[..|items| - 1]) + items[|items| - 1].price * items[|items| - 1].quantity
  }

  /**
   * The first loop of `placeOrder`: walk the rows, stop at the first one
   * whose book has too little stock, and otherwise sum the total.
   */
  method CheckAndTotal(books: map<int, BookRow>, items: seq<CartRow>) returns (short: Option<nat>, total: int)
    requires Refer(books, items)
    ensures short == FirstShort(books, items)
    ensures short.None? ==> total == TotalOf(books, items)
  {
    total := 0;
    var i := 0;
    while i < |items|
      invariant 0 <= i <= |items|
      invariant total == TotalOf(books, items[..i])
      invariant forall j :: 0 <= j < i ==> books[items[j].bookId].stock >= items[j].quantity
    {
      assert items[..i + 1][..i] == items[..i];
      var book := books[items[i].bookId];
      if book.stock < items[i].quantity {
        return Some(i), total;
      }
      total := total + book.price * items[i].quantity;
      i := i + 1;
    }
    assert items[..|items|] == items;
    short := None;
  }

  /** One more row: its book's stock goes down, one item and one save are appended. */
  lemma ApplyStep(books: map<int, BookRow>, items: seq<CartRow>, i: int)
    requires Refer(books, items) && 0 <= i < |items|
    ensures Refer(books, items[..i]) && Refer(books, items[..i + 1])
    ensures Decremented(books, items[..i + 1]) == TakeOff(Decremented(books, items[..i]), items[i])
    ensures ItemsOf(books, items[..i + 1]) == ItemsOf(books, items[..i])
      + [OrderItem(items[i].bookId, items[i].quantity, books[items[i].bookId].price, books[items[i].bookId].title)]
    ensures BookSaves(items[..i + 1]) == BookSaves(items[..i]) + [BookSaved(items[i].bookId)]
  {
    assert items[..i + 1][..i] == items[..i];
  }

  /**
   * The second loop of `placeOrder`: take each row's quantity off its book,
   * save the book, and build the order item from it.
   */
  method ApplyRows(db: Db, items: seq<CartRow>) returns (orderItems: seq<OrderItem>)
    requires Refer(db.books, items)
    modifies db`books, db`log
    ensures db.books == Decremented(old(db.books), items)
    ensures orderItems == ItemsOf(old(db.books), items)
    ensures db.log == old(db.log) + BookSaves(items)
  {
    orderItems := [];
    var i := 0;
    while i < |items|
      invariant 0 <= i <= |items|
      invariant db.books == Decremented(old(db.books), items[..i])
      invariant orderItems == ItemsOf(old(db.books), items[..i])
      invariant db.log == old(db.log) + BookSaves(items[..i])
    {
      ApplyStep(old(db.books), items, i);
      var item := items[i];
      var book := db.books[item.bookId];
      db.books := TakeOff(db.books, item);
      db.log := db.log + [BookSaved(item.bookId)];
      orderItems := orderItems + [OrderItem(item.bookId, item.quantity, book.price, book.title)];
      i := i + 1;
    }
    assert items[..|items|] == items;
  }

  /**
   * `placeOrder`. No rows: "Cart is empty". A row whose book has too little
   * stock: "Not enough stock" naming the first such book, before anything is
   * changed. Otherwise every book loses its row's quantity, the order with
   * status "pending", the total and one item per row is saved, and only
   * then are the user's rows deleted.
   */
  method PlaceOrder(db: Db, userId: int, today: string) returns (r: Result<SavedOrder, OrderError>)
    requires db.Valid()
    modifies db`books, db`rows, db`orders, db`log
    ensures db.Valid()
    ensures var items := UserRows(old(db.rows), userId);
      && Refer(old(db.books), items)
      && (items == [] ==> r == Err(CartEmpty))
      && (items != [] && FirstShort(old(db.books), items).Some? ==>
            r == Err(NotEnoughStock(old(db.books)[items[FirstShort(old(db.books), items).value].bookId].title)))
      && (r.Err? ==> db.books == old(db.books) && db.rows == old(db.rows) && db.orders == old(db.orders) && db.log == old(db.log))
      && (r.Ok? <==> items != [] && FirstShort(old(db.books), items).None?)
      && (r.Ok? ==>
            && r.value == SavedOrder(userId, today, TotalOf(old(db.books), items), "pending", ItemsOf(old(db.books), items))
            && db.books == Decremented(old(db.books), items)
            && db.orders == old(db.orders) + [r.value]
            && db.rows == WithoutUser(old(db.rows), userId)
            && db.log == old(db.log) + BookSaves(items) + [OrderSaved, RowsDeleted(RowIds(items))])
  {
    UserRowsReferToBooks(db.books, db.rows, userId);
    var items := UserRows(db.rows, userId);
    if items == [] {
      return Err(CartEmpty);
    }
    var short, total := CheckAndTotal(db.books, items);
    if short.Some? {
      return Err(NotEnoughStock(db.books[items[short.value].bookId].title));
    }
    var order := CommitOrder(db, userId, today, items, total);
    r := Ok(order);
  }

  /**
   * The part of `placeOrder` after the checks: decrement and save every
   * book, save the order, then delete the user's rows.
   */
  method CommitOrder(db: Db, userId: int, today: string, items: seq<CartRow>, total: int) returns (order: SavedOrder)
    requires db.Valid()
    requires items == UserRows(db.rows, userId) && Refer(db.books, items)
    modifies db`books, db`rows, db`orders, db`log
    ensures db.Valid()
    ensures order == SavedOrder(userId, today, total, "pending", ItemsOf(old(db.books), items))
    ensures db.books == Decremented(old(db.books), items)
    ensures db.orders == old(db.orders) + [order]
    ensures db.rows == WithoutUser(old(db.rows), userId)
    ensures db.log == old(db.log) + BookSaves(items) + [OrderSaved, RowsDeleted(RowIds(items))]
  {
    WithoutUserKeepsInvariant(db.books, db.rows, userId);
    WithoutUserKeepsBound(db.rows, userId, db.nextRowId);
    var remaining := WithoutUser(db.rows, userId);
    var orderItems := ApplyRows(db, items);
    SameKeysKeepInvariant(old(db.books), db.books, remaining);
    order := SavedOrder(userId, today, total, "pending", orderItems);
    db.orders := db.orders + [order];
    db.log := db.log + [OrderSaved];
    db.rows := remaining;
    db.log := db.log + [RowsDeleted(RowIds(items))];
  }

  lemma SameKeysKeepInvariant(before: map<int, BookRow>, after: map<int, BookRow>, rows: seq<CartRow>)
    requires TableInvariant(before, rows) && after.Keys == before.Keys
    ensures TableInvariant(after, rows)
  {
    assert forall i :: 0 <= i < |rows| ==> rows[i].bookId in before;
  }

  // ---------------------------------------------------------------------
  // Facts

  /**
   * When no book occurs twice among the rows, each book's stock goes down
   * by exactly its row's quantity and every other book is untouched.
   */
  lemma {:induction false} DecrementedStock(books: map<int, BookRow>, items: seq<CartRow>)
    requires Refer(books, items)
    requires forall i, j :: 0 <= i < j < |items| ==> items[i].bookId != items[j].bookId
    ensures forall k :: 0 <= k < |items| ==>
      Decremented(books, items)[items[k].bookId].stock == books[items[k].bookId].stock - items[k].quantity
    ensures forall b :: b in books && (forall k :: 0 <= k < |items| ==> items[k].bookId != b) ==>
      Decremented(books, items)[b] == books[b]
  {
    if items != [] {
      var init := items[..|items| - 1];
      assert forall j :: 0 <= j < |init| ==> init[j] == items[j];
      DecrementedStock(books, init);
    }
  }

  /**
   * After a successful order on a valid database, every ordered book's stock
   * equals its old stock less the quantity ordered, which is not negative.
   */
  lemma PlacedStockNotNegative(books: map<int, BookRow>, rows: seq<CartRow>, userId: int)
    requires TableInvariant(books, rows) && Refer(books, UserRows(rows, userId))
    requires FirstShort(books, UserRows(rows, userId)).None?
    ensures var items := UserRows(rows, userId);
      forall k :: 0 <= k < |items| ==>
        0 <= Decremented(books, items)[items[k].bookId].stock == books[items[k].bookId].stock - items[k].quantity
  {
    UserRowsDistinctBooks(books, rows, userId);
    DecrementedStock(books, UserRows(rows, userId));
  }

  /** The order's items add up to its total amount. */
  lemma {:induction false} ItemsAddUpToTotal(books: map<int, BookRow>, items: seq<CartRow>)
    requires Refer(books, items)
    ensures ItemsTotal(ItemsOf(books, items)) == TotalOf(books, items)
  {
    if items != [] {
      var init := items[..|items| - 1];
      assert ItemsOf(books, items)[..|items| - 1] == ItemsOf(books, init);
      ItemsAddUpToTotal(books, init);
    }
  }

  /**
   * Without the (user, book) uniqueness the table keeps, the per-row check
   * is not enough: two rows of one book, each within its stock, drive the
   * stock below zero.
   */
  lemma DuplicateRowsOversell()
    ensures var books := map[7 := BookRow("B", 10, 1)];
      var items := [CartRow(1, 1, 7, 1), CartRow(2, 1, 7, 1)];
      FirstShort(books, items).None? && Decremented(books, items)[7].stock == -1
  {
    var books := map[7 := BookRow("B", 10, 1)];
    var items := [CartRow(1, 1, 7, 1), CartRow(2, 1, 7, 1)];
    assert items[..1] == [items[0]];
    assert items[..1][..0] == [];
  }

  /** The unit test's scenario: one copy of a book with stock 15 leaves 14. */
  lemma TestScenario()
    ensures var books := map[100 := BookRow("Test Book", 10, 15)];
      var items := [CartRow(1, 1, 100, 1)];
      FirstShort(books, items).None? && Decremented(books, items)[100].stock == 14
      && TotalOf(books, items) == 10
  {
    var items := [CartRow(1, 1, 100, 1)];
    assert items[..0] == [];
  }
}
