/**
 * The backend's cart rows
 * (backend/FireHorse/src/main/java/com/example/demo/service/CartService.java):
 * add a book to a user's cart, set or delete one row, delete one row by id,
 * and delete all of a user's rows.
 */
module CartService {
  import opened Seqs
  import opened Database
  import opened Values

  datatype CartError = BookNotFound | CartItemNotFound

  /** `findByUserIdAndBookId`: the position of the user's row for the book. */
  function FindPair(rows: seq<CartRow>, userId: int, bookId: int): (k: Option<nat>)
    ensures k.Some? ==> k.value < |rows| && rows[k.value].userId == userId && rows[k.value].bookId == bookId
    ensures k.None? ==> forall i :: 0 <= i < |rows| ==> !(rows[i].userId == userId && rows[i].bookId == bookId)
  {
    if rows == [] then None
    else if rows[0].userId == userId && rows[0].bookId == bookId then Some(0)
    else match FindPair(rows[1..], userId, bookId)
      case None => None
      case Some(k) => Some(k + 1)
  }

  /** `findById` on the cart table: the position of the row with this id. */
  function FindRow(rows: seq<CartRow>, rowId: int): (k: Option<nat>)
    ensures k.Some? ==> k.value < |rows| && rows[k.value].id == rowId
    ensures k.None? ==> forall i :: 0 <= i < |rows| ==> rows[i].id != rowId
  {
    if rows == [] then None
    else if rows[0].id == rowId then Some(0)
    else match FindRow(rows[1..], rowId)
      case None => None
      case Some(k) => Some(k + 1)
  }

  /** How many copies of the book the user's cart holds: the quantity of its row, 0 without one. */
  function PairQuantity(rows: seq<CartRow>, userId: int, bookId: int): int
  {
    match FindPair(rows, userId, bookId)
    case Some(k) => rows[k].quantity
    case None => 0
  }

  /** The table after `addToCart`: the existing row raised by the quantity, or a new row with the next id. */
  function AddedRows(rows: seq<CartRow>, nextId: int, userId: int, bookId: int, quantity: int): seq<CartRow>
  {
    match FindPair(rows, userId, bookId)
    case Some(k) => rows[k := rows[k].(quantity := rows[k].quantity + quantity)]
    case None => rows + [CartRow(nextId, userId, bookId, quantity)]
  }

  function NotRow(rowId: int): CartRow -> bool
  {
    (r: CartRow) => r.id != rowId
  }

  /** The table after the row with this id is deleted. */
  function WithoutRow(rows: seq<CartRow>, rowId: int): seq<CartRow>
  {
    Filter(rows, NotRow(rowId))
  }

  /** The table after `updateQuantity` of the row at `k`: deleted for a quantity ≤ 0, otherwise set. */
  function UpdatedRows(rows: seq<CartRow>, k: nat, quantity: int): seq<CartRow>
    requires k < |rows|
  {
    if quantity <= 0 then WithoutRow(rows, rows[k].id)
    else rows[k := rows[k].(quantity := quantity)]
  }

  /**
   * `addToCart`. An unknown book fails with "Book not found" and changes
   * nothing. Otherwise the user's row for the book has its quantity raised,
   * or a new row with the next id and exactly this quantity is appended;
   * either way the saved row is returned.
   */
  method AddToCart(db: Db, bookId: int, userId: int, quantity: int) returns (r: Result<CartRow, CartError>)
    requires db.Valid()
    modifies db`rows, db`nextRowId, db`log
    ensures db.Valid()
    ensures bookId !in db.books ==>
      r == Err(BookNotFound) && db.rows == old(db.rows) && db.nextRowId == old(db.nextRowId) && db.log == old(db.log)
    ensures bookId in db.books ==>
      && r.Ok? && r.value.userId == userId && r.value.bookId == bookId && r.value in db.rows
      && db.rows == AddedRows(old(db.rows), old(db.nextRowId), userId, bookId, quantity)
      && db.nextRowId == (if FindPair(old(db.rows), userId, bookId).Some? then old(db.nextRowId) else old(db.nextRowId) + 1)
      && db.log == old(db.log) + [RowSaved(r.value.id)]
  {
    if bookId !in db.books {
      return Err(BookNotFound);
    }
    AddToCartEffect(db.books, db.rows, db.nextRowId, userId, bookId, quantity);
    var existing := FindPair(db.rows, userId, bookId);
    var item: CartRow;
    if existing.Some? {
      item := db.rows[existing.value].(quantity := db.rows[existing.value].quantity + quantity);
      db.rows := db.rows[existing.value := item];
      assert db.rows[existing.value] == item;
    } else {
      item := CartRow(db.nextRowId, userId, bookId, quantity);
      db.rows := db.rows + [item];
      assert db.rows[|db.rows| - 1] == item;
      db.nextRowId := db.nextRowId + 1;
    }
    db.log := db.log + [RowSaved(item.id)];
    r := Ok(item);
  }

  /**
   * `updateQuantity`. An unknown row id fails with "Cart item not found" and
   * changes nothing; a quantity ≤ 0 deletes the row; any other quantity
   * replaces the row's.
   */
  method UpdateQuantity(db: Db, rowId: int, quantity: int) returns (r: Result<(), CartError>)
    requires db.Valid()
    modifies db`rows, db`log
    ensures db.Valid()
    ensures FindRow(old(db.rows), rowId).None? ==>
      r == Err(CartItemNotFound) && db.rows == old(db.rows) && db.log == old(db.log)
    ensures FindRow(old(db.rows), rowId).Some? ==>
      && r == Ok(())
      && db.rows == UpdatedRows(old(db.rows), FindRow(old(db.rows), rowId).value, quantity)
      && db.log == old(db.log) + [if quantity <= 0 then RowDeleted(rowId) else RowSaved(rowId)]
  {
    var k := FindRow(db.rows, rowId);
    if k.None? {
      return Err(CartItemNotFound);
    }
    UpdateQuantityEffect(db.books, db.rows, db.nextRowId, k.value, quantity);
    if quantity <= 0 {
      db.rows := WithoutRow(db.rows, rowId);
      db.log := db.log + [RowDeleted(rowId)];
    } else {
      db.rows := db.rows[k.value := db.rows[k.value].(quantity := quantity)];
      db.log := db.log + [RowSaved(rowId)];
    }
    r := Ok(());
  }

  /** `removeFromCart` (`deleteById`): the row with the id is deleted; an unknown id is ignored. */
  method RemoveFromCart(db: Db, rowId: int)
    requires db.Valid()
    modifies db`rows, db`log
    ensures db.Valid()
    ensures db.rows == WithoutRow(old(db.rows), rowId)
    ensures db.log == old(db.log) + (if FindRow(old(db.rows), rowId).Some? then [RowDeleted(rowId)] else [])
  {
    RemoveRowEffect(db.books, db.rows, db.nextRowId, rowId);
    if FindRow(db.rows, rowId).Some? {
      db.rows := WithoutRow(db.rows, rowId);
      db.log := db.log + [RowDeleted(rowId)];
    }
  }

  /** `clearCart`: every row of the user is deleted in one `deleteAll`. */
  method ClearCart(db: Db, userId: int)
    requires db.Valid()
    modifies db`rows, db`log
    ensures db.Valid()
    ensures db.rows == WithoutUser(old(db.rows), userId)
    ensures db.log == old(db.log) + [RowsDeleted(RowIds(UserRows(old(db.rows), userId)))]
  {
    WithoutUserKeepsInvariant(db.books, db.rows, userId);
    WithoutUserKeepsBound(db.rows, userId, db.nextRowId);
    var items := UserRows(db.rows, userId);
    db.rows := WithoutUser(db.rows, userId);
    db.log := db.log + [RowsDeleted(RowIds(items))];
  }

  // ---------------------------------------------------------------------
  // Facts

  /** Under distinct (user, book) pairs, a row carrying the pair is the one `FindPair` finds. */
  lemma FindPairUnique(rows: seq<CartRow>, k: nat)
    requires forall i, j :: 0 <= i < j < |rows| ==> (rows[i].userId, rows[i].bookId) != (rows[j].userId, rows[j].bookId)
    requires k < |rows|
    ensures FindPair(rows, rows[k].userId, rows[k].bookId) == Some(k)
    ensures PairQuantity(rows, rows[k].userId, rows[k].bookId) == rows[k].quantity
  {
  }

  /**
   * `addToCart` on a consistent table keeps it consistent and the id
   * generator ahead, raises the user's quantity of the book by exactly the
   * quantity added, and leaves every other (user, book) quantity alone.
   */
  lemma AddToCartEffect(books: map<int, BookRow>, rows: seq<CartRow>, nextId: int, userId: int, bookId: int, quantity: int)
    requires TableInvariant(books, rows) && bookId in books
    requires forall i :: 0 <= i < |rows| ==> rows[i].id < nextId
    ensures var after := AddedRows(rows, nextId, userId, bookId, quantity);
      && TableInvariant(books, after)
      && (forall i :: 0 <= i < |after| ==> after[i].id < nextId + 1)
      && (FindPair(rows, userId, bookId).Some? ==> forall i :: 0 <= i < |after| ==> after[i].id < nextId)
      && PairQuantity(after, userId, bookId) == PairQuantity(rows, userId, bookId) + quantity
      && (forall u, b :: (u, b) != (userId, bookId) ==> PairQuantity(after, u, b) == PairQuantity(rows, u, b))
  {
    var after := AddedRows(rows, nextId, userId, bookId, quantity);
    var f := FindPair(rows, userId, bookId);
    if f.Some? {
      assert forall i :: 0 <= i < |after| ==> after[i].id == rows[i].id && after[i].userId == rows[i].userId && after[i].bookId == rows[i].bookId;
      FindPairUnique(after, f.value);
      forall u, b | (u, b) != (userId, bookId) ensures PairQuantity(after, u, b) == PairQuantity(rows, u, b) {
        var g := FindPair(rows, u, b);
        if g.Some? {
          FindPairUnique(after, g.value);
          FindPairUnique(rows, g.value);
        } else {
          assert FindPair(after, u, b).None?;
        }
      }
    } else {
      assert forall i :: 0 <= i < |rows| ==> after[i] == rows[i];
      FindPairUnique(after, |rows|);
      forall u, b | (u, b) != (userId, bookId) ensures PairQuantity(after, u, b) == PairQuantity(rows, u, b) {
        var g := FindPair(rows, u, b);
        if g.Some? {
          FindPairUnique(after, g.value);
          FindPairUnique(rows, g.value);
        } else {
          assert FindPair(after, u, b).None?;
        }
      }
    }
  }

  /** Deleting one row by id keeps exactly the other rows, and a consistent table stays consistent. */
  lemma WithoutRowSpec(books: map<int, BookRow>, rows: seq<CartRow>, nextId: int, rowId: int)
    requires TableInvariant(books, rows)
    requires forall i :: 0 <= i < |rows| ==> rows[i].id < nextId
    ensures var after := WithoutRow(rows, rowId);
      && TableInvariant(books, after)
      && (forall i :: 0 <= i < |after| ==> after[i].id < nextId)
      && FindRow(after, rowId).None?
      && (forall r :: r in after <==> r in rows && r.id != rowId)
  {
    var after := WithoutRow(rows, rowId);
    FilterIsSubsequence(rows, NotRow(rowId));
    SubsequenceKeepsPairs(after, rows);
    SubsequenceKeepsIds(after, rows);
    forall i | 0 <= i < |after| ensures after[i] in rows {
      SubsequenceMember(after, rows, i);
    }
    forall r ensures r in after <==> r in rows && r.id != rowId {
      FilterMembership(rows, NotRow(rowId), r);
    }
  }

  /**
   * `updateQuantity` of an existing row keeps the table consistent; the
   * row's (user, book) quantity becomes the new quantity, or the pair leaves
   * the cart when the quantity is ≤ 0; every other pair keeps its quantity.
   */
  lemma UpdateQuantityEffect(books: map<int, BookRow>, rows: seq<CartRow>, nextId: int, k: nat, quantity: int)
    requires TableInvariant(books, rows) && k < |rows|
    requires forall i :: 0 <= i < |rows| ==> rows[i].id < nextId
    ensures var after := UpdatedRows(rows, k, quantity);
      && TableInvariant(books, after)
      && (forall i :: 0 <= i < |after| ==> after[i].id < nextId)
      && (quantity > 0 ==> PairQuantity(after, rows[k].userId, rows[k].bookId) == quantity)
      && (quantity <= 0 ==> FindPair(after, rows[k].userId, rows[k].bookId).None? && FindRow(after, rows[k].id).None?)
      && (forall u, b :: (u, b) != (rows[k].userId, rows[k].bookId) ==> PairQuantity(after, u, b) == PairQuantity(rows, u, b))
  {
    var after := UpdatedRows(rows, k, quantity);
    if quantity > 0 {
      assert forall i :: 0 <= i < |after| ==> after[i].id == rows[i].id && after[i].userId == rows[i].userId && after[i].bookId == rows[i].bookId;
      FindPairUnique(after, k);
      forall u, b | (u, b) != (rows[k].userId, rows[k].bookId) ensures PairQuantity(after, u, b) == PairQuantity(rows, u, b) {
        var g := FindPair(rows, u, b);
        if g.Some? {
          FindPairUnique(after, g.value);
          FindPairUnique(rows, g.value);
        } else {
          assert FindPair(after, u, b).None?;
        }
      }
    } else {
      WithoutRowSpec(books, rows, nextId, rows[k].id);
      RemovedPairLeaves(rows, k, after);
      forall u, b | (u, b) != (rows[k].userId, rows[k].bookId) ensures PairQuantity(after, u, b) == PairQuantity(rows, u, b) {
        OtherPairKept(rows, k, after, u, b);
      }
    }
  }

  /** With row `k` deleted, no row carries its (user, book) pair any more. */
  lemma RemovedPairLeaves(rows: seq<CartRow>, k: nat, after: seq<CartRow>)
    requires k < |rows|
    requires forall i, j :: 0 <= i < j < |rows| ==> (rows[i].userId, rows[i].bookId) != (rows[j].userId, rows[j].bookId)
    requires forall r :: r in after <==> r in rows && r.id != rows[k].id
    ensures FindPair(after, rows[k].userId, rows[k].bookId).None?
  {
    var f := FindPair(after, rows[k].userId, rows[k].bookId);
    if f.Some? {
      var r := after[f.value];
      assert r in rows;
      var j :| 0 <= j < |rows| && rows[j] == r;
      FindPairUnique(rows, j);
      FindPairUnique(rows, k);
      assert false;
    }
  }

  /** With row `k` deleted, every other (user, book) pair keeps its quantity. */
  lemma OtherPairKept(rows: seq<CartRow>, k: nat, after: seq<CartRow>, u: int, b: int)
    requires k < |rows| && (u, b) != (rows[k].userId, rows[k].bookId)
    requires forall i, j :: 0 <= i < j < |rows| ==> (rows[i].userId, rows[i].bookId) != (rows[j].userId, rows[j].bookId)
    requires forall i, j :: 0 <= i < j < |after| ==> (after[i].userId, after[i].bookId) != (after[j].userId, after[j].bookId)
    requires forall i, j :: 0 <= i < j < |rows| ==> rows[i].id != rows[j].id
    requires forall r :: r in after <==> r in rows && r.id != rows[k].id
    ensures PairQuantity(after, u, b) == PairQuantity(rows, u, b)
  {
    var g := FindPair(rows, u, b);
    if g.Some? {
      var j := g.value;
      assert rows[j].id != rows[k].id by {
        if j < k { assert rows[j].id != rows[k].id; } else { assert rows[k].id != rows[j].id; }
      }
      assert rows[j] in after;
      var i :| 0 <= i < |after| && after[i] == rows[j];
      FindPairUnique(after, i);
    }
  }

  /** `deleteById` keeps the table consistent, and for an unknown id leaves it exactly as it was. */
  lemma RemoveRowEffect(books: map<int, BookRow>, rows: seq<CartRow>, nextId: int, rowId: int)
    requires TableInvariant(books, rows)
    requires forall i :: 0 <= i < |rows| ==> rows[i].id < nextId
    ensures TableInvariant(books, WithoutRow(rows, rowId))
    ensures forall i :: 0 <= i < |WithoutRow(rows, rowId)| ==> WithoutRow(rows, rowId)[i].id < nextId
    ensures FindRow(rows, rowId).None? ==> WithoutRow(rows, rowId) == rows
  {
    WithoutRowSpec(books, rows, nextId, rowId);
    if FindRow(rows, rowId).None? {
      FilterAll(rows, NotRow(rowId));
    }
  }

  /** After `clearCart` the user has no rows, and every other user's rows are exactly as before. */
  lemma {:induction false} ClearCartEffect(rows: seq<CartRow>, userId: int, other: int)
    ensures UserRows(WithoutUser(rows, userId), userId) == []
    ensures other != userId ==> UserRows(WithoutUser(rows, userId), other) == UserRows(rows, other)
  {
    if rows != [] {
      ClearCartEffect(rows[1..], userId, other);
    }
  }
}
