/**
 * The backend's persistent state as its services see it through the JPA
 * repositories: the book table, the cart-item table, the saved orders, and
 * the order in which rows are saved and deleted.
 */
module Database {
  import opened Seqs
  import opened Values

  /** A book row: prices in minor units. */
  datatype BookRow = BookRow(title: string, price: int, stock: int)

  /** A cart-item row: `userId` and the referenced book's id. */
  datatype CartRow = CartRow(id: int, userId: int, bookId: int, quantity: int)

  /** One line of a saved order: the book, the quantity, and the price and title copied from the book. */
  datatype OrderItem = OrderItem(bookId: int, quantity: int, price: int, title: string)

  datatype SavedOrder = SavedOrder(userId: int, orderDate: string, totalAmount: int, status: string, items: seq<OrderItem>)

  /** Repository calls whose order matters. */
  datatype DbOp = BookSaved(bookId: int) | OrderSaved | RowsDeleted(ids: seq<int>) | RowSaved(id: int) | RowDeleted(id: int)

  class Db {
    var books: map<int, BookRow>
    var rows: seq<CartRow>
    var orders: seq<SavedOrder>
    var nextRowId: int
    var log: seq<DbOp>

    constructor (books: map<int, BookRow>, rows: seq<CartRow>)
      requires TableInvariant(books, rows)
      ensures this.books == books && this.rows == rows && orders == [] && log == []
      ensures Valid()
    {
      this.books := books;
      this.rows := rows;
      orders := [];
      nextRowId := MaxRowId(rows) + 1;
      log := [];
    }

    /** The table invariant, and the id generator ahead of every row id. */
    predicate Valid()
      reads this
    {
      TableInvariant(books, rows) && forall i :: 0 <= i < |rows| ==> rows[i].id < nextRowId
    }
  }

  /**
   * Every row refers to an existing book, row ids are distinct, and no two
   * rows share a (user, book) pair.
   */
  predicate TableInvariant(books: map<int, BookRow>, rows: seq<CartRow>)
  {
    && (forall i :: 0 <= i < |rows| ==> rows[i].bookId in books)
    && (forall i, j :: 0 <= i < j < |rows| ==> rows[i].id != rows[j].id)
    && (forall i, j :: 0 <= i < j < |rows| ==> (rows[i].userId, rows[i].bookId) != (rows[j].userId, rows[j].bookId))
  }

  function MaxRowId(rows: seq<CartRow>): (m: int)
    ensures forall i :: 0 <= i < |rows| ==> rows[i].id <= m
  {
    if rows == [] then 0
    else var rest := MaxRowId(rows[1..]); if rows[0].id > rest then rows[0].id else rest
  }

  function OfUser(userId: int): CartRow -> bool
  {
    (r: CartRow) => r.userId == userId
  }

  function NotOfUser(userId: int): CartRow -> bool
  {
    (r: CartRow) => r.userId != userId
  }

  /** `findByUserId`: the user's rows in table order. */
  function UserRows(rows: seq<CartRow>, userId: int): seq<CartRow>
  {
    Filter(rows, OfUser(userId))
  }

  /** The table after `deleteAll` of one user's rows. */
  function WithoutUser(rows: seq<CartRow>, userId: int): seq<CartRow>
  {
    Filter(rows, NotOfUser(userId))
  }

  function RowIds(rows: seq<CartRow>): seq<int>
  {
    seq(|rows|, i requires 0 <= i < |rows| => rows[i].id)
  }

  /** Deleting one user's rows keeps exactly the other users' rows, in order. */
  lemma WithoutUserSpec(rows: seq<CartRow>, userId: int)
    ensures IsSubsequence(WithoutUser(rows, userId), rows)
    ensures forall r :: r in WithoutUser(rows, userId) <==> r in rows && r.userId != userId
    ensures forall r :: r in UserRows(rows, userId) <==> r in rows && r.userId == userId
  {
    FilterIsSubsequence(rows, NotOfUser(userId));
    forall r ensures r in WithoutUser(rows, userId) <==> r in rows && r.userId != userId {
      FilterMembership(rows, NotOfUser(userId), r);
    }
    forall r ensures r in UserRows(rows, userId) <==> r in rows && r.userId == userId {
      FilterMembership(rows, OfUser(userId), r);
    }
  }

  /** A subsequence of rows with distinct (user, book) pairs keeps them distinct. */
  lemma {:induction false} SubsequenceKeepsPairs(a: seq<CartRow>, s: seq<CartRow>)
    requires IsSubsequence(a, s)
    requires forall i, j :: 0 <= i < j < |s| ==> (s[i].userId, s[i].bookId) != (s[j].userId, s[j].bookId)
    ensures forall i, j :: 0 <= i < j < |a| ==> (a[i].userId, a[i].bookId) != (a[j].userId, a[j].bookId)
    decreases |s|
  {
    if a != [] && s != [] {
      if a[0] == s[0] && IsSubsequence(a[1..], s[1..]) {
        SubsequenceKeepsPairs(a[1..], s[1..]);
        forall j | 0 < j < |a| ensures (a[0].userId, a[0].bookId) != (a[j].userId, a[j].bookId) {
          SubsequenceMember(a[1..], s[1..], j - 1);
        }
      } else {
        SubsequenceKeepsPairs(a, s[1..]);
      }
    }
  }

  /** Under the table invariant one user's rows name each book at most once. */
  lemma UserRowsDistinctBooks(books: map<int, BookRow>, rows: seq<CartRow>, userId: int)
    requires TableInvariant(books, rows)
    ensures var items := UserRows(rows, userId);
      forall i, j :: 0 <= i < j < |items| ==> items[i].bookId != items[j].bookId
  {
    var items := UserRows(rows, userId);
    FilterIsSubsequence(rows, OfUser(userId));
    SubsequenceKeepsPairs(items, rows);
    forall i, j | 0 <= i < j < |items| ensures items[i].bookId != items[j].bookId {
      assert items[i].userId == userId && items[j].userId == userId;
    }
  }

  /** Every row of a user refers to an existing book. */
  lemma UserRowsReferToBooks(books: map<int, BookRow>, rows: seq<CartRow>, userId: int)
    requires TableInvariant(books, rows)
    ensures forall i :: 0 <= i < |UserRows(rows, userId)| ==> UserRows(rows, userId)[i].bookId in books
  {
    var items := UserRows(rows, userId);
    FilterIsSubsequence(rows, OfUser(userId));
    forall i | 0 <= i < |items| ensures items[i].bookId in books {
      SubsequenceMember(items, rows, i);
    }
  }

  /** Deleting a user's rows keeps the table invariant. */
  lemma WithoutUserKeepsInvariant(books: map<int, BookRow>, rows: seq<CartRow>, userId: int)
    requires TableInvariant(books, rows)
    ensures TableInvariant(books, WithoutUser(rows, userId))
  {
    var r := WithoutUser(rows, userId);
    FilterIsSubsequence(rows, NotOfUser(userId));
    SubsequenceKeepsPairs(r, rows);
    forall i | 0 <= i < |r| ensures r[i].bookId in books && r[i] in rows {
      SubsequenceMember(r, rows, i);
    }
    SubsequenceKeepsIds(r, rows);
  }

  /** Deleting a user's rows keeps every remaining id below a bound the table respected. */
  lemma WithoutUserKeepsBound(rows: seq<CartRow>, userId: int, bound: int)
    requires forall i :: 0 <= i < |rows| ==> rows[i].id < bound
    ensures forall i :: 0 <= i < |WithoutUser(rows, userId)| ==> WithoutUser(rows, userId)[i].id < bound
  {
    var r := WithoutUser(rows, userId);
    FilterIsSubsequence(rows, NotOfUser(userId));
    forall i | 0 <= i < |r| ensures r[i].id < bound {
      SubsequenceMember(r, rows, i);
    }
  }

  lemma {:induction false} SubsequenceKeepsIds(a: seq<CartRow>, s: seq<CartRow>)
    requires IsSubsequence(a, s)
    requires forall i, j :: 0 <= i < j < |s| ==> s[i].id != s[j].id
    ensures forall i, j :: 0 <= i < j < |a| ==> a[i].id != a[j].id
    decreases |s|
  {
    if a != [] && s != [] {
      if a[0] == s[0] && IsSubsequence(a[1..], s[1..]) {
        SubsequenceKeepsIds(a[1..], s[1..]);
        forall j | 0 < j < |a| ensures a[0].id != a[j].id {
          SubsequenceMember(a[1..], s[1..], j - 1);
        }
      } else {
        SubsequenceKeepsIds(a, s[1..]);
      }
    }
  }
}
