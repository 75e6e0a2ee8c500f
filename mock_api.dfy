/**
 * The in-browser mock of the storefront service
 * (frontend/FH_book/src/services/api.jsx, the branches taken when mock data
 * is switched on): accounts and the catalogue held in module-level arrays,
 * carts and order histories in localStorage.
 */
module MockApi {
  import opened Text
  import opened Values
  import opened Storage
  import opened Seqs
  import BookDetails
  import CartPage
  import ImageUtils

  /** A mock account: a user record with its password. */
  datatype Account = Account(id: int, name: string, email: string, password: string, role: string)

  datatype ServiceError =
    | FieldsRequired | PasswordTooShort | NameTooShort | EmailTaken
    | InvalidCredentials
    | BookNotFound | SoldOut | OnlyAvailable(stock: int)
    | TitleAuthorRequired | NegativeStock | NonPositivePrice

  // ---------------------------------------------------------------------
  // Lookups

  /** `mockBooks.findIndex(b => Number(b.id) === Number(id))`. */
  function FindBook(books: seq<Book>, id: int): (r: Option<nat>)
    ensures r.Some? ==> r.value < |books| && books[r.value].id == id
    ensures r.Some? ==> forall j :: 0 <= j < r.value ==> books[j].id != id
    ensures r.None? ==> forall j :: 0 <= j < |books| ==> books[j].id != id
  {
    if books == [] then None
    else if books[0].id == id then Some(0)
    else match FindBook(books[1..], id)
      case None => None
      case Some(k) => Some(k + 1)
  }

  /** The first account whose lowercased email equals `email`. */
  function FindAccount(users: seq<Account>, email: string): (r: Option<nat>)
    ensures r.Some? ==> r.value < |users| && ToLower(users[r.value].email) == email
    ensures r.Some? ==> forall j :: 0 <= j < r.value ==> ToLower(users[j].email) != email
    ensures r.None? ==> forall j :: 0 <= j < |users| ==> ToLower(users[j].email) != email
  {
    if users == [] then None
    else if ToLower(users[0].email) == email then Some(0)
    else match FindAccount(users[1..], email)
      case None => None
      case Some(k) => Some(k + 1)
  }

  /** `Math.max(0, ...ids)`. */
  function MaxId(ids: seq<int>): (m: int)
    ensures m >= 0
    ensures forall i :: 0 <= i < |ids| ==> ids[i] <= m
    ensures m == 0 || m in ids
  {
    if ids == [] then 0
    else var rest := MaxId(ids[1..]); if ids[0] > rest then ids[0] else rest
  }

  function AccountIds(users: seq<Account>): seq<int>
  {
    seq(|users|, i requires 0 <= i < |users| => users[i].id)
  }

  function BookIds(books: seq<Book>): seq<int>
  {
    seq(|books|, i requires 0 <= i < |books| => books[i].id)
  }

  /** No two accounts share an email, compared case-insensitively. */
  predicate EmailsDistinct(users: seq<Account>)
  {
    forall i, j :: 0 <= i < j < |users| ==> ToLower(users[i].email) != ToLower(users[j].email)
  }

  /** The user record a successful signup or login returns: no password. */
  function Public(a: Account, role: string): User
  {
    User(Some(a.id), a.name, a.email, role)
  }

  // ---------------------------------------------------------------------
  // Login and signup

  /**
   * Mock `login`: the first account whose lowercased email equals the
   * lowercased, trimmed input, with exactly the given password; the role is
   * the requested one, else the account's, else "buyer".
   */
  function Login(users: seq<Account>, email: string, password: string, role: string): (r: Result<User, ServiceError>)
    ensures r.Err? ==> r.error == InvalidCredentials
    ensures r.Ok? <==> (&& FindAccount(users, Trim(ToLower(email))).Some?
                        && users[FindAccount(users, Trim(ToLower(email))).value].password == password)
    ensures r.Ok? ==>
      var a := users[FindAccount(users, Trim(ToLower(email))).value];
      r.value.id == Some(a.id) && r.value.email == a.email && r.value.name == a.name
      && r.value.role == (if role != "" then role else if a.role != "" then a.role else "buyer")
  {
    match FindAccount(users, Trim(ToLower(email)))
    case None => Err(InvalidCredentials)
    case Some(k) =>
      if users[k].password != password then Err(InvalidCredentials)
      else Ok(Public(users[k], if role != "" then role else if users[k].role != "" then users[k].role else "buyer"))
  }

  /** Signup's first check: the normalised email, the password or the trimmed name is empty. */
  predicate SignupFieldBlank(email: string, password: string, name: string)
  {
    ToLower(Trim(email)) == [] || password == [] || Trim(name) == []
  }

  /**
   * The decision of mock `signup`: normalise the fields, run the checks in
   * order, and build the new account with the next id.
   */
  function SignupDecision(users: seq<Account>, email: string, password: string, name: string, role: string)
    : (r: Result<Account, ServiceError>)
    ensures r == Err(FieldsRequired) <==> SignupFieldBlank(email, password, name)
    ensures r == Err(PasswordTooShort) <==> !SignupFieldBlank(email, password, name) && |password| < 6
    ensures r == Err(NameTooShort) <==>
      !SignupFieldBlank(email, password, name) && |password| >= 6 && |Trim(name)| < 2
    ensures r == Err(EmailTaken) <==>
      && !SignupFieldBlank(email, password, name) && |password| >= 6 && |Trim(name)| >= 2
      && FindAccount(users, ToLower(Trim(email))).Some?
    ensures r.Err? <==> (|| SignupFieldBlank(email, password, name)
                         || |password| < 6 || |Trim(name)| < 2
                         || FindAccount(users, ToLower(Trim(email))).Some?)
    ensures r.Ok? ==> && r.value.email == ToLower(Trim(email)) && r.value.name == Trim(name)
                      && r.value.password == password && |password| >= 6 && |r.value.name| >= 2
                      && r.value.role == (if role == "" then "buyer" else role)
                      && r.value.id == MaxId(AccountIds(users)) + 1
  {
    var e := ToLower(Trim(email));
    var n := Trim(name);
    if e == [] || password == [] || n == [] then Err(FieldsRequired)
    else if |password| < 6 then Err(PasswordTooShort)
    else if |n| < 2 then Err(NameTooShort)
    else if FindAccount(users, e).Some? then Err(EmailTaken)
    else Ok(Account(MaxId(AccountIds(users)) + 1, n, e, password, if role == "" then "buyer" else role))
  }

  // ---------------------------------------------------------------------
  // Search

  function MatchesTerm(term: string): Book -> bool
  {
    (b: Book) => || Contains(ToLower(b.title), term) || Contains(ToLower(b.author), term)
                 || Contains(ToLower(b.category), term) || Contains(ToLower(b.description), term)
  }

  function InCategory(category: string): Book -> bool
  {
    (b: Book) => ToLower(b.category) == ToLower(category)
  }

  function AtLeast(min: int): Book -> bool
  {
    (b: Book) => b.price.Finite? && b.price.n >= min
  }

  function AtMost(max: int): Book -> bool
  {
    (b: Book) => b.price.Finite? && b.price.n <= max
  }

  function Stocked(): Book -> bool
  {
    (b: Book) => b.stock.Finite? && b.stock.n > 0
  }

  /**
   * Mock `searchBooks`: the filter chain over the catalogue. Each filter
   * applies only when its input is given; the category filter is skipped
   * for exactly "all".
   */
  function SearchBooks(books: seq<Book>, query: string, category: string,
                       minPrice: Option<int>, maxPrice: Option<int>, inStock: bool): seq<Book>
  {
    var r1 := Stage(books, MatchesTerm(Trim(ToLower(query))), Trim(query) != []);
    var r2 := Stage(r1, InCategory(category), category != "" && category != "all");
    var r3 := Stage(r2, AtLeast(if minPrice.Some? then minPrice.value else 0), minPrice.Some?);
    var r4 := Stage(r3, AtMost(if maxPrice.Some? then maxPrice.value else 0), maxPrice.Some?);
    Stage(r4, Stocked(), inStock)
  }

  /** A book satisfies every active search filter. */
  predicate Selected(b: Book, query: string, category: string, minPrice: Option<int>, maxPrice: Option<int>, inStock: bool)
  {
    && (Trim(query) != [] ==> MatchesTerm(Trim(ToLower(query)))(b))
    && (category != "" && category != "all" ==> ToLower(b.category) == ToLower(category))
    && (minPrice.Some? ==> b.price.Finite? && b.price.n >= minPrice.value)
    && (maxPrice.Some? ==> b.price.Finite? && b.price.n <= maxPrice.value)
    && (inStock ==> b.stock.Finite? && b.stock.n > 0)
  }

  /**
   * The search result keeps the catalogue's order and holds exactly the
   * books that satisfy every active filter.
   */
  lemma SearchBooksSpec(books: seq<Book>, query: string, category: string,
                        minPrice: Option<int>, maxPrice: Option<int>, inStock: bool)
    ensures IsSubsequence(SearchBooks(books, query, category, minPrice, maxPrice, inStock), books)
    ensures forall b :: b in SearchBooks(books, query, category, minPrice, maxPrice, inStock)
                        <==> b in books && Selected(b, query, category, minPrice, maxPrice, inStock)
  {
    SearchBooksOrder(books, query, category, minPrice, maxPrice, inStock);
    forall b ensures b in SearchBooks(books, query, category, minPrice, maxPrice, inStock)
                     <==> b in books && Selected(b, query, category, minPrice, maxPrice, inStock) {
      SearchBooksMember(books, query, category, minPrice, maxPrice, inStock, b);
    }
  }

  lemma SearchBooksOrder(books: seq<Book>, query: string, category: string,
                         minPrice: Option<int>, maxPrice: Option<int>, inStock: bool)
    ensures IsSubsequence(SearchBooks(books, query, category, minPrice, maxPrice, inStock), books)
  {
    var r1 := Stage(books, MatchesTerm(Trim(ToLower(query))), Trim(query) != []);
    var r2 := Stage(r1, InCategory(category), category != "" && category != "all");
    var r3 := Stage(r2, AtLeast(if minPrice.Some? then minPrice.value else 0), minPrice.Some?);
    var r4 := Stage(r3, AtMost(if maxPrice.Some? then maxPrice.value else 0), maxPrice.Some?);
    var r5 := Stage(r4, Stocked(), inStock);
    StageSubsequence(books, MatchesTerm(Trim(ToLower(query))), Trim(query) != []);
    StageSubsequence(r1, InCategory(category), category != "" && category != "all");
    StageSubsequence(r2, AtLeast(if minPrice.Some? then minPrice.value else 0), minPrice.Some?);
    StageSubsequence(r3, AtMost(if maxPrice.Some? then maxPrice.value else 0), maxPrice.Some?);
    StageSubsequence(r4, Stocked(), inStock);
    SubsequenceTransitive(r2, r1, books);
    SubsequenceTransitive(r3, r2, books);
    SubsequenceTransitive(r4, r3, books);
    SubsequenceTransitive(r5, r4, books);
  }

  lemma SearchBooksMember(books: seq<Book>, query: string, category: string,
                          minPrice: Option<int>, maxPrice: Option<int>, inStock: bool, b: Book)
    ensures b in SearchBooks(books, query, category, minPrice, maxPrice, inStock)
            <==> b in books && Selected(b, query, category, minPrice, maxPrice, inStock)
  {
    var r1 := Stage(books, MatchesTerm(Trim(ToLower(query))), Trim(query) != []);
    var r2 := Stage(r1, InCategory(category), category != "" && category != "all");
    var r3 := Stage(r2, AtLeast(if minPrice.Some? then minPrice.value else 0), minPrice.Some?);
    var r4 := Stage(r3, AtMost(if maxPrice.Some? then maxPrice.value else 0), maxPrice.Some?);
    StageMembership(books, MatchesTerm(Trim(ToLower(query))), Trim(query) != [], b);
    StageMembership(r1, InCategory(category), category != "" && category != "all", b);
    StageMembership(r2, AtLeast(if minPrice.Some? then minPrice.value else 0), minPrice.Some?, b);
    StageMembership(r3, AtMost(if maxPrice.Some? then maxPrice.value else 0), maxPrice.Some?, b);
    StageMembership(r4, Stocked(), inStock, b);
  }

  // ---------------------------------------------------------------------
  // Cart and orders

  /**
   * `Number(x ?? 0)` on a stored number, `Number(x || 0)` on a form field:
   * an absent value reads as 0, any other is kept, `NaN` included.
   */
  function NumberOr0(x: Num): (r: Num)
    ensures r.Missing? == false
    ensures x.Missing? ==> r == Finite(0)
    ensures x.Finite? || x.NaN? ==> r == x
  {
    if x.Missing? then Finite(0) else x
  }

  /** `Number.isFinite(bookStock) && bookStock <= 0`: the book cannot be added at all. */
  predicate SoldOutStock(stock: Num)
  {
    NumberOr0(stock).Finite? && NumberOr0(stock).n <= 0
  }

  /** The cart already holds the book, and one more would exceed a finite stock. */
  predicate OverStockIncrement(cart: seq<LineItem>, bookId: int, stock: Num)
  {
    && IndexOfId(cart, Finite(bookId)).Some?
    && NumberOr0(stock).Finite?
    && FiniteOr0(cart[IndexOfId(cart, Finite(bookId)).value].quantity) + 1 > NumberOr0(stock).n
  }

  /**
   * Mock `addToCart` on the stored cart it reads: an unknown book, or a
   * finite stock of 0 or less, is an error; an entry already present goes up
   * by one unless that exceeds a finite stock; a new entry gets quantity 1.
   */
  function MockAdd(books: seq<Book>, entry: Option<Stored<LineItem>>, bookId: int): (r: Result<seq<LineItem>, ServiceError>)
    ensures r == Err(BookNotFound) <==> FindBook(books, bookId).None?
    ensures r == Err(SoldOut) <==> FindBook(books, bookId).Some? && SoldOutStock(books[FindBook(books, bookId).value].stock)
    ensures r.Err? && r.error.OnlyAvailable? <==>
      && FindBook(books, bookId).Some?
      && !SoldOutStock(books[FindBook(books, bookId).value].stock)
      && OverStockIncrement(ReadStoredArray(entry), bookId, books[FindBook(books, bookId).value].stock)
    ensures r.Err? && r.error.OnlyAvailable? ==>
      r.error.stock == NumberOr0(books[FindBook(books, bookId).value].stock).n
    ensures r.Ok? <==>
      && FindBook(books, bookId).Some?
      && !SoldOutStock(books[FindBook(books, bookId).value].stock)
      && !OverStockIncrement(ReadStoredArray(entry), bookId, books[FindBook(books, bookId).value].stock)
    ensures r.Ok? ==>
      && FindBook(books, bookId).Some?
      && r.value == BookDetails.AddedItems(ReadStoredArray(entry), books[FindBook(books, bookId).value])
  {
    match FindBook(books, bookId)
    case None => Err(BookNotFound)
    case Some(i) =>
      var book := books[i];
      var stock := NumberOr0(book.stock);
      if stock.Finite? && stock.n <= 0 then Err(SoldOut)
      else
        var cart := ReadStoredArray(entry);
        match IndexOfId(cart, Finite(bookId))
        case Some(k) =>
          var next := FiniteOr0(cart[k].quantity) + 1;
          if stock.Finite? && next > stock.n then Err(OnlyAvailable(stock.n))
          else Ok(cart[k := cart[k].(quantity := Finite(next))])
        case None => Ok(cart + [LineOf(book)])
  }

  /**
   * A successful mock add never takes the book's entry above a finite stock,
   * and keeps a well-formed cart well formed.
   */
  lemma MockAddRespectsStock(books: seq<Book>, entry: Option<Stored<LineItem>>, bookId: int)
    requires MockAdd(books, entry, bookId).Ok?
    ensures var cart := MockAdd(books, entry, bookId).value;
      var stock := NumberOr0(books[FindBook(books, bookId).value].stock);
      var k := IndexOfId(cart, Finite(bookId));
      k.Some? && cart[k.value].quantity.Finite?
      && (stock.Finite? ==> cart[k.value].quantity.n <= stock.n)
    ensures CartPage.WellFormed(ReadStoredArray(entry)) ==> CartPage.WellFormed(MockAdd(books, entry, bookId).value)
  {
    var book := books[FindBook(books, bookId).value];
    var cart := ReadStoredArray(entry);
    var id := Finite(bookId);
    match IndexOfId(cart, id)
    case Some(k) =>
      BookDetails.IndexOfIdIgnoresQuantity(cart, k, Finite(FiniteOr0(cart[k].quantity) + 1), id);
      assert NumberOr0(book.stock).Finite? ==> FiniteOr0(cart[k].quantity) + 1 <= NumberOr0(book.stock).n;
      if CartPage.WellFormed(cart) { BookDetails.AddKeepsWellFormed(cart, book); }
    case None =>
      assert IndexOfId(cart + [LineOf(book)], id) == Some(|cart|) by {
        assert (cart + [LineOf(book)])[|cart|] == LineOf(book);
        assert forall j :: 0 <= j < |cart| ==> (cart + [LineOf(book)])[j] == cart[j];
      }
      if CartPage.WellFormed(cart) { BookDetails.AddKeepsWellFormed(cart, book); }
  }

  /** The order mock `placeOrder` stores: status "completed", and today's date only when none was given. */
  function CompletedOrder(now: int, userId: string, orderDate: string, today: string, totalAmount: Num,
                          items: Option<seq<OrderLine>>): (o: Order)
    ensures o.status == Some("completed") && o.userId == userId
    ensures orderDate != "" ==> o.orderDate == orderDate
    ensures orderDate == "" ==> o.orderDate == today
    ensures o.totalAmount == totalAmount && o.items == items
  {
    Order(now, userId, if orderDate != "" then orderDate else today, totalAmount, items, Some("completed"))
  }

  // ---------------------------------------------------------------------
  // The mock's module-level state

  class MockStore {
    var books: seq<Book>
    var users: seq<Account>

    constructor (books: seq<Book>, users: seq<Account>)
      ensures this.books == books && this.users == users
    {
      this.books := books;
      this.users := users;
    }

    /**
     * Mock `signup`: on success the new account is pushed and its record
     * returned without the password; on any failed check nothing changes.
     */
    method Signup(email: string, password: string, name: string, role: string) returns (r: Result<User, ServiceError>)
      modifies this`users
      ensures var d := SignupDecision(old(users), email, password, name, role);
        && (d.Err? ==> r == Err(d.error) && users == old(users))
        && (d.Ok? ==> r == Ok(Public(d.value, d.value.role)) && users == old(users) + [d.value])
      ensures EmailsDistinct(old(users)) ==> EmailsDistinct(users)
    {
      var d := SignupDecision(users, email, password, name, role);
      if d.Err? {
        return Err(d.error);
      }
      if EmailsDistinct(users) {
        SignupKeepsEmailsDistinct(users, email, password, name, role);
      }
      users := users + [d.value];
      r := Ok(Public(d.value, d.value.role));
    }

    /** Mock `addToCart`: the decision above, then the cart written back; no event is broadcast. */
    method AddToCart(b: Browser, userId: string, bookId: int, writeFails: bool) returns (r: Result<seq<LineItem>, ServiceError>)
      modifies b`carts, b`trace
      ensures r == MockAdd(books, Lookup(old(b.carts), userId), bookId)
      ensures r.Ok? && !writeFails ==>
        b.carts == old(b.carts)[userId := Array(r.value)] && b.trace == old(b.trace) + [CartWritten(userId)]
      ensures r.Err? || writeFails ==> b.carts == old(b.carts) && b.trace == old(b.trace)
    {
      r := MockAdd(books, Lookup(b.carts, userId), bookId);
      if r.Ok? {
        WriteStoredCart(b, userId, r.value, writeFails);
      }
    }

    /**
     * Mock `placeOrder`: the completed order is prepended to the history
     * read with `readStoredArray` (so an unparsable history is replaced),
     * written back, and the cart key removed.
     */
    method PlaceOrder(b: Browser, now: int, userId: string, orderDate: string, today: string,
                      totalAmount: Num, items: Option<seq<OrderLine>>, writeFails: bool) returns (o: Order)
      modifies b`carts, b`orderLists, b`trace
      ensures o == CompletedOrder(now, userId, orderDate, today, totalAmount, items)
      ensures !writeFails ==> ReadStoredArray(Lookup(b.orderLists, userId)) == [o] + ReadStoredArray(Lookup(old(b.orderLists), userId))
      ensures !writeFails ==> b.orderLists == old(b.orderLists)[userId := Array([o] + ReadStoredArray(Lookup(old(b.orderLists), userId)))]
      ensures writeFails ==> b.orderLists == old(b.orderLists)
      ensures b.carts == old(b.carts) - {userId}
      ensures b.trace == old(b.trace) + (if writeFails then [] else [OrdersWritten(userId)]) + [CartRemoved(userId)]
    {
      o := CompletedOrder(now, userId, orderDate, today, totalAmount, items);
      var orders := [o] + ReadStoredArray(Lookup(b.orderLists, userId));
      WriteStoredOrders(b, userId, orders, writeFails);
      RemoveCart(b, userId);
    }

    /**
     * Mock `updateBookStock`: an unknown id is reported before a negative
     * stock; otherwise only that book's stock changes.
     */
    method UpdateBookStock(bookId: int, stock: int) returns (r: Result<Book, ServiceError>)
      modifies this`books
      ensures FindBook(old(books), bookId).None? ==> r == Err(BookNotFound) && books == old(books)
      ensures FindBook(old(books), bookId).Some? && stock < 0 ==> r == Err(NegativeStock) && books == old(books)
      ensures FindBook(old(books), bookId).Some? && stock >= 0 ==>
        var i := FindBook(old(books), bookId).value;
        && books == old(books)[i := old(books)[i].(stock := Finite(stock))]
        && r == Ok(books[i])
    {
      var i := FindBook(books, bookId);
      if i.None? {
        return Err(BookNotFound);
      }
      if stock < 0 {
        return Err(NegativeStock);
      }
      books := books[i.value := books[i.value].(stock := Finite(stock))];
      r := Ok(books[i.value]);
    }

    /**
     * Mock `addBookWithImage`: trimmed title and author are required, the
     * category defaults to "Fiction", a missing stock or price reads as 0, the
     * stock must not be negative and the price must be positive (a `NaN`
     * figure passes both tests). The image is
     * the uploaded file's data URL, or a placeholder naming the title. The
     * new book gets the next id and goes to the front of the catalogue.
     */
    method AddBookWithImage(title: string, author: string, category: string, description: string,
                            stock: Num, price: Num, dataUrl: Option<string>) returns (r: Result<Book, ServiceError>)
      modifies this`books
      ensures Trim(title) == [] || Trim(author) == [] ==> r == Err(TitleAuthorRequired) && books == old(books)
      ensures Trim(title) != [] && Trim(author) != [] && NumberOr0(stock).Finite? && NumberOr0(stock).n < 0 ==>
        r == Err(NegativeStock) && books == old(books)
      ensures && Trim(title) != [] && Trim(author) != [] && !(NumberOr0(stock).Finite? && NumberOr0(stock).n < 0)
              && NumberOr0(price).Finite? && NumberOr0(price).n <= 0 ==>
        r == Err(NonPositivePrice) && books == old(books)
      ensures r.Ok? <==> && Trim(title) != [] && Trim(author) != []
                         && !(NumberOr0(stock).Finite? && NumberOr0(stock).n < 0)
                         && !(NumberOr0(price).Finite? && NumberOr0(price).n <= 0)
      ensures r.Ok? ==> && books == [r.value] + old(books)
                        && r.value.id == MaxId(BookIds(old(books))) + 1
                        && r.value.title == Trim(title) && r.value.author == Trim(author)
                        && r.value.category == (if Trim(category) == [] then "Fiction" else Trim(category))
                        && r.value.stock == NumberOr0(stock) && r.value.price == NumberOr0(price)
                        && r.value.description == Trim(description)
                        && r.value.image == ImageText(if dataUrl.Some? then dataUrl.value
                                                      else ImageUtils.PlaceholderPrefix + EncodeURIComponent(Prefix(Trim(title), 20)))
      ensures r.Err? ==> books == old(books)
      ensures r.Ok? ==> forall j :: 0 <= j < |old(books)| ==> old(books)[j].id != r.value.id
    {
      var t := Trim(title);
      var a := Trim(author);
      if t == [] || a == [] {
        return Err(TitleAuthorRequired);
      }
      var s := NumberOr0(stock);
      var p := NumberOr0(price);
      if s.Finite? && s.n < 0 {
        return Err(NegativeStock);
      }
      if p.Finite? && p.n <= 0 {
        return Err(NonPositivePrice);
      }
      var image := if dataUrl.Some? then dataUrl.value else ImageUtils.PlaceholderPrefix + EncodeURIComponent(Prefix(t, 20));
      var c := if Trim(category) == [] then "Fiction" else Trim(category);
      var nextId := MaxId(BookIds(books)) + 1;
      var book := Book(nextId, t, a, c, Trim(description), p, s, ImageText(image));
      assert forall j :: 0 <= j < |books| ==> BookIds(books)[j] == books[j].id;
      books := [book] + books;
      r := Ok(book);
    }
  }

  // ---------------------------------------------------------------------
  // Facts about accounts

  /** Looking up an email that no earlier account has finds the appended account. */
  lemma FindAccountAppend(users: seq<Account>, a: Account, e: string)
    requires FindAccount(users, e).None? && ToLower(a.email) == e
    ensures FindAccount(users + [a], e) == Some(|users|)
  {
    var r := users + [a];
    assert r[|users|] == a;
    assert forall j :: 0 <= j < |users| ==> r[j] == users[j];
  }

  /** The stored email is already lowercase, and is what signup looked up. */
  lemma SignupEmailNormal(users: seq<Account>, email: string, password: string, name: string, role: string)
    requires SignupDecision(users, email, password, name, role).Ok?
    ensures var a := SignupDecision(users, email, password, name, role).value;
      ToLower(a.email) == a.email == Trim(ToLower(email)) && FindAccount(users, a.email).None?
  {
    TrimToLower(email);
    ToLowerIdempotent(Trim(email));
  }

  /** Signup keeps account emails distinct, ignoring letter case. */
  lemma SignupKeepsEmailsDistinct(users: seq<Account>, email: string, password: string, name: string, role: string)
    requires EmailsDistinct(users) && SignupDecision(users, email, password, name, role).Ok?
    ensures EmailsDistinct(users + [SignupDecision(users, email, password, name, role).value])
  {
    var a := SignupDecision(users, email, password, name, role).value;
    SignupEmailNormal(users, email, password, name, role);
    var r := users + [a];
    forall i, j | 0 <= i < j < |r| ensures ToLower(r[i].email) != ToLower(r[j].email) {
      if j == |users| {
        assert r[i] == users[i];
      } else {
        assert r[i] == users[i] && r[j] == users[j];
      }
    }
  }

  /** A new account's id is larger than every existing id, so it is fresh. */
  lemma SignupIdIsFresh(users: seq<Account>, email: string, password: string, name: string, role: string)
    requires SignupDecision(users, email, password, name, role).Ok?
    ensures forall j :: 0 <= j < |users| ==> users[j].id < SignupDecision(users, email, password, name, role).value.id
  {
    assert forall j :: 0 <= j < |users| ==> AccountIds(users)[j] == users[j].id;
  }

  /**
   * Signing up and then logging in with the same email and password, and no
   * role, succeeds and returns the record the signup returned.
   */
  lemma SignupThenLogin(users: seq<Account>, email: string, password: string, name: string, role: string)
    requires SignupDecision(users, email, password, name, role).Ok?
    ensures var a := SignupDecision(users, email, password, name, role).value;
      Login(users + [a], email, password, "") == Ok(Public(a, a.role))
  {
    var a := SignupDecision(users, email, password, name, role).value;
    SignupEmailNormal(users, email, password, name, role);
    FindAccountAppend(users, a, a.email);
  }

  /** A registered email, in any letter case and with surrounding spaces, cannot be signed up again. */
  lemma SignupRejectsKnownEmail(users: seq<Account>, k: nat, email: string, password: string, name: string, role: string)
    requires k < |users| && ToLower(users[k].email) == ToLower(Trim(email))
    ensures SignupDecision(users, email, password, name, role).Err?
  {
  }
}
