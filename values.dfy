/**
 * The records the storefront keeps in browser storage and passes between
 * its pages: stored line items, catalogue books, users and orders, with the
 * loose JavaScript number semantics of their numeric fields made explicit.
 */
module Values {
  import opened Text

  datatype Option<T> = None | Some(value: T)

  /** The outcome of an operation that either yields a value or throws an error. */
  datatype Result<T, E> = Ok(value: T) | Err(error: E)

  /**
   * A numeric field of a record parsed from JSON: absent (`undefined`), a
   * finite number (prices and counts are whole numbers here), or `NaN`.
   */
  datatype Num = Missing | Finite(n: int) | NaN

  /** `x || d`: the number itself when it is truthy (finite and non-zero), else `d`. */
  function OrDefault(x: Num, d: int): (r: int)
    ensures x.Finite? && x.n != 0 ==> r == x.n
    ensures !(x.Finite? && x.n != 0) ==> r == d
  {
    if x.Finite? && x.n != 0 then x.n else d
  }

  /** `Number(x ?? 0)` where a non-finite result is replaced by 0. */
  function FiniteOr0(x: Num): (r: int)
    ensures x.Finite? ==> r == x.n
    ensures !x.Finite? ==> r == 0
  {
    if x.Finite? then x.n else 0
  }

  /** `a === b` on two stored id fields: `undefined === undefined` holds, `NaN` equals nothing. */
  predicate SameId(a: Num, b: Num)
  {
    (a.Finite? && b.Finite? && a.n == b.n) || (a.Missing? && b.Missing?)
  }

  /**
   * The text under an array-valued storage key: the empty string, text
   * `JSON.parse` rejects, JSON that is not an array, or an array.
   */
  datatype Stored<T> = Blank | Garbled | NonArray | Array(elems: seq<T>)

  /** The text under the "user" key: empty, unparsable, the JSON `null`, or a record. */
  datatype StoredRecord<T> = BlankRecord | GarbledRecord | JsonNull | Record(value: T)

  /** One cart entry: the book's fields copied at add time plus `quantity`. */
  datatype LineItem = LineItem(id: Num, title: string, author: string, price: Num, stock: Num, quantity: Num)

  /** The `image` field of a book. */
  datatype Image = NoImage | ImageText(s: string) | ByteArray(bytes: seq<int>) | OtherImage

  /** A catalogue book. */
  datatype Book = Book(id: int, title: string, author: string, category: string, description: string,
                       price: Num, stock: Num, image: Image)

  /** A user record; `id` is `None` when the record has none (undefined or null). */
  datatype User = User(id: Option<int>, name: string, email: string, role: string)

  /** One line of an order. */
  datatype OrderLine = OrderLine(bookId: Num, title: string, price: Num, quantity: Num)

  /**
   * An order as the order history stores it; `userId` holds the owner key
   * text the order was placed under, `status` is absent unless set.
   */
  datatype Order = Order(id: int, userId: string, orderDate: string, totalAmount: Num,
                         items: Option<seq<OrderLine>>, status: Option<string>)

  /** `user?.id` is truthy: present and not 0. */
  predicate HasTruthyId(user: Option<User>)
  {
    user.Some? && user.value.id.Some? && user.value.id.value != 0
  }

  /** The storage key suffix of a numeric user id, as a template literal renders it. */
  function UserKey(id: int): (k: string)
    ensures k != []
  {
    IntToString(id)
  }

  /** `${user.id}` in a key template: the id's digits, or `undefined` for a record without one. */
  function TemplateId(id: Option<int>): (k: string)
    ensures id.Some? ==> k == UserKey(id.value)
    ensures id.None? ==> k == "undefined"
  {
    if id.Some? then UserKey(id.value) else "undefined"
  }

  /** The line item the catalogue page and the mock service append for a book not yet in the cart. */
  function LineOf(book: Book): (item: LineItem)
    ensures item.id == Finite(book.id) && item.quantity == Finite(1)
    ensures item.stock == book.stock && item.price == book.price && item.title == book.title
  {
    LineItem(Finite(book.id), book.title, book.author, book.price, book.stock, Finite(1))
  }

  function Lookup<V>(m: map<string, V>, k: string): (r: Option<V>)
    ensures r.Some? <==> k in m
    ensures k in m ==> r.value == m[k]
  {
    if k in m then Some(m[k]) else None
  }

  /**
   * `findIndex(item => item.id === id)`: the position of the first entry
   * whose id is `===` to `id`, if any.
   */
  function IndexOfId(items: seq<LineItem>, id: Num): (r: Option<nat>)
    ensures r.Some? ==> r.value < |items| && SameId(items[r.value].id, id)
    ensures r.Some? ==> forall j :: 0 <= j < r.value ==> !SameId(items[j].id, id)
    ensures r.None? ==> forall j :: 0 <= j < |items| ==> !SameId(items[j].id, id)
  {
    if items == [] then None
    else if SameId(items[0].id, id) then Some(0)
    else match IndexOfId(items[1..], id)
      case None => None
      case Some(k) => Some(k + 1)
  }

  /** A session guest id from `crypto.randomUUID()`: always 36 characters. */
  type Uuid = s: string | |s| == 36 witness "00000000-0000-0000-0000-000000000000"
}
