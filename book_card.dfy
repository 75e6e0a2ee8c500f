/**
 * The catalogue card (frontend/FH_book/src/components/BookCard.jsx): which
 * stock figure it displays, and the stock badges and label derived from it.
 * The same badge thresholds are used by the book details page.
 */
module BookCard {
  import opened Text
  import opened Values

  /** The stock badge over a book's image. */
  datatype Badge = NoBadge | OnlyLeft(n: int) | OutOfStock

  /** What a card shows: title and author with their defaults, the badge, the stock label, the category badge. */
  datatype Card = Card(title: string, author: string, badge: Badge, stockLabel: string, category: Option<string>)

  /**
   * `displayStock`: the availability handed in by the page when it is a
   * finite number, otherwise the book's own stock (0 when absent).
   */
  function DisplayStock(available: Num, stock: Num): (d: Num)
    ensures available.Finite? ==> d == available
    ensures !available.Finite? && stock.Finite? ==> d == stock
    ensures d.Missing? == false
    ensures d.NaN? <==> !available.Finite? && stock.NaN?
    ensures !available.Finite? && stock.Missing? ==> d == Finite(0)
  {
    if available.Finite? then available
    else if stock.Missing? then Finite(0)
    else stock
  }

  /** "Only N left!" for 0 < N ≤ 5, "Out of Stock" for N ≤ 0; a `NaN` figure passes neither test. */
  function BadgeOf(d: Num): (r: Badge)
    ensures r.OnlyLeft? <==> d.Finite? && 0 < d.n <= 5
    ensures r.OnlyLeft? ==> r.n == d.n
    ensures r.OutOfStock? <==> d.Finite? && d.n <= 0
  {
    if d.Finite? && d.n <= 5 && d.n > 0 then OnlyLeft(d.n)
    else if d.Finite? && d.n <= 0 then OutOfStock
    else NoBadge
  }

  /** "N in stock" when the figure is positive, "Out of stock" otherwise. */
  function StockLabel(d: Num): (r: string)
    ensures r == "Out of stock" <==> !(d.Finite? && d.n > 0)
    ensures d.Finite? && d.n > 0 ==> r == NatToString(d.n) + " in stock"
  {
    if d.Finite? && d.n > 0 then
      var digits := NatToString(d.n);
      var shown := digits + " in stock";
      assert shown[0] == digits[0] != 'O';
      shown
    else "Out of stock"
  }

  /** A positive figure is spelled out in full: the label's digits read back as the figure. */
  lemma StockLabelCount(n: int)
    requires n > 0
    ensures var r := StockLabel(Finite(n));
      |r| > 9 && r[|r| - 9..] == " in stock" && DigitsValue(r[..|r| - 9]) == n
  {
    var digits := NatToString(n);
    var r := digits + " in stock";
    assert r[..|r| - 9] == digits;
    NatToStringValue(n);
  }

  /** The card for a book and the availability the page computed; no book renders nothing. */
  function CardOf(book: Option<Book>, available: Num): (c: Option<Card>)
    ensures c.None? <==> book.None?
    ensures c.Some? ==> c.value.title != [] && c.value.author != []
    ensures c.Some? ==> c.value.title == (if book.value.title != [] then book.value.title else "Untitled Book")
    ensures c.Some? ==> c.value.author == (if book.value.author != [] then book.value.author else "Unknown Author")
    ensures c.Some? ==> c.value.stockLabel == StockLabel(DisplayStock(available, book.value.stock))
    ensures c.Some? ==> c.value.badge == BadgeOf(DisplayStock(available, book.value.stock))
    ensures c.Some? ==> (c.value.stockLabel == "Out of stock" <==> !(DisplayStock(available, book.value.stock).Finite? && DisplayStock(available, book.value.stock).n > 0))
    ensures c.Some? ==> (c.value.category.Some? <==> book.value.category != [])
  {
    match book
    case None => None
    case Some(b) =>
      var d := DisplayStock(available, b.stock);
      Some(Card(if b.title == "" then "Untitled Book" else b.title,
                if b.author == "" then "Unknown Author" else b.author,
                BadgeOf(d), StockLabel(d),
                if b.category == "" then None else Some(b.category)))
  }

  /**
   * The badge and the label agree on every finite figure: "Out of Stock"
   * appears exactly with "Out of stock" and "Only N left!" only beside an
   * "N in stock" label. A `NaN` figure shows no badge and yet the label
   * "Out of stock".
   */
  lemma BadgeAgreesWithLabel(d: Num)
    ensures d.Finite? ==> (BadgeOf(d) == OutOfStock <==> StockLabel(d) == "Out of stock")
    ensures BadgeOf(d).OnlyLeft? ==> StockLabel(d) != "Out of stock"
    ensures d.NaN? ==> BadgeOf(d) == NoBadge && StockLabel(d) == "Out of stock"
  {
  }
}
