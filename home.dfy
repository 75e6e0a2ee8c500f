/**
 * The home page (frontend/FH_book/src/pages/Home.jsx): the map from book id
 * to the quantity in the viewer's cart, filled by a loop over the stored
 * cart, and each card's availability derived from it.
 */
module Home {
  import opened Values
  import opened Storage
  import BookDetails
  import BookCard
  import CartPage

  /**
   * The map the loop builds, stated over prefixes: entries with a non-finite
   * id are skipped, a non-finite quantity counts as 0, and for a repeated id
   * the later entry wins.
   */
  function QuantityMap(items: seq<LineItem>): map<int, int>
  {
    if items == [] then map[]
    else
      var last := items[|items| - 1];
      var m := QuantityMap(items[..|items| - 1]);
      if last.id.Finite? then m[last.id.n := FiniteOr0(last.quantity)] else m
  }

  /**
   * `cartQuantities`: a fresh map filled from the stored cart; a missing,
   * unparsable or non-array cart gives the empty map.
   */
  method CartQuantities(entry: Option<Stored<LineItem>>) returns (m: map<int, int>)
    ensures m == QuantityMap(ReadStoredArray(entry))
    ensures !(entry.Some? && entry.value.Array?) ==> m == map[]
  {
    m := map[];
    if entry.None? || !entry.value.Array? {
      return;
    }
    var items := entry.value.elems;
    for i := 0 to |items|
      invariant m == QuantityMap(items[..i])
    {
      assert items[..i + 1][..i] == items[..i];
      var item := items[i];
      if item.id.Finite? {
        m := m[item.id.n := FiniteOr0(item.quantity)];
      }
    }
    assert items[..|items|] == items;
  }

  /** `cartQuantities.get(Number(book.id)) || 0`. */
  function InCart(m: map<int, int>, bookId: int): int
  {
    if bookId in m then m[bookId] else 0
  }

  /** A card's `availableStock`: `max(0, finite stock or 0 − mapped quantity or 0)`. */
  function CardAvailable(stock: Num, m: map<int, int>, bookId: int): (a: int)
    ensures a >= 0
    ensures a == 0 <==> BookDetails.BaseStock(stock) <= InCart(m, bookId)
    ensures a > 0 ==> a == BookDetails.BaseStock(stock) - InCart(m, bookId)
  {
    var d := BookDetails.BaseStock(stock) - InCart(m, bookId);
    if d > 0 then d else 0
  }

  /** The map holds an id exactly when some entry carries it as a finite id, with that entry's finite quantity. */
  lemma {:induction false} QuantityMapOfWellFormed(items: seq<LineItem>, id: int)
    requires CartPage.WellFormed(items)
    ensures id in QuantityMap(items) <==> IndexOfId(items, Finite(id)).Some?
    ensures id in QuantityMap(items) ==>
      QuantityMap(items)[id] == items[IndexOfId(items, Finite(id)).value].quantity.n
  {
    if items != [] {
      var init := items[..|items| - 1];
      assert CartPage.WellFormed(init) by {
        forall i, j | 0 <= i < j < |init| ensures init[i].id != init[j].id {
          assert init[i] == items[i] && init[j] == items[j];
        }
      }
      QuantityMapOfWellFormed(init, id);
      assert forall j :: 0 <= j < |init| ==> init[j] == items[j];
      var last := items[|items| - 1];
      if last.id == Finite(id) {
        assert forall j :: 0 <= j < |init| ==> items[j].id != last.id;
      }
    }
  }

  /**
   * On a well-formed cart the home page and the details page agree on the
   * quantity in the cart of any book with a non-zero id, and so on its
   * availability.
   */
  lemma HomeAgreesWithDetails(items: seq<LineItem>, stock: Num, bookId: int)
    requires CartPage.WellFormed(items) && bookId != 0
    ensures InCart(QuantityMap(items), bookId) == BookDetails.InCartQty(Some(Array(items)), bookId)
    ensures CardAvailable(stock, QuantityMap(items), bookId) == BookDetails.Available(stock, Some(Array(items)), bookId)
  {
    QuantityMapOfWellFormed(items, bookId);
  }

  /** With a repeated id the two pages disagree: the home page takes the last entry, the details page the first. */
  lemma RepeatedIdDisagreement()
    ensures var items := [LineItem(Finite(5), "", "", Finite(1), Finite(9), Finite(1)),
                          LineItem(Finite(5), "", "", Finite(1), Finite(9), Finite(4))];
      InCart(QuantityMap(items), 5) == 4 && BookDetails.InCartQty(Some(Array(items)), 5) == 1
  {
    var items := [LineItem(Finite(5), "", "", Finite(1), Finite(9), Finite(1)),
                  LineItem(Finite(5), "", "", Finite(1), Finite(9), Finite(4))];
    assert items[..1] == [items[0]];
    assert items[..0] == [];
  }

  /** With no negative quantity in the map, a card never shows more than the book's clamped stock. */
  lemma CardAvailableBounded(stock: Num, m: map<int, int>, bookId: int)
    requires forall k :: k in m ==> m[k] >= 0
    ensures CardAvailable(stock, m, bookId) <= if BookDetails.BaseStock(stock) > 0 then BookDetails.BaseStock(stock) else 0
  {
  }

  /** The card is handed a finite availability, so it displays that figure rather than the book's stock. */
  lemma CardShowsAvailability(stock: Num, m: map<int, int>, bookId: int)
    ensures BookCard.DisplayStock(Finite(CardAvailable(stock, m, bookId)), stock) == Finite(CardAvailable(stock, m, bookId))
  {
  }
}
