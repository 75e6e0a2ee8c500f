/**
 * The buyer's navigation bar
 * (frontend/FH_book/src/components/BuyerNavbar.jsx): its cart badge count,
 * read from `cart_<user.id>` only while a user is signed in.
 */
module BuyerNavbar {
  import opened Values
  import Navbar

  /**
   * `updateCartCount`: with no user the previous count is kept, not reset;
   * otherwise the count of the user's stored cart, 0 when it is missing or
   * does not parse.
   */
  function Count(user: Option<User>, carts: map<string, Stored<LineItem>>, previous: int): (n: int)
    ensures user.None? ==> n == previous
    ensures user.Some? ==> n == Navbar.CartCount(Lookup(carts, TemplateId(user.value.id)))
  {
    if user.None? then previous else Navbar.CartCount(Lookup(carts, TemplateId(user.value.id)))
  }

  /** The badge follows the same rule as the main bar's. */
  function BadgeText(count: int): (t: Option<string>)
    ensures t == Navbar.BadgeText(count)
    ensures t.None? <==> count <= 0
  {
    Navbar.BadgeText(count)
  }

  /**
   * For a user with a non-zero id both bars read the same cart and show the
   * same count; for id 0 the main bar falls back to the guest id while this
   * bar reads `cart_0`.
   */
  lemma BarsAgree(user: User, guestId: Option<string>, carts: map<string, Stored<LineItem>>, previous: int)
    requires user.id.Some? && user.id.value != 0
    ensures Count(Some(user), carts, previous) == Navbar.Count(Some(user), guestId, carts)
  {
  }

  lemma BarsDisagreeOnIdZero()
    ensures var user := User(Some(0), "A", "a@b.co", "buyer");
      var carts := map["0" := Array([LineItem(Finite(1), "", "", Finite(1), Finite(1), Finite(2))])];
      Count(Some(user), carts, 7) == 2 && Navbar.Count(Some(user), None, carts) == 0
  {
    var user := User(Some(0), "A", "a@b.co", "buyer");
    assert UserKey(0) == "0";
  }
}
