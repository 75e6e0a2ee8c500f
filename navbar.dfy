/**
 * The main navigation bar (frontend/FH_book/src/components/Navbar.jsx):
 * the cart badge count read from the viewer's stored cart, the badge text,
 * the items shown for guests, buyers and sellers, and logout.
 */
module Navbar {
  import opened Text
  import opened Values
  import opened Storage
  import AuthContext
  import CartPage

  /** `user?.id || sessionStorage.getItem('guestId') || ''`: the cart owner, or none when that is falsy. */
  function CountOwner(user: Option<User>, guestId: Option<string>): (k: Option<string>)
    ensures HasTruthyId(user) ==> k == Some(UserKey(user.value.id.value))
    ensures !HasTruthyId(user) && guestId.Some? && guestId.value != [] ==> k == guestId
    ensures !HasTruthyId(user) && !(guestId.Some? && guestId.value != []) ==> k.None?
  {
    if HasTruthyId(user) then Some(UserKey(user.value.id.value))
    else if guestId.Some? && guestId.value != [] then guestId
    else None
  }

  /**
   * The count one stored cart gives: `cart.reduce((sum, item) => sum +
   * (item.quantity || 1), 0)` over a stored array; 0 for a missing or
   * empty key, for text that does not parse, and for JSON that is not an
   * array (its `reduce` call throws and is caught).
   */
  function CartCount(entry: Option<Stored<LineItem>>): (n: int)
    ensures !(entry.Some? && entry.value.Array?) ==> n == 0
  {
    match entry
    case Some(Array(items)) => CartPage.TotalItems(items)
    case _ => 0
  }

  /** `updateCartCount`: the count of the owner's stored cart, 0 without an owner. */
  function Count(user: Option<User>, guestId: Option<string>, carts: map<string, Stored<LineItem>>): (n: int)
    ensures CountOwner(user, guestId).None? ==> n == 0
    ensures CountOwner(user, guestId).Some? ==> n == CartCount(Lookup(carts, CountOwner(user, guestId).value))
  {
    match CountOwner(user, guestId)
    case None => 0
    case Some(k) => CartCount(Lookup(carts, k))
  }

  /** The badge: hidden for a count ≤ 0, "99+" above 99, the count itself otherwise. */
  function BadgeText(count: int): (t: Option<string>)
    ensures t.None? <==> count <= 0
    ensures t == Some("99+") <==> count > 99
    ensures 0 < count <= 99 ==> t == Some(IntToString(count))
  {
    if count <= 0 then None
    else if count > 99 then Some("99+")
    else
      var digits := NatToString(count);
      assert IntToString(count) == digits;
      assert digits != "99+" by {
        if |digits| == 3 { assert '0' <= digits[2] <= '9'; }
      }
      Some(digits)
  }

  /** `isSeller`: the user's role, or the stored "userRole", is "seller". */
  predicate IsSeller(user: Option<User>, roleEntry: Option<string>)
  {
    (user.Some? && user.value.role == "seller") || roleEntry == Some("seller")
  }

  datatype NavItem = NavItem(path: string, title: string)

  /** `getNavItems`. */
  function NavItems(user: Option<User>, isSeller: bool): (items: seq<NavItem>)
    ensures |items| >= 1 && items[0] == NavItem("/", "Home")
    ensures NavItem("/cart", "Cart") in items <==> user.Some?
    ensures NavItem("/profile", "Profile") in items <==> user.Some?
    ensures NavItem("/add-book", "Add Book") in items <==> user.Some? && isSeller
    ensures NavItem("/seller/dashboard", "Dashboard") in items <==> user.Some? && isSeller
    ensures |items| == if user.None? then 1 else if isSeller then 5 else 3
  {
    var home := [NavItem("/", "Home")];
    if user.None? then home
    else
      var member := home + [NavItem("/cart", "Cart"), NavItem("/profile", "Profile")];
      if isSeller then member + [NavItem("/add-book", "Add Book"), NavItem("/seller/dashboard", "Dashboard")]
      else member
  }

  /**
   * `handleLogout`: "user" and "userRole" are removed, then `setUser(null)`
   * goes through the auth context's `login`, which writes the text `null`
   * back under "user". The session guest id is kept.
   */
  method HandleLogout(b: Browser)
    modifies b`userEntry, b`roleEntry, b`user
    ensures b.userEntry == Some(JsonNull) && b.roleEntry == None && b.user == None
  {
    b.userEntry := None;
    b.roleEntry := None;
    AuthContext.Login(b, None);
  }

  // ---------------------------------------------------------------------
  // Facts

  /** The badge counts exactly what the cart page shows as its item total for the same stored cart. */
  lemma CountAgreesWithCartPage(entry: Option<Stored<LineItem>>)
    ensures CartCount(entry) == CartPage.TotalItems(Storage.ReadStoredArray(entry))
  {
  }

  /** On a well-formed cart the badge is the sum of the quantities, at least one per entry, and 0 only for an empty cart. */
  lemma CountOfWellFormed(items: seq<LineItem>)
    requires CartPage.WellFormed(items)
    ensures CartCount(Some(Array(items))) >= |items|
    ensures CartCount(Some(Array(items))) == 0 <==> items == []
  {
    CartPage.TotalItemsOfWellFormed(items);
  }

  /** After logout a reload starts with no user even though "user" holds `null`, and no seller items show. */
  lemma LogoutLeavesNoUser()
    ensures AuthContext.UserFromEntry(Some(JsonNull)) == None
    ensures !IsSeller(None, None)
    ensures NavItems(None, false) == [NavItem("/", "Home")]
  {
  }

  /** The seller items need a signed-in user: a stale "userRole" alone adds nothing. */
  lemma StaleRoleWithoutUser()
    ensures IsSeller(None, Some("seller"))
    ensures NavItems(None, IsSeller(None, Some("seller"))) == [NavItem("/", "Home")]
  {
  }
}
