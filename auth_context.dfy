/**
 * The signed-in user (frontend/FH_book/src/context/AuthContext.jsx): read
 * once from the "user" key at start, written by `login` (exposed to pages
 * as `setUser`), cleared with the session guest id by `logout`, and the two
 * role tests.
 */
module AuthContext {
  import opened Values
  import opened Storage

  /**
   * The user the provider starts with: the record under "user", or none
   * when the key is absent or empty, when it does not parse, or when it
   * holds the JSON `null`.
   */
  function UserFromEntry(entry: Option<StoredRecord<User>>): (u: Option<User>)
    ensures u.Some? <==> entry.Some? && entry.value.Record?
    ensures u.Some? ==> u.value == entry.value.value
  {
    match entry
    case Some(Record(v)) => Some(v)
    case _ => None
  }

  /** `JSON.stringify(userData)`: a record, or the text `null` for no user. */
  function EntryOf(user: Option<User>): (e: StoredRecord<User>)
    ensures UserFromEntry(Some(e)) == user
    ensures user.None? <==> e == JsonNull
  {
    if user.Some? then Record(user.value) else JsonNull
  }

  /**
   * The provider's lazy initial state. An unparsable "user" value is
   * removed; every other value, including `null`, is left in place.
   */
  method Start(b: Browser)
    modifies b`userEntry, b`user
    ensures b.user == UserFromEntry(old(b.userEntry))
    ensures old(b.userEntry) == Some(GarbledRecord) ==> b.userEntry == None
    ensures old(b.userEntry) != Some(GarbledRecord) ==> b.userEntry == old(b.userEntry)
  {
    match b.userEntry
    case None =>
      b.user := None;
    case Some(BlankRecord) =>
      b.user := None;
    case Some(GarbledRecord) =>
      b.userEntry := None;
      b.user := None;
    case Some(JsonNull) =>
      b.user := None;
    case Some(Record(v)) =>
      b.user := Some(v);
  }

  /** `login`: the record is written under "user" and becomes the current user. */
  method Login(b: Browser, userData: Option<User>)
    modifies b`userEntry, b`user
    ensures b.userEntry == Some(EntryOf(userData))
    ensures b.user == userData
  {
    b.userEntry := Some(EntryOf(userData));
    b.user := userData;
  }

  /** `logout`: "user" and the session guest id are removed and there is no current user. */
  method Logout(b: Browser)
    modifies b`userEntry, b`guestId, b`user
    ensures b.userEntry == None && b.guestId == None && b.user == None
  {
    b.userEntry := None;
    b.guestId := None;
    b.user := None;
  }

  predicate IsBuyer(user: Option<User>)
  {
    user.Some? && user.value.role == "buyer"
  }

  predicate IsSeller(user: Option<User>)
  {
    user.Some? && user.value.role == "seller"
  }

  /** No user is both a buyer and a seller, and with no user neither test holds. */
  lemma RolesExclusive(user: Option<User>)
    ensures !(IsBuyer(user) && IsSeller(user))
    ensures user.None? ==> !IsBuyer(user) && !IsSeller(user)
  {
  }

  /**
   * Starting again after a start changes nothing: the unparsable value is
   * gone and the user read is the same.
   */
  lemma StartSettles(entry: Option<StoredRecord<User>>)
    ensures var after := if entry == Some(GarbledRecord) then None else entry;
      after != Some(GarbledRecord) && UserFromEntry(after) == UserFromEntry(entry)
  {
  }
}
