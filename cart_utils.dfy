/**
 * Cart-owner resolution (frontend/FH_book/src/utils/cartUtils.js): a signed-in
 * user's id, or a guest id created once per browser session, with a one-time
 * move of the cart left under the legacy key `cart_guest`.
 */
module CartUtils {
  import opened Text
  import opened Values
  import opened Storage

  /** The suffix of the legacy guest cart key `cart_guest`. */
  const LegacyGuestKey: string := "guest"

  /** `guest_<time>_<random>`, the id used when no UUID generator is available. */
  function FallbackGuestId(now: nat, rand: string): (id: string)
    ensures |id| > |LegacyGuestKey| && id[..6] == "guest_"
  {
    "guest_" + NatToString(now) + "_" + rand
  }

  /** The id a fresh session gets: a UUID when one was produced, else the fallback. */
  function NewGuestId(uuid: Option<Uuid>, now: nat, rand: string): (id: string)
    ensures id != [] && id != LegacyGuestKey
    ensures uuid.Some? ==> id == uuid.value
  {
    if uuid.Some? then uuid.value else FallbackGuestId(now, rand)
  }

  /**
   * The cart map after the legacy migration: when `cart_guest` holds
   * non-empty text, that text is copied verbatim to the new id's key and the
   * legacy key is removed; otherwise nothing changes.
   */
  function Migrated(carts: map<string, Stored<LineItem>>, id: string): (r: map<string, Stored<LineItem>>)
  {
    if LegacyGuestKey in carts && carts[LegacyGuestKey] != Blank
    then carts[id := carts[LegacyGuestKey]] - {LegacyGuestKey}
    else carts
  }

  /** The storage writes the migration performs, in order. */
  function MigrationTrace(carts: map<string, Stored<LineItem>>, id: string): seq<Event>
  {
    if LegacyGuestKey in carts && carts[LegacyGuestKey] != Blank
    then [CartWritten(id), CartRemoved(LegacyGuestKey)]
    else []
  }

  lemma MigrationMovesLegacyCart(carts: map<string, Stored<LineItem>>, id: string)
    requires id != LegacyGuestKey
    requires LegacyGuestKey in carts && carts[LegacyGuestKey] != Blank
    ensures LegacyGuestKey !in Migrated(carts, id)
    ensures id in Migrated(carts, id) && Migrated(carts, id)[id] == carts[LegacyGuestKey]
    ensures forall k :: k != id && k != LegacyGuestKey ==> Lookup(Migrated(carts, id), k) == Lookup(carts, k)
  {
  }

  /**
   * `getOrCreateGuestId`. A non-empty id already in the session is returned
   * and nothing is touched. Otherwise a new id is made, remembered in the
   * session, and the legacy cart migrated to it. Each storage step that
   * throws (`readFails`, `writeFails`, `migrateFails`) is swallowed, and an
   * id is returned in every case.
   */
  method GetOrCreateGuestId(b: Browser, readFails: bool, uuid: Option<Uuid>, now: nat, rand: string,
                            writeFails: bool, migrateFails: bool) returns (id: string)
    modifies b`guestId, b`carts, b`trace
    ensures id != []
    ensures !readFails && old(b.guestId).Some? && old(b.guestId).value != [] ==>
      id == old(b.guestId).value && b.guestId == old(b.guestId) && b.carts == old(b.carts) && b.trace == old(b.trace)
    ensures readFails || old(b.guestId).None? || old(b.guestId).value == [] ==>
      && id == NewGuestId(uuid, now, rand)
      && b.guestId == (if writeFails then old(b.guestId) else Some(id))
      && b.carts == (if migrateFails then old(b.carts) else Migrated(old(b.carts), id))
      && b.trace == old(b.trace) + (if migrateFails then [] else MigrationTrace(old(b.carts), id))
  {
    if !readFails && b.guestId.Some? && b.guestId.value != [] {
      return b.guestId.value;
    }
    id := NewGuestId(uuid, now, rand);
    if !writeFails {
      b.guestId := Some(id);
    }
    if !migrateFails && LegacyGuestKey in b.carts && b.carts[LegacyGuestKey] != Blank {
      var legacy := b.carts[LegacyGuestKey];
      b.carts := b.carts[id := legacy];
      b.trace := b.trace + [CartWritten(id)];
      b.carts := b.carts - {LegacyGuestKey};
      b.trace := b.trace + [CartRemoved(LegacyGuestKey)];
    }
  }

  /**
   * `getCartOwnerId`: the user's id whenever it is present (0 included),
   * otherwise the session guest id, made and migrated by `getOrCreateGuestId`
   * when there is none.
   */
  method GetCartOwnerId(b: Browser, user: Option<User>, readFails: bool, uuid: Option<Uuid>, now: nat,
                        rand: string, writeFails: bool, migrateFails: bool) returns (owner: string)
    modifies b`guestId, b`carts, b`trace
    ensures owner != []
    ensures user.Some? && user.value.id.Some? ==>
      owner == UserKey(user.value.id.value) && b.guestId == old(b.guestId) && b.carts == old(b.carts)
      && b.trace == old(b.trace)
    ensures !(user.Some? && user.value.id.Some?) && !readFails && old(b.guestId).Some? && old(b.guestId).value != [] ==>
      owner == old(b.guestId).value && b.guestId == old(b.guestId) && b.carts == old(b.carts)
      && b.trace == old(b.trace)
    ensures !(user.Some? && user.value.id.Some?) && (readFails || old(b.guestId).None? || old(b.guestId).value == []) ==>
      && owner == NewGuestId(uuid, now, rand)
      && b.guestId == (if writeFails then old(b.guestId) else Some(owner))
      && b.carts == (if migrateFails then old(b.carts) else Migrated(old(b.carts), owner))
      && b.trace == old(b.trace) + (if migrateFails then [] else MigrationTrace(old(b.carts), owner))
  {
    if user.Some? && user.value.id.Some? {
      return UserKey(user.value.id.value);
    }
    owner := GetOrCreateGuestId(b, readFails, uuid, now, rand, writeFails, migrateFails);
  }
}
