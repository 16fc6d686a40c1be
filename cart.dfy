/**
 * The cart of a user is the hash `cart:<user_id>` mapping a SKU to its
 * quantity as decimal text.  Each (user, SKU) slot moves between absent and
 * a stored count: `POST /cart/add` adds to it, `POST /cart/remove`
 * decrements or prunes it, and `POST /cart/clear` drops the whole cart.
 */
module Cart {
  import opened Wrappers
  import opened Decimal
  import opened Keys
  import opened RedisStore
  import opened Replies

  /** The quantity of a request, 1 when the request gives none. */
  function Quantity(quantity: Option<int>): int {
    quantity.GetOr(1)
  }

  /** The text stored in the slot, None when the cart has no such SKU. */
  function SlotText(db: Db, userId: string, sku: string): Option<string> {
    FieldAt(db, CartKey(userId), sku)
  }

  /** The count in the slot, None when it is absent (or not an integer). */
  function Count(db: Db, userId: string, sku: string): Option<int> {
    match SlotText(db, userId, sku)
    case None => None
    case Some(text) => ParseInt(text)
  }

  /** Every field of every cart holds an integer. */
  ghost predicate CartsWellFormed(db: Db) {
    forall k, f :: k in db && StartsWith(CartPrefix, k) && f in db[k] ==> ParseInt(db[k][f]).Some?
  }

  /** Every slot other than (userId, sku), and every key other than the cart, is as before. */
  ghost predicate OtherSlotsUnchanged(db: Db, db': Db, userId: string, sku: string) {
    && (forall k :: k != CartKey(userId) ==> HashAt(db', k) == HashAt(db, k))
    && (forall f :: f != sku ==> FieldAt(db', CartKey(userId), f) == FieldAt(db, CartKey(userId), f))
  }

  // ----- add -----

  /** The store after `add_to_cart`: `HINCRBY cart:<user_id> sku quantity`. */
  function AfterAdd(db: Db, userId: string, sku: string, q: int): Db {
    match Increment(db, CartKey(userId), sku, q)
    case Success(n) => SetField(db, CartKey(userId), sku, IntToString(n))
    case Failure(_) => db
  }

  function AddedMessage(userId: string, sku: string, q: int): string {
    "Added " + IntToString(q) + " of " + sku + " to cart for user " + userId + "."
  }

  method AddToCart(store: Store, userId: string, sku: string, quantity: Option<int>) returns (reply: Reply)
    requires store.Valid()
    modifies store
    ensures store.Valid()
    ensures store.data == AfterAdd(old(store.data), userId, sku, Quantity(quantity))
    ensures reply == match Increment(old(store.data), CartKey(userId), sku, Quantity(quantity))
      case Success(_) => Reply(200, AddedMessage(userId, sku, Quantity(quantity)))
      case Failure(e) => ServerError(e)
  {
    var q := Quantity(quantity);
    var r := store.HIncrBy(CartKey(userId), sku, q);
    match r
    case Success(_) => reply := Reply(200, AddedMessage(userId, sku, q));
    case Failure(e) => reply := ServerError(e);
  }

  /** Adding to a slot that holds non-integer text is an `HINCRBY` error and changes nothing. */
  lemma AddOnGarbageFails(db: Db, userId: string, sku: string, q: int)
    requires SlotText(db, userId, sku).Some? && Count(db, userId, sku).None?
    ensures Increment(db, CartKey(userId), sku, q) == Failure(NotAnInteger(SlotText(db, userId, sku).value))
    ensures AfterAdd(db, userId, sku, q) == db
  {
  }

  /**
   * Adding sets the slot to its old count plus the quantity, an absent slot
   * counting as 0, with no guard against a zero or negative result; nothing
   * else changes.
   */
  lemma AddUpdatesSlot(db: Db, userId: string, sku: string, q: int)
    requires SlotText(db, userId, sku).None? || Count(db, userId, sku).Some?
    ensures Count(AfterAdd(db, userId, sku, q), userId, sku) == Some(Count(db, userId, sku).GetOr(0) + q)
    ensures OtherSlotsUnchanged(db, AfterAdd(db, userId, sku, q), userId, sku)
  {
    ParseIntToString(Count(db, userId, sku).GetOr(0) + q);
  }

  /** The store after one add per quantity, in order. */
  function AfterAdds(db: Db, userId: string, sku: string, qs: seq<int>): Db
    decreases |qs|
  {
    if qs == [] then db else AfterAdds(AfterAdd(db, userId, sku, qs[0]), userId, sku, qs[1..])
  }

  function Sum(qs: seq<int>): int {
    if qs == [] then 0 else qs[0] + Sum(qs[1..])
  }

  /**
   * A run of adds to a slot holding `c` (absent counting as 0) leaves
   * `c` plus the sum of the quantities.
   */
  lemma AddsAccumulate(db: Db, userId: string, sku: string, qs: seq<int>, c: int)
    requires Count(db, userId, sku) == Some(c) || (SlotText(db, userId, sku) == None && c == 0)
    requires qs != []
    ensures Count(AfterAdds(db, userId, sku, qs), userId, sku) == Some(c + Sum(qs))
  {
    if SlotText(db, userId, sku).Some? {
      ToStringParseInt(SlotText(db, userId, sku).value);
    }
    AddsWriteSum(db, userId, sku, qs, c);
    ParseIntToString(c + Sum(qs));
  }

  /** The text form of `AddsAccumulate`, by induction on the run. */
  lemma {:induction false} AddsWriteSum(db: Db, userId: string, sku: string, qs: seq<int>, c: int)
    requires SlotText(db, userId, sku) == Some(IntToString(c)) || (SlotText(db, userId, sku) == None && c == 0)
    requires qs != []
    ensures SlotText(AfterAdds(db, userId, sku, qs), userId, sku) == Some(IntToString(c + Sum(qs)))
    decreases |qs|
  {
    AddWritesSum(db, userId, sku, qs[0], c);
    AfterAddsFirst(db, userId, sku, qs);
    if |qs| > 1 {
      AddsWriteSum(AfterAdd(db, userId, sku, qs[0]), userId, sku, qs[1..], c + qs[0]);
    }
  }

  /** One add to a slot holding `c` writes the text of `c + q`. */
  lemma AddWritesSum(db: Db, userId: string, sku: string, q: int, c: int)
    requires SlotText(db, userId, sku) == Some(IntToString(c)) || (SlotText(db, userId, sku) == None && c == 0)
    ensures SlotText(AfterAdd(db, userId, sku, q), userId, sku) == Some(IntToString(c + q))
  {
    ParseIntToString(c);
  }

  /** `AfterAdds` and `Sum` unfolded once. */
  lemma AfterAddsFirst(db: Db, userId: string, sku: string, qs: seq<int>)
    requires qs != []
    ensures AfterAdds(db, userId, sku, qs) == AfterAdds(AfterAdd(db, userId, sku, qs[0]), userId, sku, qs[1..])
    ensures Sum(qs) == qs[0] + Sum(qs[1..])
    ensures qs[1..] == [] ==> AfterAdds(db, userId, sku, qs) == AfterAdd(db, userId, sku, qs[0]) && Sum(qs) == qs[0]
  {
  }

  /** A run of adds to one slot changes no other slot and no other key. */
  lemma {:induction false} AddsKeepOtherSlots(db: Db, userId: string, sku: string, qs: seq<int>)
    requires SlotText(db, userId, sku).None? || Count(db, userId, sku).Some?
    ensures OtherSlotsUnchanged(db, AfterAdds(db, userId, sku, qs), userId, sku)
    decreases |qs|
  {
    if qs != [] {
      var next := AfterAdd(db, userId, sku, qs[0]);
      AddUpdatesSlot(db, userId, sku, qs[0]);
      AddsKeepOtherSlots(next, userId, sku, qs[1..]);
      OtherSlotsUnchangedTrans(db, next, AfterAdds(next, userId, sku, qs[1..]), userId, sku);
    }
  }

  lemma OtherSlotsUnchangedTrans(db: Db, db': Db, db'': Db, userId: string, sku: string)
    requires OtherSlotsUnchanged(db, db', userId, sku) && OtherSlotsUnchanged(db', db'', userId, sku)
    ensures OtherSlotsUnchanged(db, db'', userId, sku)
  {
  }

  // ----- remove -----

  /** What `remove_from_cart` decides after reading the slot. */
  datatype RemoveStep =
    | SlotMissing               // the SKU is not in the cart: 404
    | Unreadable(text: string)  // `int(current_qty)` raises
    | Reduced(newQty: int)      // the count stays positive and is written back
    | Pruned                    // the count would drop to 0 or below: the field is deleted

  function RemoveStepOf(db: Db, userId: string, sku: string, q: int): (step: RemoveStep)
    ensures step.SlotMissing? <==> SlotText(db, userId, sku).None?
    ensures step.Unreadable? <==> SlotText(db, userId, sku).Some? && Count(db, userId, sku).None?
    ensures step.Reduced? <==> Count(db, userId, sku).Some? && Count(db, userId, sku).value - q > 0
    ensures step.Reduced? ==> step.newQty == Count(db, userId, sku).value - q
    ensures step.Pruned? <==> Count(db, userId, sku).Some? && Count(db, userId, sku).value - q <= 0
  {
    match SlotText(db, userId, sku)
    case None => SlotMissing
    case Some(text) =>
      match ParseInt(text)
      case None => Unreadable(text)
      case Some(current) =>
        var newQty := current - q;
        if newQty > 0 then Reduced(newQty) else Pruned
  }

  /** The store after `remove_from_cart`. */
  function AfterRemove(db: Db, userId: string, sku: string, q: int): Db {
    match RemoveStepOf(db, userId, sku, q)
    case Reduced(newQty) => SetField(db, CartKey(userId), sku, IntToString(newQty))
    case Pruned => DeleteField(db, CartKey(userId), sku)
    case _ => db
  }

  function RemoveReply(step: RemoveStep, userId: string, sku: string, q: int): Reply {
    match step
    case SlotMissing => Reply(404, sku + " not found in cart for user " + userId + ".")
    case Unreadable(text) => ServerError(NotAnInteger(text))
    case Reduced(newQty) =>
      Reply(200, "Reduced " + sku + " by " + IntToString(q) + " for user " + userId
                 + ". New quantity: " + IntToString(newQty) + ".")
    case Pruned => Reply(200, "Removed " + sku + " from cart for user " + userId + ".")
  }

  method RemoveFromCart(store: Store, userId: string, sku: string, quantity: Option<int>) returns (reply: Reply)
    requires store.Valid()
    modifies store
    ensures store.Valid()
    ensures store.data == AfterRemove(old(store.data), userId, sku, Quantity(quantity))
    ensures reply == RemoveReply(RemoveStepOf(old(store.data), userId, sku, Quantity(quantity)), userId, sku, Quantity(quantity))
  {
    var removeQty := Quantity(quantity);
    var cartKey := CartKey(userId);
    var currentQty := store.HGet(cartKey, sku);
    if currentQty.None? {
      reply := Reply(404, sku + " not found in cart for user " + userId + ".");
      return;
    }
    var current := ParseInt(currentQty.value);
    if current.None? {
      reply := ServerError(NotAnInteger(currentQty.value));
      return;
    }
    var newQty := current.value - removeQty;
    if newQty > 0 {
      store.HSet(cartKey, sku, IntToString(newQty));
      reply := Reply(200, "Reduced " + sku + " by " + IntToString(removeQty) + " for user " + userId
                          + ". New quantity: " + IntToString(newQty) + ".");
    } else {
      store.HDel(cartKey, sku);
      reply := Reply(200, "Removed " + sku + " from cart for user " + userId + ".");
    }
  }

  /** Removing from an absent slot is a 404 and leaves the store as it was. */
  lemma RemoveAbsentIsNotFound(db: Db, userId: string, sku: string, q: int)
    requires SlotText(db, userId, sku).None?
    ensures RemoveReply(RemoveStepOf(db, userId, sku, q), userId, sku, q).Reply?
    ensures RemoveReply(RemoveStepOf(db, userId, sku, q), userId, sku, q).status == 404
    ensures AfterRemove(db, userId, sku, q) == db
  {
  }

  /** A remove that leaves a positive count writes exactly that count; nothing else changes. */
  lemma RemoveReducesSlot(db: Db, userId: string, sku: string, q: int)
    requires Count(db, userId, sku).Some? && Count(db, userId, sku).value - q > 0
    ensures Count(AfterRemove(db, userId, sku, q), userId, sku) == Some(Count(db, userId, sku).value - q)
    ensures OtherSlotsUnchanged(db, AfterRemove(db, userId, sku, q), userId, sku)
  {
    ParseIntToString(Count(db, userId, sku).value - q);
  }

  /**
   * A remove that would reach 0 or below deletes the slot, so a second
   * remove of it is a 404; nothing else changes.
   */
  lemma RemovePrunesSlot(db: Db, userId: string, sku: string, q: int, q2: int)
    requires Count(db, userId, sku).Some? && Count(db, userId, sku).value - q <= 0
    ensures SlotText(AfterRemove(db, userId, sku, q), userId, sku).None?
    ensures OtherSlotsUnchanged(db, AfterRemove(db, userId, sku, q), userId, sku)
    ensures RemoveStepOf(AfterRemove(db, userId, sku, q), userId, sku, q2) == SlotMissing
  {
  }

  /**
   * bob holds 3 of A1 and removes 5: the slot is pruned, and a second
   * remove of it is a 404.
   */
  lemma BobRemovesFive(db: Db)
    requires Count(db, "bob", "A1") == Some(3)
    ensures RemoveStepOf(db, "bob", "A1", 5) == Pruned
    ensures SlotText(AfterRemove(db, "bob", "A1", 5), "bob", "A1") == None
    ensures var after := AfterRemove(db, "bob", "A1", 5);
      && RemoveStepOf(after, "bob", "A1", 1) == SlotMissing
      && RemoveReply(SlotMissing, "bob", "A1", 1).status == 404
  {
    RemovePrunesSlot(db, "bob", "A1", 5, 1);
  }

  /** A remove never leaves a zero or negative count in the slot. */
  lemma RemoveKeepsCountPositive(db: Db, userId: string, sku: string, q: int)
    requires RemoveStepOf(db, userId, sku, q).Reduced? || RemoveStepOf(db, userId, sku, q).Pruned?
    ensures match Count(AfterRemove(db, userId, sku, q), userId, sku)
      case None => SlotText(AfterRemove(db, userId, sku, q), userId, sku).None?
      case Some(n) => n > 0
  {
    if RemoveStepOf(db, userId, sku, q).Reduced? {
      RemoveReducesSlot(db, userId, sku, q);
    }
  }

  /**
   * Adding any quantity to an absent slot and then removing the same
   * quantity gives back exactly the store that was there before: the slot
   * then holds q, and q - q = 0 prunes it.
   */
  lemma AddThenRemoveRestores(db: Db, userId: string, sku: string, q: int)
    requires NoEmptyHashes(db) && SlotText(db, userId, sku).None?
    ensures AfterRemove(AfterAdd(db, userId, sku, q), userId, sku, q) == db
  {
    var key := CartKey(userId);
    var added := AfterAdd(db, userId, sku, q);
    AddUpdatesSlot(db, userId, sku, q);
    var removed := AfterRemove(added, userId, sku, q);
    assert RemoveStepOf(added, userId, sku, q) == Pruned;
    assert HashAt(removed, key) == HashAt(db, key) by {
      assert sku !in HashAt(db, key);
      assert HashAt(removed, key) == (HashAt(db, key)[sku := IntToString(q)]) - {sku};
    }
    assert removed.Keys == db.Keys;
    forall k | k in db ensures removed[k] == db[k] {
      assert HashAt(removed, k) == HashAt(db, k);
    }
  }

  // ----- clear -----

  function ClearedMessage(userId: string): string {
    "Cleared cart for user " + userId + "."
  }

  method ClearCart(store: Store, userId: string) returns (reply: Reply)
    requires store.Valid()
    modifies store
    ensures store.Valid()
    ensures store.data == DeleteKey(old(store.data), CartKey(userId))
    ensures reply == Reply(200, ClearedMessage(userId))
  {
    store.Delete(CartKey(userId));
    reply := Reply(200, ClearedMessage(userId));
  }

  /**
   * Clearing empties every slot of the user's cart, touches no other key,
   * and clearing again changes nothing.
   */
  lemma ClearIsIdempotent(db: Db, userId: string)
    ensures var cleared := DeleteKey(db, CartKey(userId));
      && (forall sku :: SlotText(cleared, userId, sku).None?)
      && (forall k :: k != CartKey(userId) ==> HashAt(cleared, k) == HashAt(db, k))
      && DeleteKey(cleared, CartKey(userId)) == cleared
  {
  }

  // ----- the cart invariant -----

  lemma CartsWellFormedAfterAdd(db: Db, userId: string, sku: string, q: int)
    requires CartsWellFormed(db)
    ensures Increment(db, CartKey(userId), sku, q).Success?
    ensures CartsWellFormed(AfterAdd(db, userId, sku, q))
  {
    var key := CartKey(userId);
    KeySpacesDisjoint(userId, userId);
    if SlotText(db, userId, sku).Some? {
      assert key in db && sku in db[key];
    }
    AddUpdatesSlot(db, userId, sku, q);
  }

  lemma CartsWellFormedAfterRemove(db: Db, userId: string, sku: string, q: int)
    requires CartsWellFormed(db)
    ensures !RemoveStepOf(db, userId, sku, q).Unreadable?
    ensures CartsWellFormed(AfterRemove(db, userId, sku, q))
  {
    var key := CartKey(userId);
    KeySpacesDisjoint(userId, userId);
    if SlotText(db, userId, sku).Some? {
      assert key in db && sku in db[key];
    }
    if RemoveStepOf(db, userId, sku, q).Reduced? {
      RemoveReducesSlot(db, userId, sku, q);
    }
  }

  /** Catalog writes land outside the cart key space and keep the carts readable. */
  lemma CartsWellFormedAfterCatalogWrite(db: Db, id: string, fields: Hash)
    requires CartsWellFormed(db) && fields != map[]
    ensures CartsWellFormed(SetFields(db, UserKey(id), fields))
    ensures CartsWellFormed(SetFields(db, ProductKey(id), fields))
  {
    KeySpacesDisjoint(id, id);
  }

  lemma CartsWellFormedAfterClear(db: Db, userId: string)
    requires CartsWellFormed(db)
    ensures CartsWellFormed(DeleteKey(db, CartKey(userId)))
  {
  }
}
