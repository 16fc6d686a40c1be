/**
 * Users and products: the upserts behind `POST /user` and `POST /product`,
 * and the prefix scans behind `GET /api/users` and `GET /api/products`.
 */
module Catalog {
  import opened Wrappers
  import opened Keys
  import opened RedisStore
  import opened Replies

  /** The hash `create_user` writes: three fields, missing ones defaulted to "". */
  function UserFields(userId: string, name: Option<string>, email: Option<string>): (h: Hash)
    ensures h.Keys == {"user_id", "name", "email"}
    ensures h["user_id"] == userId && h["name"] == name.GetOr("") && h["email"] == email.GetOr("")
  {
    map["user_id" := userId, "name" := name.GetOr(""), "email" := email.GetOr("")]
  }

  /** The hash `create_product` writes: six fields, with the numeric ones kept as text. */
  function ProductFields(sku: string, name: Option<string>, description: Option<string>,
                         qty: Option<string>, rating: Option<string>, price: Option<string>): (h: Hash)
    ensures h.Keys == {"sku", "name", "description", "qty", "rating", "price"}
    ensures h["sku"] == sku && h["name"] == name.GetOr("") && h["description"] == description.GetOr("")
    ensures h["qty"] == qty.GetOr("0") && h["rating"] == rating.GetOr("0") && h["price"] == price.GetOr("0.0")
  {
    map["sku" := sku, "name" := name.GetOr(""), "description" := description.GetOr(""),
        "qty" := qty.GetOr("0"), "rating" := rating.GetOr("0"), "price" := price.GetOr("0.0")]
  }

  method CreateUser(store: Store, userId: string, name: Option<string>, email: Option<string>) returns (reply: Reply)
    requires store.Valid()
    modifies store
    ensures store.Valid()
    ensures store.data == SetFields(old(store.data), UserKey(userId), UserFields(userId, name, email))
    ensures reply == Reply(200, "User " + userId + " created.")
  {
    var userData := UserFields(userId, name, email);
    store.HSetMapping(UserKey(userId), userData);
    reply := Reply(200, "User " + userId + " created.");
  }

  method CreateProduct(store: Store, sku: string, name: Option<string>, description: Option<string>,
                       qty: Option<string>, rating: Option<string>, price: Option<string>) returns (reply: Reply)
    requires store.Valid()
    modifies store
    ensures store.Valid()
    ensures store.data == SetFields(old(store.data), ProductKey(sku), ProductFields(sku, name, description, qty, rating, price))
    ensures reply == Reply(200, "Product " + sku + " created.")
  {
    var productData := ProductFields(sku, name, description, qty, rating, price);
    store.HSetMapping(ProductKey(sku), productData);
    reply := Reply(200, "Product " + sku + " created.");
  }

  /**
   * Re-creating a user writes all three fields again: a field left out of
   * the second request is blanked, not kept from the first; fields of other
   * names and every other key are untouched.
   */
  lemma RecreateUserOverwrites(db: Db, userId: string, name0: Option<string>, email0: Option<string>,
                                name: Option<string>, email: Option<string>)
    ensures var first := SetFields(db, UserKey(userId), UserFields(userId, name0, email0));
      var second := SetFields(first, UserKey(userId), UserFields(userId, name, email));
      && FieldAt(second, UserKey(userId), "name") == Some(name.GetOr(""))
      && FieldAt(second, UserKey(userId), "email") == Some(email.GetOr(""))
      && FieldAt(second, UserKey(userId), "user_id") == Some(userId)
      && (forall f :: f !in {"user_id", "name", "email"} ==> FieldAt(second, UserKey(userId), f) == FieldAt(db, UserKey(userId), f))
      && (forall k :: k != UserKey(userId) ==> HashAt(second, k) == HashAt(db, k))
  {
  }

  /** The same for products, with the defaults "", "", "0", "0" and "0.0". */
  lemma RecreateProductOverwrites(db: Db, sku: string, name: Option<string>, description: Option<string>,
                                  qty: Option<string>, rating: Option<string>, price: Option<string>)
    ensures var after := SetFields(db, ProductKey(sku), ProductFields(sku, name, description, qty, rating, price));
      && HashAt(after, ProductKey(sku)).Keys == HashAt(db, ProductKey(sku)).Keys + {"sku", "name", "description", "qty", "rating", "price"}
      && FieldAt(after, ProductKey(sku), "price") == Some(price.GetOr("0.0"))
      && FieldAt(after, ProductKey(sku), "qty") == Some(qty.GetOr("0"))
      && FieldAt(after, ProductKey(sku), "rating") == Some(rating.GetOr("0"))
      && FieldAt(after, ProductKey(sku), "description") == Some(description.GetOr(""))
      && FieldAt(after, ProductKey(sku), "name") == Some(name.GetOr(""))
      && FieldAt(after, ProductKey(sku), "sku") == Some(sku)
      && (forall f :: f !in {"sku", "name", "description", "qty", "rating", "price"} ==> FieldAt(after, ProductKey(sku), f) == FieldAt(db, ProductKey(sku), f))
      && (forall k :: k != ProductKey(sku) ==> HashAt(after, k) == HashAt(db, k))
  {
  }

  // ----- listings -----

  /** The keys of the store that start with `prefix`. */
  function KeysWithPrefix(db: Db, prefix: string): set<string> {
    set k | k in db && StartsWith(prefix, k)
  }

  /** A sequence without repeats that holds exactly the elements of a set is as long as the set is large. */
  lemma {:induction false} DistinctLength(order: seq<string>, keys: set<string>)
    requires forall i, j :: 0 <= i < j < |order| ==> order[i] != order[j]
    requires forall k :: k in order <==> k in keys
    ensures |order| == |keys|
    decreases |order|
  {
    if order == [] {
      assert keys == {};
    } else {
      var n := |order|;
      var x, init := order[n - 1], order[..n - 1];
      assert x !in init by {
        forall i | 0 <= i < |init| ensures init[i] != x {
          assert init[i] == order[i];
        }
      }
      forall k ensures k in init <==> k in keys - {x} {
        assert order == init + [x];
      }
      DistinctLength(init, keys - {x});
    }
  }

  /** The keys `SCAN MATCH <prefix>*` visits: each key with the prefix, once, in some order. */
  ghost predicate IsScanOf(order: seq<string>, db: Db, prefix: string) {
    && (forall i, j :: 0 <= i < j < |order| ==> order[i] != order[j])
    && (forall k :: k in order <==> k in db && StartsWith(prefix, k))
  }

  predicate HasColons(keys: seq<string>) {
    forall i :: 0 <= i < |keys| ==> ':' in keys[i]
  }

  /** The hash under `key` with `idField` set to the id the key carries. */
  function Entry(db: Db, key: string, idField: string): Hash
    requires ':' in key
  {
    HashAt(db, key)[idField := KeyId(key)]
  }

  /** What the listing loop appends, for the keys in the order visited. */
  function Listing(db: Db, order: seq<string>, idField: string): seq<Hash>
    requires HasColons(order)
  {
    if order == [] then []
    else
      var key := order[|order| - 1];
      Listing(db, order[..|order| - 1], idField)
        + (if HashAt(db, key) == map[] then [] else [Entry(db, key, idField)])
  }

  /** The visited keys whose hash is not empty, in the order visited. */
  function ListedKeys(db: Db, order: seq<string>): seq<string>
  {
    if order == [] then []
    else
      var key := order[|order| - 1];
      ListedKeys(db, order[..|order| - 1]) + (if HashAt(db, key) == map[] then [] else [key])
  }

  /**
   * A listing holds one entry per visited key with a non-empty hash, in
   * visiting order: that hash with its id field set from the key.
   */
  lemma {:induction false} ListingEntries(db: Db, order: seq<string>, idField: string)
    requires HasColons(order)
    ensures var keys := ListedKeys(db, order);
      && |Listing(db, order, idField)| == |keys|
      && HasColons(keys)
      && (forall j :: 0 <= j < |keys| ==> Listing(db, order, idField)[j] == Entry(db, keys[j], idField))
      && (forall k :: k in keys <==> k in order && HashAt(db, k) != map[])
  {
    if order != [] {
      var init := order[..|order| - 1];
      assert HasColons(init);
      ListingEntries(db, init, idField);
      assert forall k :: k in order <==> k in init || k == order[|order| - 1] by {
        assert order == init + [order[|order| - 1]];
      }
    }
  }

  /** In a store with no empty hashes every visited key is listed. */
  lemma {:induction false} ListedKeysOfValidStore(db: Db, order: seq<string>)
    requires NoEmptyHashes(db)
    requires forall i :: 0 <= i < |order| ==> order[i] in db
    ensures ListedKeys(db, order) == order
  {
    if order != [] {
      ListedKeysOfValidStore(db, order[..|order| - 1]);
      assert order == order[..|order| - 1] + [order[|order| - 1]];
    }
  }

  lemma PrefixColon(prefix: string, s: string)
    requires ':' in prefix && StartsWith(prefix, s)
    ensures ':' in s
  {
    var i :| 0 <= i < |prefix| && prefix[i] == ':';
    assert s[..|prefix|][i] == ':';
  }

  /** `visited` and `pending` split `keys`, and `visited` repeats nothing. */
  ghost predicate Visiting(visited: seq<string>, pending: set<string>, keys: set<string>) {
    && pending <= keys
    && (forall k :: k in visited <==> k in keys && k !in pending)
    && (forall i, j :: 0 <= i < j < |visited| ==> visited[i] != visited[j])
  }

  /** Visiting one more pending key keeps the split. */
  lemma VisitNext(visited: seq<string>, pending: set<string>, keys: set<string>, k: string)
    requires Visiting(visited, pending, keys) && k in pending
    ensures Visiting(visited + [k], pending - {k}, keys)
  {
    var v := visited + [k];
    forall i, j | 0 <= i < j < |v| ensures v[i] != v[j] {
      if j == |visited| {
        assert v[i] == visited[i] && v[i] in visited;
      } else {
        assert v[i] == visited[i] && v[j] == visited[j];
      }
    }
  }

  /** The listing of an order extended by one key, unfolded once. */
  lemma ListingSnoc(db: Db, order: seq<string>, key: string, idField: string)
    requires HasColons(order) && ':' in key
    ensures HasColons(order + [key])
    ensures Listing(db, order + [key], idField) ==
      Listing(db, order, idField) + (if HashAt(db, key) == map[] then [] else [Entry(db, key, idField)])
  {
    assert (order + [key])[..|order|] == order;
  }

  /**
   * The shared loop of `get_all_users` and `get_all_products`: visit every
   * key with the prefix, read its hash, skip an empty one, and append the
   * hash with `idField` set to the key's id.
   */
  method ScanHashes(store: Store, prefix: string, idField: string) returns (entries: seq<Hash>, ghost order: seq<string>)
    requires ':' in prefix
    ensures IsScanOf(order, store.data, prefix) && HasColons(order)
    ensures entries == Listing(store.data, order, idField)
    ensures forall j :: 0 <= j < |entries| ==> idField in entries[j]
    ensures store.Valid() ==> |entries| == |KeysWithPrefix(store.data, prefix)|
  {
    var pending := set k | k in store.data && StartsWith(prefix, k);
    ghost var all := pending;
    entries, order := [], [];
    while pending != {}
      invariant Visiting(order, pending, all)
      invariant HasColons(order)
      invariant entries == Listing(store.data, order, idField)
      decreases pending
    {
      var key :| key in pending;
      PrefixColon(prefix, key);
      var id := KeyId(key);
      var data := store.HGetAll(key);
      if data != map[] {
        entries := entries + [data[idField := id]];
      }
      VisitNext(order, pending, all, key);
      ListingSnoc(store.data, order, key, idField);
      order := order + [key];
      pending := pending - {key};
    }
    ListingFacts(store.data, order, prefix, idField);
  }

  /** What a listing says independently of the scan order: ids everywhere, and one entry per key over a valid store. */
  lemma ListingFacts(db: Db, order: seq<string>, prefix: string, idField: string)
    requires IsScanOf(order, db, prefix) && HasColons(order)
    ensures forall j :: 0 <= j < |Listing(db, order, idField)| ==> idField in Listing(db, order, idField)[j]
    ensures NoEmptyHashes(db) ==> |Listing(db, order, idField)| == |KeysWithPrefix(db, prefix)|
  {
    ListingEntries(db, order, idField);
    if NoEmptyHashes(db) {
      ListingOfValidStore(db, order, prefix, idField);
      DistinctLength(order, KeysWithPrefix(db, prefix));
    }
  }

  /** `get_all_users`: every `user:*` hash, with `user_id` taken from its key. */
  method GetAllUsers(store: Store) returns (users: seq<Hash>, ghost order: seq<string>)
    ensures IsScanOf(order, store.data, UserPrefix) && HasColons(order)
    ensures users == Listing(store.data, order, "user_id")
    ensures forall j :: 0 <= j < |users| ==> "user_id" in users[j]
    ensures store.Valid() ==> |users| == |KeysWithPrefix(store.data, UserPrefix)|
  {
    users, order := ScanHashes(store, UserPrefix, "user_id");
  }

  /** `get_all_products`: every `product:*` hash, with `sku` taken from its key. */
  method GetAllProducts(store: Store) returns (products: seq<Hash>, ghost order: seq<string>)
    ensures IsScanOf(order, store.data, ProductPrefix) && HasColons(order)
    ensures products == Listing(store.data, order, "sku")
    ensures forall j :: 0 <= j < |products| ==> "sku" in products[j]
    ensures store.Valid() ==> |products| == |KeysWithPrefix(store.data, ProductPrefix)|
  {
    products, order := ScanHashes(store, ProductPrefix, "sku");
  }

  /**
   * Over a store with no empty hashes a listing is exactly one entry per
   * key with the prefix, in scan order.
   */
  lemma ListingOfValidStore(db: Db, order: seq<string>, prefix: string, idField: string)
    requires NoEmptyHashes(db) && IsScanOf(order, db, prefix) && HasColons(order)
    ensures |Listing(db, order, idField)| == |order|
    ensures forall j :: 0 <= j < |order| ==> Listing(db, order, idField)[j] == Entry(db, order[j], idField)
  {
    assert forall i :: 0 <= i < |order| ==> order[i] in db by {
      forall i | 0 <= i < |order| ensures order[i] in db {
        assert order[i] in order;
      }
    }
    ListedKeysOfValidStore(db, order);
    ListingEntries(db, order, idField);
  }

  /**
   * A user created with an id free of ':' shows up in every later listing,
   * carrying the id, name and email it was created with.
   */
  lemma CreatedUserIsListed(db: Db, userId: string, name: Option<string>, email: Option<string>, order: seq<string>)
    requires NoEmptyHashes(db) && ':' !in userId
    requires var after := SetFields(db, UserKey(userId), UserFields(userId, name, email));
      IsScanOf(order, after, UserPrefix) && HasColons(order)
    ensures var users := Listing(SetFields(db, UserKey(userId), UserFields(userId, name, email)), order, "user_id");
      exists j :: 0 <= j < |users| && UserFields(userId, name, email).Items <= users[j].Items
  {
    var i := CreatedUserEntry(db, userId, name, email, order);
    WrittenFieldsKept(HashAt(db, UserKey(userId)), UserFields(userId, name, email), "user_id", userId);
  }

  /** Where the created user sits in the listing, and the entry there. */
  lemma CreatedUserEntry(db: Db, userId: string, name: Option<string>, email: Option<string>, order: seq<string>) returns (i: int)
    requires NoEmptyHashes(db) && ':' !in userId
    requires var after := SetFields(db, UserKey(userId), UserFields(userId, name, email));
      IsScanOf(order, after, UserPrefix) && HasColons(order)
    ensures var users := Listing(SetFields(db, UserKey(userId), UserFields(userId, name, email)), order, "user_id");
      && 0 <= i < |users|
      && users[i] == (HashAt(db, UserKey(userId)) + UserFields(userId, name, email))["user_id" := userId]
  {
    var after := SetFields(db, UserKey(userId), UserFields(userId, name, email));
    var key := UserKey(userId);
    KeySpacesDisjoint(userId, userId);
    assert key in order;
    i :| 0 <= i < |order| && order[i] == key;
    ListingOfValidStore(after, order, UserPrefix, "user_id");
    UserKeyId(userId);
  }

  /** Fields written over a hash, then one of them written again with its own value, are all there. */
  lemma WrittenFieldsKept(h: Hash, fields: Hash, f: string, v: string)
    requires f in fields && fields[f] == v
    ensures fields.Items <= (h + fields)[f := v].Items
  {
    var r := (h + fields)[f := v];
    forall p | p in fields.Items ensures p in r.Items {
      assert p.0 in fields && fields[p.0] == p.1;
      assert p.0 in r && r[p.0] == p.1;
    }
  }
}
