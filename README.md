# Redis shopping cart, modelled in Dafny

This project models the request handlers of a small Flask shopping-cart
service backed by Redis hashes:

- users live under `user:<id>`;
- products live under `product:<sku>`;
- each user's cart is the hash `cart:<user_id>`, mapping a SKU to its quantity as decimal text.

The model covers:

- the Redis server as the handlers use it: `HSET`, `HINCRBY`, `HGET`, `HGETALL`, `HDEL`, `DEL` and `SCAN MATCH`;
- the catalog upserts `create_user` and `create_product`;
- the listings `get_all_users` and `get_all_products`;
- the cart handlers `add_to_cart`, `remove_from_cart` and `clear_cart`;
- the `cart_summary` join of cart entries with product records.

Files:

- `store.dfy`: the keyspace `map<string, map<string, string>>`.
  - The `Store` class holds it. Its methods are the Redis commands, and each is specified by a pure function on the old keyspace.
  - `Valid()` is Redis's rule that no key holds an empty hash.
- `decimal.dfy`: the integer text Redis and Python exchange.
  - `HINCRBY` accepts `"0"`, or an optional `-` and digits without a leading zero. `str(n)` writes that form back.
  - It also holds an exact reading of `float` on plain decimals.
- `keys.dfy`: the key layout, and Python's `key.split(":")[1]` as a `Split`/`Join` pair.
- `catalog.dfy`: the upserts, and the shared scan loop behind both listings.
- `cart.dfy`: the per-slot state machine.
  - Adding increments the slot. An absent slot counts as 0, and nothing guards against a zero or negative result.
  - Removing gives a 404 on an absent slot. It decrements while the count stays positive and deletes the field otherwise.
  - Clearing drops the key.
- `summary.dfy`: one priced line per cart entry, and the running total.
- `wrappers.dfy`: `Option` and `Result`.
- `replies.dfy`: the handlers' `Reply`.
  - A `Reply` is an HTTP status with the JSON message, or a server error for an exception that escapes the handler.

Handlers take plain arguments. The optional JSON fields are `Option` values, and the quantity defaults to 1 when absent.

`SCAN` order and hash iteration order are unspecified:

- The loops pick the next key nondeterministically and return the visiting order as a ghost value.
- Their contracts say that the order visits every key exactly once.
- They also say that the result is the specification function applied to that order.
- The summary total is proved independent of the order.

Two behaviours of the code that are easy to miss:

- Adding to the cart can store a zero or negative quantity (`Cart.AddUpdatesSlot`). Only the remove path refuses to persist one.
- A missing `user_id` or `sku` is a Python `KeyError`, so a server error, not a validation reply.

## Model

| member | source | states |
|---|---|---|
| RedisStore.FieldAt | redis_shopping_cart_app_v0/app/app.py:169 | `HGET` is None exactly when the key or the field is missing, and otherwise is the stored text |
| RedisStore.SetFields | redis_shopping_cart_app_v0/app/app.py:104 | `HSET` with a mapping writes the given fields over the old hash and keeps its other fields; every other key is unchanged; the key exists afterwards; no empty hash appears |
| RedisStore.SetField | redis_shopping_cart_app_v0/app/app.py:179 | `HSET key field value` sets one field, keeps the rest of the hash and every other key, and keeps the no-empty-hash rule |
| RedisStore.DeleteField | redis_shopping_cart_app_v0/app/app.py:183 | `HDEL` removes the field; the key disappears exactly when its hash becomes empty; other keys are unchanged |
| RedisStore.DeleteKey | redis_shopping_cart_app_v0/app/app.py:193 | `DEL` removes the key, which then reads as an empty hash, and changes no other key |
| RedisStore.Increment | redis_shopping_cart_app_v0/app/app.py:155 | `HINCRBY` gives `delta` for a missing field, the stored integer plus `delta` for an integer field, and an error for any other text |
| RedisStore.Store.constructor | redis_shopping_cart_app_v0/app/app.py:15-21 | a new in-memory store stands in for the server and starts empty and valid; every handler's contract holds for any valid store |
| RedisStore.Store.HSet | redis_shopping_cart_app_v0/app/app.py:179 | the new keyspace is `SetField` of the old one, and stays valid |
| RedisStore.Store.HSetMapping | redis_shopping_cart_app_v0/app/app.py:104 | the new keyspace is `SetFields` of the old one for a non-empty mapping, and stays valid |
| RedisStore.Store.HIncrBy | redis_shopping_cart_app_v0/app/app.py:155 | the reply is `Increment` of the old keyspace; on success the sum is stored as decimal text, and on error nothing changes |
| RedisStore.Store.HDel | redis_shopping_cart_app_v0/app/app.py:183 | the new keyspace is `DeleteField` of the old one, and stays valid |
| RedisStore.Store.Delete | redis_shopping_cart_app_v0/app/app.py:193 | the new keyspace is `DeleteKey` of the old one, and stays valid |
| Decimal.ParseIntToString | redis_shopping_cart_app_v0/app/app.py:175 | every integer written as text (`str(n)`, or the reply of `HINCRBY`) parses back to itself |
| Decimal.ToStringParseInt | redis_shopping_cart_app_v0/app/app.py:175 | a text that parses as an integer is exactly the text that integer is written as, so the codec is a bijection onto canonical texts |
| Decimal.ParseDecimalOfInt | redis_shopping_cart_app_v0/app/app.py:211-212 | `float` and `int` agree on every integer text the store holds |
| Decimal.DotIndex | redis_shopping_cart_app_v0/app/app.py:211 | the index found is the first '.' of the text, or its length when there is none |
| Keys.Split | redis_shopping_cart_app_v0/app/app.py:34 | `split` gives at least one part, at least two when the separator occurs, and no part contains the separator |
| Keys.JoinSplit | redis_shopping_cart_app_v0/app/app.py:34 | joining the parts of a split gives back the original key |
| Keys.SplitJoin | redis_shopping_cart_app_v0/app/app.py:34 | splitting the join of separator-free parts gives back those parts |
| Keys.KeyIdOfKey | redis_shopping_cart_app_v0/app/app.py:63 | for a prefix word and an id without ':', `key.split(":")[1]` is the id |
| Keys.UserKeyId | redis_shopping_cart_app_v0/app/app.py:34 | the id read back from `user:<id>` is `<id>` when the id holds no ':' |
| Keys.KeyIdTruncates | redis_shopping_cart_app_v0/app/app.py:34 | for a prefix word and an id part without ':', any key `word:a:b` reads back as `a`: an id that holds ':' is cut at its first ':' (`user:a:b` lists as `a`) |
| Keys.KeySpacesDisjoint | redis_shopping_cart_app_v0/app/app.py:104-155 | user, product and cart keys never coincide; user and product keys never match `cart:`; each key matches its own prefix |
| Catalog.UserFields | redis_shopping_cart_app_v0/app/app.py:98-102 | the user record has exactly the fields user_id, name and email, with "" for a missing name or email |
| Catalog.ProductFields | redis_shopping_cart_app_v0/app/app.py:117-124 | the product record has exactly sku, name, description, qty, rating and price, with defaults "", "", "0", "0" and "0.0" |
| Catalog.CreateUser | redis_shopping_cart_app_v0/app/app.py:92-105 | writes the user record over `user:<id>`, keeps the store valid, and replies "User <id> created." |
| Catalog.CreateProduct | redis_shopping_cart_app_v0/app/app.py:111-127 | writes the product record over `product:<sku>`, keeps the store valid, and replies "Product <sku> created." |
| Catalog.RecreateUserOverwrites | redis_shopping_cart_app_v0/app/app.py:98-104 | a second create overwrites name and email with the new values or "", not the old ones; fields outside the record and every other key are unchanged |
| Catalog.RecreateProductOverwrites | redis_shopping_cart_app_v0/app/app.py:117-126 | a create writes all six product fields, defaulted when omitted, keeps the hash's other fields, and changes no other key |
| Catalog.ListingEntries | redis_shopping_cart_app_v0/app/app.py:31-48 | a listing has one entry per visited key whose hash is non-empty, in visiting order; each entry is that hash with the id field set from the key |
| Catalog.ListedKeysOfValidStore | redis_shopping_cart_app_v0/app/app.py:42 | in a store without empty hashes no scanned key is skipped |
| Catalog.ScanHashes | redis_shopping_cart_app_v0/app/app.py:26-51 | the loop visits each key with the prefix exactly once and returns the listing of the keys in the order visited; every entry carries the id field; over a valid store there is exactly one entry per key with the prefix |
| Catalog.GetAllUsers | redis_shopping_cart_app_v0/app/app.py:26-51 | scans `user:*` and returns the listing with `user_id` set from each key; every entry has `user_id`; over a valid store there is one entry per user key |
| Catalog.GetAllProducts | redis_shopping_cart_app_v0/app/app.py:56-75 | scans `product:*` and returns the listing with `sku` set from each key; every entry has `sku`; over a valid store there is one entry per product key |
| Catalog.ListingFacts | redis_shopping_cart_app_v0/app/app.py:31-48 | whatever the scan order, every listed entry carries the id field, and over a valid store the listing is as long as the set of keys with the prefix |
| Catalog.ListingOfValidStore | redis_shopping_cart_app_v0/app/app.py:61-72 | over a valid store a listing has exactly one entry per matching key, in scan order |
| Catalog.CreatedUserIsListed | redis_shopping_cart_app_v0/app/app.py:31-48 | after `create_user` with an id without ':', every listing holds an entry carrying that id, name and email |
| Cart.AddToCart | redis_shopping_cart_app_v0/app/app.py:147-156 | the new store is `AfterAdd` of the old one (the `HINCRBY`), the store stays valid, and the reply is the "Added ..." message, or a server error when the slot holds non-integer text |
| Cart.AddUpdatesSlot | redis_shopping_cart_app_v0/app/app.py:151-155 | adding sets the slot to its old count (0 when absent) plus the quantity, with no guard against zero or negative results; every other slot and key is unchanged |
| Cart.AddOnGarbageFails | redis_shopping_cart_app_v0/app/app.py:155 | adding to a slot holding non-integer text fails and changes nothing |
| Cart.AddsAccumulate | redis_shopping_cart_app_v0/app/app.py:155 | a run of adds to one slot leaves the old count plus the sum of the quantities |
| Cart.AddsKeepOtherSlots | redis_shopping_cart_app_v0/app/app.py:155 | a run of adds to one slot changes no other slot and no other key |
| Cart.RemoveStepOf | redis_shopping_cart_app_v0/app/app.py:169-184 | the four outcomes of a remove: not found exactly when the slot is absent, unreadable exactly when it is not an integer, reduced to `count - q` exactly when that is positive, pruned exactly when it is 0 or below |
| Cart.RemoveFromCart | redis_shopping_cart_app_v0/app/app.py:162-184 | the new store is `AfterRemove` of the old one, the store stays valid, and the reply matches the outcome: 404 "... not found ...", "Reduced ... New quantity: n.", "Removed ...", or a server error |
| Cart.RemoveAbsentIsNotFound | redis_shopping_cart_app_v0/app/app.py:169-173 | removing from an absent slot replies 404 and leaves the store unchanged |
| Cart.RemoveReducesSlot | redis_shopping_cart_app_v0/app/app.py:175-180 | when `count - q > 0` the slot becomes exactly `count - q`, and every other slot and key is unchanged |
| Cart.RemovePrunesSlot | redis_shopping_cart_app_v0/app/app.py:181-184 | when `count - q <= 0` the slot is deleted, nothing else changes, and any later remove of it is not found |
| Cart.BobRemovesFive | redis_shopping_cart_app_v0/app/app.py:175-184 | removing 5 from a slot holding 3 prunes it, and a second remove gets a 404 |
| Cart.RemoveKeepsCountPositive | redis_shopping_cart_app_v0/app/app.py:177-184 | after a remove that reads the slot, the slot is absent or holds a positive count |
| Cart.AddThenRemoveRestores | redis_shopping_cart_app_v0/app/app.py:155-184 | adding any quantity (zero and negative included) to an absent slot, then removing the same quantity, gives back exactly the original store |
| Cart.ClearCart | redis_shopping_cart_app_v0/app/app.py:190-194 | the new store is the old one without `cart:<user_id>`, and the reply is "Cleared cart for user <id>." |
| Cart.ClearIsIdempotent | redis_shopping_cart_app_v0/app/app.py:193 | after clearing, every slot of the cart is absent and every other key is unchanged; clearing again changes nothing |
| Cart.CartsWellFormedAfterAdd | redis_shopping_cart_app_v0/app/app.py:155 | when every cart field holds an integer, an add cannot fail and keeps that true |
| Cart.CartsWellFormedAfterRemove | redis_shopping_cart_app_v0/app/app.py:175-184 | when every cart field holds an integer, a remove never meets unreadable text and keeps that true |
| Cart.CartsWellFormedAfterCatalogWrite | redis_shopping_cart_app_v0/app/app.py:104-126 | user and product writes keep every cart field an integer |
| Cart.CartsWellFormedAfterClear | redis_shopping_cart_app_v0/app/app.py:193 | clearing a cart keeps every other cart field an integer |
| Summary.PriceOf | redis_shopping_cart_app_v0/app/app.py:211 | a missing price is 0; a present price converts exactly when it is a decimal, to its exact value |
| Summary.ItemForFields | redis_shopping_cart_app_v0/app/app.py:209-222 | a line fails exactly when the price or the quantity does not convert; otherwise it carries the SKU, the product's name or "", the stored quantity text, the price, and price times quantity |
| Summary.MissingProductLine | redis_shopping_cart_app_v0/app/app.py:210-218 | the line for a product that does not exist has name "" and price 0 |
| Summary.ItemsFailurePersists | redis_shopping_cart_app_v0/app/app.py:209-212 | once a line fails, the summary fails with that error whatever entries follow |
| Summary.CartSummary | redis_shopping_cart_app_v0/app/app.py:201-225 | the loop visits each cart entry exactly once, and its reply is the summary of the entries in the order visited: the lines, the total, or the first conversion error. It succeeds exactly when every cart entry converts, and then names the user and has one line per entry. An empty cart gives no lines and a total of 0 |
| Summary.ItemsSucceed | redis_shopping_cart_app_v0/app/app.py:209-222 | the lines succeed exactly when every entry converts |
| Summary.ItemsValues | redis_shopping_cart_app_v0/app/app.py:209-222 | successful lines are one per entry, in visiting order, each the line of its entry |
| Summary.ItemsFirstFailure | redis_shopping_cart_app_v0/app/app.py:211-212 | a failed summary carries the error of the first entry that does not convert; all earlier entries convert |
| Summary.SummaryLines | redis_shopping_cart_app_v0/app/app.py:209-225 | a successful summary names the user, has one line per entry with that entry's SKU and stored quantity, and a total equal to the sum of the subtotals |
| Summary.EmptyCartSummary | redis_shopping_cart_app_v0/app/app.py:203-225 | an empty or absent cart gives no lines and a total of 0 |
| Summary.SummarySucceeds | redis_shopping_cart_app_v0/app/app.py:209-212 | when every cart field holds an integer and every price on record is a decimal, the summary does not fail |
| Summary.SummaryOfEnumeration | redis_shopping_cart_app_v0/app/app.py:203-225 | for any visiting order, the summary succeeds exactly when every cart entry converts, then has one line per entry and names the user; an empty cart gives no lines and total 0 |
| Summary.TotalRemoveAt | redis_shopping_cart_app_v0/app/app.py:213 | taking any one line out of a list takes exactly its subtotal out of the total |
| Summary.LinesWithout | redis_shopping_cart_app_v0/app/app.py:209-222 | leaving one entry out of the visiting order leaves exactly its line out of the lines |
| Summary.TotalIndependentOfOrder | redis_shopping_cart_app_v0/app/app.py:209-213 | with exact prices, any two visiting orders of the cart give the same total |
| Summary.PriceTwoFifty | redis_shopping_cart_app_v0/app/app.py:211 | the price text "2.50" reads as 2.5 |
| Summary.BobBuysThreeA1 | redis_shopping_cart_app_v0/app/app.py:201-225 | product A1 created with price "2.50" and no name, then 3 added to bob's cart: the summary is one line (A1, "", "3", 2.5, 7.5) and a total of 7.5 |

## Left out

- Flask plumbing is not modelled: routing, `request.json`, `jsonify`, the `index` page with `render_template`, and the `/api/users` and `/api/products` wrappers. The wrappers only serialise `GetAllUsers` and `GetAllProducts`.
- Configuration is not modelled: the `.env` loading, the Redis connection parameters and the server start-up are environment and network. A new in-memory `Store` stands in for the server. It starts empty and valid, and every handler's contract holds for any valid store, whatever the server already holds.
- The non-code text at the end of `app.py` is left out: a Markdown fence and a sentence addressed to a reader.
- The replication script under `VMreplicationScript/` is left out. It is connections to two servers, random values and printing.
- Request decoding is left out.
  - A missing `user_id` or `sku` raises `KeyError`, a server error. The handlers here take both as arguments.
  - `int(data.get("quantity", 1))` can raise. The handlers take the quantity as an optional integer that is already converted.
- Cart.AddToCart: HINCRBY's 64-bit range is not modelled, because integers here are unbounded. Redis refuses an increment that would overflow.
- Catalog.CreateUser: values are strings. The client's conversion of JSON numbers, and its refusal of other JSON types, are not modelled. The same goes for Catalog.CreateProduct.
- Catalog.ScanHashes: `SCAN` may return a key more than once, or miss keys written during the scan. The model visits each key present once.
- Cart.RemoveFromCart: Python's `int()` also accepts text such as "+3", "007", " 3" and "1_0". Here that text gives a server error instead of a count. Cart text only comes from `HINCRBY` and `str`, which write canonical integers, so no cart written by these handlers holds such text.
- Summary.PriceOf: prices are exact decimals (`real`). Float rounding is not modelled, and neither is the float order dependence of the total that comes with it. Python's `float()` also accepts exponents, "inf", "nan", surrounding whitespace and underscores. Here that text fails with `NotAFloat`.
- Summary.CartSummary: the `int(qty)` reading has the same strictness as for Cart.RemoveFromCart. The total of an empty cart is the real 0, where the service returns the integer `0`.
- Concurrency is not modelled: the read-then-write of `remove_from_cart`, and interleavings between requests. Every handler runs alone.

## Findings

None. An id containing ':' lists truncated, cut at its first ':' (`Keys.KeyIdTruncates`). This is recorded as behaviour, not claimed as a defect.
