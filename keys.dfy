/**
 * Key layout of the store: `user:<id>`, `product:<sku>`, `cart:<user_id>`,
 * and the id the listings read back from a key with Python's
 * `key.split(":")[1]`.
 */
module Keys {

  const UserPrefix: string := "user:"
  const ProductPrefix: string := "product:"
  const CartPrefix: string := "cart:"

  function UserKey(userId: string): string { UserPrefix + userId }
  function ProductKey(sku: string): string { ProductPrefix + sku }
  function CartKey(userId: string): string { CartPrefix + userId }

  predicate StartsWith(prefix: string, s: string) {
    |prefix| <= |s| && s[..|prefix|] == prefix
  }

  /** Python's `s.split(sep)` for a one-character separator. */
  function Split(s: string, sep: char): (parts: seq<string>)
    ensures |parts| >= 1
    ensures sep in s ==> |parts| >= 2
    ensures forall i :: 0 <= i < |parts| ==> sep !in parts[i]
  {
    if s == [] then [""]
    else
      var rest := Split(s[1..], sep);
      if s[0] == sep then [""] + rest else [[s[0]] + rest[0]] + rest[1..]
  }

  /** Python's `sep.join(parts)`. */
  function Join(parts: seq<string>, sep: char): string
    requires |parts| >= 1
  {
    if |parts| == 1 then parts[0] else parts[0] + [sep] + Join(parts[1..], sep)
  }

  /** Splitting loses nothing: joining the parts gives the string back. */
  lemma {:induction false} JoinSplit(s: string, sep: char)
    ensures Join(Split(s, sep), sep) == s
  {
    if s != [] {
      var rest := Split(s[1..], sep);
      JoinSplit(s[1..], sep);
      if s[0] == sep {
        assert Split(s, sep)[1..] == rest;
      } else if |rest| == 1 {
        assert Split(s, sep) == [[s[0]] + rest[0]];
      } else {
        var parts := Split(s, sep);
        assert parts[1..] == rest[1..];
        assert Join(rest, sep) == rest[0] + [sep] + Join(rest[1..], sep);
      }
    }
  }

  /** Parts free of the separator are recovered by splitting their join. */
  lemma {:induction false} SplitJoin(parts: seq<string>, sep: char)
    requires |parts| >= 1
    requires forall i :: 0 <= i < |parts| ==> sep !in parts[i]
    ensures Split(Join(parts, sep), sep) == parts
  {
    if |parts| == 1 {
      SplitFree(parts[0], sep);
    } else {
      SplitJoin(parts[1..], sep);
      SplitAfter(parts[0], Join(parts[1..], sep), sep);
    }
  }

  lemma {:induction false} SplitFree(s: string, sep: char)
    requires sep !in s
    ensures Split(s, sep) == [s]
  {
    if s != [] {
      SplitFree(s[1..], sep);
      assert s[0] != sep by { assert s[0] in s; }
      assert [s[0]] + s[1..] == s;
    }
  }

  lemma {:induction false} SplitAfter(a: string, b: string, sep: char)
    requires sep !in a
    ensures Split(a + [sep] + b, sep) == [a] + Split(b, sep)
  {
    if a != [] {
      var t := a + [sep] + b;
      assert t[1..] == a[1..] + [sep] + b;
      assert t[0] == a[0] && a[0] != sep by { assert a[0] in a; }
      SplitAfter(a[1..], b, sep);
      assert [a[0]] + a[1..] == a;
    } else {
      assert (a + [sep] + b)[1..] == b;
    }
  }

  /** The id a listing reads from a key: `key.split(":")[1]`. */
  function KeyId(key: string): string
    requires ':' in key
  {
    Split(key, ':')[1]
  }

  /** For a prefix word and an id without ':', the key gives that id back. */
  lemma KeyIdOfKey(word: string, id: string)
    requires ':' !in word && ':' !in id
    ensures ':' in word + ":" + id
    ensures KeyId(word + ":" + id) == id
  {
    assert word + ":" + id == Join([word, id], ':');
    assert (word + ":" + id)[|word|] == ':';
    SplitJoin([word, id], ':');
  }

  /** The id read back from a user key is the user's id, when it holds no ':'. */
  lemma UserKeyId(userId: string)
    requires ':' !in userId
    ensures ':' in UserKey(userId) && KeyId(UserKey(userId)) == userId
  {
    assert ':' !in "user";
    assert UserKey(userId) == "user" + ":" + userId;
    KeyIdOfKey("user", userId);
  }

  /**
   * An id that itself holds ':' is cut at its first ':' when read back:
   * `word:a:b` lists as `a`, so `user:a:b` lists as `a`.
   */
  lemma KeyIdTruncates(word: string, a: string, b: string)
    requires ':' !in word && ':' !in a
    ensures ':' in word + ":" + a + ":" + b
    ensures KeyId(word + ":" + a + ":" + b) == a
  {
    assert word + ":" + a + ":" + b == word + [':'] + (a + [':'] + b);
    assert (word + ":" + a + ":" + b)[|word|] == ':';
    SplitAfter(word, a + [':'] + b, ':');
    SplitAfter(a, b, ':');
  }

  /** Users, products and carts live in disjoint parts of the key space. */
  lemma KeySpacesDisjoint(a: string, b: string)
    ensures UserKey(a) != CartKey(b) && ProductKey(a) != CartKey(b) && UserKey(a) != ProductKey(b)
    ensures !StartsWith(CartPrefix, UserKey(a)) && !StartsWith(CartPrefix, ProductKey(a))
    ensures StartsWith(UserPrefix, UserKey(a)) && StartsWith(ProductPrefix, ProductKey(a))
    ensures StartsWith(CartPrefix, CartKey(a))
  {
    assert UserKey(a)[0] == 'u' && CartKey(b)[0] == 'c' && ProductKey(a)[0] == 'p';
    assert ProductKey(b)[0] == 'p';
  }
}
