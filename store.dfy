/**
 * The Redis server as the handlers use it: a map from key to hash, where a
 * hash maps field names to string values.  Only the hash commands the
 * handlers issue are modelled.
 */
module RedisStore {
  import opened Wrappers
  import opened Decimal

  type Hash = map<string, string>
  type Db = map<string, Hash>

  /** Why a command or a conversion on a stored value fails. */
  datatype Failure =
    | NotAnInteger(text: string)  // `HINCRBY` on a non-integer field, or Python's `int(...)`
    | NotAFloat(text: string)     // Python's `float(...)`

  /** Redis keeps no empty hash: a key whose last field goes away is deleted. */
  ghost predicate NoEmptyHashes(db: Db) {
    forall k :: k in db ==> db[k] != map[]
  }

  /** The hash under `key`, empty when the key does not exist (`HGETALL`). */
  function HashAt(db: Db, key: string): Hash {
    if key in db then db[key] else map[]
  }

  /** One field of the hash under `key` (`HGET`); None for a missing key or field. */
  function FieldAt(db: Db, key: string, field: string): (v: Option<string>)
    ensures v.Some? <==> field in HashAt(db, key)
    ensures v.Some? ==> v.value == HashAt(db, key)[field]
  {
    var h := HashAt(db, key);
    if field in h then Some(h[field]) else None
  }

  /**
   * `HSET key f1 v1 ...`: the given fields are written; the other fields of
   * the hash are kept; an absent key is created.
   */
  function SetFields(db: Db, key: string, fields: Hash): (r: Db)
    requires fields != map[]
    ensures HashAt(r, key) == HashAt(db, key) + fields
    ensures forall k :: k != key ==> HashAt(r, k) == HashAt(db, k)
    ensures r.Keys == db.Keys + {key}
    ensures NoEmptyHashes(db) ==> NoEmptyHashes(r)
  {
    db[key := HashAt(db, key) + fields]
  }

  /** `HSET key field value`: one field written. */
  function SetField(db: Db, key: string, field: string, value: string): (r: Db)
    ensures HashAt(r, key) == HashAt(db, key)[field := value]
    ensures forall k :: k != key ==> HashAt(r, k) == HashAt(db, k)
    ensures r.Keys == db.Keys + {key}
    ensures NoEmptyHashes(db) ==> NoEmptyHashes(r)
  {
    assert field in map[field := value];
    SetFields(db, key, map[field := value])
  }

  /** `HDEL key field`: the field goes; a hash left empty takes its key with it. */
  function DeleteField(db: Db, key: string, field: string): (r: Db)
    ensures HashAt(r, key) == HashAt(db, key) - {field}
    ensures forall k :: k != key ==> HashAt(r, k) == HashAt(db, k)
    ensures key in r <==> HashAt(db, key) - {field} != map[]
    ensures r.Keys - {key} == db.Keys - {key}
    ensures NoEmptyHashes(db) ==> NoEmptyHashes(r)
  {
    var h := HashAt(db, key) - {field};
    if h == map[] then db - {key} else db[key := h]
  }

  /** `DEL key`. */
  function DeleteKey(db: Db, key: string): (r: Db)
    ensures key !in r && HashAt(r, key) == map[]
    ensures forall k :: k != key ==> HashAt(r, k) == HashAt(db, k)
    ensures r.Keys == db.Keys - {key}
    ensures NoEmptyHashes(db) ==> NoEmptyHashes(r)
  {
    db - {key}
  }

  /**
   * The reply of `HINCRBY key field delta`: the field's integer plus
   * `delta`, counting a missing field as 0, or an error when the field
   * holds something that is not an integer.
   */
  function Increment(db: Db, key: string, field: string, delta: int): (r: Result<int, Failure>)
    ensures FieldAt(db, key, field).None? ==> r == Success(delta)
    ensures FieldAt(db, key, field).Some? ==>
      match ParseInt(FieldAt(db, key, field).value)
      case Some(n) => r == Success(n + delta)
      case None => r == Failure(NotAnInteger(FieldAt(db, key, field).value))
  {
    match FieldAt(db, key, field)
    case None => Success(delta)
    case Some(text) =>
      match ParseInt(text)
      case Some(n) => Success(n + delta)
      case None => Failure(NotAnInteger(text))
  }

  /** A connection to the server, holding the whole keyspace. */
  class Store {
    var data: Db

    ghost predicate Valid()
      reads this
    {
      NoEmptyHashes(data)
    }

    constructor ()
      ensures Valid() && data == map[]
    {
      data := map[];
    }

    /** `HGET key field` */
    function HGet(key: string, field: string): Option<string>
      reads this
    {
      FieldAt(data, key, field)
    }

    /** `HGETALL key` */
    function HGetAll(key: string): Hash
      reads this
    {
      HashAt(data, key)
    }

    /** `HSET key field value` */
    method HSet(key: string, field: string, value: string)
      requires Valid()
      modifies this
      ensures Valid()
      ensures data == SetField(old(data), key, field, value)
    {
      data := SetField(data, key, field, value);
    }

    /** `HSET key mapping=...`; the client refuses an empty mapping. */
    method HSetMapping(key: string, mapping: Hash)
      requires Valid() && mapping != map[]
      modifies this
      ensures Valid()
      ensures data == SetFields(old(data), key, mapping)
    {
      data := SetFields(data, key, mapping);
    }

    /** `HINCRBY key field delta`: the new value is stored as decimal text. */
    method HIncrBy(key: string, field: string, delta: int) returns (r: Result<int, Failure>)
      requires Valid()
      modifies this
      ensures Valid()
      ensures r == Increment(old(data), key, field, delta)
      ensures data == if r.Success? then SetField(old(data), key, field, IntToString(r.value)) else old(data)
    {
      r := Increment(data, key, field, delta);
      if r.Success? {
        data := SetField(data, key, field, IntToString(r.value));
      }
    }

    /** `HDEL key field` */
    method HDel(key: string, field: string)
      requires Valid()
      modifies this
      ensures Valid()
      ensures data == DeleteField(old(data), key, field)
    {
      data := DeleteField(data, key, field);
    }

    /** `DEL key` */
    method Delete(key: string)
      requires Valid()
      modifies this
      ensures Valid()
      ensures data == DeleteKey(old(data), key)
    {
      data := DeleteKey(data, key);
    }
  }
}
