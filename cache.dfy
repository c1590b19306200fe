/**
 * `CacheService` (src/cache/service.py): the facade over Redis. The store is
 * a map from key to entry; pickling is the identity. Each Redis round trip
 * takes a `fault` flag: true means that call raises `RedisError`.
 */
module Cache {
  import opened Wrappers
  import opened Values
  import opened Keys

  /** A stored value and the expiry (seconds) it was written with. */
  datatype Entry = Entry(value: Val, ex: int)

  datatype CacheError = RedisError

  /** The keys the Redis pattern `*frag*` matches. */
  function KeysMatching(store: map<string, Entry>, frag: string): (r: set<string>)
    ensures forall k :: k in r <==> k in store && Contains(k, frag)
  {
    set k | k in store && Contains(k, frag)
  }

  /** The value stored under `key`, `None` when there is none. */
  function Lookup(store: map<string, Entry>, key: string): Val {
    if key in store then store[key].value else Null
  }

  /** A read of `key` that the cache answers: Redis is up and holds a truthy value there. */
  predicate Hit(store: map<string, Entry>, key: string, fault: bool) {
    !fault && Truthy(Lookup(store, key))
  }

  /** What `get_discounts` returns: every key containing `discount`, with its value. */
  function DiscountsIn(store: map<string, Entry>): (r: map<string, Val>)
    ensures forall k :: k in r <==> k in store && Contains(k, "discount")
    ensures forall k :: k in r ==> r[k] == store[k].value
  {
    map k | k in KeysMatching(store, "discount") :: store[k].value
  }

  /** `if invalid_key:`: an id is given and, as Python text, truthy. */
  predicate Purges(invalidKey: Option<Id>) {
    invalidKey.Some? && invalidKey.value != ""
  }

  /** The keys `cache_invalidate(*args, invalid_key=...)` unlinks. */
  function InvalidationSet(store: map<string, Entry>, args: set<string>, invalidKey: Option<Id>): set<string>
  {
    args + {AllData} + (if Purges(invalidKey) then KeysMatching(store, invalidKey.value) else {})
  }

  /** The store once `cache_invalidate` has succeeded. */
  function Invalidated(store: map<string, Entry>, args: set<string>, invalidKey: Option<Id>): map<string, Entry>
  {
    store - InvalidationSet(store, args, invalidKey)
  }

  /** Exactly the named keys, `ALL_DATA` and (given a non-empty id) every key containing it go; the rest stay as they were. */
  lemma InvalidatedExactly(store: map<string, Entry>, args: set<string>, invalidKey: Option<Id>, k: string)
    ensures k in Invalidated(store, args, invalidKey) <==>
      k in store && k !in args && k != AllData && !(Purges(invalidKey) && Contains(k, invalidKey.value))
    ensures k in Invalidated(store, args, invalidKey) ==> Invalidated(store, args, invalidKey)[k] == store[k]
  {
  }

  /**
   * Invalidating with a menu id purges every detail and list key of that
   * menu's subtree, whatever submenu and dish ids are embedded in it.
   */
  lemma MenuPurgeReachesSubtree(store: map<string, Entry>, args: set<string>, m: Id, s: Id, d: Id)
    requires m != ""
    ensures DetailMenu(m) !in Invalidated(store, args, Some(m))
    ensures SubmenusList(m) !in Invalidated(store, args, Some(m))
    ensures DetailSubmenu(m, s) !in Invalidated(store, args, Some(m))
    ensures DishesList(m, s) !in Invalidated(store, args, Some(m))
    ensures DetailDish(m, s, d) !in Invalidated(store, args, Some(m))
    ensures AllData !in Invalidated(store, args, Some(m))
  {
    InvalidatedExactly(store, args, Some(m), DetailMenu(m));
    InvalidatedExactly(store, args, Some(m), SubmenusList(m));
    InvalidatedExactly(store, args, Some(m), DetailSubmenu(m, s));
    InvalidatedExactly(store, args, Some(m), DishesList(m, s));
    InvalidatedExactly(store, args, Some(m), DetailDish(m, s, d));
  }

  /** Invalidating with a submenu id purges the submenu's own keys and those of its dishes. */
  lemma SubmenuPurgeReachesDishes(store: map<string, Entry>, args: set<string>, m: Id, s: Id, d: Id)
    requires s != ""
    ensures DetailSubmenu(m, s) !in Invalidated(store, args, Some(s))
    ensures DishesList(m, s) !in Invalidated(store, args, Some(s))
    ensures DetailDish(m, s, d) !in Invalidated(store, args, Some(s))
  {
    InvalidatedExactly(store, args, Some(s), DetailSubmenu(m, s));
    InvalidatedExactly(store, args, Some(s), DishesList(m, s));
    InvalidatedExactly(store, args, Some(s), DetailDish(m, s, d));
  }

  class CacheService {
    /** The Redis key space. */
    var store: map<string, Entry>
    /** `settings.REDIS_CACHE_EXPIRE`, the expiry used when none is given. */
    const defaultExpire: int

    constructor (store: map<string, Entry>, defaultExpire: int)
      ensures this.store == store && this.defaultExpire == defaultExpire
    {
      this.store := store;
      this.defaultExpire := defaultExpire;
    }

    /** `get_keys_by_pattern(frag)`: the keys matching `*frag*` (Redis `KEYS` returns them in no set order). */
    method GetKeysByPattern(frag: string, fault: bool) returns (r: Result<set<string>, CacheError>)
      ensures fault ==> r == Failure(RedisError)
      ensures !fault ==> r.Success? && forall k :: k in r.value <==> k in store && Contains(k, frag)
    {
      if fault {
        return Failure(RedisError);
      }
      r := Success(KeysMatching(store, frag));
    }

    /** `get_obj_from_cache(key)`: the cached value; `None` when the key is absent or Redis fails. */
    method GetObjFromCache(key: string, fault: bool) returns (v: Val)
      ensures fault ==> v == Null
      ensures !fault ==> v == Lookup(store, key)
    {
      if fault || key !in store {
        v := Null;
      } else {
        v := store[key].value;
      }
    }

    /**
     * `get_discounts()`: every key containing `discount` with its cached value.
     * The key lookup is not guarded, so its Redis error propagates.
     */
    method GetDiscounts(fault: bool) returns (r: Result<map<string, Val>, CacheError>)
      ensures fault ==> r == Failure(RedisError)
      ensures !fault ==> r.Success?
      ensures !fault ==> forall k :: k in r.value <==> k in store && Contains(k, "discount")
      ensures !fault ==> forall k :: k in r.value ==> r.value[k] == store[k].value
    {
      var found := GetKeysByPattern("discount", fault);
      if found.Failure? {
        return Failure(RedisError);
      }
      var keys := found.value;
      var discounts: map<string, Val> := map[];
      var todo := keys;
      while todo != {}
        invariant todo <= keys
        invariant forall k :: k in discounts <==> k in keys - todo
        invariant forall k :: k in discounts ==> discounts[k] == store[k].value
        decreases todo
      {
        var k :| k in todo;
        var value := GetObjFromCache(k, false);
        discounts := discounts[k := value];
        todo := todo - {k};
      }
      r := Success(discounts);
    }

    /** `get_discount(id)`: `get_discounts().get('discount:' + id)`, `None` when absent. */
    method GetDiscount(id: Id, fault: bool) returns (r: Result<Val, CacheError>)
      ensures fault ==> r == Failure(RedisError)
      ensures !fault ==> r == Success(Lookup(store, DiscountKey(id)))
    {
      var all := GetDiscounts(fault);
      if all.Failure? {
        return Failure(RedisError);
      }
      var key := DiscountKey(id);
      r := Success(Get(all.value, key).GetOr(Null));
    }

    /** `set_value_into_cache(key, value, ex)`: writes with `ex`, or the default expiry; a Redis error is swallowed. */
    method SetValueIntoCache(key: string, value: Val, ex: Option<int>, fault: bool)
      modifies this
      ensures fault ==> store == old(store)
      ensures !fault ==> store == old(store)[key := Entry(value, ex.GetOr(defaultExpire))]
    {
      if !fault {
        store := store[key := Entry(value, ex.GetOr(defaultExpire))];
      }
    }

    /**
     * `cache_invalidate(*args, invalid_key=...)`: unlinks the arguments, `ALL_DATA`
     * and, when `invalid_key` is non-empty, every key containing it; a Redis error anywhere leaves the store as it was.
     */
    method CacheInvalidate(args: set<string>, invalidKey: Option<Id>, fault: bool)
      modifies this
      ensures fault ==> store == old(store)
      ensures !fault ==> store == Invalidated(old(store), args, invalidKey)
    {
      if fault {
        return;
      }
      var keys := args + {AllData};
      if Purges(invalidKey) {
        var found := GetKeysByPattern(invalidKey.value, false);
        keys := keys + found.value;
      }
      assert keys == InvalidationSet(store, args, invalidKey);
      store := store - keys;
    }
  }
}
