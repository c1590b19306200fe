/**
 * `DishService` (src/api/services/dish.py): read-through caching of dish
 * details and lists, the discount overlay's TypeError on the repository's
 * `Row` tuples, and the keys each mutation invalidates. Invalidation, a background task in the source, runs here as
 * the step that follows a successful repository call.
 *
 * Each request takes two flags: `cacheDown` (every Redis call of the request
 * raises `RedisError`) and `repoFault` (the repository call raises).
 */
module DishServices {
  import opened Wrappers
  import opened Values
  import opened Keys
  import opened Cache
  import opened Repositories
  import opened Replies

  /** Keys `create` invalidates: the dish list and every view that counts dishes. */
  function CreateKeys(m: Id, s: Id): set<string> {
    {DishesList(m, s), DetailSubmenu(m, s), SubmenusList(m), DetailMenu(m), MenusList}
  }

  /** Keys `update` invalidates: the dish list and the dish's own detail. */
  function UpdateKeys(m: Id, s: Id, d: Id): set<string> {
    {DishesList(m, s), DetailDish(m, s, d)}
  }

  /** Keys `delete` invalidates: the dish's own views and its ancestors'. */
  function DeleteKeys(m: Id, s: Id, d: Id): set<string> {
    {DishesList(m, s), DetailDish(m, s, d), DetailSubmenu(m, s), SubmenusList(m), DetailMenu(m), MenusList}
  }

  /** A delete invalidates what a create and an update would. */
  lemma DeleteKeysSplit(m: Id, s: Id, d: Id)
    ensures DeleteKeys(m, s, d) == CreateKeys(m, s) + UpdateKeys(m, s, d)
  {
  }

  /** A delete invalidates what a create and an update would, and six different keys. */
  lemma DeleteKeysCount(m: Id, s: Id, d: Id)
    requires Uuids.IsCanonical(m) && Uuids.IsCanonical(s) && Uuids.IsCanonical(d)
    ensures DeleteKeys(m, s, d) == CreateKeys(m, s) + UpdateKeys(m, s, d)
    ensures |CreateKeys(m, s)| == 5 && |UpdateKeys(m, s, d)| == 2 && |DeleteKeys(m, s, d)| == 6
  {
    DeleteKeysSplit(m, s, d);
    KeyLengths(m, s, d);
    SixCount(DishesList(m, s), DetailDish(m, s, d), DetailSubmenu(m, s), SubmenusList(m), DetailMenu(m), MenusList);
  }

  /** Six strings of six different lengths: the counts of the three key sets above. */
  lemma SixCount(dl: string, dd: string, ds: string, sl: string, dm: string, ml: string)
    requires |ml| < |dm| < |sl| < |ds| < |dl| < |dd|
    ensures |{dl, ds, sl, dm, ml}| == 5 && |{dl, dd}| == 2 && |{dl, dd, ds, sl, dm, ml}| == 6
  {
    assert ds !in {dl} && sl !in {dl, ds} && dm !in {dl, ds, sl} && ml !in {dl, ds, sl, dm};
    assert dd !in {dl} && ds !in {dl, dd} && sl !in {dl, dd, ds} && dm !in {dl, dd, ds, sl} && ml !in {dl, dd, ds, sl, dm};
  }

  /** Deleting a dish leaves the cached details of the other dishes of its submenu in place. */
  lemma DeleteSparesSiblings(store: map<string, Entry>, m: Id, s: Id, d: Id, d': Id)
    requires Uuids.IsCanonical(m) && Uuids.IsCanonical(s) && Uuids.IsCanonical(d) && Uuids.IsCanonical(d')
    requires d' != d && DetailDish(m, s, d') in store
    ensures DetailDish(m, s, d') in Invalidated(store, DeleteKeys(m, s, d), None)
    ensures Invalidated(store, DeleteKeys(m, s, d), None)[DetailDish(m, s, d')] == store[DetailDish(m, s, d')]
  {
    var k := DetailDish(m, s, d');
    KeysInjective(m, s, d, m, s, d');
    assert |k| == 128 && |AllData| == 8;
    assert |DishesList(m, s)| == 101 && |DetailSubmenu(m, s)| == 86 && |SubmenusList(m)| == 58;
    assert |DetailMenu(m)| == 41 && |MenusList| == 13;
    InvalidatedExactly(store, DeleteKeys(m, s, d), None, k);
  }

  class DishService {
    const repo: Repository
    const cache: CacheService

    constructor (repo: Repository, cache: CacheService)
      ensures this.repo == repo && this.cache == cache
    {
      this.repo := repo;
      this.cache := cache;
    }

    /**
     * `get_detail(m, s, d)`: the cached dish when there is one; otherwise the
     * repository's, written back to the cache. The discount lookup is outside
     * the `try`, so its Redis error escapes. The repository's answer is an
     * immutable `Row` (a column `select` then `first()`), so `set_discount`'s
     * `dish['price'] = discount` raises TypeError whenever the discount is truthy.
     */
    method GetDetail(m: Id, s: Id, d: Id, cacheDown: bool, repoFault: bool) returns (r: Reply)
      modifies cache, repo
      ensures repo.rows == old(repo.rows) && repo.lists == old(repo.lists)
      ensures Hit(old(cache.store), DetailDish(m, s, d), cacheDown) ==>
        r == Ok(Lookup(old(cache.store), DetailDish(m, s, d))) && repo.calls == old(repo.calls) && cache.store == old(cache.store)
      ensures !Hit(old(cache.store), DetailDish(m, s, d), cacheDown) ==> repo.calls == old(repo.calls) + 1
      ensures !Hit(old(cache.store), DetailDish(m, s, d), cacheDown) && repoFault ==>
        r == BadRequest && cache.store == old(cache.store)
      ensures !Hit(old(cache.store), DetailDish(m, s, d), cacheDown) && !repoFault && [m, s, d] !in old(repo.rows) ==>
        r == NotFound("dish not found") && cache.store == old(cache.store)
      ensures (!Hit(old(cache.store), DetailDish(m, s, d), cacheDown) && !repoFault && [m, s, d] in old(repo.rows) &&
               (cacheDown || Truthy(Lookup(old(cache.store), DiscountKey(d))))) ==>
        r == Crash && cache.store == old(cache.store)
      ensures (!Hit(old(cache.store), DetailDish(m, s, d), cacheDown) && !repoFault && [m, s, d] in old(repo.rows) &&
               !cacheDown && !Truthy(Lookup(old(cache.store), DiscountKey(d)))) ==>
        var found := old(repo.rows)[[m, s, d]];
        r == Ok(Item(found)) && cache.store == old(cache.store)[DetailDish(m, s, d) := Entry(Item(found), cache.defaultExpire)]
    {
      var key := DetailDish(m, s, d);
      var cached := cache.GetObjFromCache(key, cacheDown);
      if Truthy(cached) {
        return Ok(cached);
      }
      var res := repo.GetDetail([m, s, d], repoFault);
      if res.Failure? {
        return BadRequest;
      }
      if res.value.None? {
        return NotFound("dish not found");
      }
      var dish := res.value.value;
      var discount := cache.GetDiscount(d, cacheDown);
      if discount.Failure? {
        return Crash;
      }
      if Truthy(discount.value) {
        // `set_discount` assigns into the `Row`
        return Crash;
      }
      cache.SetValueIntoCache(key, Item(dish), None, cacheDown);
      r := Ok(Item(dish));
    }

    /**
     * Read-through: once a detail read has succeeded with Redis up, the next
     * read returns the same dish from the cache without asking the repository.
     */
    method GetDetailTwice(m: Id, s: Id, d: Id, repoFault: bool) returns (first: Reply, second: Reply)
      modifies cache, repo
      ensures first.Ok? ==> second == first && repo.calls <= old(repo.calls) + 1
    {
      first := GetDetail(m, s, d, false, repoFault);
      second := GetDetail(m, s, d, false, repoFault);
    }

    /**
     * `get_list(m, s)`: the cached list when it is truthy; otherwise the
     * repository's list, cached when non-empty. An empty list is returned and
     * not cached. The rows are `Row` tuples (`all()`), so once any discount is
     * cached `set_discounts` raises TypeError at its first `dish["id"]`.
     */
    method GetList(m: Id, s: Id, cacheDown: bool, repoFault: bool) returns (r: Reply)
      modifies cache, repo
      ensures repo.rows == old(repo.rows) && repo.lists == old(repo.lists)
      ensures Hit(old(cache.store), DishesList(m, s), cacheDown) ==>
        r == Ok(Lookup(old(cache.store), DishesList(m, s))) && repo.calls == old(repo.calls) && cache.store == old(cache.store)
      ensures !Hit(old(cache.store), DishesList(m, s), cacheDown) ==> repo.calls == old(repo.calls) + 1
      ensures !Hit(old(cache.store), DishesList(m, s), cacheDown) && repoFault ==>
        r == BadRequest && cache.store == old(cache.store)
      ensures !Hit(old(cache.store), DishesList(m, s), cacheDown) && !repoFault && Get(old(repo.lists), [m, s]).GetOr([]) == [] ==>
        r == Ok(Items([])) && cache.store == old(cache.store)
      ensures (!Hit(old(cache.store), DishesList(m, s), cacheDown) && !repoFault && Get(old(repo.lists), [m, s]).GetOr([]) != [] &&
               (cacheDown || DiscountsIn(old(cache.store)) != map[])) ==>
        r == Crash && cache.store == old(cache.store)
      ensures (!Hit(old(cache.store), DishesList(m, s), cacheDown) && !repoFault && Get(old(repo.lists), [m, s]).GetOr([]) != [] &&
               !cacheDown && DiscountsIn(old(cache.store)) == map[]) ==>
        var dishes := old(repo.lists)[[m, s]];
        r == Ok(Items(dishes)) && cache.store == old(cache.store)[DishesList(m, s) := Entry(Items(dishes), cache.defaultExpire)]
    {
      var key := DishesList(m, s);
      var cached := cache.GetObjFromCache(key, cacheDown);
      if Truthy(cached) {
        return Ok(cached);
      }
      var res := repo.GetList([m, s], repoFault);
      if res.Failure? {
        return BadRequest;
      }
      var dishes := res.value;
      if dishes != [] {
        var discounts := cache.GetDiscounts(cacheDown);
        if discounts.Failure? {
          return Crash;
        }
        assert discounts.value == DiscountsIn(cache.store);
        if |discounts.value| > 0 {
          // `set_discounts` indexes a `Row` by `"id"`
          return Crash;
        }
        cache.SetValueIntoCache(key, Items(dishes), None, cacheDown);
      }
      r := Ok(Items(dishes));
    }

    /** `create(m, s, data)`: a repository error is a 400 and invalidates nothing. */
    method Create(m: Id, s: Id, dish: Row, cacheDown: bool, repoFault: bool) returns (r: Reply)
      modifies cache, repo
      ensures repo.lists == old(repo.lists)
      ensures repoFault ==> r == BadRequest && repo.rows == old(repo.rows) && cache.store == old(cache.store)
      ensures !repoFault ==> r == Ok(Item(dish)) && repo.rows == old(repo.rows)[[m, s, dish.id] := dish]
      ensures !repoFault && cacheDown ==> cache.store == old(cache.store)
      ensures !repoFault && !cacheDown ==> cache.store == Invalidated(old(cache.store), CreateKeys(m, s), None)
    {
      var res := repo.Create([m, s], dish, repoFault);
      assert [m, s] + [dish.id] == [m, s, dish.id];
      if res.Failure? {
        return BadRequest;
      }
      cache.CacheInvalidate(CreateKeys(m, s), None, cacheDown);
      r := Ok(Item(res.value));
    }

    /** `update(m, s, d, data)`: 404 and nothing invalidated when the dish is not there. */
    method Update(m: Id, s: Id, d: Id, data: map<string, Val>, cacheDown: bool, repoFault: bool) returns (r: Reply)
      modifies cache, repo
      ensures repo.lists == old(repo.lists)
      ensures repoFault ==> r == BadRequest && repo.rows == old(repo.rows) && cache.store == old(cache.store)
      ensures !repoFault && [m, s, d] !in old(repo.rows) ==>
        r == NotFound("dish not found") && repo.rows == old(repo.rows) && cache.store == old(cache.store)
      ensures !repoFault && [m, s, d] in old(repo.rows) ==>
        repo.rows == old(repo.rows)[[m, s, d] := old(repo.rows)[[m, s, d]].(fields := old(repo.rows)[[m, s, d]].fields + data)] &&
        r == Ok(Item(repo.rows[[m, s, d]]))
      ensures !repoFault && [m, s, d] in old(repo.rows) ==>
        cache.store == if cacheDown then old(cache.store) else Invalidated(old(cache.store), UpdateKeys(m, s, d), None)
    {
      var res := repo.Update([m, s, d], data, repoFault);
      if res.Failure? {
        return BadRequest;
      }
      if res.value.None? {
        return NotFound("dish not found");
      }
      cache.CacheInvalidate(UpdateKeys(m, s, d), None, cacheDown);
      r := Ok(Item(res.value.value));
    }

    /** `delete(m, s, d)`: 404 and nothing invalidated when the dish is not there. */
    method Delete(m: Id, s: Id, d: Id, cacheDown: bool, repoFault: bool) returns (r: Reply)
      modifies cache, repo
      ensures repoFault ==> r == BadRequest && repo.rows == old(repo.rows) && repo.lists == old(repo.lists) && cache.store == old(cache.store)
      ensures !repoFault ==> repo.rows == Pruned(old(repo.rows), [m, s, d]) && repo.lists == Pruned(old(repo.lists), [m, s, d])
      ensures !repoFault && [m, s, d] !in old(repo.rows) ==> r == NotFound("dish not found") && cache.store == old(cache.store)
      ensures !repoFault && [m, s, d] in old(repo.rows) ==>
        r == Ok(Text("Dish " + d + " was successfully deleted!")) &&
        cache.store == if cacheDown then old(cache.store) else Invalidated(old(cache.store), DeleteKeys(m, s, d), None)
    {
      var res := repo.Delete([m, s, d], repoFault);
      if res.Failure? {
        return BadRequest;
      }
      if !res.value {
        return NotFound("dish not found");
      }
      cache.CacheInvalidate(DeleteKeys(m, s, d), None, cacheDown);
      r := Ok(Text("Dish " + d + " was successfully deleted!"));
    }
  }
}
