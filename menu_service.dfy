/**
 * `MenuService` (src/api/services/menu.py): read-through caching of menu
 * details and the menu list, and the keys each mutation invalidates. The
 * request flags are those of the dish service.
 */
module MenuServices {
  import opened Wrappers
  import opened Values
  import opened Keys
  import opened Cache
  import opened Repositories
  import opened Replies

  /** Keys `create` invalidates: only the menu list. */
  function CreateKeys(): set<string> {
    {MenusList}
  }

  /** Keys `update` and `delete` invalidate by name; `delete` also drops every key containing the menu id. */
  function MenuKeys(m: Id): set<string> {
    {MenusList, DetailMenu(m)}
  }

  /**
   * A menu delete leaves no cached key that mentions the menu id, and keeps
   * every other key except the menu list and `ALL_DATA`, with its value.
   */
  lemma DeletePurgesMenu(store: map<string, Entry>, m: Id, k: string)
    requires m != "" && k in store
    ensures k in Invalidated(store, MenuKeys(m), Some(m)) <==> !Contains(k, m) && k != MenusList && k != AllData
    ensures k in Invalidated(store, MenuKeys(m), Some(m)) ==> Invalidated(store, MenuKeys(m), Some(m))[k] == store[k]
  {
    InvalidatedExactly(store, MenuKeys(m), Some(m), k);
    assert Contains(DetailMenu(m), m);
  }

  class MenuService {
    const repo: Repository
    const cache: CacheService

    constructor (repo: Repository, cache: CacheService)
      ensures this.repo == repo && this.cache == cache
    {
      this.repo := repo;
      this.cache := cache;
    }

    /** `get_detail(m)`: the cached menu when there is one; otherwise the repository's, written back. */
    method GetDetail(m: Id, cacheDown: bool, repoFault: bool) returns (r: Reply)
      modifies cache, repo
      ensures repo.rows == old(repo.rows) && repo.lists == old(repo.lists)
      ensures Hit(old(cache.store), DetailMenu(m), cacheDown) ==>
        r == Ok(Lookup(old(cache.store), DetailMenu(m))) && repo.calls == old(repo.calls) && cache.store == old(cache.store)
      ensures !Hit(old(cache.store), DetailMenu(m), cacheDown) ==> repo.calls == old(repo.calls) + 1
      ensures !Hit(old(cache.store), DetailMenu(m), cacheDown) && repoFault ==>
        r == BadRequest && cache.store == old(cache.store)
      ensures !Hit(old(cache.store), DetailMenu(m), cacheDown) && !repoFault && [m] !in old(repo.rows) ==>
        r == NotFound("menu not found") && cache.store == old(cache.store)
      ensures !Hit(old(cache.store), DetailMenu(m), cacheDown) && !repoFault && [m] in old(repo.rows) ==>
        r == Ok(Item(old(repo.rows)[[m]])) &&
        cache.store == if cacheDown then old(cache.store)
                       else old(cache.store)[DetailMenu(m) := Entry(Item(old(repo.rows)[[m]]), cache.defaultExpire)]
    {
      var key := DetailMenu(m);
      var cached := cache.GetObjFromCache(key, cacheDown);
      if Truthy(cached) {
        return Ok(cached);
      }
      var res := repo.GetDetail([m], repoFault);
      if res.Failure? {
        return BadRequest;
      }
      if res.value.Some? {
        cache.SetValueIntoCache(key, Item(res.value.value), None, cacheDown);
        return Ok(Item(res.value.value));
      }
      r := NotFound("menu not found");
    }

    /** `get_list()`: the cached list when it is truthy; otherwise the repository's, cached when non-empty. */
    method GetList(cacheDown: bool, repoFault: bool) returns (r: Reply)
      modifies cache, repo
      ensures repo.rows == old(repo.rows) && repo.lists == old(repo.lists)
      ensures Hit(old(cache.store), MenusList, cacheDown) ==>
        r == Ok(Lookup(old(cache.store), MenusList)) && repo.calls == old(repo.calls) && cache.store == old(cache.store)
      ensures !Hit(old(cache.store), MenusList, cacheDown) ==> repo.calls == old(repo.calls) + 1
      ensures !Hit(old(cache.store), MenusList, cacheDown) && repoFault ==>
        r == BadRequest && cache.store == old(cache.store)
      ensures !Hit(old(cache.store), MenusList, cacheDown) && !repoFault ==>
        var menus := Get(old(repo.lists), []).GetOr([]);
        r == Ok(Items(menus)) &&
        cache.store == if cacheDown || menus == [] then old(cache.store)
                       else old(cache.store)[MenusList := Entry(Items(menus), cache.defaultExpire)]
    {
      var cached := cache.GetObjFromCache(MenusList, cacheDown);
      if Truthy(cached) {
        return Ok(cached);
      }
      var res := repo.GetList([], repoFault);
      if res.Failure? {
        return BadRequest;
      }
      if res.value != [] {
        cache.SetValueIntoCache(MenusList, Items(res.value), None, cacheDown);
      }
      r := Ok(Items(res.value));
    }

    /** `create(data)`: a repository error is a 400 and invalidates nothing. */
    method Create(menu: Row, cacheDown: bool, repoFault: bool) returns (r: Reply)
      modifies cache, repo
      ensures repo.lists == old(repo.lists)
      ensures repoFault ==> r == BadRequest && repo.rows == old(repo.rows) && cache.store == old(cache.store)
      ensures !repoFault ==> r == Ok(Item(menu)) && repo.rows == old(repo.rows)[[menu.id] := menu]
      ensures !repoFault ==>
        cache.store == if cacheDown then old(cache.store) else Invalidated(old(cache.store), CreateKeys(), None)
    {
      var res := repo.Create([], menu, repoFault);
      assert [] + [menu.id] == [menu.id];
      if res.Failure? {
        return BadRequest;
      }
      cache.CacheInvalidate(CreateKeys(), None, cacheDown);
      r := Ok(Item(res.value));
    }

    /**
     * `update(m, data)`: a missing menu makes the repository raise, so the
     * answer is 400; the `if not menu` 404 that follows is never reached.
     */
    method Update(m: Id, data: map<string, Val>, cacheDown: bool, repoFault: bool) returns (r: Reply)
      modifies cache, repo
      ensures repo.lists == old(repo.lists)
      ensures repoFault || [m] !in old(repo.rows) ==>
        r == BadRequest && repo.rows == old(repo.rows) && cache.store == old(cache.store)
      ensures !repoFault && [m] in old(repo.rows) ==>
        repo.rows == old(repo.rows)[[m] := old(repo.rows)[[m]].(fields := old(repo.rows)[[m]].fields + data)] &&
        r == Ok(Item(repo.rows[[m]]))
      ensures !repoFault && [m] in old(repo.rows) ==>
        cache.store == if cacheDown then old(cache.store) else Invalidated(old(cache.store), MenuKeys(m), None)
    {
      var res := repo.UpdateFound([m], data, repoFault);
      if res.Failure? {
        return BadRequest;
      }
      cache.CacheInvalidate(MenuKeys(m), None, cacheDown);
      r := Ok(Item(res.value));
    }

    /** `delete(m)`: 404 and nothing invalidated when the menu is not there; its submenus and dishes go with it. */
    method Delete(m: Id, cacheDown: bool, repoFault: bool) returns (r: Reply)
      modifies cache, repo
      ensures repoFault ==> r == BadRequest && repo.rows == old(repo.rows) && repo.lists == old(repo.lists) && cache.store == old(cache.store)
      ensures !repoFault ==> repo.rows == Pruned(old(repo.rows), [m]) && repo.lists == Pruned(old(repo.lists), [m])
      ensures !repoFault && [m] !in old(repo.rows) ==> r == NotFound("menu not found") && cache.store == old(cache.store)
      ensures !repoFault && [m] in old(repo.rows) ==>
        r == Ok(Text("Menu " + m + " was successfully deleted!")) &&
        cache.store == if cacheDown then old(cache.store) else Invalidated(old(cache.store), MenuKeys(m), Some(m))
    {
      var res := repo.Delete([m], repoFault);
      if res.Failure? {
        return BadRequest;
      }
      if res.value {
        cache.CacheInvalidate(MenuKeys(m), Some(m), cacheDown);
        return Ok(Text("Menu " + m + " was successfully deleted!"));
      }
      r := NotFound("menu not found");
    }
  }
}
