/**
 * `SubmenuService` (src/api/services/submenu.py): read-through caching of
 * submenu details and lists, and the keys each mutation invalidates. The
 * request flags are those of the dish service.
 */
module SubmenuServices {
  import opened Wrappers
  import opened Values
  import opened Keys
  import opened Cache
  import opened Repositories
  import opened Replies

  /** Keys `create` invalidates: the menu list and the parent menu's detail. */
  function CreateKeys(m: Id): set<string> {
    {MenusList, DetailMenu(m)}
  }

  /** Keys `update` invalidates: the submenu's detail and the submenu list. */
  function UpdateKeys(m: Id, s: Id): set<string> {
    {DetailSubmenu(m, s), SubmenusList(m)}
  }

  /** Keys `delete` invalidates by name; every key containing the submenu id goes as well. */
  function DeleteKeys(m: Id, s: Id): set<string> {
    {DetailSubmenu(m, s), SubmenusList(m), MenusList, DetailMenu(m)}
  }

  /**
   * `create` leaves a cached submenu list of the parent menu in place: a list
   * that was cached non-empty before the create is still served afterwards.
   */
  lemma CreateKeepsCachedList(store: map<string, Entry>, m: Id)
    requires Uuids.IsCanonical(m) && SubmenusList(m) in store
    ensures SubmenusList(m) in Invalidated(store, CreateKeys(m), None)
    ensures Invalidated(store, CreateKeys(m), None)[SubmenusList(m)] == store[SubmenusList(m)]
  {
    assert |SubmenusList(m)| == 58 && |DetailMenu(m)| == 41 && |MenusList| == 13 && |AllData| == 8;
    InvalidatedExactly(store, CreateKeys(m), None, SubmenusList(m));
  }

  /**
   * A delete removes the submenu's own views, its parent's and every key of
   * its dishes: no cached key mentioning the submenu id survives.
   */
  lemma DeletePurgesSubmenu(store: map<string, Entry>, m: Id, s: Id, d: Id)
    requires s != ""
    ensures forall k :: k in Invalidated(store, DeleteKeys(m, s), Some(s)) ==> !Contains(k, s)
    ensures DetailMenu(m) !in Invalidated(store, DeleteKeys(m, s), Some(s))
    ensures MenusList !in Invalidated(store, DeleteKeys(m, s), Some(s))
    ensures DishesList(m, s) !in Invalidated(store, DeleteKeys(m, s), Some(s))
    ensures DetailDish(m, s, d) !in Invalidated(store, DeleteKeys(m, s), Some(s))
  {
    forall k | k in Invalidated(store, DeleteKeys(m, s), Some(s)) ensures !Contains(k, s) {
      InvalidatedExactly(store, DeleteKeys(m, s), Some(s), k);
    }
    SubmenuPurgeReachesDishes(store, DeleteKeys(m, s), m, s, d);
  }

  class SubmenuService {
    const repo: Repository
    const cache: CacheService

    constructor (repo: Repository, cache: CacheService)
      ensures this.repo == repo && this.cache == cache
    {
      this.repo := repo;
      this.cache := cache;
    }

    /** `get_detail(m, s)`: the cached submenu when there is one; otherwise the repository's, written back. */
    method GetDetail(m: Id, s: Id, cacheDown: bool, repoFault: bool) returns (r: Reply)
      modifies cache, repo
      ensures repo.rows == old(repo.rows) && repo.lists == old(repo.lists)
      ensures Hit(old(cache.store), DetailSubmenu(m, s), cacheDown) ==>
        r == Ok(Lookup(old(cache.store), DetailSubmenu(m, s))) && repo.calls == old(repo.calls) && cache.store == old(cache.store)
      ensures !Hit(old(cache.store), DetailSubmenu(m, s), cacheDown) ==> repo.calls == old(repo.calls) + 1
      ensures !Hit(old(cache.store), DetailSubmenu(m, s), cacheDown) && repoFault ==>
        r == BadRequest && cache.store == old(cache.store)
      ensures !Hit(old(cache.store), DetailSubmenu(m, s), cacheDown) && !repoFault && [m, s] !in old(repo.rows) ==>
        r == NotFound("submenu not found") && cache.store == old(cache.store)
      ensures !Hit(old(cache.store), DetailSubmenu(m, s), cacheDown) && !repoFault && [m, s] in old(repo.rows) ==>
        r == Ok(Item(old(repo.rows)[[m, s]])) &&
        cache.store == if cacheDown then old(cache.store)
                       else old(cache.store)[DetailSubmenu(m, s) := Entry(Item(old(repo.rows)[[m, s]]), cache.defaultExpire)]
    {
      var key := DetailSubmenu(m, s);
      var cached := cache.GetObjFromCache(key, cacheDown);
      if Truthy(cached) {
        return Ok(cached);
      }
      var res := repo.GetDetail([m, s], repoFault);
      if res.Failure? {
        return BadRequest;
      }
      if res.value.Some? {
        cache.SetValueIntoCache(key, Item(res.value.value), None, cacheDown);
        return Ok(Item(res.value.value));
      }
      r := NotFound("submenu not found");
    }

    /** `get_list(m)`: the cached list when it is truthy; otherwise the repository's, cached when non-empty. */
    method GetList(m: Id, cacheDown: bool, repoFault: bool) returns (r: Reply)
      modifies cache, repo
      ensures repo.rows == old(repo.rows) && repo.lists == old(repo.lists)
      ensures Hit(old(cache.store), SubmenusList(m), cacheDown) ==>
        r == Ok(Lookup(old(cache.store), SubmenusList(m))) && repo.calls == old(repo.calls) && cache.store == old(cache.store)
      ensures !Hit(old(cache.store), SubmenusList(m), cacheDown) ==> repo.calls == old(repo.calls) + 1
      ensures !Hit(old(cache.store), SubmenusList(m), cacheDown) && repoFault ==>
        r == BadRequest && cache.store == old(cache.store)
      ensures !Hit(old(cache.store), SubmenusList(m), cacheDown) && !repoFault ==>
        var submenus := Get(old(repo.lists), [m]).GetOr([]);
        r == Ok(Items(submenus)) &&
        cache.store == if cacheDown || submenus == [] then old(cache.store)
                       else old(cache.store)[SubmenusList(m) := Entry(Items(submenus), cache.defaultExpire)]
    {
      var key := SubmenusList(m);
      var cached := cache.GetObjFromCache(key, cacheDown);
      if Truthy(cached) {
        return Ok(cached);
      }
      var res := repo.GetList([m], repoFault);
      if res.Failure? {
        return BadRequest;
      }
      if res.value != [] {
        cache.SetValueIntoCache(key, Items(res.value), None, cacheDown);
      }
      r := Ok(Items(res.value));
    }

    /** `create(m, data)`: a repository error is a 400 and invalidates nothing. */
    method Create(m: Id, submenu: Row, cacheDown: bool, repoFault: bool) returns (r: Reply)
      modifies cache, repo
      ensures repo.lists == old(repo.lists)
      ensures repoFault ==> r == BadRequest && repo.rows == old(repo.rows) && cache.store == old(cache.store)
      ensures !repoFault ==> r == Ok(Item(submenu)) && repo.rows == old(repo.rows)[[m, submenu.id] := submenu]
      ensures !repoFault ==>
        cache.store == if cacheDown then old(cache.store) else Invalidated(old(cache.store), CreateKeys(m), None)
    {
      var res := repo.Create([m], submenu, repoFault);
      assert [m] + [submenu.id] == [m, submenu.id];
      if res.Failure? {
        return BadRequest;
      }
      cache.CacheInvalidate(CreateKeys(m), None, cacheDown);
      r := Ok(Item(res.value));
    }

    /**
     * `update(m, s, data)`: a missing submenu makes the repository raise, so
     * the answer is 400; the `if submenu:` test never sees `None`.
     */
    method Update(m: Id, s: Id, data: map<string, Val>, cacheDown: bool, repoFault: bool) returns (r: Reply)
      modifies cache, repo
      ensures repo.lists == old(repo.lists)
      ensures repoFault || [m, s] !in old(repo.rows) ==>
        r == BadRequest && repo.rows == old(repo.rows) && cache.store == old(cache.store)
      ensures !repoFault && [m, s] in old(repo.rows) ==>
        repo.rows == old(repo.rows)[[m, s] := old(repo.rows)[[m, s]].(fields := old(repo.rows)[[m, s]].fields + data)] &&
        r == Ok(Item(repo.rows[[m, s]]))
      ensures !repoFault && [m, s] in old(repo.rows) ==>
        cache.store == if cacheDown then old(cache.store) else Invalidated(old(cache.store), UpdateKeys(m, s), None)
    {
      var res := repo.UpdateFound([m, s], data, repoFault);
      if res.Failure? {
        return BadRequest;
      }
      cache.CacheInvalidate(UpdateKeys(m, s), None, cacheDown);
      r := Ok(Item(res.value));
    }

    /** `delete(s, m)`: 404 and nothing invalidated when the submenu is not there; its dishes go with it. */
    method Delete(m: Id, s: Id, cacheDown: bool, repoFault: bool) returns (r: Reply)
      modifies cache, repo
      ensures repoFault ==> r == BadRequest && repo.rows == old(repo.rows) && repo.lists == old(repo.lists) && cache.store == old(cache.store)
      ensures !repoFault ==> repo.rows == Pruned(old(repo.rows), [m, s]) && repo.lists == Pruned(old(repo.lists), [m, s])
      ensures !repoFault && [m, s] !in old(repo.rows) ==> r == NotFound("submenu not found") && cache.store == old(cache.store)
      ensures !repoFault && [m, s] in old(repo.rows) ==>
        r == Ok(Text("Submenu " + s + " was successfully deleted!")) &&
        cache.store == if cacheDown then old(cache.store) else Invalidated(old(cache.store), DeleteKeys(m, s), Some(s))
    {
      var res := repo.Delete([m, s], repoFault);
      if res.Failure? {
        return BadRequest;
      }
      if res.value {
        cache.CacheInvalidate(DeleteKeys(m, s), Some(s), cacheDown);
        return Ok(Text("Submenu " + s + " was successfully deleted!"));
      }
      r := NotFound("submenu not found");
    }
  }
}
