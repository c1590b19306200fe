/**
 * What one `Synchronizer.setup` run (src/celery/utils.py) does, as functions
 * of the database tables, the cache store and the two menu trees: the create,
 * delete and update passes, the cache keys each pass invalidates, and the
 * discount writes at the end. The `Synchronizer` class is proved against these.
 */
module SyncSpec {
  import opened Wrappers
  import opened Values
  import opened Keys
  import opened Cache
  import opened Trees
  import opened Flattening
  import opened Database
  import DishServices
  import SubmenuServices
  import MenuServices

  /** The expiry, in seconds, of a discount written by the synchroniser. */
  const DiscountExpire := 3600

  /** `ids_to_delete_or_create(a, b, create)`: the ids only in `b` when creating, only in `a` when deleting. */
  function IdsToDeleteOrCreate(a: set<Id>, b: set<Id>, create: bool): (r: set<Id>)
    ensures create ==> r <= b && r !! a && a + r == a + b
    ensures !create ==> r <= a && r !! b && r + b == a + b
  {
    if create then b - a else a - b
  }

  /** The entries of `m` whose ids are in `ids`. */
  function Only<V>(m: map<Id, V>, ids: set<Id>): (r: map<Id, V>)
    ensures r.Keys == m.Keys * ids
    ensures forall id :: id in r ==> r[id] == m[id]
  {
    map id | id in m && id in ids :: m[id]
  }

  /** Widening the selection by one id adds that id's entry, if it has one. */
  lemma OnlyStep<V>(m: map<Id, V>, ids: set<Id>, id: Id)
    ensures Only(m, ids + {id}) == if id in m then Only(m, ids)[id := m[id]] else Only(m, ids)
  {
  }

  /** One step of a create loop: a new id's entry lands on top of what is already there. */
  lemma CreateStep<V>(base: map<Id, V>, ex: map<Id, V>, known: set<Id>, done: set<Id>, id: Id)
    ensures base + Only(ex, (done + {id}) - known) ==
      if id in ex && id !in known then (base + Only(ex, done - known))[id := ex[id]] else base + Only(ex, done - known)
  {
    if id in ex && id !in known {
      assert (done + {id}) - known == (done - known) + {id};
      OnlyStep(ex, done - known, id);
    } else {
      assert Only(ex, (done + {id}) - known) == Only(ex, done - known);
    }
  }

  /** One step of an update loop: a selected id the table holds is overwritten, any other leaves it alone. */
  lemma UpdateStep<V>(base: map<Id, V>, sel: map<Id, V>, done: set<Id>, id: Id)
    ensures base + Only(sel, (done + {id}) * base.Keys) ==
      if id in sel && id in base then (base + Only(sel, done * base.Keys))[id := sel[id]] else base + Only(sel, done * base.Keys)
    ensures (base + Only(sel, done * base.Keys)).Keys == base.Keys
  {
    if id in sel && id in base {
      assert (done + {id}) * base.Keys == done * base.Keys + {id};
      OnlyStep(sel, done * base.Keys, id);
    } else {
      assert Only(sel, (done + {id}) * base.Keys) == Only(sel, done * base.Keys);
    }
  }

  /** `data_for_update` at one level: the snapshot entries whose id the database side has with another record. */
  function Changed<V(==)>(ex: map<Id, V>, db: map<Id, V>): (r: map<Id, V>)
    ensures forall id :: id in r <==> id in ex && id in db && ex[id] != db[id]
    ensures forall id :: id in r ==> r[id] == ex[id]
  {
    map id | id in ex && id in db && ex[id] != db[id] :: ex[id]
  }

  /**
   * Writing the selected records over the database side leaves it agreeing
   * with the snapshot on every id both have, and untouched elsewhere.
   */
  lemma ChangedAligns<V>(ex: map<Id, V>, db: map<Id, V>, id: Id)
    requires id in db
    ensures id in ex ==> (db + Changed(ex, db))[id] == ex[id]
    ensures id !in ex ==> (db + Changed(ex, db))[id] == db[id]
  {
    if id in ex && ex[id] != db[id] {
      assert id in Changed(ex, db);
    }
  }

  /** The `dishes` row inserted for a flattened dish: a copy with `menu_id` popped. */
  function DishColsOf(row: DishRow): DishCols {
    DishCols(row.rec, row.submenuId)
  }

  /** The tables a flattened tree stands for. */
  function TablesOf(f: Flat): Tables {
    Tables(f.menus, f.submenus, map d | d in f.dishes :: DishColsOf(f.dishes[d]))
  }

  /** The six id-keyed maps of a walk, without what it staged. */
  function Maps(f: Flat): Flat {
    f.(prices := [], keys := {})
  }

  // ---- create_items ----

  /** The `dishes` rows inserted for the snapshot dishes among `ids` the database side lacks. */
  function InsertedDishes(ex: map<Id, DishRow>, db: set<Id>, ids: set<Id>): map<Id, DishCols> {
    map d | d in ids && d in ex && d !in db :: DishColsOf(ex[d])
  }

  /** The tables after `create_items`: each snapshot row whose id the database side lacks, inserted. */
  function CreatePass(t: Tables, ex: Flat, dbf: Flat): Tables {
    Tables(t.menus + Only(ex.menus, ex.menus.Keys - dbf.menus.Keys),
           t.submenus + Only(ex.submenus, ex.submenus.Keys - dbf.submenus.Keys),
           t.dishes + InsertedDishes(ex.dishes, dbf.dishes.Keys, ex.dishes.Keys))
  }

  /**
   * `create_items` inserts exactly the snapshot ids the database side lacks,
   * each with its snapshot record (a dish without its `menu_id`), and leaves
   * every other row as it was.
   */
  lemma CreateInsertsExactly(t: Tables, ex: Flat, dbf: Flat)
    ensures CreatePass(t, ex, dbf).menus.Keys == t.menus.Keys + IdsToDeleteOrCreate(dbf.menus.Keys, ex.menus.Keys, true)
    ensures CreatePass(t, ex, dbf).submenus.Keys == t.submenus.Keys + IdsToDeleteOrCreate(dbf.submenus.Keys, ex.submenus.Keys, true)
    ensures CreatePass(t, ex, dbf).dishes.Keys == t.dishes.Keys + IdsToDeleteOrCreate(dbf.dishes.Keys, ex.dishes.Keys, true)
    ensures forall m :: m in ex.menus && m !in dbf.menus ==> CreatePass(t, ex, dbf).menus[m] == ex.menus[m]
    ensures forall s :: s in ex.submenus && s !in dbf.submenus ==> CreatePass(t, ex, dbf).submenus[s] == ex.submenus[s]
    ensures forall d :: d in ex.dishes && d !in dbf.dishes ==>
      CreatePass(t, ex, dbf).dishes[d] == DishCols(ex.dishes[d].rec, ex.dishes[d].submenuId)
    ensures forall m :: m in t.menus && m in dbf.menus ==> CreatePass(t, ex, dbf).menus[m] == t.menus[m]
    ensures forall s :: s in t.submenus && s in dbf.submenus ==> CreatePass(t, ex, dbf).submenus[s] == t.submenus[s]
    ensures forall d :: d in t.dishes && d in dbf.dishes ==> CreatePass(t, ex, dbf).dishes[d] == t.dishes[d]
  {
    CreateInsertsTable(t.menus, ex.menus, dbf.menus.Keys);
    CreateInsertsTable(t.submenus, ex.submenus, dbf.submenus.Keys);
    CreateInsertsDishes(t.dishes, ex.dishes, dbf.dishes.Keys);
  }

  /** One table of `CreatePass`: the new ids get their snapshot records, the others keep theirs. */
  lemma CreateInsertsTable<V>(base: map<Id, V>, ex: map<Id, V>, db: set<Id>)
    ensures (base + Only(ex, ex.Keys - db)).Keys == base.Keys + IdsToDeleteOrCreate(db, ex.Keys, true)
    ensures forall id :: id in ex && id !in db ==> (base + Only(ex, ex.Keys - db))[id] == ex[id]
    ensures forall id :: id in base && id in db ==> (base + Only(ex, ex.Keys - db))[id] == base[id]
  {
  }

  /** The `dishes` table of `CreatePass`. */
  lemma CreateInsertsDishes(base: map<Id, DishCols>, ex: map<Id, DishRow>, db: set<Id>)
    ensures (base + InsertedDishes(ex, db, ex.Keys)).Keys == base.Keys + IdsToDeleteOrCreate(db, ex.Keys, true)
    ensures forall id :: id in ex && id !in db ==>
      (base + InsertedDishes(ex, db, ex.Keys))[id] == DishCols(ex[id].rec, ex[id].submenuId)
    ensures forall id :: id in base && id in db ==> (base + InsertedDishes(ex, db, ex.Keys))[id] == base[id]
  {
  }

  /** The keys `create_items` adds for the new menus among `ids`: the menu list, as the API `create` does. */
  function MenusCreateKeys(ex: map<Id, Record>, db: set<Id>, ids: set<Id>): set<string> {
    set m, k | m in ids && m in ex && m !in db && k in MenuServices.CreateKeys() :: k
  }

  /** For the new submenus among `ids`: the menu list and the parent menu's detail, as the API `create` does. */
  function SubmenusCreateKeys(ex: map<Id, SubmenuRow>, db: set<Id>, ids: set<Id>): set<string> {
    set s, k | s in ids && s in ex && s !in db && k in SubmenuServices.CreateKeys(ex[s].menuId) :: k
  }

  /** For the new dishes among `ids`: the five keys the API `create` of a dish invalidates. */
  function DishesCreateKeys(ex: map<Id, DishRow>, db: set<Id>, ids: set<Id>): set<string> {
    set d, k | d in ids && d in ex && d !in db && k in DishServices.CreateKeys(ex[d].menuId, ex[d].submenuId) :: k
  }

  /** Every key `create_items` adds. */
  function CreateKeys(ex: Flat, dbf: Flat): set<string> {
    MenusCreateKeys(ex.menus, dbf.menus.Keys, ex.menus.Keys) +
    SubmenusCreateKeys(ex.submenus, dbf.submenus.Keys, ex.submenus.Keys) +
    DishesCreateKeys(ex.dishes, dbf.dishes.Keys, ex.dishes.Keys)
  }

  /** One more snapshot menu looked at by `create_items`. */
  lemma MenusCreateStep(ex: map<Id, Record>, db: set<Id>, ids: set<Id>, id: Id)
    ensures MenusCreateKeys(ex, db, ids + {id}) ==
      MenusCreateKeys(ex, db, ids) + (if id in ex && id !in db then MenuServices.CreateKeys() else {})
  {
  }

  /** One more snapshot submenu looked at by `create_items`. */
  lemma SubmenusCreateStep(ex: map<Id, SubmenuRow>, db: set<Id>, ids: set<Id>, id: Id)
    ensures SubmenusCreateKeys(ex, db, ids + {id}) ==
      SubmenusCreateKeys(ex, db, ids) + (if id in ex && id !in db then SubmenuServices.CreateKeys(ex[id].menuId) else {})
  {
  }

  /** One more snapshot dish looked at by `create_items`: its keys, and its row when it is new. */
  lemma DishesCreateStep(ex: map<Id, DishRow>, db: set<Id>, ids: set<Id>, id: Id)
    ensures DishesCreateKeys(ex, db, ids + {id}) ==
      DishesCreateKeys(ex, db, ids) + (if id in ex && id !in db then DishServices.CreateKeys(ex[id].menuId, ex[id].submenuId) else {})
  {
  }

  /** One step of the dish create loop on the table: a new dish's row lands on top. */
  lemma InsertStep(base: map<Id, DishCols>, ex: map<Id, DishRow>, db: set<Id>, ids: set<Id>, id: Id)
    ensures base + InsertedDishes(ex, db, ids + {id}) ==
      if id in ex && id !in db then (base + InsertedDishes(ex, db, ids))[id := DishColsOf(ex[id])]
      else base + InsertedDishes(ex, db, ids)
  {
    if id in ex && id !in db {
      assert InsertedDishes(ex, db, ids + {id}) == InsertedDishes(ex, db, ids)[id := DishColsOf(ex[id])];
    } else {
      assert InsertedDishes(ex, db, ids + {id}) == InsertedDishes(ex, db, ids);
    }
  }

  // ---- delete_items ----

  /** The menus only the database side has. */
  function StaleMenus(ex: Flat, dbf: Flat): set<Id> {
    IdsToDeleteOrCreate(dbf.menus.Keys, ex.menus.Keys, false)
  }

  function StaleSubmenus(ex: Flat, dbf: Flat): set<Id> {
    IdsToDeleteOrCreate(dbf.submenus.Keys, ex.submenus.Keys, false)
  }

  function StaleDishes(ex: Flat, dbf: Flat): set<Id> {
    IdsToDeleteOrCreate(dbf.dishes.Keys, ex.dishes.Keys, false)
  }

  /**
   * The tables after `delete_items`: the stale menus the tables hold, if there
   * are any (with their subtrees); else the stale submenus (with their dishes);
   * else the stale dishes.
   */
  function DeletePass(t: Tables, ex: Flat, dbf: Flat): Tables {
    if StaleMenus(ex, dbf) != {} then WithoutMenus(t, StaleMenus(ex, dbf) * t.menus.Keys)
    else if StaleSubmenus(ex, dbf) != {} then WithoutSubmenus(t, StaleSubmenus(ex, dbf) * t.submenus.Keys)
    else WithoutDishes(t, StaleDishes(ex, dbf))
  }

  /** The keys the menu deletes unlink: per menu, what the API `delete` of that menu unlinks. */
  function MenuPurge(store: map<string, Entry>, ms: set<Id>): set<string> {
    set m, k | m in ms && k in InvalidationSet(store, MenuServices.MenuKeys(m), Some(m)) :: k
  }

  /** The keys the submenu deletes unlink, with each submenu's `menu_id` as the tables hold it. */
  function SubmenuPurge(store: map<string, Entry>, t: Tables, ss: set<Id>): set<string> {
    set s, k | s in ss && s in t.submenus &&
               k in InvalidationSet(store, SubmenuServices.DeleteKeys(t.submenus[s].menuId, s), Some(s)) :: k
  }

  /** The keys the dish deletes unlink: six named keys each, no pattern. */
  function DishPurge(store: map<string, Entry>, dbDishes: map<Id, DishRow>, ds: set<Id>): set<string> {
    set d, k | d in ds && d in dbDishes &&
               k in InvalidationSet(store, DishServices.DeleteKeys(dbDishes[d].menuId, dbDishes[d].submenuId, d), None) :: k
  }

  /** Every key `delete_items` unlinks, the patterns matched against the store it starts from. */
  function DeletePurge(store: map<string, Entry>, t: Tables, ex: Flat, dbf: Flat): set<string> {
    if StaleMenus(ex, dbf) != {} then MenuPurge(store, StaleMenus(ex, dbf) * t.menus.Keys)
    else if StaleSubmenus(ex, dbf) != {} then SubmenuPurge(store, t, StaleSubmenus(ex, dbf) * t.submenus.Keys)
    else DishPurge(store, dbf.dishes, StaleDishes(ex, dbf))
  }

  /**
   * One `cache_invalidate` after others: matching its pattern against the
   * store the earlier ones left is matching it against the store they started from.
   */
  lemma PurgeStep(store: map<string, Entry>, gone: set<string>, args: set<string>, key: Option<Id>)
    ensures Invalidated(store - gone, args, key) == store - (gone + InvalidationSet(store, args, key))
  {
    var lhs := Invalidated(store - gone, args, key);
    var rhs := store - (gone + InvalidationSet(store, args, key));
    forall k | k in lhs ensures k in rhs {
      InvalidatedExactly(store - gone, args, key, k);
    }
    forall k | k in rhs ensures k in lhs {
      InvalidatedExactly(store - gone, args, key, k);
    }
    assert lhs.Keys == rhs.Keys;
  }

  /** The menu purges accumulate one menu at a time. */
  lemma MenuPurgeStep(store: map<string, Entry>, ms: set<Id>, m: Id)
    ensures MenuPurge(store, ms + {m}) == MenuPurge(store, ms) + InvalidationSet(store, MenuServices.MenuKeys(m), Some(m))
  {
  }

  /** The submenu purges accumulate one submenu at a time. */
  lemma SubmenuPurgeStep(store: map<string, Entry>, t: Tables, ss: set<Id>, s: Id)
    requires s in t.submenus
    ensures SubmenuPurge(store, t, ss + {s}) ==
      SubmenuPurge(store, t, ss) + InvalidationSet(store, SubmenuServices.DeleteKeys(t.submenus[s].menuId, s), Some(s))
  {
  }

  /** The dish purges accumulate one dish at a time. */
  lemma DishPurgeStep(store: map<string, Entry>, dbDishes: map<Id, DishRow>, ds: set<Id>, d: Id)
    requires d in dbDishes
    ensures DishPurge(store, dbDishes, ds + {d}) ==
      DishPurge(store, dbDishes, ds) +
      InvalidationSet(store, DishServices.DeleteKeys(dbDishes[d].menuId, dbDishes[d].submenuId, d), None)
  {
  }

  /** One step of the menu delete loop: the menu's subtree goes, and its keys and every key containing its id. */
  lemma MenuDeleteStep(t: Tables, store: map<string, Entry>, done: set<Id>, m: Id)
    ensures WithoutMenus(WithoutMenus(t, done), {m}) == WithoutMenus(t, done + {m})
    ensures Invalidated(store - MenuPurge(store, done), MenuServices.MenuKeys(m), Some(m)) == store - MenuPurge(store, done + {m})
  {
    MenuDeletesCompose(t, done, {m});
    PurgeStep(store, MenuPurge(store, done), MenuServices.MenuKeys(m), Some(m));
    MenuPurgeStep(store, done, m);
  }

  /** One step of the submenu delete loop, the keys named with the `menu_id` the submenu has in `t`. */
  lemma SubmenuDeleteStep(t: Tables, store: map<string, Entry>, done: set<Id>, s: Id)
    requires s in t.submenus && s !in done
    ensures s in WithoutSubmenus(t, done).submenus && WithoutSubmenus(t, done).submenus[s] == t.submenus[s]
    ensures WithoutSubmenus(WithoutSubmenus(t, done), {s}) == WithoutSubmenus(t, done + {s})
    ensures Invalidated(store - SubmenuPurge(store, t, done), SubmenuServices.DeleteKeys(t.submenus[s].menuId, s), Some(s)) ==
            store - SubmenuPurge(store, t, done + {s})
  {
    var keys := SubmenuServices.DeleteKeys(t.submenus[s].menuId, s);
    SubmenuDeletesCompose(t, done, {s});
    PurgeStep(store, SubmenuPurge(store, t, done), keys, Some(s));
    SubmenuPurgeStep(store, t, done, s);
  }

  /** One step of the dish delete loop: the row goes, and the keys its `db_dishes` entry names. */
  lemma DishDeleteStep(store: map<string, Entry>, dbDishes: map<Id, DishRow>, done: set<Id>, d: Id)
    requires d in dbDishes
    ensures Invalidated(store - DishPurge(store, dbDishes, done),
                        DishServices.DeleteKeys(dbDishes[d].menuId, dbDishes[d].submenuId, d), None) ==
            store - DishPurge(store, dbDishes, done + {d})
  {
    var keys := DishServices.DeleteKeys(dbDishes[d].menuId, dbDishes[d].submenuId, d);
    PurgeStep(store, DishPurge(store, dbDishes, done), keys, None);
    DishPurgeStep(store, dbDishes, done, d);
  }

  /**
   * While any menu is stale, only menus go: a stale submenu under a menu the
   * snapshot keeps survives the pass, and so does every dish outside the
   * deleted subtrees.
   */
  lemma MenusFirst(t: Tables, ex: Flat, dbf: Flat, s: Id)
    requires StaleMenus(ex, dbf) != {}
    requires s in t.submenus && s in StaleSubmenus(ex, dbf) && t.submenus[s].menuId in ex.menus
    ensures s in DeletePass(t, ex, dbf).submenus
    ensures DeletePass(t, ex, dbf).submenus[s] == t.submenus[s]
  {
    assert s !in SubmenusOf(t, StaleMenus(ex, dbf) * t.menus.Keys);
  }

  /** Dishes go only when neither a menu nor a submenu is stale, and then nothing else does. */
  lemma DishesLast(t: Tables, ex: Flat, dbf: Flat)
    requires StaleMenus(ex, dbf) == {} && StaleSubmenus(ex, dbf) == {}
    ensures DeletePass(t, ex, dbf).menus == t.menus && DeletePass(t, ex, dbf).submenus == t.submenus
    ensures DeletePass(t, ex, dbf).dishes == t.dishes - StaleDishes(ex, dbf)
  {
  }

  // ---- update_items ----

  /** The `dishes` rows `update_items` rewrites for the selected dishes among `ids` the tables still hold. */
  function UpdatedDishes(t: map<Id, DishCols>, ud: map<Id, DishRow>, ids: set<Id>): map<Id, DishCols> {
    map d | d in ids && d in ud && d in t :: UpdatedDish(t[d], ud[d].rec, ud[d].submenuId)
  }

  /** The tables after `update_items` writes the selected records; an id the tables no longer hold is skipped. */
  function UpdatePass(t: Tables, um: map<Id, Record>, us: map<Id, SubmenuRow>, ud: map<Id, DishRow>): (r: Tables)
    ensures r.menus.Keys == t.menus.Keys && r.submenus.Keys == t.submenus.Keys && r.dishes.Keys == t.dishes.Keys
    ensures forall m :: m in t.menus ==> r.menus[m] == if m in um then um[m] else t.menus[m]
    ensures forall s :: s in t.submenus ==> r.submenus[s] == if s in us then us[s] else t.submenus[s]
    ensures forall d :: d in t.dishes ==>
      r.dishes[d] == if d in ud then UpdatedDish(t.dishes[d], ud[d].rec, ud[d].submenuId) else t.dishes[d]
  {
    Tables(t.menus + Only(um, t.menus.Keys), t.submenus + Only(us, t.submenus.Keys),
           t.dishes + UpdatedDishes(t.dishes, ud, ud.Keys))
  }

  /** The keys `update_items` adds for the selected menus among `ids`: those the API `update` invalidates. */
  function MenusUpdateKeys(um: map<Id, Record>, ids: set<Id>): set<string> {
    set m, k | m in ids && m in um && k in MenuServices.MenuKeys(m) :: k
  }

  /** For the selected submenus among `ids`, under the `menu_id` the snapshot gives them. */
  function SubmenusUpdateKeys(us: map<Id, SubmenuRow>, ids: set<Id>): set<string> {
    set s, k | s in ids && s in us && k in SubmenuServices.UpdateKeys(us[s].menuId, s) :: k
  }

  /** For the selected dishes among `ids`: the dish list and the dish detail. */
  function DishesUpdateKeys(ud: map<Id, DishRow>, ids: set<Id>): set<string> {
    set d, k | d in ids && d in ud && k in DishServices.UpdateKeys(ud[d].menuId, ud[d].submenuId, d) :: k
  }

  /** Every key `update_items` adds. */
  function UpdateKeys(um: map<Id, Record>, us: map<Id, SubmenuRow>, ud: map<Id, DishRow>): set<string> {
    MenusUpdateKeys(um, um.Keys) + SubmenusUpdateKeys(us, us.Keys) + DishesUpdateKeys(ud, ud.Keys)
  }

  /** One more selected menu written by `update_items`. */
  lemma MenusUpdateStep(um: map<Id, Record>, ids: set<Id>, id: Id)
    ensures MenusUpdateKeys(um, ids + {id}) == MenusUpdateKeys(um, ids) + (if id in um then MenuServices.MenuKeys(id) else {})
  {
  }

  /** One more selected submenu written by `update_items`. */
  lemma SubmenusUpdateStep(us: map<Id, SubmenuRow>, ids: set<Id>, id: Id)
    ensures SubmenusUpdateKeys(us, ids + {id}) ==
      SubmenusUpdateKeys(us, ids) + (if id in us then SubmenuServices.UpdateKeys(us[id].menuId, id) else {})
  {
  }

  /** One more selected dish written by `update_items`: its keys, and its row when the table still has it. */
  lemma DishesUpdateStep(t: map<Id, DishCols>, ud: map<Id, DishRow>, ids: set<Id>, id: Id)
    ensures DishesUpdateKeys(ud, ids + {id}) ==
      DishesUpdateKeys(ud, ids) + (if id in ud then DishServices.UpdateKeys(ud[id].menuId, ud[id].submenuId, id) else {})
  {
  }

  /** One step of the dish update loop on the table: the row still holds its original value until written. */
  lemma UpdateDishStep(t: map<Id, DishCols>, ud: map<Id, DishRow>, ids: set<Id>, id: Id)
    requires id !in ids
    ensures (t + UpdatedDishes(t, ud, ids)).Keys == t.Keys
    ensures id in t ==> (t + UpdatedDishes(t, ud, ids))[id] == t[id]
    ensures t + UpdatedDishes(t, ud, ids + {id}) ==
      if id in ud && id in t then (t + UpdatedDishes(t, ud, ids))[id := UpdatedDish(t[id], ud[id].rec, ud[id].submenuId)]
      else t + UpdatedDishes(t, ud, ids)
  {
    if id in ud && id in t {
      assert UpdatedDishes(t, ud, ids + {id}) == UpdatedDishes(t, ud, ids)[id := UpdatedDish(t[id], ud[id].rec, ud[id].submenuId)];
    } else {
      assert UpdatedDishes(t, ud, ids + {id}) == UpdatedDishes(t, ud, ids);
    }
  }

  // ---- the discount writes ----

  /** The store once each staged `(key, value)` has been written, in order, with `ex=3600`. */
  function WriteDiscounts(store: map<string, Entry>, prices: seq<(string, Val)>): map<string, Entry> {
    if prices == [] then store
    else WriteDiscounts(store, prices[..|prices| - 1])[prices[|prices| - 1].0 := Entry(prices[|prices| - 1].1, DiscountExpire)]
  }

  /** A key the writes never name keeps its entry, or its absence. */
  lemma {:induction false} WriteDiscountsKeep(store: map<string, Entry>, prices: seq<(string, Val)>, k: string)
    requires forall i :: 0 <= i < |prices| ==> prices[i].0 != k
    ensures k in WriteDiscounts(store, prices) <==> k in store
    ensures k in store ==> WriteDiscounts(store, prices)[k] == store[k]
  {
    if prices != [] {
      var n := |prices| - 1;
      assert forall i :: 0 <= i < n ==> prices[..n][i] == prices[i];
      WriteDiscountsKeep(store, prices[..n], k);
    }
  }

  /** The last write to a key wins. */
  lemma {:induction false} WriteDiscountsLast(store: map<string, Entry>, prices: seq<(string, Val)>, i: nat)
    requires i < |prices|
    requires forall j :: i < j < |prices| ==> prices[j].0 != prices[i].0
    ensures prices[i].0 in WriteDiscounts(store, prices)
    ensures WriteDiscounts(store, prices)[prices[i].0] == Entry(prices[i].1, DiscountExpire)
  {
    var n := |prices| - 1;
    if i < n {
      assert forall j :: i < j < n ==> prices[..n][j] == prices[j];
      assert prices[..n][i] == prices[i];
      WriteDiscountsLast(store, prices[..n], i);
    }
  }

  // ---- setup ----

  /** The outcome of `setup`: an early return, a full run, or the `RedisError` of the opening `get_discounts`. */
  datatype Outcome = EarlyExit | Synced | Failed(error: CacheError)

  function DbSide(store: map<string, Entry>): Side {
    Side(true, DiscountsIn(store), store)
  }

  function ExcelSide(store: map<string, Entry>): Side {
    Side(false, DiscountsIn(store), store)
  }

  /** `parser_data(db_data, is_db=True)` from empty fields. */
  function DbFlat(store: map<string, Entry>, dbData: seq<MenuNode>): Flat {
    FlattenTree(Empty, DbSide(store), dbData)
  }

  /** `parser_data(self.excel_data)`: the database walk staged nothing, so it starts from empty fields too. */
  function ExcelFlat(store: map<string, Entry>, excelData: seq<MenuNode>): Flat {
    FlattenTree(Empty, ExcelSide(store), excelData)
  }

  /** `db_data` is what the tables hold: the loaded tree flattens to them. */
  predicate Loaded(t: Tables, store: map<string, Entry>, dbData: seq<MenuNode>) {
    t == TablesOf(DbFlat(store, dbData))
  }

  /** The early-exit test: equal top-level menu records (their `submenus` popped), nothing staged. */
  predicate Quiet(store: map<string, Entry>, dbData: seq<MenuNode>, excelData: seq<MenuNode>) {
    MenuRecords(dbData) == MenuRecords(excelData) &&
    ExcelFlat(store, excelData).prices == [] && ExcelFlat(store, excelData).keys == {}
  }

  /** The tables after create, delete and update, for the flattened snapshot `ex` and database side `dbf`. */
  function PassTables(t: Tables, ex: Flat, dbf: Flat): Tables {
    UpdatePass(DeletePass(CreatePass(t, ex, dbf), ex, dbf),
               Changed(ex.menus, dbf.menus), Changed(ex.submenus, dbf.submenus), Changed(ex.dishes, dbf.dishes))
  }

  /** The keys the create and update passes add to `invalidate_keys`. */
  function PassKeys(ex: Flat, dbf: Flat): set<string> {
    CreateKeys(ex, dbf) + UpdateKeys(Changed(ex.menus, dbf.menus), Changed(ex.submenus, dbf.submenus), Changed(ex.dishes, dbf.dishes))
  }

  /**
   * The store after the delete pass's purges, the one `cache_invalidate` of
   * the walk's keys `staged` and the passes' keys, and the writes of `prices`.
   */
  function PassStore(t: Tables, store: map<string, Entry>, ex: Flat, dbf: Flat, staged: set<string>,
                     prices: seq<(string, Val)>): map<string, Entry> {
    var purged := store - DeletePurge(store, CreatePass(t, ex, dbf), ex, dbf);
    var keys := staged + PassKeys(ex, dbf);
    WriteDiscounts(if keys == {} then purged else Invalidated(purged, keys, None), prices)
  }

  /** The tables after a run of `setup` that passes the early-exit test. */
  function SyncedTables(t: Tables, store: map<string, Entry>, dbData: seq<MenuNode>, excelData: seq<MenuNode>): Tables {
    PassTables(t, Maps(ExcelFlat(store, excelData)), Maps(DbFlat(store, dbData)))
  }

  /** `invalidate_keys` at the end: staged while walking the snapshot, then by the create and update passes. */
  function StagedKeys(store: map<string, Entry>, dbData: seq<MenuNode>, excelData: seq<MenuNode>): set<string> {
    ExcelFlat(store, excelData).keys + PassKeys(Maps(ExcelFlat(store, excelData)), Maps(DbFlat(store, dbData)))
  }

  /** The store after such a run. */
  function SyncedStore(t: Tables, store: map<string, Entry>, dbData: seq<MenuNode>, excelData: seq<MenuNode>): map<string, Entry> {
    var ex := ExcelFlat(store, excelData);
    PassStore(t, store, Maps(ex), Maps(DbFlat(store, dbData)), ex.keys, ex.prices)
  }

  /** Walking the database tree stages nothing, so the snapshot walk does start from empty fields. */
  lemma DbWalkStagesNothing(store: map<string, Entry>, dbData: seq<MenuNode>)
    ensures DbFlat(store, dbData).prices == [] && DbFlat(store, dbData).keys == {}
  {
    DbSideStagesNothing(Empty, DbSide(store), dbData);
  }

  /** The create pass leaves every snapshot menu in the tables with its snapshot record. */
  lemma CreatedMenus(t: Tables, ex: Flat, dbf: Flat)
    requires t.menus == dbf.menus
    ensures forall m :: m in ex.menus ==> m in CreatePass(t, ex, dbf).menus
    ensures forall m :: m in ex.menus && m !in Changed(ex.menus, dbf.menus) ==> CreatePass(t, ex, dbf).menus[m] == ex.menus[m]
  {
    CreateInsertsExactly(t, ex, dbf);
  }

  /** The delete pass removes only stale menus, and all of them the tables hold when it removes any. */
  lemma DeletedMenus(t: Tables, ex: Flat, dbf: Flat)
    ensures DeletePass(t, ex, dbf).menus == t.menus - (if StaleMenus(ex, dbf) != {} then StaleMenus(ex, dbf) else {})
  {
  }

  /**
   * After the three passes every menu of the snapshot is in the tables with
   * the snapshot's record, a stale menu is gone whenever the pass deleted
   * menus, and so the `menus` table is the snapshot's, row for row.
   */
  lemma PassMenus(t: Tables, ex: Flat, dbf: Flat)
    requires t.menus == dbf.menus
    ensures forall m :: m in ex.menus ==> m in PassTables(t, ex, dbf).menus && PassTables(t, ex, dbf).menus[m] == ex.menus[m]
    ensures forall m :: m in StaleMenus(ex, dbf) ==> m !in PassTables(t, ex, dbf).menus
    ensures PassTables(t, ex, dbf).menus == ex.menus
  {
    var created := CreatePass(t, ex, dbf);
    var deleted := DeletePass(created, ex, dbf);
    CreatedMenus(t, ex, dbf);
    DeletedMenus(created, ex, dbf);
    var r := UpdatePass(deleted, Changed(ex.menus, dbf.menus), Changed(ex.submenus, dbf.submenus), Changed(ex.dishes, dbf.dishes));
    forall m | m in ex.menus ensures m in r.menus && r.menus[m] == ex.menus[m] {
      assert m !in StaleMenus(ex, dbf);
    }
    CreateInsertsExactly(t, ex, dbf);
    assert r.menus.Keys == ex.menus.Keys;
  }

  /** The same for a whole `setup` run over the database tree the tables were loaded from. */
  lemma SyncedMenus(t: Tables, store: map<string, Entry>, dbData: seq<MenuNode>, excelData: seq<MenuNode>)
    requires Loaded(t, store, dbData)
    ensures SyncedTables(t, store, dbData, excelData).menus == ExcelFlat(store, excelData).menus
    ensures forall m :: m in ExcelFlat(store, excelData).menus ==>
      m in SyncedTables(t, store, dbData, excelData).menus &&
      SyncedTables(t, store, dbData, excelData).menus[m] == ExcelFlat(store, excelData).menus[m]
    ensures forall m :: m in StaleMenus(Maps(ExcelFlat(store, excelData)), Maps(DbFlat(store, dbData))) ==>
      m !in SyncedTables(t, store, dbData, excelData).menus
  {
    PassMenus(t, Maps(ExcelFlat(store, excelData)), Maps(DbFlat(store, dbData)));
  }

  /**
   * A discount the run writes is what `get_discounts` reads back, so the next
   * walk over the same snapshot dish stages nothing for it.
   */
  lemma DiscountSettles(store: map<string, Entry>, prices: seq<(string, Val)>, i: nat, c: Side, dish: DishNode)
    requires dish.discount.Some? && i < |prices| && prices[i] == (DiscountKey(dish.rec.id), dish.discount.value)
    requires forall j :: i < j < |prices| ==> prices[j].0 != prices[i].0
    requires c.discounts == DiscountsIn(WriteDiscounts(store, prices))
    ensures !DiscountChanged(c, dish)
  {
    WriteDiscountsLast(store, prices, i);
    var key := DiscountKey(dish.rec.id);
    assert Contains(key, "discount");
    assert key in c.discounts && c.discounts[key] == dish.discount.value;
    assert Get(c.discounts, key).GetOr(Null) == dish.discount.value;
  }

  /**
   * After a full run no key staged for invalidation is left in the cache,
   * unless a discount was written to it afterwards.
   */
  lemma StagedKeysPurged(t: Tables, store: map<string, Entry>, dbData: seq<MenuNode>, excelData: seq<MenuNode>, k: string)
    requires k in StagedKeys(store, dbData, excelData)
    requires forall i :: 0 <= i < |ExcelFlat(store, excelData).prices| ==> ExcelFlat(store, excelData).prices[i].0 != k
    ensures k !in SyncedStore(t, store, dbData, excelData)
  {
    var dbf := Maps(DbFlat(store, dbData));
    var ex := Maps(ExcelFlat(store, excelData));
    var purged := store - DeletePurge(store, CreatePass(t, ex, dbf), ex, dbf);
    var keys := StagedKeys(store, dbData, excelData);
    assert SyncedStore(t, store, dbData, excelData) ==
           WriteDiscounts(Invalidated(purged, keys, None), ExcelFlat(store, excelData).prices);
    InvalidatedExactly(purged, keys, None, k);
    WriteDiscountsKeep(Invalidated(purged, keys, None), ExcelFlat(store, excelData).prices, k);
  }
}
