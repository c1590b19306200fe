/**
 * `Synchronizer` (src/celery/utils.py): its fields are filled by loops over
 * the two menu trees, then three passes edit the session's tables and the
 * cache. Each method is proved against the functions of `SyncSpec`. Redis is
 * either down for the whole run, in which case the opening `get_discounts`
 * raises, or up throughout.
 */
module Synchronization {
  import opened Wrappers
  import opened Values
  import opened Keys
  import opened Cache
  import opened Trees
  import opened Flattening
  import opened Database
  import opened SyncSpec
  import DishServices
  import SubmenuServices
  import MenuServices

  class Synchronizer {
    const db: Db
    const cache: CacheService

    var excelMenus: map<Id, Record>
    var excelSubmenus: map<Id, SubmenuRow>
    var excelDishes: map<Id, DishRow>
    var dbMenus: map<Id, Record>
    var dbSubmenus: map<Id, SubmenuRow>
    var dbDishes: map<Id, DishRow>
    var menusForUpdate: map<Id, Record>
    var submenusForUpdate: map<Id, SubmenuRow>
    var dishesForUpdate: map<Id, DishRow>
    var discountPrices: seq<(string, Val)>
    var discounts: map<string, Val>
    var invalidateKeys: set<string>

    constructor (db: Db, cache: CacheService)
      ensures this.db == db && this.cache == cache && Fresh()
    {
      this.db := db;
      this.cache := cache;
      excelMenus, excelSubmenus, excelDishes := map[], map[], map[];
      dbMenus, dbSubmenus, dbDishes := map[], map[], map[];
      menusForUpdate, submenusForUpdate, dishesForUpdate := map[], map[], map[];
      discountPrices, discounts, invalidateKeys := [], map[], {};
    }

    /** Every field as `__init__` leaves it. */
    predicate Fresh()
      reads this
    {
      excelMenus == map[] && excelSubmenus == map[] && excelDishes == map[] &&
      dbMenus == map[] && dbSubmenus == map[] && dbDishes == map[] &&
      ForUpdate() == (map[], map[], map[]) &&
      discountPrices == [] && discounts == map[] && invalidateKeys == {}
    }

    /** The `excel_*` maps with what has been staged. */
    function Excel(): Flat
      reads this
    {
      Flat(excelMenus, excelSubmenus, excelDishes, discountPrices, invalidateKeys)
    }

    /** The `db_*` maps with what has been staged. */
    function DbView(): Flat
      reads this
    {
      Flat(dbMenus, dbSubmenus, dbDishes, discountPrices, invalidateKeys)
    }

    /** The `excel_*` maps alone: what the passes of `setup` read of the snapshot side. */
    function ExcelMaps(): Flat
      reads this`excelMenus, this`excelSubmenus, this`excelDishes
    {
      Flat(excelMenus, excelSubmenus, excelDishes, [], {})
    }

    /** The `db_*` maps alone. */
    function DbMaps(): Flat
      reads this`dbMenus, this`dbSubmenus, this`dbDishes
    {
      Flat(dbMenus, dbSubmenus, dbDishes, [], {})
    }

    /** The fields one `parser_data` walk fills. */
    function View(isDb: bool): Flat
      reads this
    {
      if isDb then DbView() else Excel()
    }

    /** The maps of the other side, which that walk leaves alone. */
    function Other(isDb: bool): Flat
      reads this
    {
      Maps(View(!isDb))
    }

    function ForUpdate(): (map<Id, Record>, map<Id, SubmenuRow>, map<Id, DishRow>)
      reads this
    {
      (menusForUpdate, submenusForUpdate, dishesForUpdate)
    }

    /** Everything the two walks produced. */
    function Parsed(): (Flat, Flat, seq<(string, Val)>, map<string, Val>)
      reads this
    {
      (Maps(Excel()), Maps(DbView()), discountPrices, discounts)
    }

    /** The body of the innermost loop of `parser_data`, for one dish of submenu `s` of menu `m`. */
    method FileDish(m: Id, s: Id, dish: DishNode, isDb: bool)
      modifies this
      ensures View(isDb) == StageDish(old(View(isDb)), Side(isDb, discounts, cache.store), m, s, dish)
      ensures Other(isDb) == old(Other(isDb)) && ForUpdate() == old(ForUpdate()) && discounts == old(discounts)
    {
      var id := dish.rec.id;
      var row := DishRow(dish.rec, s, m);
      if isDb {
        dbDishes := dbDishes[id := row];
        return;
      }
      var key := DiscountKey(id);
      var found := cache.GetKeysByPattern(m, false);
      var invKeys := found.value;
      assert invKeys == KeysMatching(cache.store, m);
      match dish.discount {
        case Some(v) =>
          if v != Get(discounts, key).GetOr(Null) {
            discountPrices := discountPrices + [(key, v)];
            invalidateKeys := invalidateKeys + {DetailDish(m, s, id), DishesList(m, s)} + invKeys;
          }
        case None =>
          if key in discounts {
            invalidateKeys := invalidateKeys + {key} + invKeys;
          }
      }
      excelDishes := excelDishes[id := row];
    }

    /** The middle loop body of `parser_data`: submenu `sub` of menu `m`, then its dishes. */
    method FileSubmenu(m: Id, sub: SubmenuNode, isDb: bool)
      modifies this
      ensures View(isDb) == FlattenSubmenu(old(View(isDb)), Side(isDb, discounts, cache.store), m, sub)
      ensures Other(isDb) == old(Other(isDb)) && ForUpdate() == old(ForUpdate()) && discounts == old(discounts)
    {
      var s := sub.rec.id;
      if isDb {
        dbSubmenus := dbSubmenus[s := SubmenuRow(sub.rec, m)];
      } else {
        excelSubmenus := excelSubmenus[s := SubmenuRow(sub.rec, m)];
      }
      ghost var c := Side(isDb, discounts, cache.store);
      ghost var v := View(isDb);
      assert v == old(View(isDb)).(submenus := old(View(isDb)).submenus[s := SubmenuRow(sub.rec, m)]);
      for k := 0 to |sub.dishes|
        invariant View(isDb) == FlattenDishes(v, c, m, s, sub.dishes[..k])
        invariant Other(isDb) == old(Other(isDb)) && ForUpdate() == old(ForUpdate()) && discounts == old(discounts)
      {
        FileDish(m, s, sub.dishes[k], isDb);
        assert sub.dishes[..k + 1][..k] == sub.dishes[..k];
      }
      assert sub.dishes[..|sub.dishes|] == sub.dishes;
    }

    /** The outer loop body of `parser_data`: a menu with its `submenus` popped, then its submenus. */
    method FileMenu(menu: MenuNode, isDb: bool)
      modifies this
      ensures View(isDb) == FlattenMenu(old(View(isDb)), Side(isDb, discounts, cache.store), menu)
      ensures Other(isDb) == old(Other(isDb)) && ForUpdate() == old(ForUpdate()) && discounts == old(discounts)
    {
      var m := menu.rec.id;
      if isDb {
        dbMenus := dbMenus[m := menu.rec];
      } else {
        excelMenus := excelMenus[m := menu.rec];
      }
      ghost var c := Side(isDb, discounts, cache.store);
      ghost var v := View(isDb);
      assert v == old(View(isDb)).(menus := old(View(isDb)).menus[m := menu.rec]);
      for j := 0 to |menu.submenus|
        invariant View(isDb) == FlattenSubmenus(v, c, m, menu.submenus[..j])
        invariant Other(isDb) == old(Other(isDb)) && ForUpdate() == old(ForUpdate()) && discounts == old(discounts)
      {
        FileSubmenu(m, menu.submenus[j], isDb);
        assert menu.submenus[..j + 1][..j] == menu.submenus[..j];
      }
      assert menu.submenus[..|menu.submenus|] == menu.submenus;
    }

    /** `parser_data(data, is_db)`. */
    method ParserData(data: seq<MenuNode>, isDb: bool)
      modifies this
      ensures View(isDb) == FlattenTree(old(View(isDb)), Side(isDb, discounts, cache.store), data)
      ensures Other(isDb) == old(Other(isDb)) && ForUpdate() == old(ForUpdate()) && discounts == old(discounts)
    {
      ghost var c := Side(isDb, discounts, cache.store);
      for i := 0 to |data|
        invariant View(isDb) == FlattenTree(old(View(isDb)), c, data[..i])
        invariant Other(isDb) == old(Other(isDb)) && ForUpdate() == old(ForUpdate()) && discounts == old(discounts)
      {
        FileMenu(data[i], isDb);
        assert data[..i + 1][..i] == data[..i];
      }
      assert data[..|data|] == data;
    }

    /** The first loop of `create_items`: each snapshot menu the database side lacks is added. */
    method CreateMenus()
      requires forall m :: m in excelMenus ==> excelMenus[m].id == m
      modifies this`invalidateKeys, db`menus
      ensures db.menus == old(db.menus) + Only(excelMenus, excelMenus.Keys - dbMenus.Keys)
      ensures invalidateKeys == old(invalidateKeys) + MenusCreateKeys(excelMenus, dbMenus.Keys, excelMenus.Keys)
    {
      var ex, known := excelMenus, dbMenus.Keys;
      ghost var menus0 := db.menus;
      var added: set<string> := {};
      var todo := ex.Keys;
      ghost var done: set<Id> := {};
      while todo != {}
        invariant todo <= ex.Keys && done == ex.Keys - todo
        invariant db.menus == menus0 + Only(ex, done - known)
        invariant added == MenusCreateKeys(ex, known, done)
        modifies db`menus
        decreases todo
      {
        var m :| m in todo;
        MenusCreateStep(ex, known, done, m);
        CreateStep(menus0, ex, known, done, m);
        if m !in known {
          db.AddMenu(ex[m]);
          added := added + {MenusList};
        }
        todo := todo - {m};
        done := done + {m};
      }
      assert done == ex.Keys;
      invalidateKeys := invalidateKeys + added;
    }

    /** The second loop: each snapshot submenu the database side lacks is added. */
    method CreateSubmenus()
      requires forall s :: s in excelSubmenus ==> excelSubmenus[s].rec.id == s
      modifies this`invalidateKeys, db`submenus
      ensures db.submenus == old(db.submenus) + Only(excelSubmenus, excelSubmenus.Keys - dbSubmenus.Keys)
      ensures invalidateKeys == old(invalidateKeys) + SubmenusCreateKeys(excelSubmenus, dbSubmenus.Keys, excelSubmenus.Keys)
    {
      var ex, known := excelSubmenus, dbSubmenus.Keys;
      ghost var submenus0 := db.submenus;
      var added: set<string> := {};
      var todo := ex.Keys;
      ghost var done: set<Id> := {};
      while todo != {}
        invariant todo <= ex.Keys && done == ex.Keys - todo
        invariant db.submenus == submenus0 + Only(ex, done - known)
        invariant added == SubmenusCreateKeys(ex, known, done)
        modifies db`submenus
        decreases todo
      {
        var s :| s in todo;
        SubmenusCreateStep(ex, known, done, s);
        CreateStep(submenus0, ex, known, done, s);
        if s !in known {
          var menuId := ex[s].menuId;
          db.AddSubmenu(ex[s]);
          added := added + {MenusList, DetailMenu(menuId)};
        }
        todo := todo - {s};
        done := done + {s};
      }
      assert done == ex.Keys;
      invalidateKeys := invalidateKeys + added;
    }

    /** The third loop: each snapshot dish the database side lacks is added, with its `menu_id` popped. */
    method CreateDishes()
      requires forall d :: d in excelDishes ==> excelDishes[d].rec.id == d
      modifies this`invalidateKeys, db`dishes
      ensures db.dishes == old(db.dishes) + InsertedDishes(excelDishes, dbDishes.Keys, excelDishes.Keys)
      ensures invalidateKeys == old(invalidateKeys) + DishesCreateKeys(excelDishes, dbDishes.Keys, excelDishes.Keys)
    {
      var ex, known := excelDishes, dbDishes.Keys;
      ghost var dishes0 := db.dishes;
      var added: set<string> := {};
      var todo := ex.Keys;
      ghost var done: set<Id> := {};
      while todo != {}
        invariant todo <= ex.Keys && done == ex.Keys - todo
        invariant db.dishes == dishes0 + InsertedDishes(ex, known, done)
        invariant added == DishesCreateKeys(ex, known, done)
        modifies db`dishes
        decreases todo
      {
        var d :| d in todo;
        DishesCreateStep(ex, known, done, d);
        InsertStep(dishes0, ex, known, done, d);
        if d !in known {
          var dish := ex[d];
          var menuId := dish.menuId;
          db.AddDish(DishCols(dish.rec, dish.submenuId));
          added := added + {DishesList(menuId, dish.submenuId), DetailSubmenu(menuId, dish.submenuId),
                            SubmenusList(menuId), DetailMenu(menuId), MenusList};
        }
        todo := todo - {d};
        done := done + {d};
      }
      assert done == ex.Keys;
      invalidateKeys := invalidateKeys + added;
    }

    /** `create_items()`: inserts the snapshot rows the database side lacks and stages their keys. */
    method CreateItems()
      requires Filed(ExcelMaps())
      modifies this`invalidateKeys, db
      ensures db.Snapshot() == CreatePass(old(db.Snapshot()), ExcelMaps(), DbMaps())
      ensures invalidateKeys == old(invalidateKeys) + CreateKeys(ExcelMaps(), DbMaps())
    {
      CreateMenus();
      CreateSubmenus();
      CreateDishes();
    }

    /** The menu branch of `delete_items`: each stale menu the database holds goes, with its cache entries. */
    method DeleteMenus(ids: set<Id>)
      modifies db, cache
      ensures db.Snapshot() == WithoutMenus(old(db.Snapshot()), ids * old(db.menus.Keys))
      ensures cache.store == old(cache.store) - MenuPurge(old(cache.store), ids * old(db.menus.Keys))
    {
      ghost var t0 := db.Snapshot();
      ghost var s0 := cache.store;
      var menus := ids * db.menus.Keys;
      var todo := menus;
      ghost var done: set<Id> := {};
      while todo != {}
        invariant todo <= menus && done == menus - todo
        invariant db.Snapshot() == WithoutMenus(t0, done)
        invariant cache.store == s0 - MenuPurge(s0, done)
        decreases todo
      {
        var m :| m in todo;
        MenuDeleteStep(t0, s0, done, m);
        db.DeleteMenu(m);
        cache.CacheInvalidate(MenuServices.MenuKeys(m), Some(m), false);
        todo := todo - {m};
        done := done + {m};
      }
      assert done == menus;
    }

    /** The submenu branch: each stale submenu the database holds goes, keyed under the `menu_id` it has there. */
    method DeleteSubmenus(ids: set<Id>)
      modifies db`submenus, db`dishes, cache
      ensures db.Snapshot() == WithoutSubmenus(old(db.Snapshot()), ids * old(db.submenus.Keys))
      ensures cache.store == old(cache.store) - SubmenuPurge(old(cache.store), old(db.Snapshot()), ids * old(db.submenus.Keys))
    {
      ghost var t0 := db.Snapshot();
      ghost var s0 := cache.store;
      var submenus := ids * db.submenus.Keys;
      var todo := submenus;
      ghost var done: set<Id> := {};
      while todo != {}
        invariant todo <= submenus && done == submenus - todo
        invariant db.Snapshot() == WithoutSubmenus(t0, done)
        invariant cache.store == s0 - SubmenuPurge(s0, t0, done)
        decreases todo
      {
        var s :| s in todo;
        SubmenuDeleteStep(t0, s0, done, s);
        var menuId := db.submenus[s].menuId;
        db.DeleteSubmenu(s);
        cache.CacheInvalidate(SubmenuServices.DeleteKeys(menuId, s), Some(s), false);
        todo := todo - {s};
        done := done + {s};
      }
      assert done == submenus;
    }

    /** The dish branch: each stale dish goes, with the six keys named from its `db_dishes` entry. */
    method DeleteDishes(ids: set<Id>)
      requires ids <= dbDishes.Keys
      modifies db`dishes, cache
      ensures db.dishes == old(db.dishes) - ids
      ensures cache.store == old(cache.store) - DishPurge(old(cache.store), dbDishes, ids)
    {
      var rows := dbDishes;
      ghost var dishes0 := db.dishes;
      ghost var s0 := cache.store;
      var todo := ids;
      ghost var done: set<Id> := {};
      while todo != {}
        invariant todo <= ids && done == ids - todo
        invariant db.dishes == dishes0 - done
        invariant cache.store == s0 - DishPurge(s0, rows, done)
        modifies db`dishes, cache
        decreases todo
      {
        var d :| d in todo;
        var dish := rows[d];
        var menuId := dish.menuId;
        db.DeleteDish(d);
        var keys := DishServices.DeleteKeys(menuId, dish.submenuId, d);
        cache.CacheInvalidate(keys, None, false);
        DishDeleteStep(s0, rows, done, d);
        assert (dishes0 - done) - {d} == dishes0 - (done + {d});
        todo := todo - {d};
        done := done + {d};
      }
      assert done == ids;
    }

    /**
     * `delete_items()`: the stale menus if there are any, else the stale
     * submenus, else the stale dishes.
     */
    method DeleteItems()
      modifies db, cache
      ensures db.Snapshot() == DeletePass(old(db.Snapshot()), ExcelMaps(), DbMaps())
      ensures cache.store == old(cache.store) - DeletePurge(old(cache.store), old(db.Snapshot()), ExcelMaps(), DbMaps())
    {
      var menuIds := IdsToDeleteOrCreate(dbMenus.Keys, excelMenus.Keys, false);
      var submenuIds := IdsToDeleteOrCreate(dbSubmenus.Keys, excelSubmenus.Keys, false);
      var dishIds := IdsToDeleteOrCreate(dbDishes.Keys, excelDishes.Keys, false);
      if menuIds != {} {
        DeleteMenus(menuIds);
        return;
      }
      if submenuIds != {} {
        DeleteSubmenus(submenuIds);
        return;
      }
      DeleteDishes(dishIds);
    }

    /** One loop of `data_for_update`: the snapshot menus that differ from their database-side record. */
    method SelectMenus()
      requires menusForUpdate == map[]
      modifies this`menusForUpdate
      ensures menusForUpdate == Changed(excelMenus, dbMenus)
    {
      var ex, known := excelMenus, dbMenus;
      ghost var changed := Changed(ex, known);
      var todo := ex.Keys;
      ghost var done: set<Id> := {};
      while todo != {}
        invariant todo <= ex.Keys && done == ex.Keys - todo
        invariant menusForUpdate == Only(changed, done)
        modifies this`menusForUpdate
        decreases todo
      {
        var m :| m in todo;
        OnlyStep(changed, done, m);
        if m in known && ex[m] != known[m] {
          menusForUpdate := menusForUpdate[m := ex[m]];
        }
        todo := todo - {m};
        done := done + {m};
      }
      assert done == ex.Keys;
    }

    /** One loop of `data_for_update`: the snapshot submenus that differ from their database-side record. */
    method SelectSubmenus()
      requires submenusForUpdate == map[]
      modifies this`submenusForUpdate
      ensures submenusForUpdate == Changed(excelSubmenus, dbSubmenus)
    {
      var ex, known := excelSubmenus, dbSubmenus;
      ghost var changed := Changed(ex, known);
      var todo := ex.Keys;
      ghost var done: set<Id> := {};
      while todo != {}
        invariant todo <= ex.Keys && done == ex.Keys - todo
        invariant submenusForUpdate == Only(changed, done)
        modifies this`submenusForUpdate
        decreases todo
      {
        var s :| s in todo;
        OnlyStep(changed, done, s);
        if s in known && ex[s] != known[s] {
          submenusForUpdate := submenusForUpdate[s := ex[s]];
        }
        todo := todo - {s};
        done := done + {s};
      }
      assert done == ex.Keys;
    }

    /** One loop of `data_for_update`: the snapshot dishes that differ from their database-side record. */
    method SelectDishes()
      requires dishesForUpdate == map[]
      modifies this`dishesForUpdate
      ensures dishesForUpdate == Changed(excelDishes, dbDishes)
    {
      var ex, known := excelDishes, dbDishes;
      ghost var changed := Changed(ex, known);
      var todo := ex.Keys;
      ghost var done: set<Id> := {};
      while todo != {}
        invariant todo <= ex.Keys && done == ex.Keys - todo
        invariant dishesForUpdate == Only(changed, done)
        modifies this`dishesForUpdate
        decreases todo
      {
        var d :| d in todo;
        OnlyStep(changed, done, d);
        if d in known && ex[d] != known[d] {
          dishesForUpdate := dishesForUpdate[d := ex[d]];
        }
        todo := todo - {d};
        done := done + {d};
      }
      assert done == ex.Keys;
    }

    /** `data_for_update()`: the snapshot records whose id the database side has with another record. */
    method DataForUpdate()
      requires ForUpdate() == (map[], map[], map[])
      modifies this`menusForUpdate, this`submenusForUpdate, this`dishesForUpdate
      ensures ForUpdate() == (Changed(excelMenus, dbMenus), Changed(excelSubmenus, dbSubmenus), Changed(excelDishes, dbDishes))
    {
      SelectMenus();
      SelectSubmenus();
      SelectDishes();
    }

    /** The first loop of `update_items`: each selected menu is written over its row. */
    method UpdateMenus()
      requires forall m :: m in menusForUpdate ==> menusForUpdate[m].id == m
      modifies this`invalidateKeys, db`menus
      ensures db.menus == old(db.menus) + Only(menusForUpdate, old(db.menus.Keys))
      ensures invalidateKeys == old(invalidateKeys) + MenusUpdateKeys(menusForUpdate, menusForUpdate.Keys)
    {
      var selected := menusForUpdate;
      ghost var menus0 := db.menus;
      var added: set<string> := {};
      var todo := selected.Keys;
      ghost var done: set<Id> := {};
      while todo != {}
        invariant todo <= selected.Keys && done == selected.Keys - todo
        invariant db.menus == menus0 + Only(selected, done * menus0.Keys)
        invariant added == MenusUpdateKeys(selected, done)
        modifies db`menus
        decreases todo
      {
        var m :| m in todo;
        MenusUpdateStep(selected, done, m);
        UpdateStep(menus0, selected, done, m);
        db.UpdateMenu(selected[m]);
        added := added + {MenusList, DetailMenu(m)};
        todo := todo - {m};
        done := done + {m};
      }
      assert done * menus0.Keys == selected.Keys * menus0.Keys;
      invalidateKeys := invalidateKeys + added;
    }

    /** The second loop: each selected submenu is written, with the `menu_id` the snapshot gives it. */
    method UpdateSubmenus()
      requires forall s :: s in submenusForUpdate ==> submenusForUpdate[s].rec.id == s
      modifies this`invalidateKeys, db`submenus
      ensures db.submenus == old(db.submenus) + Only(submenusForUpdate, old(db.submenus.Keys))
      ensures invalidateKeys == old(invalidateKeys) + SubmenusUpdateKeys(submenusForUpdate, submenusForUpdate.Keys)
    {
      var selected := submenusForUpdate;
      ghost var submenus0 := db.submenus;
      var added: set<string> := {};
      var todo := selected.Keys;
      ghost var done: set<Id> := {};
      while todo != {}
        invariant todo <= selected.Keys && done == selected.Keys - todo
        invariant db.submenus == submenus0 + Only(selected, done * submenus0.Keys)
        invariant added == SubmenusUpdateKeys(selected, done)
        modifies db`submenus
        decreases todo
      {
        var s :| s in todo;
        SubmenusUpdateStep(selected, done, s);
        UpdateStep(submenus0, selected, done, s);
        var submenu := selected[s];
        db.UpdateSubmenu(submenu);
        added := added + {DetailSubmenu(submenu.menuId, s), SubmenusList(submenu.menuId)};
        todo := todo - {s};
        done := done + {s};
      }
      assert done * submenus0.Keys == selected.Keys * submenus0.Keys;
      invalidateKeys := invalidateKeys + added;
    }

    /** The third loop: each selected dish is written, its `menu_id` popped first. */
    method UpdateDishes()
      requires forall d :: d in dishesForUpdate ==> dishesForUpdate[d].rec.id == d
      modifies this`invalidateKeys, db`dishes
      ensures db.dishes == old(db.dishes) + UpdatedDishes(old(db.dishes), dishesForUpdate, dishesForUpdate.Keys)
      ensures invalidateKeys == old(invalidateKeys) + DishesUpdateKeys(dishesForUpdate, dishesForUpdate.Keys)
    {
      var selected := dishesForUpdate;
      ghost var dishes0 := db.dishes;
      var added: set<string> := {};
      var todo := selected.Keys;
      ghost var done: set<Id> := {};
      while todo != {}
        invariant todo <= selected.Keys && done == selected.Keys - todo
        invariant db.dishes == dishes0 + UpdatedDishes(dishes0, selected, done)
        invariant added == DishesUpdateKeys(selected, done)
        modifies db`dishes
        decreases todo
      {
        var d :| d in todo;
        DishesUpdateStep(dishes0, selected, done, d);
        UpdateDishStep(dishes0, selected, done, d);
        var dish := selected[d];
        var menuId := dish.menuId;
        db.UpdateDish(dish.rec, dish.submenuId);
        added := added + {DishesList(menuId, dish.submenuId), DetailDish(menuId, dish.submenuId, d)};
        todo := todo - {d};
        done := done + {d};
      }
      assert done == selected.Keys;
      invalidateKeys := invalidateKeys + added;
    }

    /** The writes of `update_items()`: each selected record over its row, with the keys the API `update` would stage. */
    method WriteUpdates()
      requires forall m :: m in menusForUpdate ==> menusForUpdate[m].id == m
      requires forall s :: s in submenusForUpdate ==> submenusForUpdate[s].rec.id == s
      requires forall d :: d in dishesForUpdate ==> dishesForUpdate[d].rec.id == d
      modifies this`invalidateKeys, db
      ensures db.Snapshot() == UpdatePass(old(db.Snapshot()), menusForUpdate, submenusForUpdate, dishesForUpdate)
      ensures invalidateKeys == old(invalidateKeys) + UpdateKeys(menusForUpdate, submenusForUpdate, dishesForUpdate)
    {
      UpdateMenus();
      UpdateSubmenus();
      UpdateDishes();
    }

    /** `update_items()`: selects the changed records, then writes them. */
    method UpdateItems()
      requires Filed(ExcelMaps()) && ForUpdate() == (map[], map[], map[])
      modifies this`menusForUpdate, this`submenusForUpdate, this`dishesForUpdate, this`invalidateKeys, db
      ensures ForUpdate() == (Changed(excelMenus, dbMenus), Changed(excelSubmenus, dbSubmenus), Changed(excelDishes, dbDishes))
      ensures db.Snapshot() == UpdatePass(old(db.Snapshot()), menusForUpdate, submenusForUpdate, dishesForUpdate)
      ensures invalidateKeys == old(invalidateKeys) + UpdateKeys(menusForUpdate, submenusForUpdate, dishesForUpdate)
    {
      DataForUpdate();
      WriteUpdates();
    }

    /** The two `parser_data` calls of `setup`: the database tree, then the snapshot, both against `found`. */
    method Walk(found: map<string, Val>, dbData: seq<MenuNode>, excelData: seq<MenuNode>)
      requires Fresh()
      modifies this
      ensures discounts == found && ForUpdate() == (map[], map[], map[])
      ensures Excel() == FlattenTree(Empty, Side(false, found, cache.store), excelData)
      ensures Maps(DbView()) == Maps(FlattenTree(Empty, Side(true, found, cache.store), dbData))
      ensures Filed(Excel())
    {
      discounts := found;
      ParserData(dbData, true);
      DbSideStagesNothing(Empty, Side(true, found, cache.store), dbData);
      assert Excel() == Empty.(menus := map[], submenus := map[], dishes := map[]);
      ParserData(excelData, false);
      TreeFiled(Empty, Side(false, found, cache.store), excelData);
    }

    /** The three passes of `setup`, in their order: create, delete, update. */
    method Apply()
      requires Filed(ExcelMaps()) && ForUpdate() == (map[], map[], map[])
      modifies this`menusForUpdate, this`submenusForUpdate, this`dishesForUpdate, this`invalidateKeys, db, cache
      ensures db.Snapshot() == PassTables(old(db.Snapshot()), ExcelMaps(), DbMaps())
      ensures cache.store == old(cache.store) -
        DeletePurge(old(cache.store), CreatePass(old(db.Snapshot()), ExcelMaps(), DbMaps()), ExcelMaps(), DbMaps())
      ensures invalidateKeys == old(invalidateKeys) + PassKeys(ExcelMaps(), DbMaps())
    {
      CreateItems();
      DeleteItems();
      UpdateItems();
    }

    /** The end of `setup`: one `cache_invalidate` of the staged keys, if any, then each staged discount with `ex=3600`. */
    method Flush()
      modifies cache
      ensures cache.store ==
        WriteDiscounts(if invalidateKeys == {} then old(cache.store) else Invalidated(old(cache.store), invalidateKeys, None),
                       discountPrices)
    {
      if invalidateKeys != {} {
        cache.CacheInvalidate(invalidateKeys, None, false);
      }
      ghost var s1 := cache.store;
      var prices := discountPrices;
      for i := 0 to |prices|
        invariant cache.store == WriteDiscounts(s1, prices[..i])
      {
        cache.SetValueIntoCache(prices[i].0, prices[i].1, Some(DiscountExpire), false);
        assert prices[..i + 1][..i] == prices[..i];
      }
      assert prices[..|prices|] == prices;
    }

    /** What `setup` does past the early-exit test: the three passes, then the cache writes. */
    method Propagate()
      requires Filed(ExcelMaps()) && ForUpdate() == (map[], map[], map[])
      modifies this`menusForUpdate, this`submenusForUpdate, this`dishesForUpdate, this`invalidateKeys, db, cache
      ensures db.Snapshot() == PassTables(old(db.Snapshot()), ExcelMaps(), DbMaps())
      ensures cache.store ==
        PassStore(old(db.Snapshot()), old(cache.store), ExcelMaps(), DbMaps(), old(invalidateKeys), discountPrices)
    {
      Apply();
      Flush();
    }

    /**
     * `setup()`: read the cached discounts, walk both trees, return early when
     * nothing differs, else create, delete, update, invalidate what was staged
     * and write the staged discounts with `ex=3600`.
     */
    method Setup(dbData: seq<MenuNode>, excelData: seq<MenuNode>, cacheDown: bool) returns (r: Outcome)
      requires Fresh() && Loaded(db.Snapshot(), cache.store, dbData)
      modifies this, db, cache
      ensures cacheDown ==>
        r == Failed(RedisError) && db.Snapshot() == old(db.Snapshot()) && cache.store == old(cache.store)
      ensures !cacheDown && Quiet(old(cache.store), dbData, excelData) ==>
        r == EarlyExit && db.Snapshot() == old(db.Snapshot()) && cache.store == old(cache.store)
      ensures !cacheDown && !Quiet(old(cache.store), dbData, excelData) ==>
        r == Synced &&
        db.Snapshot() == SyncedTables(old(db.Snapshot()), old(cache.store), dbData, excelData) &&
        cache.store == SyncedStore(old(db.Snapshot()), old(cache.store), dbData, excelData)
    {
      var got := cache.GetDiscounts(cacheDown);
      if got.Failure? {
        return Failed(got.error);
      }
      ghost var s0 := cache.store;
      assert got.value == DiscountsIn(s0);
      Walk(got.value, dbData, excelData);
      assert Excel() == ExcelFlat(s0, excelData);
      assert ExcelMaps() == Maps(ExcelFlat(s0, excelData)) && DbMaps() == Maps(DbFlat(s0, dbData));
      if MenuRecords(dbData) == MenuRecords(excelData) && discountPrices == [] && invalidateKeys == {} {
        return EarlyExit;
      }
      Propagate();
      r := Synced;
    }
  }
}
