/**
 * `Synchronizer.parser_data` (src/celery/utils.py) as a function: the walk
 * over a menu tree that files every menu, submenu and dish under its id and,
 * on the spreadsheet side, stages discount writes and cache invalidations.
 * Each function continues from the state `f` the previous walk left.
 */
module Flattening {
  import opened Wrappers
  import opened Values
  import opened Keys
  import opened Cache
  import opened Trees

  /** The synchroniser's fields that one walk fills. */
  datatype Flat = Flat(
    menus: map<Id, Record>,             // db_menus / excel_menus
    submenus: map<Id, SubmenuRow>,      // db_submenus / excel_submenus
    dishes: map<Id, DishRow>,           // db_dishes / excel_dishes
    prices: seq<(string, Val)>,         // discount_prices
    keys: set<string>)                  // invalidate_keys

  const Empty: Flat := Flat(map[], map[], map[], [], {})

  /**
   * Which side is walked, and what the spreadsheet side compares with: the
   * discounts read at the start of `setup` and the cache keys at the time.
   */
  datatype Side = Side(isDb: bool, discounts: map<string, Val>, store: map<string, Entry>)

  /** A snapshot dish whose `discount` differs from the cached one. */
  predicate DiscountChanged(c: Side, dish: DishNode) {
    dish.discount.Some? && dish.discount.value != Get(c.discounts, DiscountKey(dish.rec.id)).GetOr(Null)
  }

  /** A snapshot dish with no `discount` whose discount key is cached. */
  predicate DiscountDropped(c: Side, dish: DishNode) {
    dish.discount.None? && DiscountKey(dish.rec.id) in c.discounts
  }

  /** The inner loop body of `parser_data` for one dish of submenu `s` of menu `m`. */
  function StageDish(f: Flat, c: Side, m: Id, s: Id, dish: DishNode): (r: Flat)
    ensures r.menus == f.menus && r.submenus == f.submenus
    ensures r.dishes == f.dishes[dish.rec.id := DishRow(dish.rec, s, m)]
    ensures r.prices == if !c.isDb && DiscountChanged(c, dish)
                        then f.prices + [(DiscountKey(dish.rec.id), dish.discount.value)] else f.prices
    ensures !c.isDb && DiscountChanged(c, dish) ==>
      r.keys == f.keys + {DetailDish(m, s, dish.rec.id), DishesList(m, s)} + KeysMatching(c.store, m)
    ensures !c.isDb && DiscountDropped(c, dish) ==>
      r.keys == f.keys + {DiscountKey(dish.rec.id)} + KeysMatching(c.store, m)
    ensures c.isDb || !(DiscountChanged(c, dish) || DiscountDropped(c, dish)) ==> r.keys == f.keys
  {
    var id := dish.rec.id;
    var row := DishRow(dish.rec, s, m);
    if c.isDb then f.(dishes := f.dishes[id := row])
    else
      var key := DiscountKey(id);
      var inv := KeysMatching(c.store, m);
      var staged :=
        match dish.discount
        case Some(v) =>
          if v != Get(c.discounts, key).GetOr(Null)
          then f.(prices := f.prices + [(key, v)], keys := f.keys + {DetailDish(m, s, id), DishesList(m, s)} + inv)
          else f
        case None =>
          if key in c.discounts then f.(keys := f.keys + {key} + inv) else f;
      staged.(dishes := staged.dishes[id := row])
  }

  function FlattenDishes(f: Flat, c: Side, m: Id, s: Id, dishes: seq<DishNode>): Flat {
    if dishes == [] then f
    else StageDish(FlattenDishes(f, c, m, s, dishes[..|dishes| - 1]), c, m, s, dishes[|dishes| - 1])
  }

  /** A submenu of menu `m`: filed with `menu_id`, then its dishes. */
  function FlattenSubmenu(f: Flat, c: Side, m: Id, sub: SubmenuNode): Flat {
    FlattenDishes(f.(submenus := f.submenus[sub.rec.id := SubmenuRow(sub.rec, m)]), c, m, sub.rec.id, sub.dishes)
  }

  function FlattenSubmenus(f: Flat, c: Side, m: Id, subs: seq<SubmenuNode>): Flat {
    if subs == [] then f
    else FlattenSubmenu(FlattenSubmenus(f, c, m, subs[..|subs| - 1]), c, m, subs[|subs| - 1])
  }

  /** A menu: its `submenus` popped, the rest filed under its id, then its submenus. */
  function FlattenMenu(f: Flat, c: Side, menu: MenuNode): Flat {
    FlattenSubmenus(f.(menus := f.menus[menu.rec.id := menu.rec]), c, menu.rec.id, menu.submenus)
  }

  /** `parser_data(data, is_db)`. */
  function FlattenTree(f: Flat, c: Side, data: seq<MenuNode>): Flat {
    if data == [] then f
    else FlattenMenu(FlattenTree(f, c, data[..|data| - 1]), c, data[|data| - 1])
  }

  // ---- The database side stages nothing ----

  lemma {:induction false} DbDishesStageNothing(f: Flat, c: Side, m: Id, s: Id, dishes: seq<DishNode>)
    requires c.isDb
    ensures FlattenDishes(f, c, m, s, dishes).prices == f.prices && FlattenDishes(f, c, m, s, dishes).keys == f.keys
  {
    if dishes != [] {
      DbDishesStageNothing(f, c, m, s, dishes[..|dishes| - 1]);
    }
  }

  lemma {:induction false} DbSubmenusStageNothing(f: Flat, c: Side, m: Id, subs: seq<SubmenuNode>)
    requires c.isDb
    ensures FlattenSubmenus(f, c, m, subs).prices == f.prices && FlattenSubmenus(f, c, m, subs).keys == f.keys
  {
    if subs != [] {
      var g := FlattenSubmenus(f, c, m, subs[..|subs| - 1]);
      DbSubmenusStageNothing(f, c, m, subs[..|subs| - 1]);
      var sub := subs[|subs| - 1];
      DbDishesStageNothing(g.(submenus := g.submenus[sub.rec.id := SubmenuRow(sub.rec, m)]), c, m, sub.rec.id, sub.dishes);
    }
  }

  /** Walking the database tree leaves `discount_prices` and `invalidate_keys` as they were. */
  lemma {:induction false} DbSideStagesNothing(f: Flat, c: Side, data: seq<MenuNode>)
    requires c.isDb
    ensures FlattenTree(f, c, data).prices == f.prices && FlattenTree(f, c, data).keys == f.keys
  {
    if data != [] {
      var g := FlattenTree(f, c, data[..|data| - 1]);
      DbSideStagesNothing(f, c, data[..|data| - 1]);
      var menu := data[|data| - 1];
      DbSubmenusStageNothing(g.(menus := g.menus[menu.rec.id := menu.rec]), c, menu.rec.id, menu.submenus);
    }
  }

  // ---- Every row is filed under its id, with parents that were filed too ----

  /**
   * Every row is filed under its own id; each submenu's `menu_id` is a filed
   * menu, and each dish's `submenu_id` and `menu_id` are filed too.
   */
  predicate Filed(f: Flat) {
    (forall m :: m in f.menus ==> f.menus[m].id == m) &&
    (forall s :: s in f.submenus ==> f.submenus[s].rec.id == s && f.submenus[s].menuId in f.menus) &&
    (forall d :: d in f.dishes ==> f.dishes[d].rec.id == d && f.dishes[d].submenuId in f.submenus && f.dishes[d].menuId in f.menus)
  }

  lemma {:induction false} DishesFiled(f: Flat, c: Side, m: Id, s: Id, dishes: seq<DishNode>)
    requires Filed(f) && m in f.menus && s in f.submenus
    ensures Filed(FlattenDishes(f, c, m, s, dishes))
    ensures FlattenDishes(f, c, m, s, dishes).menus == f.menus
    ensures FlattenDishes(f, c, m, s, dishes).submenus == f.submenus
  {
    if dishes != [] {
      DishesFiled(f, c, m, s, dishes[..|dishes| - 1]);
    }
  }

  lemma {:induction false} SubmenusFiled(f: Flat, c: Side, m: Id, subs: seq<SubmenuNode>)
    requires Filed(f) && m in f.menus
    ensures Filed(FlattenSubmenus(f, c, m, subs))
    ensures FlattenSubmenus(f, c, m, subs).menus == f.menus
  {
    if subs != [] {
      var g := FlattenSubmenus(f, c, m, subs[..|subs| - 1]);
      SubmenusFiled(f, c, m, subs[..|subs| - 1]);
      var sub := subs[|subs| - 1];
      var g' := g.(submenus := g.submenus[sub.rec.id := SubmenuRow(sub.rec, m)]);
      assert Filed(g');
      DishesFiled(g', c, m, sub.rec.id, sub.dishes);
    }
  }

  /** `parser_data` files every row under its id and links every child to filed parents. */
  lemma {:induction false} TreeFiled(f: Flat, c: Side, data: seq<MenuNode>)
    requires Filed(f)
    ensures Filed(FlattenTree(f, c, data))
  {
    if data != [] {
      var g := FlattenTree(f, c, data[..|data| - 1]);
      TreeFiled(f, c, data[..|data| - 1]);
      var menu := data[|data| - 1];
      var g' := g.(menus := g.menus[menu.rec.id := menu.rec]);
      assert Filed(g');
      SubmenusFiled(g', c, menu.rec.id, menu.submenus);
    }
  }

  // ---- Every staged discount is a discount key ----

  /** Every staged write goes to a key `get_discounts` will read back. */
  predicate PricesAreDiscounts(f: Flat) {
    forall i :: 0 <= i < |f.prices| ==> Contains(f.prices[i].0, "discount")
  }

  lemma {:induction false} DishesStageDiscounts(f: Flat, c: Side, m: Id, s: Id, dishes: seq<DishNode>)
    requires PricesAreDiscounts(f)
    ensures PricesAreDiscounts(FlattenDishes(f, c, m, s, dishes))
  {
    if dishes != [] {
      DishesStageDiscounts(f, c, m, s, dishes[..|dishes| - 1]);
      var d := dishes[|dishes| - 1];
      assert Contains(DiscountKey(d.rec.id), "discount");
    }
  }

  lemma {:induction false} SubmenusStageDiscounts(f: Flat, c: Side, m: Id, subs: seq<SubmenuNode>)
    requires PricesAreDiscounts(f)
    ensures PricesAreDiscounts(FlattenSubmenus(f, c, m, subs))
  {
    if subs != [] {
      var g := FlattenSubmenus(f, c, m, subs[..|subs| - 1]);
      SubmenusStageDiscounts(f, c, m, subs[..|subs| - 1]);
      var sub := subs[|subs| - 1];
      DishesStageDiscounts(g.(submenus := g.submenus[sub.rec.id := SubmenuRow(sub.rec, m)]), c, m, sub.rec.id, sub.dishes);
    }
  }

  /** `parser_data` stages writes only under `discount:<id>` keys. */
  lemma {:induction false} TreeStagesDiscounts(f: Flat, c: Side, data: seq<MenuNode>)
    requires PricesAreDiscounts(f)
    ensures PricesAreDiscounts(FlattenTree(f, c, data))
  {
    if data != [] {
      var g := FlattenTree(f, c, data[..|data| - 1]);
      TreeStagesDiscounts(f, c, data[..|data| - 1]);
      var menu := data[|data| - 1];
      SubmenusStageDiscounts(g.(menus := g.menus[menu.rec.id := menu.rec]), c, menu.rec.id, menu.submenus);
    }
  }

  // ---- A staged dish brings its whole menu's cache keys along ----

  lemma {:induction false} DishesKeysGrow(f: Flat, c: Side, m: Id, s: Id, dishes: seq<DishNode>)
    ensures f.keys <= FlattenDishes(f, c, m, s, dishes).keys
    ensures |f.prices| <= |FlattenDishes(f, c, m, s, dishes).prices|
  {
    if dishes != [] {
      DishesKeysGrow(f, c, m, s, dishes[..|dishes| - 1]);
    }
  }

  /**
   * A spreadsheet dish whose discount changed stages `(discount:<id>, value)`
   * once and invalidates its detail, its list and every cached key containing
   * its menu id; the keys stay staged through the rest of the walk.
   */
  lemma {:induction false} ChangedDishStaged(f: Flat, c: Side, m: Id, s: Id, dishes: seq<DishNode>, k: nat)
    requires !c.isDb && k < |dishes| && DiscountChanged(c, dishes[k])
    ensures var r := FlattenDishes(f, c, m, s, dishes);
      DetailDish(m, s, dishes[k].rec.id) in r.keys && DishesList(m, s) in r.keys && KeysMatching(c.store, m) <= r.keys
    ensures (DiscountKey(dishes[k].rec.id), dishes[k].discount.value) in FlattenDishes(f, c, m, s, dishes).prices
  {
    var prefix := dishes[..|dishes| - 1];
    if k == |dishes| - 1 {
      var g := FlattenDishes(f, c, m, s, prefix);
      assert StageDish(g, c, m, s, dishes[k]).prices[|g.prices|] == (DiscountKey(dishes[k].rec.id), dishes[k].discount.value);
    } else {
      assert prefix[k] == dishes[k];
      ChangedDishStaged(f, c, m, s, prefix, k);
      var g := FlattenDishes(f, c, m, s, prefix);
      var pair := (DiscountKey(dishes[k].rec.id), dishes[k].discount.value);
      var i :| 0 <= i < |g.prices| && g.prices[i] == pair;
      assert StageDish(g, c, m, s, dishes[|dishes| - 1]).prices[i] == pair;
    }
  }
}
