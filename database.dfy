/**
 * The three tables of src/db/models.py as the synchroniser's session sees
 * them: `session.add`, `session.delete` and `update(...).values(...)` become
 * map edits. Deleting a menu or a submenu cascades to its children, as the
 * relationships' `cascade='all, delete-orphan'` makes SQLAlchemy do.
 */
module Database {
  import opened Wrappers
  import opened Values
  import opened Trees

  /** A `dishes` row: its columns and `submenu_id` (the table has no `menu_id`). */
  datatype DishCols = DishCols(rec: Record, submenuId: Id)

  /** The `menus`, `submenus` and `dishes` tables, keyed by primary key. */
  datatype Tables = Tables(menus: map<Id, Record>, submenus: map<Id, SubmenuRow>, dishes: map<Id, DishCols>)

  /** Every foreign key points at an existing row. */
  predicate Integrity(t: Tables) {
    (forall s :: s in t.submenus ==> t.submenus[s].menuId in t.menus) &&
    (forall d :: d in t.dishes ==> t.dishes[d].submenuId in t.submenus)
  }

  /** The submenus of the menus `ids`. */
  function SubmenusOf(t: Tables, ids: set<Id>): (r: set<Id>)
    ensures forall s :: s in r <==> s in t.submenus && t.submenus[s].menuId in ids
  {
    set s | s in t.submenus && t.submenus[s].menuId in ids
  }

  /** The dishes of the submenus `ids`. */
  function DishesOf(t: Tables, ids: set<Id>): (r: set<Id>)
    ensures forall d :: d in r <==> d in t.dishes && t.dishes[d].submenuId in ids
  {
    set d | d in t.dishes && t.dishes[d].submenuId in ids
  }

  /** The tables once the menus `ids` are deleted, with their submenus and those submenus' dishes. */
  function WithoutMenus(t: Tables, ids: set<Id>): Tables {
    var subs := SubmenusOf(t, ids);
    Tables(t.menus - ids, t.submenus - subs, t.dishes - DishesOf(t, subs))
  }

  /** The tables once the submenus `ids` are deleted, with their dishes. */
  function WithoutSubmenus(t: Tables, ids: set<Id>): Tables {
    Tables(t.menus, t.submenus - ids, t.dishes - DishesOf(t, ids))
  }

  /** The tables once the dishes `ids` are deleted. */
  function WithoutDishes(t: Tables, ids: set<Id>): Tables {
    t.(dishes := t.dishes - ids)
  }

  /**
   * A `dishes` row once `values(**dish)` has written `rec` and `submenu_id`:
   * a record without `price` leaves the stored price alone.
   */
  function UpdatedDish(cols: DishCols, rec: Record, submenuId: Id): (r: DishCols)
    ensures r.rec.id == rec.id && r.rec.title == rec.title && r.rec.description == rec.description
    ensures r.submenuId == submenuId
    ensures r.rec.price == if rec.price.Some? then rec.price else cols.rec.price
  {
    DishCols(rec.(price := if rec.price.Some? then rec.price else cols.rec.price), submenuId)
  }

  /** A cascading delete leaves no dangling foreign key behind. */
  lemma CascadeKeepsIntegrity(t: Tables, menus: set<Id>, submenus: set<Id>, dishes: set<Id>)
    requires Integrity(t)
    ensures Integrity(WithoutMenus(t, menus))
    ensures Integrity(WithoutSubmenus(t, submenus))
    ensures Integrity(WithoutDishes(t, dishes))
  {
    var t1 := WithoutMenus(t, menus);
    forall d | d in t1.dishes ensures t1.dishes[d].submenuId in t1.submenus {
      assert d !in DishesOf(t, SubmenusOf(t, menus));
    }
    var t2 := WithoutSubmenus(t, submenus);
    forall d | d in t2.dishes ensures t2.dishes[d].submenuId in t2.submenus {
      assert d !in DishesOf(t, submenus);
    }
  }

  /** Deleting menus one after another is deleting them all at once. */
  lemma MenuDeletesCompose(t: Tables, a: set<Id>, b: set<Id>)
    ensures WithoutMenus(WithoutMenus(t, a), b) == WithoutMenus(t, a + b)
  {
    var t1 := WithoutMenus(t, a);
    var subsA := SubmenusOf(t, a);
    var subsB := SubmenusOf(t1, b);
    assert subsA + subsB == SubmenusOf(t, a + b);
    var lhs := WithoutMenus(t1, b);
    var rhs := WithoutMenus(t, a + b);
    assert lhs.submenus == rhs.submenus;
    assert DishesOf(t, subsA) + DishesOf(t1, subsB) == DishesOf(t, subsA + subsB);
    assert lhs.dishes == rhs.dishes;
  }

  /** Deleting submenus one after another is deleting them all at once. */
  lemma SubmenuDeletesCompose(t: Tables, a: set<Id>, b: set<Id>)
    ensures WithoutSubmenus(WithoutSubmenus(t, a), b) == WithoutSubmenus(t, a + b)
  {
    var t1 := WithoutSubmenus(t, a);
    assert DishesOf(t, a) + DishesOf(t1, b) == DishesOf(t, a + b);
    assert WithoutSubmenus(t1, b).dishes == WithoutSubmenus(t, a + b).dishes;
  }

  /** The session's view of the database. */
  class Db {
    var menus: map<Id, Record>
    var submenus: map<Id, SubmenuRow>
    var dishes: map<Id, DishCols>

    constructor (t: Tables)
      ensures Snapshot() == t
    {
      menus := t.menus;
      submenus := t.submenus;
      dishes := t.dishes;
    }

    function Snapshot(): Tables
      reads this
    {
      Tables(menus, submenus, dishes)
    }

    /** `session.add(models.Menu(**menu))`. */
    method AddMenu(rec: Record)
      modifies this`menus
      ensures Snapshot() == old(Snapshot()).(menus := old(menus)[rec.id := rec])
    {
      menus := menus[rec.id := rec];
    }

    /** `session.add(models.Submenu(**submenu))`. */
    method AddSubmenu(row: SubmenuRow)
      modifies this`submenus
      ensures Snapshot() == old(Snapshot()).(submenus := old(submenus)[row.rec.id := row])
    {
      submenus := submenus[row.rec.id := row];
    }

    /** `session.add(models.Dish(**dish))`. */
    method AddDish(cols: DishCols)
      modifies this`dishes
      ensures Snapshot() == old(Snapshot()).(dishes := old(dishes)[cols.rec.id := cols])
    {
      dishes := dishes[cols.rec.id := cols];
    }

    /** `session.delete(menu)`, cascading to its submenus and their dishes. */
    method DeleteMenu(id: Id)
      modifies this
      ensures Snapshot() == WithoutMenus(old(Snapshot()), {id})
    {
      var subs := SubmenusOf(Snapshot(), {id});
      dishes := dishes - DishesOf(Snapshot(), subs);
      submenus := submenus - subs;
      menus := menus - {id};
    }

    /** `session.delete(submenu)`, cascading to its dishes. */
    method DeleteSubmenu(id: Id)
      modifies this`submenus, this`dishes
      ensures Snapshot() == WithoutSubmenus(old(Snapshot()), {id})
    {
      dishes := dishes - DishesOf(Snapshot(), {id});
      submenus := submenus - {id};
    }

    /** `session.delete(dish)`. */
    method DeleteDish(id: Id)
      modifies this`dishes
      ensures Snapshot() == WithoutDishes(old(Snapshot()), {id})
    {
      dishes := dishes - {id};
    }

    /** `update(Menu).where(id == menu['id']).values(**menu)`: touches no row when the id is gone. */
    method UpdateMenu(rec: Record)
      modifies this`menus
      ensures Snapshot() == old(Snapshot()).(menus := if rec.id in old(menus) then old(menus)[rec.id := rec] else old(menus))
    {
      if rec.id in menus {
        menus := menus[rec.id := rec];
      }
    }

    /** The same for a submenu; its `menu_id` is written as well. */
    method UpdateSubmenu(row: SubmenuRow)
      modifies this`submenus
      ensures Snapshot() == old(Snapshot()).(submenus :=
        if row.rec.id in old(submenus) then old(submenus)[row.rec.id := row] else old(submenus))
    {
      if row.rec.id in submenus {
        submenus := submenus[row.rec.id := row];
      }
    }

    /** The same for a dish and its `submenu_id`. */
    method UpdateDish(rec: Record, submenuId: Id)
      modifies this`dishes
      ensures Snapshot() == old(Snapshot()).(dishes :=
        if rec.id in old(dishes) then old(dishes)[rec.id := UpdatedDish(old(dishes)[rec.id], rec, submenuId)] else old(dishes))
    {
      if rec.id in dishes {
        dishes := dishes[rec.id := UpdatedDish(dishes[rec.id], rec, submenuId)];
      }
    }
  }
}
