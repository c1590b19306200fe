/**
 * The menu tree as the synchroniser receives it, from the spreadsheet parser
 * or from `Menu.as_dict()` (src/db/models.py), and the flat records it keeps
 * per entity once each child has been given its parents' ids.
 */
module Trees {
  import opened Wrappers
  import opened Values

  /** The scalar columns of one entity: `id`, `title`, `description` and, for a dish, `price`. */
  datatype Record = Record(id: Id, title: Val, description: Val, price: Option<Val>)

  /** A dish of the tree; a spreadsheet dish may carry a `discount`. */
  datatype DishNode = DishNode(rec: Record, discount: Option<Val>)

  /** A submenu with its `dishes` (an absent key reads as the empty list). */
  datatype SubmenuNode = SubmenuNode(rec: Record, dishes: seq<DishNode>)

  /** A menu with its `submenus` (an absent key reads as the empty list). */
  datatype MenuNode = MenuNode(rec: Record, submenus: seq<SubmenuNode>)

  /** A flattened submenu: its record and the `menu_id` it was given. */
  datatype SubmenuRow = SubmenuRow(rec: Record, menuId: Id)

  /** A flattened dish: its record, `submenu_id` and `menu_id`; never a `discount`. */
  datatype DishRow = DishRow(rec: Record, submenuId: Id, menuId: Id)

  /** What is left of a list of menus once `submenus` has been popped off each: its records, in order. */
  function MenuRecords(data: seq<MenuNode>): (r: seq<Record>)
    ensures |r| == |data|
    ensures forall i :: 0 <= i < |data| ==> r[i] == data[i].rec
  {
    if data == [] then [] else MenuRecords(data[..|data| - 1]) + [data[|data| - 1].rec]
  }
}
