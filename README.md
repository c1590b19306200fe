# Restaurant menu API: cache coherence and spreadsheet synchronisation

This project models the core of a restaurant menu REST API. The API serves a
three-level tree: a menu has submenus, and a submenu has dishes. It has three
moving parts.

- **Services with a read-through cache.** Each menu, submenu and dish service
  serves detail and list reads from Redis when the key is cached. Otherwise it
  reads the repository and stores the answer. Each mutation invalidates a
  fixed set of keys, which is not always every view it changed (see below).
- **Discount overlay.** A dish discount is stored under `discount:<dish id>`.
  The helpers replace a dish's price by its discount and move every discounted
  dish of a list to the tail. The dish service calls them on the repository's
  rows, where they raise (see below).
- **Spreadsheet synchroniser.** A background job parses a spreadsheet into a
  menu tree. It flattens that tree and the database tree into per-entity maps
  keyed by id. It then creates, deletes and updates rows so that the database
  follows the spreadsheet. It also invalidates the affected cache keys and
  writes changed discounts with a one-hour expiry.

## Modules

| file | module | what it holds |
|---|---|---|
| `wrappers.dfy` | `Wrappers` | `Option`, `Result`, `Get` (Python's `dict.get`) |
| `values.dfy` | `Values` | the values repositories return and Redis stores; Python truthiness |
| `uuids.dfy` | `Uuids` | `uuid.UUID(s)` parsing and `str(uuid)` formatting over text |
| `keys.dfy` | `Keys` | cache-key templates and Redis `*frag*` pattern matching (`Contains`) |
| `cache.dfy` | `Cache` | `CacheService` as a class over a `map` store |
| `discounts.dfy` | `Discounts` | `set_discount` and the in-place `set_discounts` over an `array` |
| `repository.dfy` | `Repositories` | the repository calls the services make |
| `replies.dfy` | `Replies` | how a request ends: value, 404, 400, or an uncaught error (`RedisError`, or the TypeError of the overlay on a `Row`) |
| `dish_service.dfy`, `submenu_service.dfy`, `menu_service.dfy` | `DishServices`, `SubmenuServices`, `MenuServices` | the three service classes and their invalidation key sets |
| `parser.dfy` | `Parsing` | the spreadsheet row parser |
| `tree.dfy` | `Trees` | the menu tree and its flat records |
| `flatten.dfy` | `Flattening` | `parser_data` as a function over the tree |
| `database.dfy` | `Database` | the three tables and the session's edits, including the cascading delete |
| `sync_spec.dfy` | `SyncSpec` | the functions that specify each pass of the synchroniser, and lemmas about them |
| `synchronizer.dfy` | `Synchronization` | `Synchronizer` as a class with the source's fields; each method is proved against `SyncSpec` |

Conventions of the model:

- Redis and the repository are never called. Each request or run takes flags
  that say whether those calls raise.
- The synchroniser's lists become Dafny collections. `invalidate_keys` becomes
  a `set`. The `*_for_update` lists become maps keyed by id.
- The discount writes keep their order, as a sequence, because a later write to
  the same key wins.

## Design intent versus the code

In each case below the code does something a reader of the API would not
expect, and the model follows the code.

- **The early exit compares only the menu records.** `setup` returns
  early when `db_data == self.excel_data` (src/celery/utils.py:49). By then
  `parser_data` has popped `submenus` off every menu dict (line 218) in both
  lists. So the test compares only the top-level menu records, not the whole
  trees. `SyncSpec.Quiet` states exactly that.
- **A Redis failure is not always absorbed.** `get_keys_by_pattern`
  (src/cache/service.py:28-31) has no `try`. So `get_discounts` and
  `get_discount` raise `RedisError` when Redis is down. This has two effects:
  - a dish read that misses the cache and finds the row ends in an uncaught
    error (`Crash`);
  - `setup` fails at its opening `get_discounts`, having changed nothing
    (`Failed(RedisError)`).
- **A submenu create leaves the menu's cached submenu list in place.**
  `SubmenuService.create` invalidates only `MENUS_LIST` and `DETAIL_MENU`
  (src/api/services/submenu.py:109-115), and the synchroniser's submenu
  create stages the same two keys (src/celery/utils.py:123-130). So
  `SUBMENUS_LIST(menu_id)` keeps serving the old list until it expires.
  `SubmenuServices.CreateKeepsCachedList` states this.
- **`ALL_DATA` is not always invalidated.** `setup` calls `cache_invalidate`
  only when `invalidate_keys` is non-empty (src/celery/utils.py:56-57). So the
  full-tree key is dropped only then, or by a delete pass.
- **Updating a missing menu or submenu is a 400, not a 404.** The menu and
  submenu repositories' `update` (src/api/repositories/menu.py:86-99,
  src/api/repositories/submenu.py:72-89) `setattr` on what `_get_from_db`
  found and `session.add` it without testing for `None`, so a missing row
  raises inside the service's `try` and becomes a 400; the `if not menu` /
  `if submenu` 404 after it is never reached. The dish repository tests
  `if dish:` (src/api/repositories/dish.py:99) and its service does answer 404.
- **The dish service's discount overlay raises.** The dish repository selects
  columns (src/api/repositories/dish.py:22-37) and returns SQLAlchemy `Row`
  tuples (`first()` at line 57, `all()` at line 73). A `Row` is immutable and
  indexed by position. So on a cache miss with Redis up:
  - a dish detail whose `discount:<id>` entry is truthy ends in a TypeError at
    `dish['price'] = discount` (src/api/services/utils.py:2, called at
    src/api/services/dish.py:49-51, outside the `try`), and nothing is cached;
  - a non-empty dish list, while any discount is cached, ends in a TypeError at
    `dish["id"]` (src/api/services/utils.py:10, called at
    src/api/services/dish.py:91-93), whether or not a key matches, and nothing
    is cached.

  Both are `Crash` in `DishServices`. `Discounts` models the helpers on the
  dicts they are annotated for: `dish: dict` (src/api/services/utils.py:1)
  and `dishes: list` of dicts (line 7).
- **A discount replaces the price outright.** `set_discount` writes the stored
  value in place of the price (src/api/services/utils.py:2). There is no
  percentage arithmetic.
- **Discounted dishes come out in reverse order.** `set_discounts` walks the
  list from the end and appends each discounted dish. So the discounted dishes
  arrive at the tail in the reverse of their original order. `Overlay` is
  defined that way.
- **No convergence is claimed.** One run of `setup` does not in general make the
  database equal to the spreadsheet:
  - when any menu is stale, the delete pass removes only menus
    (src/celery/utils.py:160-171);
  - otherwise, when any submenu is stale, it removes only submenus (lines
    173-186);
  - the cascade also removes children that the spreadsheet moved to a new
    parent.

  What a run does is proved instead: `Synchronizer.Setup`, `SyncedMenus`,
  `MenusFirst` and `DishesLast`.

## Model

| member | source | states |
|---|---|---|
| Wrappers.Get | src/celery/utils.py:245 | `dict.get`: a value exactly when the key is present, and then the stored one |
| Uuids.Parse | src/celery/parser.py:51 | a text that `uuid.UUID` accepts yields 32 lower-case hex digits |
| Uuids.FormatIsCanonical | src/celery/parser.py:52 | `str(uuid)` of any 32 hex digits is canonical 8-4-4-4-12 lower-case text |
| Uuids.CanonicalParses | src/celery/parser.py:51 | canonical text parses, to its digits with the dashes removed |
| Uuids.CanonicalFormats | src/celery/parser.py:51-52 | canonical text formats back to itself: parse and format round-trip |
| Uuids.IsValidUuid | src/celery/parser.py:47-54 | `uuid.UUID(s)` succeeds and `str` of it gives back `s`; such text is 36 characters long |
| Uuids.ValidIffCanonical | src/celery/parser.py:47-54 | `is_valid_uuid(s)` holds if and only if `s` is canonical UUID text (both directions) |
| Keys.DetailMenu | src/api/services/menu.py:29 | the menu detail key contains the menu id, so a pattern purge by that id reaches it |
| Keys.SubmenusList | src/api/services/submenu.py:67 | the submenu list key contains its menu id |
| Keys.DetailSubmenu | src/api/services/submenu.py:30 | the submenu detail key contains both the menu id and the submenu id |
| Keys.DishesList | src/api/services/dish.py:74 | the dish list key contains both the menu id and the submenu id |
| Keys.DetailDish | src/api/services/dish.py:32 | the dish detail key contains all three ids |
| Keys.DiscountKey | src/cache/service.py:36 | `discount:<id>` matches the `*discount*` pattern `get_discounts` scans |
| Keys.KeysInjective | src/celery/utils.py:248-253 | over canonical ids, equal keys of one kind have equal ids: no two entities share a key |
| Keys.KindsDistinct | src/celery/utils.py:247-263 | the eight key kinds (menu list, full tree, details, lists, discount) never collide |
| Cache.KeysMatching | src/cache/service.py:28-31 | the keys matching `*frag*` are exactly the stored keys containing `frag` |
| Cache.DiscountsIn | src/cache/service.py:42-53 | the discount map holds exactly the stored keys containing `discount`, with their stored values |
| Cache.InvalidatedExactly | src/cache/service.py:79-93 | after `cache_invalidate`, a key survives if and only if it is not named, not `ALL_DATA` and, when the invalid id is given and non-empty (`if invalid_key:`), does not contain it; survivors keep their values |
| Cache.MenuPurgeReachesSubtree | src/celery/utils.py:165-169 | an invalidation by a non-empty menu id drops every detail and list key of that menu's subtree, and `ALL_DATA` |
| Cache.SubmenuPurgeReachesDishes | src/celery/utils.py:178-184 | an invalidation by a non-empty submenu id drops the submenu's detail, its dish list and its dishes' details |
| Cache.CacheService.constructor | src/cache/service.py:25-26 | the service wraps the given store and default expiry |
| Cache.CacheService.GetKeysByPattern | src/cache/service.py:28-31 | raises `RedisError` when Redis is down; otherwise the keys containing the fragment |
| Cache.CacheService.GetObjFromCache | src/cache/service.py:55-62 | `None` when Redis is down (the error is caught), else the stored value or `None` |
| Cache.CacheService.GetDiscounts | src/cache/service.py:42-53 | raises when Redis is down; otherwise exactly the discount entries, with their values |
| Cache.CacheService.GetDiscount | src/cache/service.py:33-40 | raises when Redis is down; otherwise the value under `discount:<id>`, or `None` |
| Cache.CacheService.SetValueIntoCache | src/cache/service.py:64-77 | the key is written with the given expiry or the default; a down Redis leaves the store unchanged |
| Cache.CacheService.CacheInvalidate | src/cache/service.py:79-93 | the named keys, `ALL_DATA` and, when the invalid id is non-empty, every key containing it are unlinked; a down Redis leaves the store unchanged |
| Discounts.SetDiscount | src/api/services/utils.py:1-4 | the dish keeps its id and its other fields; `price` becomes the discount |
| Discounts.OverlayIsPermutation | src/api/services/utils.py:7-16 | the overlaid list is a permutation of the dishes with their discounts applied |
| Discounts.OverlayPrices | src/api/services/utils.py:7-16 | the head holds the undiscounted dishes unchanged; each tail dish is an input dish with its discount as price |
| Discounts.OverlayWithoutDiscounts | src/api/services/dish.py:91-93 | with no discounts cached the overlay is the identity, so skipping `set_discounts` changes nothing |
| Discounts.MoveToEnd | src/api/services/utils.py:12-14 | `del dishes[i]` then `append`: the array minus position `i`, followed by the new dish |
| Discounts.SetDiscounts | src/api/services/utils.py:7-16 | the in-place loop leaves the array equal to the overlay of its old contents, and returns the same array |
| Repositories.Repository.constructor | src/api/repositories/abstract_repository.py:10-37 | a repository over the given rows and lists, with no calls made yet |
| Repositories.Repository.GetDetail | src/api/repositories/dish.py:40-57 | the row at the path or none, or a raise; nothing is changed |
| Repositories.Repository.GetList | src/api/repositories/dish.py:59-73 | the children of the parent (empty when absent), or a raise; nothing is changed |
| Repositories.Repository.Create | src/api/repositories/dish.py:75-82 | the row is stored under its path and returned, or a raise with nothing stored |
| Repositories.Pruned | src/db/models.py:25-27 | the map without the entry at the path and without every entry below it; the rest keep their values |
| Repositories.DeleteRemovesSubtree | src/db/models.py:57-59 | pruning a menu removes its submenus and their dishes, pruning a submenu its dishes; an entry of another menu stays with its value |
| Repositories.Repository.Update | src/api/repositories/dish.py:84-105 | a present row gets the new fields merged over its own; an absent one gives none; a raise changes nothing |
| Repositories.Repository.UpdateFound | src/api/repositories/menu.py:86-99 | a present row gets the new fields merged over its own and is returned; an absent one raises, as does a fault, and nothing changes |
| Repositories.Repository.Delete | src/api/repositories/dish.py:107-125 | reports whether the row existed and, by the cascade, removes it with every row and child list below it; a raise changes nothing |
| DishServices.DeleteKeysCount | src/api/services/dish.py:198-209 | over canonical ids, a delete invalidates exactly what a create (5 keys) and an update (2 keys) would: 6 distinct keys |
| DishServices.DeleteSparesSiblings | src/api/services/dish.py:198-209 | deleting one dish keeps a cached detail of a sibling dish, with its value |
| DishServices.DishService.constructor | src/api/services/dish.py:19-21 | the service holds the given repository and cache |
| DishServices.DishService.GetDetail | src/api/services/dish.py:23-64 | hit: the cached value, repository untouched; miss: 400 on a raise, 404 when absent; when the row exists, a crash with the store unchanged if Redis is down or the dish's discount is truthy (TypeError on the `Row`), else the row as read, cached |
| DishServices.DishService.GetDetailTwice | src/api/services/dish.py:23-64 | a successful read repeated returns the same reply and asks the repository at most once |
| DishServices.DishService.GetList | src/api/services/dish.py:66-100 | hit: the cached list; miss: 400, an uncached empty list; for a non-empty list, a crash with the store unchanged if Redis is down or any discount is cached (TypeError on the `Row`), else the rows as read, cached |
| DishServices.DishService.Create | src/api/services/dish.py:102-134 | 400 leaves everything; success stores the dish and invalidates its list and every ancestor view |
| DishServices.DishService.Update | src/api/services/dish.py:136-174 | 400 on a raise, 404 when absent, else the stored merged row as the reply; on success the dish list and the dish detail are invalidated |
| DishServices.DishService.Delete | src/api/services/dish.py:176-216 | the row is pruned away; 404 when it was absent, else the success message and its six keys invalidated |
| SubmenuServices.CreateKeepsCachedList | src/api/services/submenu.py:109-115 | a submenu create does not invalidate the menu's cached submenu list, which stays as it was |
| SubmenuServices.DeletePurgesSubmenu | src/api/services/submenu.py:177-187 | after a delete of a submenu with a non-empty id no cached key mentions it, and its dish list, its dish details, the menu detail and the menu list are gone |
| SubmenuServices.SubmenuService.constructor | src/api/services/submenu.py:18-20 | the service holds the given repository and cache |
| SubmenuServices.SubmenuService.GetDetail | src/api/services/submenu.py:22-58 | hit: the cached value; miss: 400, 404, or the row, cached while Redis is up |
| SubmenuServices.SubmenuService.GetList | src/api/services/submenu.py:60-87 | hit: the cached list; miss: 400, or the rows, cached when non-empty and Redis is up |
| SubmenuServices.SubmenuService.Create | src/api/services/submenu.py:89-117 | 400 leaves everything; success stores the row and invalidates the menu list and the menu detail |
| SubmenuServices.SubmenuService.Update | src/api/services/submenu.py:119-155 | 400 on a raise or when the submenu is absent (the repository raises), else the stored merged row as the reply; on success the submenu detail and the submenu list are invalidated |
| SubmenuServices.SubmenuService.Delete | src/api/services/submenu.py:157-194 | the row and its dishes are gone; 404 when it was absent, else the message, with four keys and every key containing the submenu id invalidated |
| MenuServices.DeletePurgesMenu | src/api/services/menu.py:181-189 | after a delete of a menu with a non-empty id a stored key survives if and only if it does not mention the menu and is neither the menu list nor `ALL_DATA`; survivors keep their values |
| MenuServices.MenuService.constructor | src/api/services/menu.py:18-20 | the service holds the given repository and cache |
| MenuServices.MenuService.GetDetail | src/api/services/menu.py:22-54 | hit: the cached value; miss: 400, 404, or the row, cached while Redis is up |
| MenuServices.MenuService.GetList | src/api/services/menu.py:56-79 | hit: the cached list; miss: 400, or the rows, cached when non-empty and Redis is up |
| MenuServices.MenuService.Create | src/api/services/menu.py:102-126 | 400 leaves everything; success stores the row and invalidates the menu list |
| MenuServices.MenuService.Update | src/api/services/menu.py:128-163 | 400 on a raise or when the menu is absent (the repository raises), else the stored merged row as the reply; on success the menu list and the menu detail are invalidated |
| MenuServices.MenuService.Delete | src/api/services/menu.py:165-196 | the row, its submenus and their dishes are gone; 404 when it was absent, else the message, with every key containing the menu id invalidated |
| Parsing.ToDict | src/celery/parser.py:32-45 | success needs three cells and a parseable id; title and description are the cell values; a price is present if and only if a fourth cell is, and is its quantized value |
| Parsing.AddSubmenu | src/celery/parser.py:23-24 | only the last menu changes: the submenu is appended to its `submenus` |
| Parsing.AddDish | src/celery/parser.py:25-28 | only the last submenu of the last menu changes: the dish is appended to its `dishes` |
| Parsing.Step | src/celery/parser.py:20-28 | a menu row appends a menu; a submenu row with no menu yet is an `IndexError`; a dish row with no submenu yet is a `KeyError`; other rows change nothing |
| Parsing.ParseRow | src/celery/parser.py:20-28 | the loop body computes `Step` |
| Parsing.ParseObj | src/celery/parser.py:15-30 | the loop over the rows computes the fold of `Step`, stopping at the first error |
| Parsing.FailurePersists | src/celery/parser.py:15-30 | once a prefix of rows has raised, the whole parse ends with that error |
| Parsing.MenusInRowOrder | src/celery/parser.py:21-22 | the parsed menus are the rows with an id in the first column, in row order |
| Parsing.StepWellFormed | src/celery/parser.py:20-28 | one row keeps the tree well formed: canonical ids, and prices only on dishes |
| Parsing.ParsedWellFormed | src/celery/parser.py:15-30 | every parsed tree has canonical UUID text ids and prices only on dishes |
| Trees.MenuRecords | src/celery/utils.py:218 | popping `submenus` leaves each menu's record, in order |
| Flattening.StageDish | src/celery/utils.py:232-265 | the dish is filed under its id with its parents; on the snapshot side a changed discount stages its write and three groups of keys; a dropped discount stages its key and the menu's keys; else nothing is staged |
| Flattening.DbSideStagesNothing | src/celery/utils.py:236-238 | walking the database side stages no write and no key |
| Flattening.TreeFiled | src/celery/utils.py:214-265 | after a walk every row is filed under its id, and its parents are filed too |
| Flattening.TreeStagesDiscounts | src/celery/utils.py:240-246 | every staged write goes to a key that `get_discounts` will read back |
| Flattening.ChangedDishStaged | src/celery/utils.py:243-255 | a dish whose discount changed has its write and its detail, list and menu keys staged |
| Database.SubmenusOf | src/db/models.py:25-27 | exactly the submenus whose `menu_id` is among the given menus |
| Database.DishesOf | src/db/models.py:57-59 | exactly the dishes whose `submenu_id` is among the given submenus |
| Database.UpdatedDish | src/celery/utils.py:104-107 | `values(**dish)` writes id, title, description and `submenu_id`; with no price it keeps the stored price |
| Database.CascadeKeepsIntegrity | src/db/models.py:25-27 | cascading deletes of menus, submenus or dishes leave no dangling foreign key |
| Database.MenuDeletesCompose | src/celery/utils.py:163-164 | deleting menus one by one equals deleting them all at once |
| Database.SubmenuDeletesCompose | src/celery/utils.py:176-177 | deleting submenus one by one equals deleting them all at once |
| Database.Db.constructor | src/celery/utils.py:41 | the session starts from the given tables |
| Database.Db.AddMenu | src/celery/utils.py:120 | the menu is added under its id; nothing else changes |
| Database.Db.AddSubmenu | src/celery/utils.py:126 | the submenu is added under its id; nothing else changes |
| Database.Db.AddDish | src/celery/utils.py:136 | the dish is added under its id; nothing else changes |
| Database.Db.DeleteMenu | src/celery/utils.py:164 | the menu goes, with its submenus and their dishes |
| Database.Db.DeleteSubmenu | src/celery/utils.py:177 | the submenu goes, with its dishes |
| Database.Db.DeleteDish | src/celery/utils.py:195 | the dish goes |
| Database.Db.UpdateMenu | src/celery/utils.py:83-84 | a present menu gets the new record; a missing one is untouched |
| Database.Db.UpdateSubmenu | src/celery/utils.py:94-95 | a present submenu gets the new record and `menu_id`; a missing one is untouched |
| Database.Db.UpdateDish | src/celery/utils.py:106-107 | a present dish gets `UpdatedDish`; a missing one is untouched |
| SyncSpec.IdsToDeleteOrCreate | src/celery/utils.py:287-293 | create: the new ids only, disjoint from the old, covering the union; delete: the old ids only, disjoint from the new |
| SyncSpec.Only | src/celery/utils.py:205-212 | the rows whose ids are selected, unchanged |
| SyncSpec.Changed | src/celery/utils.py:267-280 | exactly the ids in both maps whose rows differ, with the snapshot row |
| SyncSpec.ChangedAligns | src/celery/utils.py:267-280 | overlaying the changed rows on the database makes each shared id hold the snapshot row, and leaves others alone |
| SyncSpec.CreateInsertsExactly | src/celery/utils.py:115-145 | the create pass adds exactly the new ids of each table, with their snapshot rows (dishes without `menu_id`), and keeps every known row |
| SyncSpec.MenusFirst | src/celery/utils.py:160-171 | while a menu is stale, a stale submenu of a kept menu survives the delete pass |
| SyncSpec.DishesLast | src/celery/utils.py:188-203 | with no stale menus or submenus, the delete pass removes exactly the stale dishes |
| SyncSpec.UpdatePass | src/celery/utils.py:76-113 | the update pass keeps every table's ids, and writes each selected row that exists, leaving others |
| SyncSpec.WriteDiscountsKeep | src/celery/utils.py:59-61 | a key no staged write names is kept as it was |
| SyncSpec.WriteDiscountsLast | src/celery/utils.py:59-61 | the last write to a key wins, with the one-hour expiry |
| SyncSpec.DbWalkStagesNothing | src/celery/utils.py:42-46 | the database walk leaves the staging fields empty, so the snapshot walk starts from empty ones |
| SyncSpec.CreatedMenus | src/celery/utils.py:118-121 | after the create pass every snapshot menu is present, and any that did not change holds its snapshot record |
| SyncSpec.DeletedMenus | src/celery/utils.py:160-171 | the delete pass removes exactly the stale menus when there are any, and no menu otherwise |
| SyncSpec.PassMenus | src/celery/utils.py:52-54 | after the three passes the menus table holds every snapshot menu with its snapshot record, no stale menu, and so equals the snapshot's menus |
| SyncSpec.SyncedMenus | src/celery/utils.py:38-61 | a full run leaves the `menus` table equal, row for row, to the spreadsheet's menus |
| SyncSpec.DiscountSettles | src/celery/utils.py:243-246 | once this run's writes are in the cache, the next run sees no change for that discount |
| SyncSpec.StagedKeysPurged | src/celery/utils.py:55-61 | every staged key that no discount write names is absent from the cache after a run |
| Synchronization.Synchronizer.constructor | src/celery/utils.py:15-36 | the fields start empty, over the given session and cache |
| Synchronization.Synchronizer.FileDish | src/celery/utils.py:232-265 | the walked side's fields become `StageDish` of their old value; the other side, the update lists and the discounts are unchanged |
| Synchronization.Synchronizer.FileSubmenu | src/celery/utils.py:224-265 | the walked side becomes the flattening of the submenu; nothing else changes |
| Synchronization.Synchronizer.FileMenu | src/celery/utils.py:217-265 | the walked side becomes the flattening of the menu; nothing else changes |
| Synchronization.Synchronizer.ParserData | src/celery/utils.py:214-265 | the walked side becomes the flattening of the whole tree; nothing else changes |
| Synchronization.Synchronizer.CreateMenus | src/celery/utils.py:118-121 | the new menus are added, and the menu list is staged once for each |
| Synchronization.Synchronizer.CreateSubmenus | src/celery/utils.py:123-130 | the new submenus are added, with the menu list and the parent's detail staged |
| Synchronization.Synchronizer.CreateDishes | src/celery/utils.py:132-145 | the new dishes are added without `menu_id`, with their five keys staged |
| Synchronization.Synchronizer.CreateItems | src/celery/utils.py:115-145 | the tables become `CreatePass` of their old value, and the create keys are staged |
| Synchronization.Synchronizer.DeleteMenus | src/celery/utils.py:160-171 | the stale menus that exist go, with their cascade, and each one's cache purge is applied |
| Synchronization.Synchronizer.DeleteSubmenus | src/celery/utils.py:173-186 | the stale submenus that exist go, with their dishes, and each one's purge is applied |
| Synchronization.Synchronizer.DeleteDishes | src/celery/utils.py:188-203 | the stale dishes go, and each one's six keys are invalidated |
| Synchronization.Synchronizer.DeleteItems | src/celery/utils.py:147-203 | the tables become `DeletePass` (menus, else submenus, else dishes) and the store loses `DeletePurge` |
| Synchronization.Synchronizer.SelectMenus | src/celery/utils.py:270-272 | the menus for update are exactly the changed shared menus |
| Synchronization.Synchronizer.SelectSubmenus | src/celery/utils.py:274-276 | the submenus for update are exactly the changed shared submenus |
| Synchronization.Synchronizer.SelectDishes | src/celery/utils.py:278-280 | the dishes for update are exactly the changed shared dishes |
| Synchronization.Synchronizer.DataForUpdate | src/celery/utils.py:267-280 | the three update selections are each table's `Changed` |
| Synchronization.Synchronizer.UpdateMenus | src/celery/utils.py:81-90 | each selected menu that exists is overwritten, with the menu list and its detail staged |
| Synchronization.Synchronizer.UpdateSubmenus | src/celery/utils.py:92-101 | each selected submenu that exists is overwritten, with its detail and the submenu list staged |
| Synchronization.Synchronizer.UpdateDishes | src/celery/utils.py:103-113 | each selected dish that exists gets `UpdatedDish`, with its list and detail staged |
| Synchronization.Synchronizer.WriteUpdates | src/celery/utils.py:81-113 | the tables become `UpdatePass` of the selections, and the update keys are staged |
| Synchronization.Synchronizer.UpdateItems | src/celery/utils.py:76-113 | selects the changed rows, then applies `UpdatePass` with their keys |
| Synchronization.Synchronizer.Walk | src/celery/utils.py:44-46 | the snapshot fields are the flattening of the spreadsheet tree with nothing staged before, every row filed, and the database maps are those of the database tree |
| Synchronization.Synchronizer.Apply | src/celery/utils.py:52-54 | the tables become `PassTables`; the store loses the delete purges; the pass keys are staged |
| Synchronization.Synchronizer.Flush | src/celery/utils.py:56-61 | one invalidation of the staged keys when there are any, then the discount writes in order |
| Synchronization.Synchronizer.Propagate | src/celery/utils.py:52-61 | the tables become `PassTables` and the store becomes `PassStore` |
| Synchronization.Synchronizer.Setup | src/celery/utils.py:38-61 | a down Redis fails with `RedisError` and changes nothing; a quiet run exits early and changes nothing; otherwise the tables and the store are `SyncedTables` and `SyncedStore` |

## Left out

- Redis is either up or down for a whole request or run (the `cacheDown` flag). A failure partway through a sequence of calls is not modelled.
- Asynchrony, the session's transaction and commit, `BackgroundTasks` and logging are not modelled. The invalidation a service runs as a background task happens here right after the repository call.
- Pickling is treated as the identity. Entry expiry is recorded on the entry but never makes a key vanish: there is no clock.
- `REDIS_CACHE_EXPIRE` (the configuration module is not part of this model) becomes the `defaultExpire` field of the cache service.
- The key templates live in `src/api/keys_for_cache_invalidation`, which is not part of this model. The literals written out in `Keys` are an assumption of this model; what is proved (distinct keys, which keys contain which id) holds for any templates that embed the ids as `Keys` does.
- `Decimal(text).quantize(Decimal('0.00'))` is the `quantize` parameter of the parser. It gives hundredths, or none where it raises. Decimal arithmetic itself is not modelled.
- Uuids.Parse: the `urn:`/`uuid:` prefixes and the other spellings that `uuid.UUID` accepts are not modelled. Braces and dashes are.
- The parser's openpyxl workbook becomes a sequence of rows of optional cell texts. A row shorter than the index tested is an `IndexError`, and an empty title is text rather than `None`.
- `Synchronizer.db_data` and the SQL of `get_objects` are not modelled. `db_data` is the `dbData` tree, required to flatten to the session's tables (`SyncSpec.Loaded`). `get_objects` is the stale ids that exist in the table.
- Synchronization.Synchronizer.Walk: it states the database side's maps only. That its staging fields stay empty is `SyncSpec.DbWalkStagesNothing`.
- Synchronization.Synchronizer.DeleteDishes: `session.get` cannot return `None` here, because the stale dishes are taken from the loaded database side, all of which are rows.
- `dish.pop('menu_id')` mutates `dishes_for_update` in place. This is immaterial, because that list is not read again.
- Duplicate ids within one tree are resolved as the source's dicts resolve them: the later record overwrites.
- NOT NULL and UNIQUE constraints, and the database's rejection of, say, a submenu whose menu is missing, are not modelled.
- `MenuService.get_all_detail_data` and the `ALL_DATA` read path are not modelled. Neither are the legacy `src/services`, `src/repositories` and `src/db/crud` layers, the HTTP routers, or the Celery task wiring.
- The repository is reduced to rows by id path. Its SQL counting columns (`submenus_count`, `dishes_count`) are not modelled.
- Repositories.Repository.Create: the children lists (`lists`) are a fixed input keyed by parent path; a create does not append to its parent's list.
- Repositories.Repository.Delete: a delete removes the lists below the deleted row but does not take the row out of its parent's list.
- The parser never yields a dish `discount`. Discounts reach `parser_data` from a tree that carries them, as the snapshot trees do in `Trees.DishNode`.
