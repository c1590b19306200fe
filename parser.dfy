/**
 * `Parser` (src/celery/parser.py): turns the rows of the menu spreadsheet
 * into the menu tree. Column 0 holds menu ids, column 1 submenu ids and
 * column 2 dish ids; the cells after an id hold title, description and, for
 * a dish, the price. Loading the workbook is not modelled: the rows are
 * given, each as its cells' values.
 */
module Parsing {
  import opened Wrappers
  import opened Values
  import opened Uuids
  import opened Trees

  /** A cell's `value`: `None` for an empty cell, otherwise its text. */
  type Cell = Option<string>

  /** The exceptions `parse_obj` lets escape. */
  datatype ParseError =
    | IndexError        // a row too short, or `data[-1]` on an empty list
    | KeyError          // a dish before any submenu of the last menu
    | AttributeError    // `to_dict` given fewer than three cells: `None.value`
    | TypeError         // `uuid.UUID(None)` or `Decimal(None)`
    | ValueError        // `uuid.UUID` on text that is not a UUID
    | InvalidOperation  // the price text is not a number

  function Min(a: int, b: int): int { if a <= b then a else b }

  function CellValue(c: Cell): Val {
    match c
    case None => Null
    case Some(t) => Text(t)
  }

  /** `row[i].value and self.is_valid_uuid(row[i].value)`. */
  predicate IdCell(c: Cell) {
    c.Some? && c.value != "" && IsValidUuid(c.value)
  }

  /**
   * `to_dict(*cells)`: `id`, `title` and `description` from the first three
   * cells and, when a fourth is passed, `price` through `quantize`
   * (`Decimal(text).quantize(Decimal('0.00'))`, in hundredths, `None` where it raises).
   */
  function ToDict(cells: seq<Cell>, quantize: string -> Option<int>): (r: Result<Record, ParseError>)
    ensures |cells| > 0 && IdCell(cells[0]) && |cells| >= 3 && |cells| < 4 ==> r.Success?
    ensures r.Success? ==> |cells| >= 3 && cells[0].Some? && Parse(cells[0].value).Some?
    ensures r.Success? ==> r.value.title == CellValue(cells[1]) && r.value.description == CellValue(cells[2])
    ensures r.Success? ==> (r.value.price.Some? <==> |cells| >= 4)
    ensures r.Success? && IdCell(cells[0]) ==> r.value.id == cells[0].value
    ensures r.Success? && |cells| >= 4 ==>
      cells[3].Some? && quantize(cells[3].value).Some? && r.value.price == Some(Cents(quantize(cells[3].value).value))
  {
    if |cells| == 0 then Failure(AttributeError)
    else match cells[0]
      case None => Failure(TypeError)
      case Some(u) =>
        match Parse(u)
        case None => Failure(ValueError)
        case Some(h) =>
          if |cells| < 3 then Failure(AttributeError)
          else
            var rec := Record(Format(h), CellValue(cells[1]), CellValue(cells[2]), None);
            if |cells| < 4 then Success(rec)
            else match cells[3]
              case None => Failure(TypeError)
              case Some(p) =>
                match quantize(p)
                case None => Failure(InvalidOperation)
                case Some(c) => Success(rec.(price := Some(Cents(c))))
  }

  /** The menus, each with a new submenu appended to the last one. */
  function AddSubmenu(data: seq<MenuNode>, rec: Record): (r: seq<MenuNode>)
    requires data != []
    ensures |r| == |data| && r[..|data| - 1] == data[..|data| - 1]
    ensures r[|data| - 1].rec == data[|data| - 1].rec
    ensures r[|data| - 1].submenus == data[|data| - 1].submenus + [SubmenuNode(rec, [])]
  {
    var menu := data[|data| - 1];
    data[|data| - 1 := menu.(submenus := menu.submenus + [SubmenuNode(rec, [])])]
  }

  /** The menus, with a new dish appended to the last submenu of the last one. */
  function AddDish(data: seq<MenuNode>, rec: Record): (r: seq<MenuNode>)
    requires data != [] && data[|data| - 1].submenus != []
    ensures |r| == |data| && r[..|data| - 1] == data[..|data| - 1]
    ensures r[|data| - 1].rec == data[|data| - 1].rec
    ensures |r[|data| - 1].submenus| == |data[|data| - 1].submenus|
    ensures var n := |data[|data| - 1].submenus|;
      r[|data| - 1].submenus[..n - 1] == data[|data| - 1].submenus[..n - 1] &&
      r[|data| - 1].submenus[n - 1].rec == data[|data| - 1].submenus[n - 1].rec &&
      r[|data| - 1].submenus[n - 1].dishes == data[|data| - 1].submenus[n - 1].dishes + [DishNode(rec, None)]
  {
    var menu := data[|data| - 1];
    var sub := menu.submenus[|menu.submenus| - 1];
    var sub' := sub.(dishes := sub.dishes + [DishNode(rec, None)]);
    data[|data| - 1 := menu.(submenus := menu.submenus[|menu.submenus| - 1 := sub'])]
  }

  /**
   * One iteration of `parse_obj`: column 0 before column 1 before column 2;
   * a row with no id in any of them is skipped.
   */
  function Step(data: seq<MenuNode>, row: seq<Cell>, quantize: string -> Option<int>): (r: Result<seq<MenuNode>, ParseError>)
    ensures |row| >= 1 && IdCell(row[0]) && r.Success? ==>
      |r.value| == |data| + 1 && r.value[..|data|] == data &&
      r.value[|data|].rec.id == row[0].value && r.value[|data|].submenus == []
    ensures |row| >= 2 && !IdCell(row[0]) && IdCell(row[1]) ==> (data == [] ==> r == Failure(IndexError))
    ensures |row| >= 2 && !IdCell(row[0]) && IdCell(row[1]) && r.Success? ==>
      data != [] && ToDict(row[1..Min(4, |row|)], quantize).Success? &&
      r.value == AddSubmenu(data, ToDict(row[1..Min(4, |row|)], quantize).value)
    ensures |row| >= 3 && !IdCell(row[0]) && !IdCell(row[1]) && IdCell(row[2]) && data != [] ==>
      (data[|data| - 1].submenus == [] ==> r == Failure(KeyError))
    ensures |row| >= 3 && !IdCell(row[0]) && !IdCell(row[1]) && IdCell(row[2]) && r.Success? ==>
      data != [] && data[|data| - 1].submenus != [] && ToDict(row[2..Min(6, |row|)], quantize).Success? &&
      r.value == AddDish(data, ToDict(row[2..Min(6, |row|)], quantize).value)
    ensures |row| >= 3 && !IdCell(row[0]) && !IdCell(row[1]) && !IdCell(row[2]) ==> r == Success(data)
  {
    if |row| < 1 then Failure(IndexError)
    else if IdCell(row[0]) then
      match ToDict(row[..Min(3, |row|)], quantize)
      case Failure(e) => Failure(e)
      case Success(rec) => Success(data + [MenuNode(rec, [])])
    else if |row| < 2 then Failure(IndexError)
    else if IdCell(row[1]) then
      if data == [] then Failure(IndexError)
      else match ToDict(row[1..Min(4, |row|)], quantize)
        case Failure(e) => Failure(e)
        case Success(rec) => Success(AddSubmenu(data, rec))
    else if |row| < 3 then Failure(IndexError)
    else if IdCell(row[2]) then
      if data == [] then Failure(IndexError)
      else if data[|data| - 1].submenus == [] then Failure(KeyError)
      else match ToDict(row[2..Min(6, |row|)], quantize)
        case Failure(e) => Failure(e)
        case Success(rec) => Success(AddDish(data, rec))
    else Success(data)
  }

  /** What `parse_obj` returns for the rows, or the first exception it raises. */
  function ParseRows(rows: seq<seq<Cell>>, quantize: string -> Option<int>): Result<seq<MenuNode>, ParseError>
  {
    if rows == [] then Success([])
    else match ParseRows(rows[..|rows| - 1], quantize)
      case Failure(e) => Failure(e)
      case Success(data) => Step(data, rows[|rows| - 1], quantize)
  }

  /** An exception on some row is the exception of the whole parse. */
  lemma {:induction false} FailurePersists(rows: seq<seq<Cell>>, quantize: string -> Option<int>, i: nat)
    requires i <= |rows| && ParseRows(rows[..i], quantize).Failure?
    ensures ParseRows(rows, quantize) == ParseRows(rows[..i], quantize)
    decreases |rows| - i
  {
    if i < |rows| {
      assert rows[..i + 1][..i] == rows[..i];
      FailurePersists(rows, quantize, i + 1);
    } else {
      assert rows[..i] == rows;
    }
  }

  /** The body of the loop of `parse_obj()` for one row, with `data` as the rows before it left it. */
  method ParseRow(data: seq<MenuNode>, row: seq<Cell>, quantize: string -> Option<int>) returns (r: Result<seq<MenuNode>, ParseError>)
    ensures r == Step(data, row, quantize)
  {
    if |row| < 1 {
      return Failure(IndexError);
    }
    if IdCell(row[0]) {
      var rec := ToDict(row[..Min(3, |row|)], quantize);
      if rec.Failure? {
        return Failure(rec.error);
      }
      return Success(data + [MenuNode(rec.value, [])]);
    }
    if |row| < 2 {
      return Failure(IndexError);
    }
    if IdCell(row[1]) {
      if data == [] {
        return Failure(IndexError);
      }
      var rec := ToDict(row[1..Min(4, |row|)], quantize);
      if rec.Failure? {
        return Failure(rec.error);
      }
      var last := data[|data| - 1];
      return Success(data[|data| - 1 := last.(submenus := last.submenus + [SubmenuNode(rec.value, [])])]);
    }
    if |row| < 3 {
      return Failure(IndexError);
    }
    if IdCell(row[2]) {
      if data == [] {
        return Failure(IndexError);
      }
      if data[|data| - 1].submenus == [] {
        return Failure(KeyError);
      }
      var rec := ToDict(row[2..Min(6, |row|)], quantize);
      if rec.Failure? {
        return Failure(rec.error);
      }
      var last := data[|data| - 1];
      var sub := last.submenus[|last.submenus| - 1];
      var sub' := sub.(dishes := sub.dishes + [DishNode(rec.value, None)]);
      return Success(data[|data| - 1 := last.(submenus := last.submenus[|last.submenus| - 1 := sub'])]);
    }
    return Success(data);
  }

  /** `parse_obj()`: walks the rows once, appending to `data` and to its last menu and submenu. */
  method ParseObj(rows: seq<seq<Cell>>, quantize: string -> Option<int>) returns (r: Result<seq<MenuNode>, ParseError>)
    ensures r == ParseRows(rows, quantize)
  {
    var data: seq<MenuNode> := [];
    for i := 0 to |rows|
      invariant ParseRows(rows[..i], quantize) == Success(data)
    {
      assert rows[..i + 1][..i] == rows[..i] && rows[..i + 1][i] == rows[i];
      var next := ParseRow(data, rows[i], quantize);
      if next.Failure? {
        assert ParseRows(rows[..i + 1], quantize) == next;
        FailurePersists(rows, quantize, i + 1);
        return next;
      }
      data := next.value;
    }
    assert rows[..|rows|] == rows;
    r := Success(data);
  }

  /** The ids in column 0 of the rows that start a menu, in order. */
  function MenuIdRows(rows: seq<seq<Cell>>): seq<string> {
    if rows == [] then []
    else
      var row := rows[|rows| - 1];
      MenuIdRows(rows[..|rows| - 1]) + (if |row| >= 1 && IdCell(row[0]) then [row[0].value] else [])
  }

  function MenuIds(data: seq<MenuNode>): (r: seq<Id>)
    ensures |r| == |data|
  {
    if data == [] then [] else MenuIds(data[..|data| - 1]) + [data[|data| - 1].rec.id]
  }

  lemma {:induction false} MenuIdsPrefix(data: seq<MenuNode>, k: nat)
    requires k <= |data|
    ensures MenuIds(data[..k]) == MenuIds(data)[..k]
    decreases |data|
  {
    if k < |data| {
      assert data[..|data| - 1][..k] == data[..k];
      MenuIdsPrefix(data[..|data| - 1], k);
    } else {
      assert data[..k] == data;
    }
  }

  /** Submenu and dish rows change no menu id: the menus are those of the column-0 rows, in row order. */
  lemma {:induction false} MenusInRowOrder(rows: seq<seq<Cell>>, quantize: string -> Option<int>)
    requires ParseRows(rows, quantize).Success?
    ensures MenuIds(ParseRows(rows, quantize).value) == MenuIdRows(rows)
  {
    if rows != [] {
      var prefix := rows[..|rows| - 1];
      var row := rows[|rows| - 1];
      MenusInRowOrder(prefix, quantize);
      var data := ParseRows(prefix, quantize).value;
      var next := ParseRows(rows, quantize).value;
      if |row| >= 1 && IdCell(row[0]) {
        assert next[..|data|] == data;
        assert next[..|next| - 1] == data;
      } else if (|row| >= 2 && IdCell(row[1])) || (|row| >= 3 && IdCell(row[2])) {
        assert |next| == |data| && next[..|data| - 1] == data[..|data| - 1];
        assert next[|data| - 1].rec == data[|data| - 1].rec;
        MenuIdsPrefix(next, |data| - 1);
        MenuIdsPrefix(data, |data| - 1);
        assert MenuIds(next) == MenuIds(next)[..|data| - 1] + [next[|data| - 1].rec.id];
        assert MenuIds(data) == MenuIds(data)[..|data| - 1] + [data[|data| - 1].rec.id];
      }
    }
  }

  /**
   * Every record of a parsed tree has canonical UUID text as id, and only
   * dishes can have a price.
   */
  predicate WellFormed(data: seq<MenuNode>) {
    forall i :: 0 <= i < |data| ==>
      IsCanonical(data[i].rec.id) && data[i].rec.price.None? &&
      forall j :: 0 <= j < |data[i].submenus| ==>
        IsCanonical(data[i].submenus[j].rec.id) && data[i].submenus[j].rec.price.None? &&
        forall k :: 0 <= k < |data[i].submenus[j].dishes| ==> IsCanonical(data[i].submenus[j].dishes[k].rec.id)
  }

  lemma ToDictCanonical(cells: seq<Cell>, quantize: string -> Option<int>)
    requires |cells| > 0 && IdCell(cells[0]) && ToDict(cells, quantize).Success?
    ensures IsCanonical(ToDict(cells, quantize).value.id)
  {
    ValidIffCanonical(cells[0].value);
  }

  /** A new menu keeps the tree well formed. */
  lemma AppendMenuWellFormed(data: seq<MenuNode>, rec: Record)
    requires WellFormed(data) && IsCanonical(rec.id) && rec.price.None?
    ensures WellFormed(data + [MenuNode(rec, [])])
  {
  }

  /** A new submenu under the last menu keeps the tree well formed. */
  lemma AddSubmenuWellFormed(data: seq<MenuNode>, rec: Record)
    requires WellFormed(data) && data != [] && IsCanonical(rec.id) && rec.price.None?
    ensures WellFormed(AddSubmenu(data, rec))
  {
    var r := AddSubmenu(data, rec);
    forall i | 0 <= i < |r| - 1 ensures r[i] == data[i] {
      assert r[..|data| - 1][i] == data[..|data| - 1][i];
    }
  }

  /** A new dish under the last submenu keeps the tree well formed. */
  lemma AddDishWellFormed(data: seq<MenuNode>, rec: Record)
    requires WellFormed(data) && data != [] && data[|data| - 1].submenus != [] && IsCanonical(rec.id)
    ensures WellFormed(AddDish(data, rec))
  {
    var r := AddDish(data, rec);
    var last, n := |data| - 1, |data[|data| - 1].submenus|;
    forall i | 0 <= i < last ensures r[i] == data[i] {
      assert r[..last][i] == data[..last][i];
    }
    forall j | 0 <= j < n - 1 ensures r[last].submenus[j] == data[last].submenus[j] {
      assert r[last].submenus[..n - 1][j] == data[last].submenus[..n - 1][j];
    }
  }

  lemma StepWellFormed(data: seq<MenuNode>, row: seq<Cell>, quantize: string -> Option<int>)
    requires WellFormed(data) && Step(data, row, quantize).Success?
    ensures WellFormed(Step(data, row, quantize).value)
  {
    if |row| >= 1 && IdCell(row[0]) {
      var cells := row[..Min(3, |row|)];
      assert cells[0] == row[0];
      ToDictCanonical(cells, quantize);
      AppendMenuWellFormed(data, ToDict(cells, quantize).value);
    } else if IdCell(row[1]) {
      var cells := row[1..Min(4, |row|)];
      assert cells[0] == row[1];
      ToDictCanonical(cells, quantize);
      AddSubmenuWellFormed(data, ToDict(cells, quantize).value);
    } else if IdCell(row[2]) {
      var cells := row[2..Min(6, |row|)];
      assert cells[0] == row[2];
      ToDictCanonical(cells, quantize);
      AddDishWellFormed(data, ToDict(cells, quantize).value);
    }
  }

  /** A parsed tree is well formed: canonical ids throughout, no price on a menu or a submenu. */
  lemma {:induction false} ParsedWellFormed(rows: seq<seq<Cell>>, quantize: string -> Option<int>)
    requires ParseRows(rows, quantize).Success?
    ensures WellFormed(ParseRows(rows, quantize).value)
  {
    if rows != [] {
      ParsedWellFormed(rows[..|rows| - 1], quantize);
      StepWellFormed(ParseRows(rows[..|rows| - 1], quantize).value, rows[|rows| - 1], quantize);
    }
  }
}
