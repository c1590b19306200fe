/**
 * The repositories the services call (the `src/api/repositories` package), reduced to
 * what the services observe: a row found or not, a list, a mutation that
 * succeeds or raises. A row is addressed by the ids on its path from the
 * menu: `[m]`, `[m, s]` or `[m, s, d]`.
 */
module Repositories {
  import opened Wrappers
  import opened Values

  type Path = seq<Id>

  /** Any exception a repository call raises (the services turn it into 400). */
  datatype RepoError = DbError

  /**
   * The entries of `m` outside the subtree at `path`: what the ORM cascade
   * (`cascade='all, delete-orphan'`, src/db/models.py) leaves once the row at
   * `path` is deleted, since every descendant's path extends its parent's.
   */
  function Pruned<V>(m: map<Path, V>, path: Path): (r: map<Path, V>)
    ensures forall p :: p in r <==> p in m && !(path <= p)
    ensures forall p :: p in r ==> r[p] == m[p]
  {
    map p | p in m && !(path <= p) :: m[p]
  }

  /** Deleting a menu takes its submenus and their dishes; deleting a submenu takes its dishes; siblings stay. */
  lemma DeleteRemovesSubtree<V>(m: map<Path, V>, a: Id, b: Id, c: Id, other: Path)
    requires other in m && |other| > 0 && other[0] != a
    ensures [a, b] !in Pruned(m, [a]) && [a, b, c] !in Pruned(m, [a]) && [a, b, c] !in Pruned(m, [a, b])
    ensures other in Pruned(m, [a]) && Pruned(m, [a])[other] == m[other]
  {
    assert [a] <= [a, b] && [a] <= [a, b, c] && [a, b] <= [a, b, c];
  }

  class Repository {
    /** The rows `get_detail` and `_get_from_db` can find, by path. */
    var rows: map<Path, Row>
    /** What `get_list` returns for a parent path (`[]` for the menu list). */
    var lists: map<Path, seq<Row>>
    /** How many repository calls have been made: lets a contract say "the repository was not asked". */
    var calls: nat

    constructor (rows: map<Path, Row>, lists: map<Path, seq<Row>>)
      ensures this.rows == rows && this.lists == lists && calls == 0
    {
      this.rows := rows;
      this.lists := lists;
      calls := 0;
    }

    /** `get_detail(...)`: the row at `path`, or `None`. */
    method GetDetail(path: Path, fault: bool) returns (r: Result<Option<Row>, RepoError>)
      modifies this
      ensures rows == old(rows) && lists == old(lists) && calls == old(calls) + 1
      ensures fault ==> r == Failure(DbError)
      ensures !fault ==> r == Success(Get(rows, path))
    {
      calls := calls + 1;
      if fault {
        return Failure(DbError);
      }
      r := Success(Get(rows, path));
    }

    /** `get_list(...)`: the children listed under `parent`, empty when there are none. */
    method GetList(parent: Path, fault: bool) returns (r: Result<seq<Row>, RepoError>)
      modifies this
      ensures rows == old(rows) && lists == old(lists) && calls == old(calls) + 1
      ensures fault ==> r == Failure(DbError)
      ensures !fault ==> r == Success(Get(lists, parent).GetOr([]))
    {
      calls := calls + 1;
      if fault {
        return Failure(DbError);
      }
      r := Success(Get(lists, parent).GetOr([]));
    }

    /** `create(data, **parent_ids)`: adds the new row under `parent`; the id is the one the database assigns. */
    method Create(parent: Path, row: Row, fault: bool) returns (r: Result<Row, RepoError>)
      modifies this
      ensures lists == old(lists) && calls == old(calls) + 1
      ensures fault ==> r == Failure(DbError) && rows == old(rows)
      ensures !fault ==> r == Success(row) && rows == old(rows)[parent + [row.id] := row]
    {
      calls := calls + 1;
      if fault {
        return Failure(DbError);
      }
      rows := rows[parent + [row.id] := row];
      r := Success(row);
    }

    /**
     * The dish repository's `update(..., data)`: overwrites the given columns
     * of the row at `path`; `None` when there is no such row (`if dish:`).
     */
    method Update(path: Path, data: map<string, Val>, fault: bool) returns (r: Result<Option<Row>, RepoError>)
      modifies this
      ensures lists == old(lists) && calls == old(calls) + 1
      ensures fault ==> r == Failure(DbError) && rows == old(rows)
      ensures !fault && path !in old(rows) ==> r == Success(None) && rows == old(rows)
      ensures !fault && path in old(rows) ==>
        var row := old(rows)[path].(fields := old(rows)[path].fields + data);
        r == Success(Some(row)) && rows == old(rows)[path := row]
    {
      calls := calls + 1;
      if fault {
        return Failure(DbError);
      }
      if path !in rows {
        return Success(None);
      }
      var row := rows[path].(fields := rows[path].fields + data);
      rows := rows[path := row];
      r := Success(Some(row));
    }

    /**
     * The menu and submenu repositories' `update(..., data)`: they `setattr`
     * on what `_get_from_db` found and `session.add` it without testing it,
     * so a missing row raises.
     */
    method UpdateFound(path: Path, data: map<string, Val>, fault: bool) returns (r: Result<Row, RepoError>)
      modifies this
      ensures lists == old(lists) && calls == old(calls) + 1
      ensures fault || path !in old(rows) ==> r == Failure(DbError) && rows == old(rows)
      ensures !fault && path in old(rows) ==>
        var row := old(rows)[path].(fields := old(rows)[path].fields + data);
        r == Success(row) && rows == old(rows)[path := row]
    {
      calls := calls + 1;
      if fault || path !in rows {
        return Failure(DbError);
      }
      var row := rows[path].(fields := rows[path].fields + data);
      rows := rows[path := row];
      r := Success(row);
    }

    /**
     * `delete(...)`: removes the row at `path` and, by the cascade, every row
     * and child list below it; false when there is no such row.
     */
    method Delete(path: Path, fault: bool) returns (r: Result<bool, RepoError>)
      modifies this
      ensures calls == old(calls) + 1
      ensures fault ==> r == Failure(DbError) && rows == old(rows) && lists == old(lists)
      ensures !fault ==> r == Success(path in old(rows)) && rows == Pruned(old(rows), path) && lists == Pruned(old(lists), path)
    {
      calls := calls + 1;
      if fault {
        return Failure(DbError);
      }
      r := Success(path in rows);
      rows := Pruned(rows, path);
      lists := Pruned(lists, path);
    }
  }
}
