/** The `todos` table and the operations `Todo` and `NewTodo` run on it:
    reading all rows or one owner's rows, setting `checked` on the rows with
    a given id, and inserting a row. */
module Todos {
  import opened Wrappers
  import opened Schema
  import Rows

  function OwnedBy(userId: string): Todo -> bool {
    (t: Todo) => t.userId == userId
  }

  function HasId(id: string): Todo -> bool {
    (t: Todo) => t.id == id
  }

  /** One row after `SET checked = value WHERE id = id`. */
  function MarkRow(t: Todo, id: string, value: bool): Todo {
    if t.id == id then t.(checked := value) else t
  }

  /** The table after `UPDATE todos SET checked = value WHERE id = id`. */
  function Marked(rows: seq<Todo>, id: string, value: bool): seq<Todo> {
    if rows == [] then []
    else Marked(rows[..|rows| - 1], id, value) + [MarkRow(rows[|rows| - 1], id, value)]
  }

  /** The update keeps every row in place and touches only the `checked`
      column of the rows whose id matches. */
  lemma {:induction false} MarkedAt(rows: seq<Todo>, id: string, value: bool, k: nat)
    requires k < |rows|
    ensures |Marked(rows, id, value)| == |rows|
    ensures var after := Marked(rows, id, value)[k];
      && after.id == rows[k].id && after.userId == rows[k].userId
      && after.content == rows[k].content
      && after.checked == (if rows[k].id == id then value else rows[k].checked)
  {
    if k < |rows| - 1 {
      MarkedAt(rows[..|rows| - 1], id, value, k);
    } else {
      MarkedLength(rows[..|rows| - 1], id, value);
    }
  }

  lemma {:induction false} MarkedLength(rows: seq<Todo>, id: string, value: bool)
    ensures |Marked(rows, id, value)| == |rows|
  {
    if rows != [] {
      MarkedLength(rows[..|rows| - 1], id, value);
    }
  }

  /** Setting the same value twice is the same as setting it once. */
  lemma {:induction false} MarkedIdempotent(rows: seq<Todo>, id: string, value: bool)
    ensures Marked(Marked(rows, id, value), id, value) == Marked(rows, id, value)
  {
    if rows != [] {
      var init := rows[..|rows| - 1];
      var once := Marked(rows, id, value);
      MarkedLength(init, id, value);
      assert once[..|once| - 1] == Marked(init, id, value);
      MarkedIdempotent(init, id, value);
    }
  }

  /** The update never moves a row from one owner to another: an owner's
      rows after the update are that owner's rows before it, updated. */
  lemma {:induction false} MarkedPerOwner(rows: seq<Todo>, id: string, value: bool, userId: string)
    ensures Rows.Filter(Marked(rows, id, value), OwnedBy(userId))
         == Marked(Rows.Filter(rows, OwnedBy(userId)), id, value)
  {
    if rows != [] {
      var p := OwnedBy(userId);
      var init, last := rows[..|rows| - 1], rows[|rows| - 1];
      var m := MarkRow(last, id, value);
      assert rows == init + [last];
      assert p(m) == p(last);
      var kept := Rows.Filter(init, p);
      MarkedPerOwner(init, id, value, userId);
      MarkedAppend(init, last, id, value);
      Rows.FilterAppend(Marked(init, id, value), m, p);
      Rows.FilterAppend(init, last, p);
      if p(last) {
        MarkedAppend(kept, last, id, value);
      } else {
        assert kept + [] == kept;
        assert Marked(init, id, value) + [m] == Marked(rows, id, value);
      }
    }
  }

  lemma MarkedAppend(rows: seq<Todo>, t: Todo, id: string, value: bool)
    ensures Marked(rows + [t], id, value) == Marked(rows, id, value) + [MarkRow(t, id, value)]
  {
    assert (rows + [t])[..|rows|] == rows;
  }

  /** The number of rows the update reports: those whose id matches. */
  function UpdatedCount(rows: seq<Todo>, id: string): (n: nat)
    ensures n == 0 <==> forall k :: 0 <= k < |rows| ==> rows[k].id != id
  {
    var matching := Rows.Filter(rows, HasId(id));
    assert forall k :: 0 <= k < |rows| && rows[k].id == id ==> rows[k] in matching;
    assert |matching| > 0 ==> matching[0] in rows && matching[0].id == id;
    |matching|
  }

  class TodoTable {
    var rows: seq<Todo>

    constructor (rows: seq<Todo>)
      ensures this.rows == rows
    {
      this.rows := rows;
    }

    /** `Todo::all`: every row, unless the query fails. */
    function All(fault: Option<DbError>): (r: Load<Todo>)
      reads this
      ensures fault.Some? ==> r == Err(fault.value)
      ensures fault.None? ==> r == Ok(rows)
    {
      if fault.Some? then Err(fault.value) else Ok(rows)
    }

    /** `Todo::users`: exactly the rows owned by `userId`, each as often as
        in the table and in table order (the positions `FilterIndices`
        lists, which increase by `Rows.FilterIndicesOrdered`), unless the
        query fails. */
    function Users(userId: string, fault: Option<DbError>): (r: Load<Todo>)
      reads this
      ensures fault.Some? ==> r == Err(fault.value)
      ensures fault.None? ==> r.Ok? && forall t :: t in r.value <==> t in rows && t.userId == userId
      ensures fault.None? ==> forall t :: multiset(r.value)[t] == if t.userId == userId then multiset(rows)[t] else 0
      ensures fault.None? ==>
        var ix := Rows.FilterIndices(rows, OwnedBy(userId));
        |r.value| == |ix| && forall k :: 0 <= k < |ix| ==> r.value[k] == rows[ix[k]]
    {
      if fault.Some? then Err(fault.value)
      else
        var owned := Rows.Filter(rows, OwnedBy(userId));
        assert forall t :: multiset(owned)[t] == if t.userId == userId then multiset(rows)[t] else 0 by {
          forall t ensures multiset(owned)[t] == if t.userId == userId then multiset(rows)[t] else 0 {
            Rows.FilterMultiplicity(rows, OwnedBy(userId), t);
          }
        }
        Rows.FilterInOrder(rows, OwnedBy(userId));
        Ok(owned)
    }

    /** `check_as`: set `checked` to `value` on every row whose id is `id`;
        `NotFound` when no row was updated, `Ok(true)` otherwise. A failing
        query changes nothing. */
    method CheckAs(id: string, value: bool, fault: Option<DbError>) returns (r: Result<bool, DbError>)
      modifies this
      ensures fault.Some? ==> r == Err(fault.value) && rows == old(rows)
      ensures fault.None? ==> rows == Marked(old(rows), id, value)
      ensures fault.None? ==> (r == Err(NotFound) <==> UpdatedCount(old(rows), id) == 0)
      ensures fault.None? ==> (r == Ok(true) <==> UpdatedCount(old(rows), id) > 0)
    {
      if fault.Some? {
        r := Err(fault.value);
        return;
      }
      var updated := UpdatedCount(rows, id);
      rows := Marked(rows, id, value);
      if updated <= 0 {
        r := Err(NotFound);
      } else {
        r := Ok(true);
      }
    }

    /** `check`: `check_as(true)` for the todo's id. */
    method Check(todo: Todo, fault: Option<DbError>) returns (r: Result<bool, DbError>)
      modifies this
      ensures fault.Some? ==> r == Err(fault.value) && rows == old(rows)
      ensures fault.None? ==> rows == Marked(old(rows), todo.id, true)
      ensures fault.None? ==> (r == Ok(true) <==> UpdatedCount(old(rows), todo.id) > 0)
      ensures fault.None? ==> (r == Err(NotFound) <==> UpdatedCount(old(rows), todo.id) == 0)
    {
      r := CheckAs(todo.id, true, fault);
    }

    /** `uncheck`: `check_as(false)` for the todo's id. */
    method Uncheck(todo: Todo, fault: Option<DbError>) returns (r: Result<bool, DbError>)
      modifies this
      ensures fault.Some? ==> r == Err(fault.value) && rows == old(rows)
      ensures fault.None? ==> rows == Marked(old(rows), todo.id, false)
      ensures fault.None? ==> (r == Ok(true) <==> UpdatedCount(old(rows), todo.id) > 0)
      ensures fault.None? ==> (r == Err(NotFound) <==> UpdatedCount(old(rows), todo.id) == 0)
    {
      r := CheckAs(todo.id, false, fault);
    }

    /** `NewTodo::create`: insert one row with the given owner and content
        and return it. The id and `checked` come from the column defaults
        of the table (`newId`, `defaultChecked`). A failing insert changes
        nothing. */
    method Create(userId: string, content: string, newId: string, defaultChecked: bool,
                  fault: Option<DbError>) returns (r: Result<Todo, DbError>)
      modifies this
      ensures fault.Some? ==> r == Err(fault.value) && rows == old(rows)
      ensures fault.None? ==> r == Ok(Todo(newId, userId, content, defaultChecked))
      ensures fault.None? ==> rows == old(rows) + [r.value]
    {
      if fault.Some? {
        r := Err(fault.value);
        return;
      }
      var row := Todo(newId, userId, content, defaultChecked);
      rows := rows + [row];
      r := Ok(row);
    }
  }
}
