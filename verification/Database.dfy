/** The two tables and the row operations on them; each operation is one SQL statement of the source,
    modelled by its effect. */
module Database {
  import opened Options
  import opened FileTree
  import opened Store

  function TypeName(kind: Kind): string {
    match kind
    case File => "FILE"
    case Folder => "FOLDER"
  }

  class DbManager {
    var items: Items
    var history: seq<Entry>

    /** Both tables as a value. */
    ghost function Tables(): State
      reads this
    {
      State(items, history)
    }

    /** Fresh, empty tables. */
    constructor ()
      ensures Tables() == State(map[], [])
    {
      items, history := map[], [];
    }

    method ItemExists(id: Id) returns (found: bool)
      ensures found <==> id in items
    {
      found := id in items;
    }

    method InsertIntoHistory(id: Id, row: Row)
      modifies this`history
      ensures history == old(history) + [Entry(id, row)]
    {
      history := history + [Entry(id, row)];
    }

    method DeleteFromHistory(id: Id)
      modifies this`history
      ensures history == Forget(old(history), {id})
    {
      history := Forget(history, {id});
    }

    /** Overwrites every column of an existing row and records the new row; returns new size minus old. */
    method UpdateItem(id: Id, row: Row) returns (sizeDelta: int)
      requires id in items
      modifies this
      ensures items == old(items)[id := row] && history == old(history) + [Entry(id, row)]
      ensures sizeDelta == row.size - old(items[id].size)
    {
      var oldSize := items[id].size;
      items := items[id := row];
      InsertIntoHistory(id, row);
      sizeDelta := row.size - oldSize;
    }

    method InsertItem(id: Id, row: Row) returns (sizeDelta: int)
      requires id !in items
      modifies this
      ensures items == old(items)[id := row] && history == old(history) + [Entry(id, row)]
      ensures sizeDelta == row.size
    {
      items := items[id := row];
      InsertIntoHistory(id, row);
      sizeDelta := row.size;
    }

    /** The type column, or the empty string when there is no such row. */
    method GetType(id: Id) returns (name: string)
      ensures name == if id in items then TypeName(items[id].kind) else ""
    {
      if id in items {
        name := TypeName(items[id].kind);
      } else {
        name := "";
      }
    }

    method ChangeSize(id: Id, delta: int)
      requires id in items
      modifies this`items
      ensures items == old(items)[id := old(items[id]).(size := old(items[id].size) + delta)]
    {
      items := items[id := items[id].(size := items[id].size + delta)];
    }

    method SetDate(id: Id, date: string)
      requires id in items
      modifies this`items
      ensures items == old(items)[id := old(items[id]).(date := date)]
    {
      items := items[id := items[id].(date := date)];
    }

    /** The parent's id, or the empty string for a null parent. */
    method GetParent(id: Id) returns (parent: string)
      requires id in items
      ensures parent == if items[id].parentId.Some? then items[id].parentId.value else ""
    {
      if items[id].parentId.Some? {
        parent := items[id].parentId.value;
      } else {
        parent := "";
      }
    }

    /** The ids of the rows whose parent is `id`, each once, in no particular order. */
    method GetChildren(id: Id) returns (children: seq<Id>)
      ensures forall x :: x in children <==> x in items && items[x].parentId == Some(id)
      ensures forall i, j :: 0 <= i < j < |children| ==> children[i] != children[j]
    {
      children := [];
      var rest := set x | x in items && items[x].parentId == Some(id);
      while rest != {}
        invariant forall x :: x in items && items[x].parentId == Some(id) <==> x in rest || x in children
        invariant forall x :: x in rest ==> x !in children
        invariant forall i, j :: 0 <= i < j < |children| ==> children[i] != children[j]
        decreases rest
      {
        var x :| x in rest;
        children := children + [x];
        rest := rest - {x};
      }
    }

    method DeleteItem(id: Id) returns (size: int)
      requires id in items
      modifies this`items
      ensures items == old(items) - {id}
      ensures size == old(items[id].size)
    {
      size := items[id].size;
      items := items - {id};
    }

    method GetItem(id: Id) returns (row: Row)
      requires id in items
      ensures row == items[id]
    {
      row := items[id];
    }
  }
}
