/** The recursive helpers and the import round, step by step over the tables. */
module Handlers {
  import opened Options
  import opened FileTree
  import opened TreeChanges
  import opened Store
  import opened Runs
  import opened Database

  // ----- ChangeSize -----

  /** A bump is the bump of the parent followed by the update and the snapshot of the row itself. */
  lemma BumpedFromParent(s: State, id: Id, delta: int, date: string)
    requires WellFormed(s.items) && id in s.items
    ensures var t := BumpedAt(s, s.items[id].parentId, delta, date);
      && id in t.items && t.items[id] == s.items[id]
      && var row := s.items[id].(size := s.items[id].size + delta, date := date);
         Bumped(s, id, delta, date) == State(t.items[id := row], t.history + [Entry(id, row)])
  {
    var parent := s.items[id].parentId;
    var t := BumpedAt(s, parent, delta, date);
    var above := if parent.Some? then Lineage(s.items, parent.value) else [];
    assert Lineage(s.items, id) == above + [id];
    if parent.Some? {
      NotAboveItself(s.items, id);
    }
    hide Lineage;
    var row := s.items[id].(size := s.items[id].size + delta, date := date);
    assert t.items == BumpedItems(s.items, above, delta, date);
    assert BumpedItems(s.items, above + [id], delta, date) == t.items[id := row];
    assert t.history == s.history + Snapshots(t.items, above);
    assert Snapshots(t.items[id := row], above + [id]) == Snapshots(t.items, above) + [Entry(id, row)];
  }

  /** Adds `delta` and sets the date on exactly `id` and the rows above it, recording each, root first. */
  method ChangeSize(dbm: DbManager, id: Id, delta: int, date: string)
    requires WellFormed(dbm.items) && id in dbm.items && dbm.items[id].kind.Folder?
    modifies dbm
    ensures dbm.Tables() == Bumped(old(dbm.Tables()), id, delta, date)
    decreases RankOf(dbm.items)[id]
  {
    hide Lineage, Bumped;
    ghost var s := dbm.Tables();
    ghost var t := BumpedAt(s, s.items[id].parentId, delta, date);
    BumpedFromParent(s, id, delta, date);
    var parent := dbm.GetParent(id);
    if parent != "" {
      ChangeSize(dbm, parent, delta, date);
    }
    assert dbm.Tables() == t;
    dbm.ChangeSize(id, delta);
    dbm.SetDate(id, date);
    var updatedFolder := dbm.GetItem(id);
    assert dbm.items == t.items[id := updatedFolder];
    dbm.InsertIntoHistory(id, updatedFolder);
  }

  // ----- DeleteIter -----

  /** The rows at or below one of the given rows. */
  ghost function Under(items: Items, roots: seq<Id>): set<Id> {
    set x, r | x in items && r in roots && r in Lineage(items, x) :: x
  }

  ghost predicate Siblings(items: Items, id: Id, roots: seq<Id>) {
    && (forall r :: r in roots ==> r in items && items[r].parentId == Some(id))
    && (forall i, j :: 0 <= i < j < |roots| ==> roots[i] != roots[j])
  }

  lemma UnderSiblings(items: Items, id: Id, roots: seq<Id>)
    requires WellFormed(items) && Siblings(items, id, roots)
    ensures WellFormed(items - Under(items, roots))
    ensures DownClosed(items, Under(items, roots))
  {
    assert DownClosed(items, Under(items, roots));
    hide Lineage;
    RemoveWellFormed(items, Under(items, roots));
  }

  /** After the earlier siblings are gone the next one still has its whole subtree. */
  lemma NextSiblingStays(items: Items, id: Id, roots: seq<Id>, k: nat)
    requires WellFormed(items) && Siblings(items, id, roots) && k < |roots|
    ensures var gone := Under(items, roots[..k]);
      && WellFormed(items - gone)
      && roots[k] in items - gone
      && Subtree(items - gone, roots[k]) == Subtree(items, roots[k])
      && TrueSize(items - gone, roots[k]) == TrueSize(items, roots[k])
  {
    hide Lineage, FileSum;
    var gone := Under(items, roots[..k]);
    UnderSiblings(items, id, roots[..k]);
    SiblingsApart(items, id, roots, k);
    RemoveSubtree(items, gone, roots[k]);
    FileSumSame(items, items - gone, Subtree(items, roots[k]));
  }

  lemma UnderOneMore(items: Items, roots: seq<Id>, r: Id)
    ensures Under(items, roots + [r]) == Under(items, roots) + Subtree(items, r)
  {
    hide Lineage;
    forall x | x in Subtree(items, r) ensures x in Under(items, roots + [r]) {
      assert r in roots + [r];
    }
    forall x | x in Under(items, roots) ensures x in Under(items, roots + [r]) {
      var q :| q in roots && q in Lineage(items, x);
      assert q in roots + [r];
    }
  }

  /** Deleting it adds exactly its subtree to what is gone. */
  lemma NextSiblingGoes(items: Items, id: Id, roots: seq<Id>, k: nat)
    requires WellFormed(items) && Siblings(items, id, roots) && k < |roots|
    ensures var (gone, next) := (Under(items, roots[..k]), Subtree(items, roots[k]));
      && Under(items, roots[..k + 1]) == gone + next
      && items - gone - next == items - (gone + next)
      && FileSum(items, gone + next) == FileSum(items, gone) + TrueSize(items, roots[k])
  {
    hide Lineage, FileSum;
    SiblingsApart(items, id, roots, k);
    assert roots[..k + 1] == roots[..k] + [roots[k]];
    UnderOneMore(items, roots[..k], roots[k]);
    FileSumUnion(items, Under(items, roots[..k]), Subtree(items, roots[k]));
  }

  lemma SiblingsApart(items: Items, id: Id, roots: seq<Id>, k: nat)
    requires WellFormed(items) && Siblings(items, id, roots) && k < |roots|
    ensures Under(items, roots[..k]) !! Subtree(items, roots[k])
    ensures roots[k] in Subtree(items, roots[k])
  {
    hide FileSum;
    forall x | x in Under(items, roots[..k]) ensures x !in Subtree(items, roots[k]) {
      if x in Subtree(items, roots[k]) {
        var r :| r in roots[..k] && r in Lineage(items, x);
        ChildIsUnique(items, x, id, r, roots[k]);
      }
    }
  }

  /** All children's subtrees and the row itself make up the row's subtree. */
  lemma SubtreeFromChildren(items: Items, id: Id, children: seq<Id>)
    requires WellFormed(items) && id in items && Siblings(items, id, children)
    requires forall x :: x in items && items[x].parentId == Some(id) ==> x in children
    ensures id !in Under(items, children)
    ensures Subtree(items, id) == Under(items, children) + {id}
    ensures FileSum(items, Subtree(items, id)) == FileSum(items, Under(items, children)) + Weight(items, id)
  {
    var under := Under(items, children);
    forall x | x in under ensures x != id && x in Subtree(items, id) {
      var r :| r in children && r in Lineage(items, x);
      LineageRank(items, x, r);
      LineageTransitive(items, x, r, id);
    }
    forall x | x in Subtree(items, id) ensures x in under || x == id {
      if x != id {
        var c := ChildOnTheWay(items, x, id);
      }
    }
    hide Lineage;
    FileSumPick(items, under + {id}, id);
    assert under + {id} - {id} == under;
  }

  /** Removes exactly the rows at or below `id` and all their history; returns the FILE sizes removed,
      whatever the stored folder sizes were. */
  method DeleteIter(dbm: DbManager, id: Id) returns (deletedSize: int)
    requires WellFormed(dbm.items) && id in dbm.items
    modifies dbm
    ensures dbm.Tables() == Removed(old(dbm.Tables()), id)
    ensures deletedSize == TrueSize(old(dbm.items), id)
    decreases Subtree(dbm.items, id)
  {
    hide Lineage, FileSum, Forget, Under, WellFormed;
    ghost var s := dbm.Tables();
    deletedSize := 0;
    var children := dbm.GetChildren(id);
    SubtreeFromChildren(s.items, id, children);
    NothingUnderNone(s);
    assert children[..0] == [];
    for k := 0 to |children|
      invariant dbm.items == s.items - Under(s.items, children[..k])
      invariant dbm.history == Forget(s.history, Under(s.items, children[..k]))
      invariant deletedSize == FileSum(s.items, Under(s.items, children[..k]))
    {
      NextSiblingStays(s.items, id, children, k);
      NextSiblingGoes(s.items, id, children, k);
      BelowChildIsBelow(s.items, id, children, k);
      ForgetTwice(s.history, Under(s.items, children[..k]), Subtree(s.items, children[k]));
      var childSize := DeleteIter(dbm, children[k]);
      deletedSize := deletedSize + childSize;
    }
    assert children[..|children|] == children;
    var typeName := dbm.GetType(id);
    var isFile := typeName == "FILE";
    var curSize := dbm.DeleteItem(id);
    if isFile {
      deletedSize := deletedSize + curSize;
    }
    ForgetTwice(s.history, Under(s.items, children), {id});
    dbm.DeleteFromHistory(id);
    assert s.items - Under(s.items, children) - {id} == s.items - Subtree(s.items, id);
  }

  lemma NothingUnderNone(s: State)
    ensures Under(s.items, []) == {} && s.items - {} == s.items
    ensures FileSum(s.items, {}) == 0 && Forget(s.history, {}) == s.history
  {
    ForgetNothing(s.history);
  }

  lemma {:induction false} ForgetNothing(h: seq<Entry>)
    ensures Forget(h, {}) == h
    decreases |h|
  {
    if h != [] {
      ForgetNothing(h[..|h| - 1]);
    }
  }

  lemma BelowChildIsBelow(items: Items, id: Id, children: seq<Id>, k: nat)
    requires WellFormed(items) && id in items && Siblings(items, id, children) && k < |children|
    ensures Subtree(items, children[k]) < Subtree(items, id)
  {
    hide FileSum;
    var c := children[k];
    forall x | x in Subtree(items, c) ensures x in Subtree(items, id) && x != id {
      LineageTransitive(items, x, c, id);
      LineageRank(items, x, c);
    }
    assert id in Subtree(items, id);
  }

  // ----- one round of the import loop -----

  /** The string `GetParent` returns for a parent. */
  function Name(parent: Option<Id>): string {
    if parent.Some? then parent.value else ""
  }

  /** The guarded call: nothing happens at the root. */
  method ChangeSizeAt(dbm: DbManager, ghost parent: Option<Id>, name: string, delta: int, date: string)
    requires WellFormed(dbm.items) && FolderOrNone(dbm.items, parent)
    requires parent != Some("") && name == Name(parent)
    modifies dbm
    ensures dbm.Tables() == BumpedAt(old(dbm.Tables()), parent, delta, date)
  {
    hide Bumped, WellFormed;
    if name != "" {
      ChangeSize(dbm, name, delta, date);
    }
  }

  /** Neither parent is the empty string, so their names tell them apart. */
  lemma NamesTell(items: Items, id: Id, row: Row)
    requires WellFormed(items) && Placeable(items, id, row)
    ensures ParentOf(items, id) != Some("") && row.parentId != Some("")
    ensures Name(ParentOf(items, id)) == Name(row.parentId) <==> ParentOf(items, id) == row.parentId
    ensures ParentOf(items, id) == row.parentId ==>
            NewParentDelta(items, id, row) == row.size - if id in items then items[id].size else 0
  {
  }

  /** Inserts or overwrites the row; returns its old parent, if it had one, and the size difference. */
  method WriteItem(dbm: DbManager, id: Id, row: Row) returns (oldParent: string, sizeDelta: int)
    modifies dbm
    ensures dbm.Tables() == Written(old(dbm.Tables()), id, row)
    ensures dbm.items == old(dbm.items)[id := row] && dbm.history == old(dbm.history) + [Entry(id, row)]
    ensures oldParent == Name(ParentOf(old(dbm.items), id))
    ensures sizeDelta == row.size - if id in old(dbm.items) then old(dbm.items)[id].size else 0
  {
    oldParent := "";
    var found := dbm.ItemExists(id);
    if !found {
      sizeDelta := dbm.InsertItem(id, row);
    } else {
      oldParent := dbm.GetParent(id);
      sizeDelta := dbm.UpdateItem(id, row);
    }
  }

  /** Pushes the size difference up: away from the old parent if the row moved, to the new one. */
  method PushUp(dbm: DbManager, id: Id, row: Row, oldParent: string, sizeDelta: int, ghost s: State)
    requires WellFormed(s.items) && Placeable(s.items, id, row)
    requires dbm.Tables() == Written(s, id, row)
    requires oldParent == Name(ParentOf(s.items, id))
    requires sizeDelta == row.size - if id in s.items then s.items[id].size else 0
    modifies dbm
    ensures dbm.Tables() == Imported(s, id, row)
  {
    hide Imported, BumpedAt, WellFormed, Placeable, FolderOrNone, ParentOf, NewParentDelta, Written;
    RoundFacts(s, id, row);
    NamesTell(s.items, id, row);
    var parent := dbm.GetParent(id);
    assert parent == Name(row.parentId);
    if oldParent != parent {
      ChangeSizeAt(dbm, ParentOf(s.items, id), oldParent, -row.size, row.date);
      ChangeSizeAt(dbm, row.parentId, parent, row.size, row.date);
    } else {
      ChangeSizeAt(dbm, row.parentId, parent, sizeDelta, row.date);
    }
  }

  /** One round: writes the row, then pushes its size up. */
  method ImportItem(dbm: DbManager, id: Id, row: Row)
    requires WellFormed(dbm.items) && Placeable(dbm.items, id, row)
    modifies dbm
    ensures dbm.Tables() == Imported(old(dbm.Tables()), id, row)
  {
    hide Imported, Written;
    var oldParent, sizeDelta := WriteItem(dbm, id, row);
    PushUp(dbm, id, row, oldParent, sizeDelta, old(dbm.Tables()));
  }
}
