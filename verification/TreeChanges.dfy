/** What writing one row or removing a subtree does to lineages and true sizes. */
module TreeChanges {
  import opened Options
  import opened FileTree

  ghost function ParentOf(items: Items, id: Id): Option<Id> {
    if id in items then items[id].parentId else None
  }

  /** `a` is the row `parent` names, or one of its ancestors. */
  ghost predicate AtOrAbove(items: Items, parent: Option<Id>, a: Id) {
    parent.Some? && a in Lineage(items, parent.value)
  }

  /** What writing `row` under `id` needs: the kind does not change, the parent is a present FOLDER,
      and the row does not move below itself. */
  ghost predicate Placeable(items: Items, id: Id, row: Row) {
    && id != ""
    && (id in items ==> items[id].kind == row.kind)
    && (row.parentId.Some? ==>
          && row.parentId.value in items
          && items[row.parentId.value].kind.Folder?
          && id !in Lineage(items, row.parentId.value))
  }

  /** The rows that move with `id`: itself and all below it. */
  ghost function Moved(items: Items, id: Id): set<Id> {
    Subtree(items, id) + {id}
  }

  // ----- writing a row -----

  lemma PutWellFormed(items: Items, id: Id, row: Row)
    requires WellFormed(items) && Placeable(items, id, row)
    ensures WellFormed(items[id := row])
  {
    PutAcyclic(items, id, row);
    hide Acyclic, Lineage;
  }

  /** The rows that move are lifted above everything at or above their new parent. */
  lemma PutAcyclic(items: Items, id: Id, row: Row)
    requires WellFormed(items) && Placeable(items, id, row)
    ensures Acyclic(items[id := row])
  {
    var rank := RankOf(items);
    var lift := if row.parentId.Some? then rank[row.parentId.value] + 1 else 0;
    var rank' := map x | x in items[id := row] ::
      if x !in items then lift else if id in Lineage(items, x) then rank[x] + lift else rank[x];
    assert Ranked(items[id := row], rank');
  }

  /** The check the code does not make: writing a row closes a cycle exactly when its new parent lies at or
      below it. */
  lemma CycleIffBelowItself(items: Items, id: Id, row: Row)
    requires WellFormed(items) && id != "" && (id in items ==> items[id].kind == row.kind)
    requires row.parentId.Some? ==> row.parentId.value in items && items[row.parentId.value].kind.Folder?
    ensures Acyclic(items[id := row]) <==> !AtOrAbove(items, row.parentId, id)
  {
    var items' := items[id := row];
    if !AtOrAbove(items, row.parentId, id) {
      PutWellFormed(items, id, row);
    } else if Acyclic(items') {
      RankReaches(items, items', row.parentId.value, id);
    }
  }

  lemma {:induction false} RankReaches(items: Items, items': Items, x: Id, id: Id)
    requires Acyclic(items) && Acyclic(items') && x in items && x in items' && id in items' && id in Lineage(items, x)
    requires forall y :: y in items && y != id ==> y in items' && items'[y] == items[y]
    ensures RankOf(items')[id] <= RankOf(items')[x]
    decreases RankOf(items)[x]
  {
    if x != id {
      RankReaches(items, items', items[x].parentId.value, id);
    }
  }

  lemma {:induction false} PutLineageOutside(items: Items, id: Id, row: Row, x: Id)
    requires WellFormed(items) && Placeable(items, id, row)
    requires x in items && x != id && id !in Lineage(items, x)
    ensures Lineage(items[id := row], x) == Lineage(items, x)
    decreases RankOf(items)[x]
  {
    PutWellFormed(items, id, row);
    if items[x].parentId.Some? {
      PutLineageOutside(items, id, row, items[x].parentId.value);
    }
  }

  lemma PutLineageSelf(items: Items, id: Id, row: Row)
    requires WellFormed(items) && Placeable(items, id, row)
    ensures Lineage(items[id := row], id) ==
            (if row.parentId.Some? then Lineage(items, row.parentId.value) else []) + [id]
  {
    PutWellFormed(items, id, row);
    if row.parentId.Some? {
      PutLineageOutside(items, id, row, row.parentId.value);
    }
  }

  lemma {:induction false} PutLineageInside(items: Items, id: Id, row: Row, x: Id, a: Id)
    requires WellFormed(items) && Placeable(items, id, row)
    requires x in items && id in Lineage(items, x)
    ensures a in Lineage(items[id := row], x) <==>
            a in Lineage(items[id := row], id) || (a in Lineage(items, x) && id in Lineage(items, a))
    decreases RankOf(items)[x]
  {
    PutWellFormed(items, id, row);
    if x == id {
      if a in Lineage(items, x) && id in Lineage(items, a) {
        LineageRank(items, x, a);
        LineageRank(items, a, id);
      }
    } else {
      PutLineageInside(items, id, row, items[x].parentId.value, a);
    }
  }

  /** Of two ancestors of a row, one is above the other. */
  lemma AncestorsAreOrdered(items: Items, x: Id, a: Id, b: Id)
    requires Acyclic(items) && x in items && a in Lineage(items, x) && b in Lineage(items, x)
    ensures a in Lineage(items, b) || b in Lineage(items, a)
  {
    LineagePrefix(items, x, a);
    LineagePrefix(items, x, b);
    var la, lb, lx := Lineage(items, a), Lineage(items, b), Lineage(items, x);
    if |la| <= |lb| {
      assert lb[|la| - 1] == lx[|la| - 1] == a;
    } else {
      assert la[|lb| - 1] == lx[|lb| - 1] == b;
    }
  }

  /** A moved row lies below `a`, before and after, exactly when `a` is at or above its anchor's parent. */
  lemma MovedRowAbove(items: Items, id: Id, row: Row, a: Id, x: Id)
    requires WellFormed(items) && Placeable(items, id, row)
    requires a in items && a != id && id !in Lineage(items, a)
    requires x in Moved(items, id)
    ensures x in items[id := row]
    ensures a in Lineage(items[id := row], x) <==> AtOrAbove(items, row.parentId, a)
    ensures x in Subtree(items, a) <==> AtOrAbove(items, ParentOf(items, id), a)
  {
    PutLineageSelf(items, id, row);
    if x in items {
      PutLineageInside(items, id, row, x, a);
      if a in Lineage(items, x) {
        AncestorsAreOrdered(items, x, a, id);
      } else if a in Lineage(items, id) {
        LineageTransitive(items, x, id, a);
      }
    }
  }

  /** Rows not at or below `id` lose the moved rows if they were above the old parent and gain them if
      they are above the new one. */
  lemma PutSubtreeElsewhere(items: Items, id: Id, row: Row, a: Id)
    requires WellFormed(items) && Placeable(items, id, row)
    requires a in items && a != id && id !in Lineage(items, a)
    ensures Subtree(items, a) - Moved(items, id) == Subtree(items[id := row], a) - Moved(items, id)
    ensures Subtree(items, a) * Moved(items, id) ==
            if AtOrAbove(items, ParentOf(items, id), a) then Moved(items, id) else {}
    ensures Subtree(items[id := row], a) * Moved(items, id) ==
            if AtOrAbove(items, row.parentId, a) then Moved(items, id) else {}
  {
    hide Lineage;
    var items' := items[id := row];
    forall x | x in items && x !in Moved(items, id) ensures Lineage(items', x) == Lineage(items, x) {
      PutLineageOutside(items, id, row, x);
    }
    forall x | x in Moved(items, id)
      ensures x in Subtree(items, a) <==> AtOrAbove(items, ParentOf(items, id), a)
      ensures x in Subtree(items', a) <==> AtOrAbove(items, row.parentId, a)
    {
      MovedRowAbove(items, id, row, a, x);
    }
  }

  /** Strictly above a row means at or above its parent. */
  lemma AboveViaParent(items: Items, id: Id, a: Id)
    requires Acyclic(items) && id in items && a != id
    ensures a in Lineage(items, id) <==> AtOrAbove(items, items[id].parentId, a)
  {
  }

  lemma PutRowBelow(items: Items, id: Id, row: Row, a: Id, x: Id)
    requires WellFormed(items) && Placeable(items, id, row)
    requires a in items && id in Lineage(items, a) && x in items
    ensures a in Lineage(items[id := row], x) <==> a in Lineage(items, x)
  {
    if id in Lineage(items, x) {
      PutLineageInside(items, id, row, x, a);
      PutLineageSelf(items, id, row);
      hide Lineage;
      if a in Lineage(items[id := row], id) && a != id {
        LineageTransitive(items, row.parentId.value, a, id);
      }
    } else {
      PutLineageOutside(items, id, row, x);
      hide Lineage;
      if a in Lineage(items, x) {
        LineageTransitive(items, x, a, id);
      }
    }
  }

  lemma PutSubtreeBelow(items: Items, id: Id, row: Row, a: Id)
    requires WellFormed(items) && Placeable(items, id, row)
    requires a in items && id in Lineage(items, a)
    ensures Subtree(items[id := row], a) == Subtree(items, a)
  {
    hide Lineage;
    forall x | x in items ensures a in Lineage(items[id := row], x) <==> a in Lineage(items, x) {
      PutRowBelow(items, id, row, a, x);
    }
  }

  /** A FILE carries only itself; a FOLDER carries what lay below it, unchanged. */
  lemma MovedSum(items: Items, id: Id, row: Row)
    requires WellFormed(items) && Placeable(items, id, row)
    ensures FileSum(items, Moved(items, id)) == if id in items then TrueSize(items, id) else 0
    ensures row.kind.Folder? ==> FileSum(items[id := row], Moved(items, id)) == FileSum(items, Moved(items, id))
    ensures row.kind.File? ==> Moved(items, id) == {id} && FileSum(items[id := row], {id}) == row.size
                               && FileSum(items, {id}) == Weight(items, id)
  {
    var items' := items[id := row];
    if id in items {
      assert Moved(items, id) == Subtree(items, id);
    } else {
      assert Moved(items, id) == {id};
      FileSumPick(items, {id}, id);
    }
    if row.kind.Folder? {
      FileSumSame(items, items', Moved(items, id));
    } else {
      forall x | x in Subtree(items, id) ensures x == id {
        if x != id {
          var c := ChildOnTheWay(items, x, id);
        }
      }
      FileSumPick(items, {id}, id);
      FileSumPick(items', {id}, id);
    }
  }

  /** How writing a row changes the true size of every FOLDER that is not at or below it. */
  lemma PutTrueSizeElsewhere(items: Items, id: Id, row: Row, a: Id)
    requires WellFormed(items) && Placeable(items, id, row)
    requires a in items && a != id && id !in Lineage(items, a)
    ensures TrueSize(items[id := row], a) == TrueSize(items, a)
              - (if AtOrAbove(items, ParentOf(items, id), a) then FileSum(items, Moved(items, id)) else 0)
              + (if AtOrAbove(items, row.parentId, a) then FileSum(items[id := row], Moved(items, id)) else 0)
  {
    hide Lineage;
    var items', m := items[id := row], Moved(items, id);
    var s, s' := Subtree(items, a), Subtree(items', a);
    PutSubtreeElsewhere(items, id, row, a);
    assert s == (s - m) + (s * m) && s' == (s' - m) + (s' * m);
    FileSumUnion(items, s - m, s * m);
    FileSumUnion(items', s' - m, s' * m);
    FileSumSame(items, items', s - m);
  }

  /** Writing a row leaves the true size of the FOLDERs at or below it alone. */
  lemma PutTrueSizeBelow(items: Items, id: Id, row: Row, a: Id)
    requires WellFormed(items) && Placeable(items, id, row)
    requires a in items && items[a].kind.Folder? && id in Lineage(items, a)
    ensures TrueSize(items[id := row], a) == TrueSize(items, a)
  {
    PutSubtreeBelow(items, id, row, a);
    LineageOfFolder(items, a);
    FileSumSame(items, items[id := row], Subtree(items, a));
  }

  // ----- removing rows -----

  /** Whatever hangs below a removed row is removed with it. */
  ghost predicate DownClosed(items: Items, gone: set<Id>) {
    forall x :: x in items && items[x].parentId.Some? && items[x].parentId.value in gone ==> x in gone
  }

  lemma RemoveWellFormed(items: Items, gone: set<Id>)
    requires WellFormed(items) && DownClosed(items, gone)
    ensures WellFormed(items - gone)
  {
    assert Ranked(items - gone, RankOf(items) - gone);
  }

  lemma {:induction false} RemoveLineage(items: Items, gone: set<Id>, x: Id)
    requires WellFormed(items) && DownClosed(items, gone) && x in items && x !in gone
    ensures Lineage(items - gone, x) == Lineage(items, x)
    ensures forall a :: a in Lineage(items, x) ==> a !in gone
    decreases RankOf(items)[x]
  {
    RemoveWellFormed(items, gone);
    if items[x].parentId.Some? {
      RemoveLineage(items, gone, items[x].parentId.value);
    }
  }

  lemma RemoveSubtree(items: Items, gone: set<Id>, a: Id)
    requires WellFormed(items) && DownClosed(items, gone)
    ensures Subtree(items - gone, a) == Subtree(items, a) - gone
  {
    hide Lineage;
    RemoveWellFormed(items, gone);
    forall x | x in items && x !in gone ensures Lineage(items - gone, x) == Lineage(items, x) {
      RemoveLineage(items, gone, x);
    }
  }

  lemma SubtreeDownClosed(items: Items, id: Id)
    requires WellFormed(items)
    ensures DownClosed(items, Subtree(items, id))
  {
  }

  /** Removing a subtree takes its FILE sizes away from the rows above it and from no other survivor. */
  lemma RemoveTrueSize(items: Items, id: Id, a: Id)
    requires WellFormed(items) && id in items && a in items && id !in Lineage(items, a)
    ensures TrueSize(items - Subtree(items, id), a) == TrueSize(items, a)
              - (if AtOrAbove(items, items[id].parentId, a) then TrueSize(items, id) else 0)
  {
    hide Lineage;
    var gone := Subtree(items, id);
    var s := Subtree(items, a);
    AboveViaParent(items, id, a);
    SubtreeDownClosed(items, id);
    RemoveSubtree(items, gone, a);
    assert s * gone == if AtOrAbove(items, items[id].parentId, a) then gone else {} by {
      forall x | x in gone ensures a in Lineage(items, x) <==> AtOrAbove(items, items[id].parentId, a) {
        if a in Lineage(items, x) {
          AncestorsAreOrdered(items, x, a, id);
        }
        if a in Lineage(items, id) {
          LineageTransitive(items, x, id, a);
        }
      }
    }
    assert s == (s - gone) + (s * gone);
    FileSumUnion(items, s - gone, s * gone);
    FileSumSame(items, items - gone, s - gone);
    assert FileSum(items, {}) == 0;
  }
}
