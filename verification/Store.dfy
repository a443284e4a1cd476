/** Both tables together: what one imported row and one delete leave in `items` and `history`,
    and what that does to the cached folder sizes. */
module Store {
  import opened Options
  import opened FileTree
  import opened TreeChanges

  datatype Entry = Entry(id: Id, row: Row)
  datatype State = State(items: Items, history: seq<Entry>)

  // ----- the effect of the recursive helpers -----

  /** The history without the entries of the given ids. */
  function Forget(history: seq<Entry>, gone: set<Id>): seq<Entry> {
    if history == [] then []
    else Forget(history[..|history| - 1], gone)
         + if history[|history| - 1].id in gone then [] else [history[|history| - 1]]
  }

  /** The row most recently recorded for `x`. */
  function Latest(history: seq<Entry>, x: Id): Option<Row> {
    if history == [] then None
    else if history[|history| - 1].id == x then Some(history[|history| - 1].row)
    else Latest(history[..|history| - 1], x)
  }

  ghost function BumpedItems(items: Items, line: seq<Id>, delta: int, date: string): Items {
    map x | x in items ::
      if x in line then items[x].(size := items[x].size + delta, date := date) else items[x]
  }

  ghost function Snapshots(items: Items, line: seq<Id>): seq<Entry> {
    seq(|line|, i requires 0 <= i < |line| =>
      Entry(line[i], if line[i] in items then items[line[i]] else Row(File, 0, "", None, None)))
  }

  /** `delta` on `id` and everything above it, and one snapshot of each such row, root first. */
  ghost function Bumped(s: State, id: Id, delta: int, date: string): State {
    var line := Lineage(s.items, id);
    var items := BumpedItems(s.items, line, delta, date);
    State(items, s.history + Snapshots(items, line))
  }

  ghost function BumpedAt(s: State, parent: Option<Id>, delta: int, date: string): State {
    if parent.Some? then Bumped(s, parent.value, delta, date) else s
  }

  ghost function Written(s: State, id: Id, row: Row): State {
    State(s.items[id := row], s.history + [Entry(id, row)])
  }

  /** One round of the import loop. */
  ghost function Imported(s: State, id: Id, row: Row): State {
    var old_ := ParentOf(s.items, id);
    var written := Written(s, id, row);
    if old_ != row.parentId then
      BumpedAt(BumpedAt(written, old_, -row.size, row.date), row.parentId, row.size, row.date)
    else
      BumpedAt(written, row.parentId, row.size - (if id in s.items then s.items[id].size else 0), row.date)
  }

  ghost function Removed(s: State, id: Id): State {
    State(s.items - Subtree(s.items, id), Forget(s.history, Subtree(s.items, id)))
  }

  ghost function Deleted(s: State, id: Id, date: string): State {
    BumpedAt(Removed(s, id), ParentOf(s.items, id), -TrueSize(s.items, id), date)
  }

  // ----- bumping -----

  /** What bumping and recording the rows of `line` changes. */
  ghost predicate BumpsLine(s: State, t: State, line: seq<Id>, delta: int, date: string) {
    && t.items.Keys == s.items.Keys
    && (forall x :: x in s.items && x !in line ==> t.items[x] == s.items[x])
    && (forall x :: x in s.items && x in line ==> t.items[x] == s.items[x].(size := s.items[x].size + delta, date := date))
    && |t.history| == |s.history| + |line| && t.history[..|s.history|] == s.history
    && (forall i :: 0 <= i < |line| ==>
          line[i] in t.items && t.history[|s.history| + i] == Entry(line[i], t.items[line[i]]))
  }

  lemma BumpedAlong(s: State, line: seq<Id>, delta: int, date: string)
    requires forall a :: a in line ==> a in s.items
    ensures var items := BumpedItems(s.items, line, delta, date);
      BumpsLine(s, State(items, s.history + Snapshots(items, line)), line, delta, date)
  {
  }

  /** Exactly the rows of the lineage change, in size and date only, and each is recorded once, root first, as
      it ends up. */
  lemma BumpTouchesLineage(s: State, id: Id, delta: int, date: string)
    requires Acyclic(s.items) && id in s.items
    ensures var line := Lineage(s.items, id);
      && BumpsLine(s, Bumped(s, id, delta, date), line, delta, date)
      && (forall i, j :: 0 <= i < j < |line| ==> line[i] != line[j])
      && RootPath(s.items, line) && line[|line| - 1] == id
  {
    hide Lineage, RootPath, Acyclic, BumpsLine, BumpedItems;
    LineageDistinct(s.items, id);
    LineageIsTheRootPath(s.items, id, Lineage(s.items, id));
    BumpedAlong(s, Lineage(s.items, id), delta, date);
  }

  lemma BumpedFacts(s: State, id: Id, delta: int, date: string)
    requires WellFormed(s.items) && id in s.items && s.items[id].kind.Folder?
    ensures var t := Bumped(s, id, delta, date);
      && WellFormed(t.items) && SameShape(s.items, t.items)
      && (forall x :: x in s.items ==> Weight(t.items, x) == Weight(s.items, x))
      && (forall x :: x in s.items ==>
            t.items[x].size == s.items[x].size + if x in Lineage(s.items, id) then delta else 0)
  {
    hide Lineage, Acyclic;
    var t := Bumped(s, id, delta, date);
    LineageOfFolder(s.items, id);
    SameShapeAcyclic(s.items, t.items);
    hide WellFormed;
  }

  ghost predicate FolderOrNone(items: Items, parent: Option<Id>) {
    parent.Some? ==> parent.value in items && items[parent.value].kind.Folder?
  }

  /** A bump moves stored sizes only: same forest, same true sizes. */
  lemma BumpedAtFacts(s: State, parent: Option<Id>, delta: int, date: string)
    requires WellFormed(s.items) && FolderOrNone(s.items, parent)
    ensures var t := BumpedAt(s, parent, delta, date);
      && WellFormed(t.items) && SameShape(s.items, t.items)
      && (forall x {:trigger TrueSize(t.items, x)} :: x in s.items ==> TrueSize(t.items, x) == TrueSize(s.items, x))
      && (forall x {:trigger Lineage(t.items, x)} :: x in s.items ==> Lineage(t.items, x) == Lineage(s.items, x))
      && (forall x :: x in s.items ==> t.items[x].size == s.items[x].size + if AtOrAbove(s.items, parent, x) then delta else 0)
  {
    hide Lineage, FileSum;
    var t := BumpedAt(s, parent, delta, date);
    if parent.Some? {
      BumpedFacts(s, parent.value, delta, date);
    }
    forall x | x in s.items
      ensures TrueSize(t.items, x) == TrueSize(s.items, x) && Lineage(t.items, x) == Lineage(s.items, x)
    {
      SameShapeTrueSize(s.items, t.items, x);
      SameShapeLineage(s.items, t.items, x);
    }
  }

  // ----- one imported row -----

  lemma TwoBumps(s: State, p: Option<Id>, dp: int, q: Option<Id>, dq: int, date: string)
    requires WellFormed(s.items) && FolderOrNone(s.items, p) && FolderOrNone(s.items, q)
    ensures var t := BumpedAt(BumpedAt(s, p, dp, date), q, dq, date);
      && WellFormed(t.items) && SameShape(s.items, t.items)
      && (forall x {:trigger TrueSize(t.items, x)} :: x in s.items ==> TrueSize(t.items, x) == TrueSize(s.items, x))
      && (forall x :: x in s.items ==>
            t.items[x].size == s.items[x].size
              + (if AtOrAbove(s.items, p, x) then dp else 0) + (if AtOrAbove(s.items, q, x) then dq else 0))
  {
    hide Lineage, FileSum;
    BumpedAtFacts(s, p, dp, date);
    BumpedAtFacts(BumpedAt(s, p, dp, date), q, dq, date);
  }

  /** What the import subtracts at the old parent and adds at the new one. */
  ghost function OldParentDelta(items: Items, id: Id, row: Row): int {
    if ParentOf(items, id) != row.parentId then -row.size else 0
  }

  ghost function NewParentDelta(items: Items, id: Id, row: Row): int {
    if ParentOf(items, id) == row.parentId && id in items then row.size - items[id].size else row.size
  }

  lemma ImportedAsBumps(s: State, id: Id, row: Row)
    requires WellFormed(s.items) && Placeable(s.items, id, row)
    ensures FolderOrNone(s.items[id := row], ParentOf(s.items, id)) && FolderOrNone(s.items[id := row], row.parentId)
    ensures var (p, q) := (ParentOf(s.items, id), row.parentId);
      Imported(s, id, row) ==
      if p == q then BumpedAt(Written(s, id, row), q, NewParentDelta(s.items, id, row), row.date)
      else BumpedAt(BumpedAt(Written(s, id, row), p, -row.size, row.date), q, row.size, row.date)
  {
  }

  /** The states between the steps of one import. */
  lemma RoundFacts(s: State, id: Id, row: Row)
    requires WellFormed(s.items) && Placeable(s.items, id, row)
    ensures id in Written(s, id, row).items && Written(s, id, row).items[id] == row
    ensures var (p, w) := (ParentOf(s.items, id), Written(s, id, row));
      && Imported(s, id, row) ==
           (if p == row.parentId then BumpedAt(w, p, NewParentDelta(s.items, id, row), row.date)
            else BumpedAt(BumpedAt(w, p, -row.size, row.date), row.parentId, row.size, row.date))
      && WellFormed(w.items) && FolderOrNone(w.items, p) && FolderOrNone(w.items, row.parentId)
      && WellFormed(BumpedAt(w, p, -row.size, row.date).items)
      && FolderOrNone(BumpedAt(w, p, -row.size, row.date).items, row.parentId)
      && id in BumpedAt(w, p, -row.size, row.date).items
      && BumpedAt(w, p, -row.size, row.date).items[id].parentId == row.parentId
  {
    hide Lineage, Bumped, FileSum;
    PutWellFormed(s.items, id, row);
    ImportedAsBumps(s, id, row);
    BumpedAtFacts(Written(s, id, row), ParentOf(s.items, id), -row.size, row.date);
  }

  /** The sizes one import leaves, row by row. */
  lemma ImportedSizes(s: State, id: Id, row: Row)
    requires WellFormed(s.items) && Placeable(s.items, id, row)
    ensures var t := Imported(s, id, row);
      && WellFormed(t.items)
      && SameShape(s.items[id := row], t.items)
      && t.items[id].size == row.size
      && (forall x {:trigger TrueSize(t.items, x)} :: x in t.items ==> TrueSize(t.items, x) == TrueSize(s.items[id := row], x))
      && (forall x :: x in s.items && x != id ==>
            t.items[x].size == s.items[x].size
              + (if AtOrAbove(s.items, ParentOf(s.items, id), x) then OldParentDelta(s.items, id, row) else 0)
              + (if AtOrAbove(s.items, row.parentId, x) then NewParentDelta(s.items, id, row) else 0))
  {
    hide Imported, BumpedAt, Lineage, FileSum, TrueSize, AtOrAbove, WellFormed, Placeable, FolderOrNone, ParentOf;
    var p, w := ParentOf(s.items, id), Written(s, id, row);
    RoundFacts(s, id, row);
    forall x
      ensures AtOrAbove(w.items, row.parentId, x) <==> AtOrAbove(s.items, row.parentId, x)
      ensures AtOrAbove(w.items, p, x) <==> AtOrAbove(s.items, p, x)
      ensures !AtOrAbove(s.items, row.parentId, id) && !AtOrAbove(s.items, p, id)
    {
      BothParentsStay(s, id, row, x);
    }
    if p != row.parentId {
      TwoBumps(w, p, -row.size, row.parentId, row.size, row.date);
    } else {
      BumpedAtFacts(w, row.parentId, NewParentDelta(s.items, id, row), row.date);
    }
  }

  lemma BumpedAtRows(s: State, parent: Option<Id>, delta: int, date: string, x: Id)
    requires x in s.items
    ensures x in BumpedAt(s, parent, delta, date).items
    ensures BumpedAt(s, parent, delta, date).items[x] ==
            if AtOrAbove(s.items, parent, x) then s.items[x].(size := s.items[x].size + delta, date := date) else s.items[x]
  {
    hide Lineage;
  }

  lemma SecondBumpSeesSameLineage(s: State, p: Option<Id>, dp: int, q: Option<Id>, date: string)
    requires WellFormed(s.items) && FolderOrNone(s.items, p) && FolderOrNone(s.items, q)
    ensures forall a :: AtOrAbove(BumpedAt(s, p, dp, date).items, q, a) <==> AtOrAbove(s.items, q, a)
  {
    hide Lineage;
    BumpedAtFacts(s, p, dp, date);
  }

  lemma TwoBumpsRows(s: State, p: Option<Id>, dp: int, q: Option<Id>, dq: int, date: string, x: Id)
    requires WellFormed(s.items) && FolderOrNone(s.items, p) && FolderOrNone(s.items, q) && x in s.items
    ensures var t := BumpedAt(BumpedAt(s, p, dp, date), q, dq, date).items;
      x in t && t[x] == if AtOrAbove(s.items, p, x) || AtOrAbove(s.items, q, x)
                        then s.items[x].(size := t[x].size, date := date) else s.items[x]
  {
    hide Lineage, BumpedAt, AtOrAbove, WellFormed;
    SecondBumpSeesSameLineage(s, p, dp, q, date);
    BumpedAtRows(s, p, dp, date, x);
    BumpedAtRows(BumpedAt(s, p, dp, date), q, dq, date, x);
  }

  /** The written row ends up as sent; of the others only those above its old or new parent change, and those
      only in size and date. */
  lemma ImportTouches(s: State, id: Id, row: Row, x: Id)
    requires WellFormed(s.items) && Placeable(s.items, id, row)
    requires x in s.items || x == id
    ensures var t := Imported(s, id, row).items;
      x in t &&
      var above := AtOrAbove(s.items, row.parentId, x) || AtOrAbove(s.items, ParentOf(s.items, id), x);
      t[x] == if x == id then row else if above then s.items[x].(size := t[x].size, date := row.date) else s.items[x]
  {
    hide Imported, BumpedAt, Lineage, FileSum, AtOrAbove, WellFormed, Placeable, FolderOrNone, ParentOf, NewParentDelta;
    var p, q, w := ParentOf(s.items, id), row.parentId, Written(s, id, row);
    ImportedAsBumps(s, id, row);
    BothParentsStay(s, id, row, x);
    if p == q {
      BumpedAtRows(w, q, NewParentDelta(s.items, id, row), row.date, x);
    } else {
      TwoBumpsRows(w, p, -row.size, q, row.size, row.date, x);
    }
  }

  /** Writing the row moves neither its old nor its new parent's lineage. */
  lemma BothParentsStay(s: State, id: Id, row: Row, x: Id)
    requires WellFormed(s.items) && Placeable(s.items, id, row)
    ensures WellFormed(s.items[id := row])
    ensures AtOrAbove(s.items[id := row], row.parentId, x) <==> AtOrAbove(s.items, row.parentId, x)
    ensures AtOrAbove(s.items[id := row], ParentOf(s.items, id), x) <==> AtOrAbove(s.items, ParentOf(s.items, id), x)
    ensures !AtOrAbove(s.items, row.parentId, id) && !AtOrAbove(s.items, ParentOf(s.items, id), id)
  {
    if ParentOf(s.items, id).Some? {
      NotAboveItself(s.items, id);
    }
    hide Lineage;
    PutWellFormed(s.items, id, row);
    ParentsStay(s.items, id, row, row.parentId);
    ParentsStay(s.items, id, row, ParentOf(s.items, id));
  }

  lemma ParentsStay(items: Items, id: Id, row: Row, parent: Option<Id>)
    requires WellFormed(items) && Placeable(items, id, row)
    requires parent.Some? ==> parent.value in items && id !in Lineage(items, parent.value)
    ensures forall a :: AtOrAbove(items[id := row], parent, a) <==> AtOrAbove(items, parent, a)
    ensures !AtOrAbove(items, parent, id)
  {
    if parent.Some? {
      PutLineageOutside(items, id, row, parent.value);
    }
  }

  // ----- the size cache -----

  /** Stored size minus true size; the cache is right when it is 0. */
  ghost function Drift(items: Items, a: Id): int
    requires a in items
  {
    items[a].size - TrueSize(items, a)
  }

  ghost predicate SizesExact(items: Items) {
    forall a :: a in items && items[a].kind.Folder? ==> Drift(items, a) == 0
  }

  ghost predicate IsFolder(items: Items, a: Id) {
    a in items && items[a].kind.Folder?
  }

  /** The drift of the FOLDER `a`, and 0 while there is no such FOLDER. */
  ghost function FolderDrift(items: Items, a: Id): int {
    if IsFolder(items, a) then Drift(items, a) else 0
  }

  /** The drift one import adds to the FOLDER `a`. A moved FILE takes its new size from its old parent
      instead of its old one; a re-imported FOLDER loses its own size `s`, and moves 0 instead of its
      true size. */
  ghost function DriftAdded(items: Items, id: Id, row: Row, a: Id): int {
    var old_ := ParentOf(items, id);
    if id !in items then 0
    else if row.kind.File? then
      if old_ != row.parentId && AtOrAbove(items, old_, a) then items[id].size - row.size else 0
    else if old_ == row.parentId then
      if a in Lineage(items, id) then -items[id].size else 0
    else if a == id then -items[id].size
    else (if AtOrAbove(items, old_, a) then TrueSize(items, id) else 0)
         - (if AtOrAbove(items, row.parentId, a) then TrueSize(items, id) else 0)
  }

  /** The exact drift of every import step: nothing is assumed about the sizes before it. */
  lemma ImportDrift(s: State, id: Id, row: Row, a: Id)
    requires WellFormed(s.items) && Placeable(s.items, id, row)
    requires row.kind.Folder? ==> row.size == 0
    requires a in s.items && s.items[a].kind.Folder?
    ensures a in Imported(s, id, row).items
    ensures Drift(Imported(s, id, row).items, a) == Drift(s.items, a) + DriftAdded(s.items, id, row, a)
  {
    hide Lineage, FileSum;
    ImportedSizes(s, id, row);
    MovedSum(s.items, id, row);
    if id in Lineage(s.items, a) {
      PutTrueSizeBelow(s.items, id, row, a);
      if a != id {
        NothingAboveIsBelow(s.items, id, a);
      } else {
        LineageOfSelf(s.items, id);
      }
      if row.parentId.Some? && a in Lineage(s.items, row.parentId.value) {
        LineageTransitive(s.items, row.parentId.value, a, id);
      }
    } else {
      PutTrueSizeElsewhere(s.items, id, row, a);
      if id in s.items {
        AboveViaParent(s.items, id, a);
      }
    }
  }

  lemma LineageOfSelf(items: Items, id: Id)
    requires Acyclic(items) && id in items
    ensures id in Lineage(items, id) && !AtOrAbove(items, items[id].parentId, id)
  {
    if items[id].parentId.Some? {
      NotAboveItself(items, id);
    }
  }

  lemma NothingAboveIsBelow(items: Items, id: Id, a: Id)
    requires Acyclic(items) && a in items && id in Lineage(items, a) && a != id
    ensures a !in Lineage(items, id)
    ensures !AtOrAbove(items, items[id].parentId, a)
  {
    LineageRank(items, a, id);
    if a in Lineage(items, id) {
      LineageRank(items, id, a);
    }
  }

  lemma NewRowHasNothingBelow(items: Items, id: Id, row: Row)
    requires WellFormed(items) && Placeable(items, id, row) && id !in items
    ensures Subtree(items[id := row], id) == {id}
  {
    PutLineageSelf(items, id, row);
    forall x | x in items ensures id !in Lineage(items[id := row], x) {
      PutLineageOutside(items, id, row, x);
    }
  }

  /** A FOLDER imported for the first time starts exact. */
  lemma NewFolderExact(s: State, id: Id, row: Row)
    requires WellFormed(s.items) && Placeable(s.items, id, row)
    requires id !in s.items && row.kind.Folder? && row.size == 0
    ensures id in Imported(s, id, row).items && Drift(Imported(s, id, row).items, id) == 0
  {
    ImportedSizes(s, id, row);
    NewRowHasNothingBelow(s.items, id, row);
    FileSumPick(s.items[id := row], {id}, id);
  }

  /** The FOLDERs after an import: those before it, and the imported row if it is one. */
  lemma FoldersAfterImport(s: State, id: Id, row: Row, a: Id)
    requires WellFormed(s.items) && Placeable(s.items, id, row)
    ensures a in Imported(s, id, row).items && Imported(s, id, row).items[a].kind.Folder? <==>
            (a in s.items && s.items[a].kind.Folder?) || (a == id && row.kind.Folder?)
  {
    hide Imported, Lineage, FileSum, WellFormed;
    ImportedSizes(s, id, row);
  }

  lemma KindStays(items: Items, id: Id, row: Row)
    requires Placeable(items, id, row) && id in items
    ensures items[id].kind == row.kind
  {
  }

  /** An import adds nothing to what is not there yet. */
  lemma NoDriftAddedToAbsent(items: Items, id: Id, row: Row, a: Id)
    requires a !in items
    ensures DriftAdded(items, id, row, a) == 0
  {
  }

  /** The exact drift of every FOLDER after an import, the imported one included. */
  lemma ImportFolderDrift(s: State, id: Id, row: Row, a: Id)
    requires WellFormed(s.items) && Placeable(s.items, id, row)
    requires row.kind.Folder? ==> row.size == 0
    requires IsFolder(Imported(s, id, row).items, a)
    ensures a in s.items ==> IsFolder(s.items, a)
    ensures Drift(Imported(s, id, row).items, a) == FolderDrift(s.items, a) + DriftAdded(s.items, id, row, a)
  {
    hide Imported, Lineage, FileSum, WellFormed, Drift, DriftAdded;
    FoldersAfterImport(s, id, row, a);
    if a in s.items {
      if a == id {
        KindStays(s.items, id, row);
      }
      hide Placeable;
      ImportDrift(s, id, row, a);
    } else {
      NoDriftAddedToAbsent(s.items, id, row, a);
      NewFolderExact(s, id, row);
    }
  }

  /** The imports the cache survives. */
  ghost predicate CleanStep(items: Items, id: Id, row: Row) {
    id in items ==>
      match row.kind
      case File => items[id].parentId in {None, row.parentId} || items[id].size == row.size
      case Folder => items[id].size == 0
  }

  /** On an exact cache an import adds no drift anywhere exactly when it is clean. */
  lemma CleanMeansNoDrift(items: Items, id: Id, row: Row)
    requires WellFormed(items) && Placeable(items, id, row) && SizesExact(items) && id in items
    ensures CleanStep(items, id, row) <==>
            forall a :: a in items && items[a].kind.Folder? ==> DriftAdded(items, id, row, a) == 0
  {
    if !CleanStep(items, id, row) {
      var a := if row.kind.Folder? then id else items[id].parentId.value;
      assert DriftAdded(items, id, row, a) != 0;
    } else if row.kind.Folder? {
      assert TrueSize(items, id) == 0 by { assert Drift(items, id) == 0; }
    }
  }

  /** An import keeps an exact cache exact if and only if it is clean. */
  lemma CleanStepsKeepSizes(s: State, id: Id, row: Row)
    requires WellFormed(s.items) && Placeable(s.items, id, row)
    requires row.kind.Folder? ==> row.size == 0
    requires SizesExact(s.items)
    ensures SizesExact(Imported(s, id, row).items) <==> CleanStep(s.items, id, row)
  {
    var t := Imported(s, id, row);
    hide Imported, Lineage, FileSum, WellFormed, Placeable, Drift;
    forall a ensures a in t.items && t.items[a].kind.Folder? <==>
                     (a in s.items && s.items[a].kind.Folder?) || (a == id && row.kind.Folder?)
    {
      FoldersAfterImport(s, id, row, a);
    }
    forall a | a in t.items && t.items[a].kind.Folder?
      ensures Drift(t.items, a) == if a in s.items then DriftAdded(s.items, id, row, a) else 0
    {
      ImportFolderDrift(s, id, row, a);
      if a !in s.items {
        NoDriftAddedToAbsent(s.items, id, row, a);
      }
    }
    if id in s.items {
      KindStays(s.items, id, row);
      hide DriftAdded, CleanStep;
      CleanMeansNoDrift(s.items, id, row);
    }
  }

  // ----- one delete -----

  lemma RemovedFacts(s: State, id: Id)
    requires WellFormed(s.items) && id in s.items
    ensures var (r, parent) := (Removed(s, id), ParentOf(s.items, id));
      && WellFormed(r.items)
      && FolderOrNone(r.items, parent)
      && forall a :: AtOrAbove(r.items, parent, a) <==> AtOrAbove(s.items, parent, a)
  {
    SubtreeDownClosed(s.items, id);
    RemoveWellFormed(s.items, Subtree(s.items, id));
    if s.items[id].parentId.Some? {
      NotAboveItself(s.items, id);
      RemoveLineage(s.items, Subtree(s.items, id), s.items[id].parentId.value);
    }
  }

  lemma DeletedAsBump(s: State, id: Id, date: string, r: State, parent: Option<Id>, size: int)
    requires r == Removed(s, id) && parent == ParentOf(s.items, id) && size == TrueSize(s.items, id)
    ensures Deleted(s, id, date) == BumpedAt(r, parent, -size, date)
  {
    hide BumpedAt, Removed, ParentOf, TrueSize;
  }

  lemma AfterRemoval(s: State, id: Id, date: string, r: State, parent: Option<Id>, delta: int)
    requires WellFormed(s.items) && id in s.items
    requires r == Removed(s, id) && parent == ParentOf(s.items, id)
    ensures var t := BumpedAt(r, parent, delta, date);
      && WellFormed(t.items) && SameShape(r.items, t.items)
      && (forall a {:trigger TrueSize(t.items, a)} :: a in r.items ==> TrueSize(t.items, a) == TrueSize(r.items, a))
      && (forall a :: a in r.items ==>
            t.items[a].size == r.items[a].size + if AtOrAbove(s.items, parent, a) then delta else 0)
  {
    RemovedFacts(s, id);
    BumpedAtFacts(r, parent, delta, date);
  }

  lemma DeletedWellFormed(s: State, id: Id, date: string)
    requires WellFormed(s.items) && id in s.items
    ensures WellFormed(Deleted(s, id, date).items)
  {
    hide Forget, FileSum, Lineage;
    var r, parent, size := Removed(s, id), ParentOf(s.items, id), TrueSize(s.items, id);
    AfterRemoval(s, id, date, r, parent, -size);
    DeletedAsBump(s, id, date, r, parent, size);
  }

  /** A delete removes exactly the subtree; what survives keeps its kind and its parent. */
  lemma DeletedShape(s: State, id: Id, date: string)
    requires WellFormed(s.items) && id in s.items
    ensures SameShape(s.items - Subtree(s.items, id), Deleted(s, id, date).items)
  {
    hide Forget, FileSum, Lineage;
    var r, parent, size := Removed(s, id), ParentOf(s.items, id), TrueSize(s.items, id);
    AfterRemoval(s, id, date, r, parent, -size);
    DeletedAsBump(s, id, date, r, parent, size);
  }

  /** A delete changes no survivor's drift, however wrong the stored sizes were. */
  lemma DeleteDrift(s: State, id: Id, date: string, a: Id)
    requires WellFormed(s.items) && id in s.items
    requires a in s.items && a !in Subtree(s.items, id)
    ensures a in Deleted(s, id, date).items && Drift(Deleted(s, id, date).items, a) == Drift(s.items, a)
  {
    hide Forget, FileSum, Lineage;
    var r, parent, size := Removed(s, id), ParentOf(s.items, id), TrueSize(s.items, id);
    RemoveTrueSize(s.items, id, a);
    AfterRemoval(s, id, date, r, parent, -size);
    DeletedAsBump(s, id, date, r, parent, size);
  }
}
