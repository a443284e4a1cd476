/** The exact rows and the exact history that one import, one batch and one delete leave, told by lineages and
    rows alone. */
module Records {
  import opened Options
  import opened FileTree
  import opened TreeChanges
  import opened Store
  import opened Runs

  /** The rows at or above the one `parent` names, root first. */
  ghost function Above(items: Items, parent: Option<Id>): seq<Id> {
    if parent.Some? then Lineage(items, parent.value) else []
  }

  lemma AboveIsAtOrAbove(items: Items, parent: Option<Id>, a: Id)
    ensures a in Above(items, parent) <==> AtOrAbove(items, parent, a)
  {
    hide Lineage;
  }

  lemma AboveDistinct(items: Items, parent: Option<Id>)
    requires WellFormed(items) && FolderOrNone(items, parent)
    ensures var line := Above(items, parent); forall i, j :: 0 <= i < j < |line| ==> line[i] != line[j]
    ensures forall a :: a in Above(items, parent) ==> a in items && items[a].kind.Folder?
  {
    hide Lineage;
    if parent.Some? {
      LineageDistinct(items, parent.value);
      LineageOfFolder(items, parent.value);
      assert Above(items, parent) == Lineage(items, parent.value);
    }
  }

  lemma BumpedAtLine(s: State, parent: Option<Id>, delta: int, date: string)
    ensures BumpsLine(s, BumpedAt(s, parent, delta, date), Above(s.items, parent), delta, date)
  {
    if parent.Some? {
      BumpedAlong(s, Lineage(s.items, parent.value), delta, date);
      hide Lineage, BumpsLine;
    }
  }

  // ----- one import -----

  /** Writing the row leaves both walks above its old and new parent as they were, and it is on neither. */
  lemma WalksStay(s: State, id: Id, row: Row)
    requires WellFormed(s.items) && Placeable(s.items, id, row)
    ensures var (p, q) := (ParentOf(s.items, id), row.parentId);
      && Above(s.items[id := row], p) == Above(s.items, p) && Above(s.items[id := row], q) == Above(s.items, q)
      && id !in Above(s.items, p) && id !in Above(s.items, q)
  {
    if ParentOf(s.items, id).Some? {
      NotAboveItself(s.items, id);
      PutLineageOutside(s.items, id, row, ParentOf(s.items, id).value);
    }
    if row.parentId.Some? {
      PutLineageOutside(s.items, id, row, row.parentId.value);
    }
  }

  lemma BumpKeepsWalks(s: State, parent: Option<Id>, delta: int, date: string, q: Option<Id>)
    requires WellFormed(s.items) && FolderOrNone(s.items, parent) && FolderOrNone(s.items, q)
    ensures Above(BumpedAt(s, parent, delta, date).items, q) == Above(s.items, q)
  {
    hide Lineage;
    BumpedAtFacts(s, parent, delta, date);
  }

  /** The walk the import takes away from: the old parent's, if the row moves. */
  ghost function LeftWalk(items: Items, id: Id, row: Row): seq<Id> {
    if ParentOf(items, id) != row.parentId then Above(items, ParentOf(items, id)) else []
  }

  /** Everything one import records: the row as sent; if it moved, each row above the old parent as it is after
      losing the sent size; and each row above the new parent as it ends up; all root first, and nothing else. */
  lemma ImportRecord(s: State, id: Id, row: Row)
    requires WellFormed(s.items) && Placeable(s.items, id, row)
    ensures var (t, n, from, to) := (Imported(s, id, row), |s.history|, LeftWalk(s.items, id, row), Above(s.items, row.parentId));
      && |t.history| == n + 1 + |from| + |to|
      && t.history[..n] == s.history
      && t.history[n] == Entry(id, row)
      && (forall i :: 0 <= i < |from| ==>
            from[i] in s.items &&
            t.history[n + 1 + i] ==
            Entry(from[i], s.items[from[i]].(size := s.items[from[i]].size - row.size, date := row.date)))
      && (forall i :: 0 <= i < |to| ==>
            to[i] in t.items && t.history[n + 1 + |from| + i] == Entry(to[i], t.items[to[i]]))
  {
    hide Imported, BumpedAt, BumpsLine, Lineage, Above, WellFormed, Placeable, FolderOrNone, ParentOf, NewParentDelta, Written;
    var p, q, w, t := ParentOf(s.items, id), row.parentId, Written(s, id, row), Imported(s, id, row);
    RoundFacts(s, id, row);
    WalksStay(s, id, row);
    JustWritten(s, id, row);
    if p == q {
      NoLine(w, -row.size, row.date);
      BumpedAtLine(w, q, NewParentDelta(s.items, id, row), row.date);
      TwoLines(w, w, t, [], Above(s.items, q), -row.size, NewParentDelta(s.items, id, row), row.date);
    } else {
      var u := BumpedAt(w, p, -row.size, row.date);
      BumpedAtLine(w, p, -row.size, row.date);
      BumpKeepsWalks(w, p, -row.size, row.date, q);
      BumpedAtLine(u, q, row.size, row.date);
      TwoLines(w, u, t, Above(s.items, p), Above(s.items, q), -row.size, row.size, row.date);
    }
    assert t.history[..|s.history| + 1][..|s.history|] == s.history;
  }

  lemma JustWritten(s: State, id: Id, row: Row)
    ensures var w := Written(s, id, row);
      && w.items == s.items[id := row] && |w.history| == |s.history| + 1
      && w.history[..|s.history|] == s.history && w.history[|s.history|] == Entry(id, row)
  {
  }

  lemma NoLine(s: State, delta: int, date: string)
    ensures BumpsLine(s, s, [], delta, date)
  {
  }

  /** Two bumps one after the other record the two walks one after the other. */
  lemma TwoLines(w: State, u: State, t: State, from: seq<Id>, to: seq<Id>, d: int, e: int, date: string)
    requires BumpsLine(w, u, from, d, date) && BumpsLine(u, t, to, e, date)
    ensures |t.history| == |w.history| + |from| + |to| && t.history[..|w.history|] == w.history
    ensures forall i :: 0 <= i < |from| ==>
      from[i] in w.items && t.history[|w.history| + i] ==
                            Entry(from[i], w.items[from[i]].(size := w.items[from[i]].size + d, date := date))
    ensures forall i :: 0 <= i < |to| ==>
      to[i] in t.items && t.history[|w.history| + |from| + i] == Entry(to[i], t.items[to[i]])
  {
    SamePrefix(u.history, t.history);
    SamePrefix(w.history, u.history);
    assert t.history[..|w.history|] == w.history;
    forall i | 0 <= i < |from|
      ensures from[i] in w.items && t.history[|w.history| + i] ==
                                    Entry(from[i], w.items[from[i]].(size := w.items[from[i]].size + d, date := date))
    {
      assert from[i] in from && t.history[|w.history| + i] == u.history[|w.history| + i];
    }
  }

  lemma SamePrefix(h: seq<Entry>, t: seq<Entry>)
    requires |h| <= |t| && t[..|h|] == h
    ensures forall i :: 0 <= i < |h| ==> t[i] == h[i]
  {
    forall i | 0 <= i < |h| ensures t[i] == h[i] {
      assert t[..|h|][i] == h[i];
    }
  }

  // ----- how often a row is recorded -----

  /** The number of entries of `x`. */
  ghost function Count(history: seq<Entry>, x: Id): int {
    |Only(history, {x})|
  }

  lemma CountOfConcat(h: seq<Entry>, k: seq<Entry>, x: Id)
    ensures Count(h + k, x) == Count(h, x) + Count(k, x)
  {
    OnlyOfConcat(h, k, {x});
  }

  /** Entries of distinct ids, one each. */
  lemma {:induction false} CountOfLine(h: seq<Entry>, line: seq<Id>, x: Id)
    requires |h| == |line| && (forall i :: 0 <= i < |line| ==> h[i].id == line[i])
    requires forall i, j :: 0 <= i < j < |line| ==> line[i] != line[j]
    ensures Count(h, x) == if x in line then 1 else 0
    decreases |h|
  {
    if h != [] {
      var n := |h| - 1;
      assert line == line[..n] + [line[n]];
      CountOfLine(h[..n], line[..n], x);
    }
  }

  /** How often one import records `x`: as the row sent, above its old parent if it moved, above its new one. */
  ghost function TimesRecorded(items: Items, id: Id, row: Row, x: Id): int {
    (if x == id then 1 else 0) + (if x in LeftWalk(items, id, row) then 1 else 0)
    + (if x in Above(items, row.parentId) then 1 else 0)
  }

  lemma ImportCount(s: State, id: Id, row: Row, x: Id)
    requires WellFormed(s.items) && Placeable(s.items, id, row)
    ensures Count(Imported(s, id, row).history, x) == Count(s.history, x) + TimesRecorded(s.items, id, row, x)
  {
    hide Imported, Lineage, Above, WellFormed, Placeable, Count;
    var t, n := Imported(s, id, row), |s.history|;
    var from, to := LeftWalk(s.items, id, row), Above(s.items, row.parentId);
    ImportRecord(s, id, row);
    WalksAreFolders(s, id, row);
    var a, b, c := t.history[n..n + 1], t.history[n + 1..n + 1 + |from|], t.history[n + 1 + |from|..];
    assert t.history == s.history + (a + (b + c));
    CountOfConcat(s.history, a + (b + c), x);
    CountOfConcat(a, b + c, x);
    CountOfConcat(b, c, x);
    CountOfLine(a, [id], x);
    CountOfLine(b, from, x);
    CountOfLine(c, to, x);
  }

  lemma WalksAreFolders(s: State, id: Id, row: Row)
    requires WellFormed(s.items) && Placeable(s.items, id, row)
    ensures FolderOrNone(s.items, ParentOf(s.items, id)) && FolderOrNone(s.items, row.parentId)
    ensures var from := LeftWalk(s.items, id, row); forall i, j :: 0 <= i < j < |from| ==> from[i] != from[j]
    ensures var to := Above(s.items, row.parentId); forall i, j :: 0 <= i < j < |to| ==> to[i] != to[j]
    ensures forall a :: a in LeftWalk(s.items, id, row) || a in Above(s.items, row.parentId) ==>
      a in s.items && s.items[a].kind.Folder?
  {
    assert FolderOrNone(s.items, ParentOf(s.items, id)) && FolderOrNone(s.items, row.parentId);
    hide Lineage, Above, WellFormed;
    AboveDistinct(s.items, ParentOf(s.items, id));
    AboveDistinct(s.items, row.parentId);
  }

  ghost function TimesInBatch(s: State, batch: seq<Import>, x: Id): int
    decreases |batch|
  {
    if batch == [] then 0
    else TimesRecorded(s.items, batch[0].id, batch[0].row, x)
         + TimesInBatch(Imported(s, batch[0].id, batch[0].row), batch[1..], x)
  }

  /** A batch records `x` exactly as often as its rounds do. */
  lemma {:induction false} BatchCount(s: State, batch: seq<Import>, x: Id)
    requires WellFormed(s.items) && AllPlaceable(s, batch)
    ensures Count(ImportedAll(s, batch).history, x) == Count(s.history, x) + TimesInBatch(s, batch, x)
    decreases |batch|
  {
    if batch != [] {
      hide Imported, WellFormed, Placeable, Count, TimesRecorded;
      ImportedSizes(s, batch[0].id, batch[0].row);
      ImportCount(s, batch[0].id, batch[0].row, x);
      BatchCount(Imported(s, batch[0].id, batch[0].row), batch[1..], x);
    }
  }

  // ----- the rows of a batch -----

  /** A row the batch does not send changes at most in size and date, and only if it is a FOLDER. */
  lemma {:induction false} BatchTouches(s: State, batch: seq<Import>, x: Id, date: string)
    requires WellFormed(s.items) && AllPlaceable(s, batch)
    requires x in s.items && forall b :: b in batch ==> b.id != x && b.row.date == date
    ensures var t := ImportedAll(s, batch).items;
      x in t && (t[x] == s.items[x]
                 || (s.items[x].kind.Folder? && t[x] == s.items[x].(size := t[x].size, date := date)))
    decreases |batch|
  {
    if batch != [] {
      hide Imported, WellFormed, Placeable, Above, LeftWalk, Lineage;
      var b := batch[0];
      ImportedSizes(s, b.id, b.row);
      OneRoundTouches(s, b.id, b.row, x);
      BatchTouches(Imported(s, b.id, b.row), batch[1..], x, date);
    }
  }

  /** Of the rows not sent, one import changes only those on its two walks, which are FOLDERs. */
  lemma OneRoundTouches(s: State, id: Id, row: Row, x: Id)
    requires WellFormed(s.items) && Placeable(s.items, id, row) && x in s.items && x != id
    ensures var t := Imported(s, id, row).items;
      x in t && t[x] == if x in LeftWalk(s.items, id, row) || x in Above(s.items, row.parentId)
                        then s.items[x].(size := t[x].size, date := row.date) else s.items[x]
    ensures x in LeftWalk(s.items, id, row) || x in Above(s.items, row.parentId) ==> s.items[x].kind.Folder?
  {
    hide Imported, WellFormed, Placeable, Lineage, Above, AtOrAbove;
    ImportTouches(s, id, row, x);
    AboveIsAtOrAbove(s.items, row.parentId, x);
    AboveIsAtOrAbove(s.items, ParentOf(s.items, id), x);
    WalksAreFolders(s, id, row);
  }

  /** Each row sent is there in the end: a FILE exactly as sent, a FOLDER but for its size. */
  lemma {:induction false} BatchStores(s: State, batch: seq<Import>, k: nat, date: string)
    requires WellFormed(s.items) && AllPlaceable(s, batch) && k < |batch|
    requires forall i, j :: 0 <= i < j < |batch| ==> batch[i].id != batch[j].id
    requires forall b :: b in batch ==> b.row.date == date
    ensures var t := ImportedAll(s, batch).items;
      batch[k].id in t && t[batch[k].id] ==
        if batch[k].row.kind.File? then batch[k].row else batch[k].row.(size := t[batch[k].id].size)
    decreases |batch|
  {
    hide Imported, WellFormed, Placeable, AtOrAbove, ParentOf;
    var b := batch[0];
    var t := Imported(s, b.id, b.row);
    ImportedSizes(s, b.id, b.row);
    if k == 0 {
      ImportTouches(s, b.id, b.row, b.id);
      BatchTouches(t, batch[1..], b.id, date);
    } else {
      BatchStores(t, batch[1..], k - 1, date);
    }
  }

  lemma {:induction false} BatchIds(s: State, batch: seq<Import>, x: Id)
    requires WellFormed(s.items) && AllPlaceable(s, batch)
    ensures x in ImportedAll(s, batch).items <==> x in s.items || exists b :: b in batch && b.id == x
    decreases |batch|
  {
    if batch != [] {
      hide Imported, WellFormed, Placeable;
      var b := batch[0];
      ImportedSizes(s, b.id, b.row);
      BatchIds(Imported(s, b.id, b.row), batch[1..], x);
      assert batch == [b] + batch[1..];
    }
  }

  // ----- rows out of a batch's reach -----

  /** `x` is above neither the old nor the new parent of any row sent, in the table before the batch. */
  ghost predicate OutOfReach(items: Items, batch: seq<Import>, x: Id) {
    forall b :: b in batch ==>
      b.id != x && x !in Above(items, b.row.parentId) && x !in Above(items, ParentOf(items, b.id))
  }

  /** An import puts `x` above nothing new unless it was above the new parent. */
  lemma NothingNewBelow(s: State, id: Id, row: Row, q: Option<Id>, x: Id)
    requires WellFormed(s.items) && Placeable(s.items, id, row)
    requires x != id && x !in Above(s.items, row.parentId) && x !in Above(s.items, q)
    ensures x !in Above(Imported(s, id, row).items, q)
  {
    hide Imported;
    var items' := s.items[id := row];
    ImportedSizes(s, id, row);
    PutWellFormed(s.items, id, row);
    if q.Some? {
      SameShapeLineage(items', Imported(s, id, row).items, q.value);
      PutLineageSelf(s.items, id, row);
      if q.value in s.items && id in Lineage(s.items, q.value) {
        PutLineageInside(s.items, id, row, q.value, x);
      } else if q.value in s.items && q.value != id {
        PutLineageOutside(s.items, id, row, q.value);
      }
    }
  }

  lemma ReachStays(s: State, batch: seq<Import>, x: Id)
    requires WellFormed(s.items) && batch != [] && Placeable(s.items, batch[0].id, batch[0].row)
    requires forall i, j :: 0 <= i < j < |batch| ==> batch[i].id != batch[j].id
    requires OutOfReach(s.items, batch, x)
    ensures OutOfReach(Imported(s, batch[0].id, batch[0].row).items, batch[1..], x)
  {
    hide Imported, WellFormed, Placeable, Above;
    var first := batch[0];
    var t := Imported(s, first.id, first.row);
    ImportedSizes(s, first.id, first.row);
    forall b | b in batch[1..]
      ensures b.id != x && x !in Above(t.items, b.row.parentId) && x !in Above(t.items, ParentOf(t.items, b.id))
    {
      assert b in batch && first in batch;
      assert ParentOf(t.items, b.id) == ParentOf(s.items, b.id);
      NothingNewBelow(s, first.id, first.row, b.row.parentId, x);
      NothingNewBelow(s, first.id, first.row, ParentOf(s.items, b.id), x);
    }
  }

  /** A batch leaves every row that is out of its reach as it was. */
  lemma {:induction false} BatchLeaves(s: State, batch: seq<Import>, x: Id)
    requires WellFormed(s.items) && AllPlaceable(s, batch)
    requires forall i, j :: 0 <= i < j < |batch| ==> batch[i].id != batch[j].id
    requires x in s.items && OutOfReach(s.items, batch, x)
    ensures x in ImportedAll(s, batch).items && ImportedAll(s, batch).items[x] == s.items[x]
    decreases |batch|
  {
    if batch != [] {
      hide Imported, WellFormed, Placeable, Above;
      var first := batch[0];
      ImportedSizes(s, first.id, first.row);
      OneRoundTouches(s, first.id, first.row, x);
      assert first in batch;
      ReachStays(s, batch, x);
      BatchLeaves(Imported(s, first.id, first.row), batch[1..], x);
    }
  }
}
