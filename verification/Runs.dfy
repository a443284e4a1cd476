/** Batches, requests and whole runs: what every request keeps. */
module Runs {
  import opened Options
  import opened FileTree
  import opened TreeChanges
  import opened Store

  // ----- history -----

  /** Every live row's latest snapshot is the row itself, and no snapshot names a dead id. */
  ghost predicate HistoryTracks(s: State) {
    && (forall x :: x in s.items ==> Latest(s.history, x) == Some(s.items[x]))
    && (forall e :: e in s.history ==> e.id in s.items)
  }

  lemma {:induction false} LatestOfConcat(h: seq<Entry>, k: seq<Entry>, x: Id)
    ensures Latest(h + k, x) == if Latest(k, x).Some? then Latest(k, x) else Latest(h, x)
    decreases |k|
  {
    if k == [] {
      assert h + k == h;
    } else {
      assert (h + k)[..|h + k| - 1] == h + k[..|k| - 1];
      LatestOfConcat(h, k[..|k| - 1], x);
    }
  }

  lemma {:induction false} LatestOfSnapshots(items: Items, line: seq<Id>, x: Id)
    requires forall y :: y in line ==> y in items
    ensures Latest(Snapshots(items, line), x) == if x in line then Some(items[x]) else None
    decreases |line|
  {
    if line != [] {
      var n := |line| - 1;
      assert Snapshots(items, line)[..n] == Snapshots(items, line[..n]);
      LatestOfSnapshots(items, line[..n], x);
      assert line == line[..n] + [line[n]];
    }
  }

  lemma {:induction false} ForgetFacts(h: seq<Entry>, gone: set<Id>, x: Id)
    requires x !in gone
    ensures Latest(Forget(h, gone), x) == Latest(h, x)
    ensures forall e :: e in Forget(h, gone) <==> e in h && e.id !in gone
    decreases |h|
  {
    if h != [] {
      var n := |h| - 1;
      assert h == h[..n] + [h[n]];
      ForgetFacts(h[..n], gone, x);
      LatestOfConcat(Forget(h[..n], gone), if h[n].id in gone then [] else [h[n]], x);
    }
  }

  /** The entries of the given ids, in order. */
  ghost function Only(history: seq<Entry>, ids: set<Id>): seq<Entry> {
    if history == [] then []
    else Only(history[..|history| - 1], ids)
         + if history[|history| - 1].id in ids then [history[|history| - 1]] else []
  }

  /** `kept` is what stands in `h` at the positions `at`, in order, and these are all entries of the given ids. */
  ghost predicate Picks(h: seq<Entry>, ids: set<Id>, kept: seq<Entry>, at: seq<int>) {
    && |at| == |kept|
    && (forall i :: 0 <= i < |at| ==> 0 <= at[i] < |h| && kept[i] == h[at[i]])
    && (forall i, j :: 0 <= i < j < |at| ==> at[i] < at[j])
    && (forall j :: 0 <= j < |h| ==> (h[j].id in ids <==> j in at))
  }

  lemma PicksOneMore(h: seq<Entry>, ids: set<Id>, kept: seq<Entry>, at: seq<int>, e: Entry)
    requires Picks(h, ids, kept, at)
    ensures e.id in ids ==> Picks(h + [e], ids, kept + [e], at + [|h|])
    ensures e.id !in ids ==> Picks(h + [e], ids, kept, at)
  {
    assert forall j :: 0 <= j < |h| ==> (h + [e])[j] == h[j];
    assert |h| !in at;
    assert forall j :: j in at + [|h|] <==> j in at || j == |h|;
  }

  /** `Only` keeps exactly the entries of the given ids, in order. */
  lemma {:induction false} OnlyPicks(h: seq<Entry>, ids: set<Id>) returns (at: seq<int>)
    ensures Picks(h, ids, Only(h, ids), at)
    decreases |h|
  {
    at := [];
    if h != [] {
      var n := |h| - 1;
      assert h == h[..n] + [h[n]];
      hide Picks;
      at := OnlyPicks(h[..n], ids);
      PicksOneMore(h[..n], ids, Only(h[..n], ids), at, h[n]);
      assert Only(h, ids) == if h[n].id in ids then Only(h[..n], ids) + [h[n]] else Only(h[..n], ids);
      if h[n].id in ids {
        at := at + [n];
      }
    }
  }

  lemma {:induction false} OnlyOfConcat(h: seq<Entry>, k: seq<Entry>, ids: set<Id>)
    ensures Only(h + k, ids) == Only(h, ids) + Only(k, ids)
    decreases |k|
  {
    if k == [] {
      assert h + k == h;
    } else {
      assert (h + k)[..|h + k| - 1] == h + k[..|k| - 1];
      OnlyOfConcat(h, k[..|k| - 1], ids);
    }
  }

  /** Forgetting some ids leaves the entries of any others as they were: all of them, in the same order. */
  lemma {:induction false} ForgetKeepsOthers(h: seq<Entry>, gone: set<Id>, ids: set<Id>)
    requires ids !! gone
    ensures Only(Forget(h, gone), ids) == Only(h, ids) && Only(Forget(h, gone), gone) == []
    decreases |h|
  {
    if h != [] {
      var n := |h| - 1;
      var last := if h[n].id in gone then [] else [h[n]];
      ForgetKeepsOthers(h[..n], gone, ids);
      OnlyOfConcat(Forget(h[..n], gone), last, ids);
      OnlyOfConcat(Forget(h[..n], gone), last, gone);
      OnlyOfOne(h[n], ids);
      OnlyOfOne(h[n], gone);
    }
  }

  ghost function IdsIn(history: seq<Entry>): set<Id> {
    set e | e in history :: e.id
  }

  /** Forgetting some ids is keeping all others. */
  lemma {:induction false} ForgetIsOnly(h: seq<Entry>, gone: set<Id>, ids: set<Id>)
    requires forall e :: e in h ==> (e.id in ids <==> e.id !in gone)
    ensures Forget(h, gone) == Only(h, ids)
    decreases |h|
  {
    if h != [] {
      ForgetIsOnly(h[..|h| - 1], gone, ids);
    }
  }

  lemma OnlyOfOne(e: Entry, ids: set<Id>)
    ensures Only([e], ids) == (if e.id in ids then [e] else []) && Only([], ids) == []
  {
    assert [e][..0] == [];
  }

  lemma OnlyOfPrefix(h: seq<Entry>, t: seq<Entry>, ids: set<Id>)
    requires h <= t
    ensures Only(h, ids) <= Only(t, ids)
  {
    OnlyOfConcat(h, t[|h|..], ids);
    assert t == h + t[|h|..];
  }

  lemma BumpExtendsHistory(s: State, parent: Option<Id>, delta: int, date: string)
    ensures s.history <= BumpedAt(s, parent, delta, date).history
  {
    hide Lineage;
  }

  lemma ImportExtendsHistory(s: State, id: Id, row: Row)
    ensures s.history <= Imported(s, id, row).history
  {
    var p, w := ParentOf(s.items, id), Written(s, id, row);
    hide BumpedAt, ParentOf, Lineage;
    var delta := row.size - if id in s.items then s.items[id].size else 0;
    BumpExtendsHistory(w, row.parentId, delta, row.date);
    BumpExtendsHistory(w, p, -row.size, row.date);
    BumpExtendsHistory(BumpedAt(w, p, -row.size, row.date), row.parentId, row.size, row.date);
  }

  /** A delete keeps the history of every survivor and may only add to it. */
  lemma DeleteExtendsHistory(s: State, id: Id, date: string, x: Id)
    requires x in Deleted(s, id, date).items
    ensures Only(s.history, {x}) <= Only(Deleted(s, id, date).history, {x})
  {
    hide Lineage, FileSum, Forget;
    var r := Removed(s, id);
    ForgetKeepsOthers(s.history, Subtree(s.items, id), {x});
    hide Only;
    BumpExtendsHistory(r, ParentOf(s.items, id), -TrueSize(s.items, id), date);
    OnlyOfPrefix(r.history, Deleted(s, id, date).history, {x});
  }

  lemma {:induction false} ForgetTwice(h: seq<Entry>, g: set<Id>, k: set<Id>)
    ensures Forget(Forget(h, g), k) == Forget(h, g + k)
    decreases |h|
  {
    if h != [] {
      var n := |h| - 1;
      var rest, last := Forget(h[..n], g), if h[n].id in g then [] else [h[n]];
      ForgetTwice(h[..n], g, k);
      assert Forget(h, g) == rest + last;
      if last == [] {
        assert rest + last == rest;
      } else {
        assert (rest + last)[..|rest|] == rest;
      }
    }
  }

  lemma BumpKeepsHistory(s: State, parent: Option<Id>, delta: int, date: string)
    requires WellFormed(s.items) && FolderOrNone(s.items, parent) && HistoryTracks(s)
    ensures HistoryTracks(BumpedAt(s, parent, delta, date))
  {
    if parent.Some? {
      hide Lineage, Latest;
      var t := Bumped(s, parent.value, delta, date);
      var line := Lineage(s.items, parent.value);
      forall x | x in t.items ensures Latest(t.history, x) == Some(t.items[x]) {
        LatestOfConcat(s.history, Snapshots(t.items, line), x);
        LatestOfSnapshots(t.items, line, x);
      }
    }
  }

  lemma WriteKeepsHistory(s: State, id: Id, row: Row)
    requires HistoryTracks(s)
    ensures HistoryTracks(Written(s, id, row))
  {
    forall x | x in s.items[id := row]
      ensures Latest(s.history + [Entry(id, row)], x) == Some(s.items[id := row][x])
    {
      LatestOfConcat(s.history, [Entry(id, row)], x);
    }
  }

  lemma ImportKeepsHistory(s: State, id: Id, row: Row)
    requires WellFormed(s.items) && Placeable(s.items, id, row) && HistoryTracks(s)
    ensures HistoryTracks(Imported(s, id, row))
  {
    hide Imported, BumpedAt, WellFormed, Placeable, FolderOrNone, ParentOf, NewParentDelta, HistoryTracks, FileSum, Lineage;
    var p, w := ParentOf(s.items, id), Written(s, id, row);
    RoundFacts(s, id, row);
    WriteKeepsHistory(s, id, row);
    if p == row.parentId {
      BumpKeepsHistory(w, p, NewParentDelta(s.items, id, row), row.date);
    } else {
      BumpKeepsHistory(w, p, -row.size, row.date);
      BumpKeepsHistory(BumpedAt(w, p, -row.size, row.date), row.parentId, row.size, row.date);
    }
  }

  lemma DeleteKeepsHistory(s: State, id: Id, date: string)
    requires WellFormed(s.items) && id in s.items && HistoryTracks(s)
    ensures HistoryTracks(Deleted(s, id, date))
  {
    hide FileSum, Lineage, Latest, Forget;
    var r, parent, size := Removed(s, id), ParentOf(s.items, id), TrueSize(s.items, id);
    forall x | x in r.items ensures Latest(r.history, x) == Some(r.items[x]) {
      ForgetFacts(s.history, Subtree(s.items, id), x);
    }
    forall e | e in r.history ensures e.id in r.items {
      ForgetDropsDead(s.history, Subtree(s.items, id), e);
    }
    RemovedFacts(s, id);
    BumpKeepsHistory(r, parent, -size, date);
    DeletedAsBump(s, id, date, r, parent, size);
  }

  lemma {:induction false} ForgetDropsDead(h: seq<Entry>, gone: set<Id>, e: Entry)
    ensures e in Forget(h, gone) ==> e in h && e.id !in gone
    decreases |h|
  {
    if h != [] {
      ForgetDropsDead(h[..|h| - 1], gone, e);
    }
  }

  // ----- batches -----

  datatype Import = Import(id: Id, row: Row)

  ghost function ImportedAll(s: State, batch: seq<Import>): State
    decreases |batch|
  {
    if batch == [] then s else ImportedAll(Imported(s, batch[0].id, batch[0].row), batch[1..])
  }

  /** What validation against the table before the batch establishes. */
  ghost predicate Resolved(items: Items, batch: seq<Import>) {
    && (forall i, j :: 0 <= i < j < |batch| ==> batch[i].id != batch[j].id)
    && (forall i :: 0 <= i < |batch| && batch[i].row.kind.Folder? ==> batch[i].row.size == 0)
    && (forall i :: 0 <= i < |batch| && batch[i].row.parentId.Some? ==>
          ParentResolved(items, batch[..i], batch[i].row.parentId.value))
  }

  /** The parent is a FOLDER of the table or of an earlier batch entry. */
  ghost predicate ParentResolved(items: Items, earlier: seq<Import>, p: Id) {
    || (p in items && items[p].kind.Folder?)
    || (exists e :: e in earlier && e.id == p && e.row.kind.Folder?)
  }

  /** What the code takes on trust: ids are not empty and an existing id keeps its type. */
  ghost predicate Trusted(items: Items, batch: seq<Import>) {
    forall i :: 0 <= i < |batch| ==>
      batch[i].id != "" && (batch[i].id in items ==> items[batch[i].id].kind == batch[i].row.kind)
  }

  /** The other thing taken on trust: no round puts a row below itself. */
  ghost predicate AcyclicMoves(s: State, batch: seq<Import>)
    decreases |batch|
  {
    batch != [] ==>
      && !AtOrAbove(s.items, batch[0].row.parentId, batch[0].id)
      && AcyclicMoves(Imported(s, batch[0].id, batch[0].row), batch[1..])
  }

  /** Every round finds its row's parent present, a FOLDER, and not below the row. */
  ghost predicate AllPlaceable(s: State, batch: seq<Import>)
    decreases |batch|
  {
    batch != [] ==>
      && Placeable(s.items, batch[0].id, batch[0].row)
      && AllPlaceable(Imported(s, batch[0].id, batch[0].row), batch[1..])
  }

  lemma FirstPlaceable(items: Items, batch: seq<Import>)
    requires batch != [] && Resolved(items, batch) && Trusted(items, batch)
    requires !AtOrAbove(items, batch[0].row.parentId, batch[0].id)
    ensures Placeable(items, batch[0].id, batch[0].row)
  {
    hide Lineage;
    assert batch[..0] == [];
  }

  /** What was resolved with the first row in the batch is resolved with it in the table. */
  lemma RestResolved(items: Items, items': Items, batch: seq<Import>)
    requires batch != [] && Resolved(items, batch) && Trusted(items, batch)
    requires SameShape(items[batch[0].id := batch[0].row], items')
    ensures Resolved(items', batch[1..]) && Trusted(items', batch[1..])
  {
    var first, rest := batch[0], batch[1..];
    forall i | 0 <= i < |rest| && rest[i].row.parentId.Some?
      ensures ParentResolved(items', rest[..i], rest[i].row.parentId.value)
    {
      var p := rest[i].row.parentId.value;
      assert rest[i] == batch[i + 1] && batch[..i + 1] == [first] + rest[..i];
      assert ParentResolved(items, batch[..i + 1], p);
    }
  }

  lemma ResolvedAfterFirst(s: State, batch: seq<Import>)
    requires WellFormed(s.items) && batch != []
    requires Resolved(s.items, batch) && Trusted(s.items, batch)
    requires !AtOrAbove(s.items, batch[0].row.parentId, batch[0].id)
    ensures Placeable(s.items, batch[0].id, batch[0].row)
    ensures var t := Imported(s, batch[0].id, batch[0].row);
      WellFormed(t.items) && SameShape(s.items[batch[0].id := batch[0].row], t.items)
      && Resolved(t.items, batch[1..]) && Trusted(t.items, batch[1..])
  {
    hide Lineage, FileSum, Imported, WellFormed, Resolved, Trusted, Placeable, SameShape, AtOrAbove;
    var t := Imported(s, batch[0].id, batch[0].row);
    FirstPlaceable(s.items, batch);
    ImportedSizes(s, batch[0].id, batch[0].row);
    RestResolved(s.items, t.items, batch);
  }

  /** A batch validated once, against the table before it, is safe at every later round, if and only if no round
      puts a row below itself. */
  lemma {:induction false} AcceptedBatchIsSafe(s: State, batch: seq<Import>)
    requires WellFormed(s.items)
    requires Resolved(s.items, batch) && Trusted(s.items, batch)
    ensures AllPlaceable(s, batch) <==> AcyclicMoves(s, batch)
    decreases |batch|
  {
    if batch != [] && !AtOrAbove(s.items, batch[0].row.parentId, batch[0].id) {
      ResolvedAfterFirst(s, batch);
      hide WellFormed, Resolved, Trusted, Lineage, Imported;
      AcceptedBatchIsSafe(Imported(s, batch[0].id, batch[0].row), batch[1..]);
    }
  }

  /** No existing FOLDER changes its parent. */
  ghost predicate FoldersStay(items: Items, batch: seq<Import>) {
    forall i :: 0 <= i < |batch| && batch[i].id in items && items[batch[i].id].kind.Folder? ==>
      items[batch[i].id].parentId == batch[i].row.parentId
  }

  /** Only moving an existing FOLDER can close a cycle. */
  lemma {:induction false} UnmovedFoldersCloseNoCycle(s: State, batch: seq<Import>)
    requires WellFormed(s.items)
    requires Resolved(s.items, batch) && Trusted(s.items, batch) && FoldersStay(s.items, batch)
    ensures AcyclicMoves(s, batch)
    decreases |batch|
  {
    if batch != [] {
      var first := batch[0];
      assert batch[..0] == [];
      if first.row.parentId.Some? {
        var p := first.row.parentId.value;
        LineageOfFolder(s.items, p);
        if first.id in Lineage(s.items, p) {
          NotAboveItself(s.items, first.id);
        }
      }
      ResolvedAfterFirst(s, batch);
      UnmovedFoldersCloseNoCycle(Imported(s, first.id, first.row), batch[1..]);
    }
  }

  /** Every round is clean for the size cache. */
  ghost predicate CleanBatch(s: State, batch: seq<Import>)
    decreases |batch|
  {
    batch != [] ==>
      && CleanStep(s.items, batch[0].id, batch[0].row)
      && CleanBatch(Imported(s, batch[0].id, batch[0].row), batch[1..])
  }

  lemma {:induction false} BatchKeeps(s: State, batch: seq<Import>)
    requires WellFormed(s.items) && AllPlaceable(s, batch)
    requires forall b :: b in batch && b.row.kind.Folder? ==> b.row.size == 0
    ensures WellFormed(ImportedAll(s, batch).items)
    ensures HistoryTracks(s) ==> HistoryTracks(ImportedAll(s, batch))
    ensures SizesExact(s.items) && CleanBatch(s, batch) ==> SizesExact(ImportedAll(s, batch).items)
    decreases |batch|
  {
    if batch != [] {
      hide Imported, FileSum, Lineage, Latest, SizesExact, HistoryTracks, WellFormed;
      var first := batch[0];
      ImportedSizes(s, first.id, first.row);
      if HistoryTracks(s) {
        ImportKeepsHistory(s, first.id, first.row);
      }
      if SizesExact(s.items) {
        CleanStepsKeepSizes(s, first.id, first.row);
      }
      BatchKeeps(Imported(s, first.id, first.row), batch[1..]);
    }
  }

  lemma {:induction false} BatchExtendsHistory(s: State, batch: seq<Import>)
    ensures s.history <= ImportedAll(s, batch).history
    decreases |batch|
  {
    if batch != [] {
      hide Imported;
      ImportExtendsHistory(s, batch[0].id, batch[0].row);
      BatchExtendsHistory(Imported(s, batch[0].id, batch[0].row), batch[1..]);
    }
  }

  // ----- drift over a batch -----

  /** The drift all rounds together add to the FOLDER `a`. */
  ghost function BatchDriftAdded(s: State, batch: seq<Import>, a: Id): int
    decreases |batch|
  {
    if batch == [] then 0
    else DriftAdded(s.items, batch[0].id, batch[0].row, a)
         + BatchDriftAdded(Imported(s, batch[0].id, batch[0].row), batch[1..], a)
  }

  /** The exact drift of every FOLDER after a whole batch, those the batch creates included: the rounds' drifts
      add up. */
  lemma {:induction false} BatchDrift(s: State, batch: seq<Import>, a: Id)
    requires WellFormed(s.items) && AllPlaceable(s, batch)
    requires forall b :: b in batch && b.row.kind.Folder? ==> b.row.size == 0
    requires IsFolder(ImportedAll(s, batch).items, a)
    ensures a in s.items ==> IsFolder(s.items, a)
    ensures Drift(ImportedAll(s, batch).items, a) == FolderDrift(s.items, a) + BatchDriftAdded(s, batch, a)
    decreases |batch|
  {
    if batch != [] {
      hide Imported, FileSum, Lineage, WellFormed, Drift, DriftAdded, IsFolder, Placeable;
      var first := batch[0];
      var t := Imported(s, first.id, first.row);
      ImportedSizes(s, first.id, first.row);
      BatchDrift(t, batch[1..], a);
      if IsFolder(t.items, a) {
        ImportFolderDrift(s, first.id, first.row, a);
      } else {
        AbsentBefore(s, first.id, first.row, a);
        NoDriftAddedToAbsent(s.items, first.id, first.row, a);
      }
    }
  }

  lemma AbsentBefore(s: State, id: Id, row: Row, a: Id)
    requires WellFormed(s.items) && Placeable(s.items, id, row)
    requires a !in Imported(s, id, row).items
    ensures a !in s.items && !IsFolder(s.items, a)
  {
    hide Imported, Lineage, FileSum, WellFormed;
    ImportedSizes(s, id, row);
  }
}
