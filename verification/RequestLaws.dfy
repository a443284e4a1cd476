/** What served requests leave in the tables, told from the request's own fields and the tables before it. */
module RequestLaws {
  import opened Options
  import opened FileTree
  import opened TreeChanges
  import opened Store
  import opened Runs
  import opened Records
  import opened Requests
  import Timestamp

  // ----- which imports are accepted -----

  /** An item's own fields are in order. */
  predicate InOrder(item: RawItem) {
    || (item.kind == Value("FOLDER") && item.size in {Missing, Null} && item.url in {Missing, Null})
    || (item.kind == Value("FILE") && item.size.Value? && item.size.value >= 1 && item.url.Value? && |item.url.value| < 256)
  }

  /** Item `i` has an id that no item before it has, a type, and a parent that is null, a FOLDER of the table or a
      FOLDER among the items before it. */
  ghost predicate Placed(table: Items, items: seq<RawItem>, i: int)
    requires 0 <= i < |items|
  {
    && items[i].id.Value? && items[i].kind.Value?
    && (forall j :: 0 <= j < i ==> items[j].id != items[i].id)
    && (items[i].parentId.Null?
        || (items[i].parentId.Value?
            && ((items[i].parentId.value in table && table[items[i].parentId.value].kind.Folder?)
                || exists j :: 0 <= j < i && items[j].id == items[i].parentId && items[j].kind == Value("FOLDER"))))
  }

  /** Every item is in order and placed. */
  ghost predicate AllInOrder(table: Items, items: seq<RawItem>) {
    forall i :: 0 <= i < |items| ==> InOrder(items[i]) && Placed(table, items, i)
  }

  lemma PlacedHeadFits(table: Items, items: seq<RawItem>, i: int)
    requires 0 <= i < |items| && forall j :: 0 <= j < i ==> items[j].id.Value?
    ensures Placed(table, items, i) <==> HeadFits(table, items[i], IdsOf(items[..i]), FoldersOf(items[..i]))
  {
    var before := items[..i];
    assert forall j :: 0 <= j < i ==> before[j] == items[j];
    if items[i].id.Value? {
      assert items[i].id.value in IdsOf(before) <==> exists j :: 0 <= j < i && items[j].id == items[i].id by {
        assert forall j :: 0 <= j < i ==> Get(before[j].id, "") == items[j].id.value;
      }
    }
    if items[i].parentId.Value? {
      FolderBefore(before, items[i].parentId.value);
    }
  }

  lemma FolderBefore(items: seq<RawItem>, p: string)
    requires forall j :: 0 <= j < |items| ==> items[j].id.Value?
    ensures p in FoldersOf(items) <==> exists j :: 0 <= j < |items| && items[j].id == Value(p) && items[j].kind == Value("FOLDER")
  {
    if p in FoldersOf(items) {
      var j :| 0 <= j < |items| && items[j].kind == Value("FOLDER") && Get(items[j].id, "") == p;
      assert items[j].id == Value(p);
    }
    if j :| 0 <= j < |items| && items[j].id == Value(p) && items[j].kind == Value("FOLDER") {
      assert Get(items[j].id, "") == p;
    }
  }

  lemma FitsIsInOrder(table: Items, items: seq<RawItem>, i: int)
    requires 0 <= i < |items| && forall j :: 0 <= j < i ==> items[j].id.Value?
    ensures FitsAt(table, items, i) <==> InOrder(items[i]) && Placed(table, items, i)
  {
    hide IdsOf, FoldersOf;
    PlacedHeadFits(table, items, i);
    hide Placed, HeadFits;
    assert HeadFits(table, items[i], IdsOf(items[..i]), FoldersOf(items[..i])) ==>
      items[i].id.Value? && items[i].kind.Value? && !items[i].parentId.Missing? by { HeadIsThere(table, items, i); }
  }

  lemma HeadIsThere(table: Items, items: seq<RawItem>, i: int)
    requires 0 <= i < |items|
    ensures HeadFits(table, items[i], IdsOf(items[..i]), FoldersOf(items[..i])) ==>
            items[i].id.Value? && items[i].kind.Value? && !items[i].parentId.Missing?
  {
  }

  /** The items resolve as far as each of them fits. */
  lemma {:induction false} FittingResolves(table: Items, items: seq<RawItem>, date: string, k: nat)
    requires k <= |items|
    ensures (forall i :: 0 <= i < k ==> FitsAt(table, items, i)) <==>
            (forall i :: 0 <= i < k ==> WellShaped(items[i])) && Resolved(table, BatchOf(items[..k], date))
    decreases k
  {
    hide Resolved, BatchOf, WellShaped, FitsAt;
    if k == 0 {
      NoItems(table, items, date);
    } else {
      FittingResolves(table, items, date, k - 1);
      FitsOneMore(table, items, date, k - 1);
    }
  }

  lemma FitsOneMore(table: Items, items: seq<RawItem>, date: string, k: nat)
    requires k < |items|
    ensures FitsAt(table, items, k) ==> WellShaped(items[k])
    ensures (forall i :: 0 <= i < k ==> WellShaped(items[i])) && Resolved(table, BatchOf(items[..k], date)) ==>
            (FitsAt(table, items, k) <==> WellShaped(items[k]) && Resolved(table, BatchOf(items[..k + 1], date)))
    ensures Resolved(table, BatchOf(items[..k + 1], date)) ==> Resolved(table, BatchOf(items[..k], date))
  {
    hide Resolved, BatchOf, IdsOf, FoldersOf;
    if (forall i :: 0 <= i < k ==> WellShaped(items[i])) && WellShaped(items[k]) && Resolved(table, BatchOf(items[..k], date)) {
      NextItem(table, items, date, k);
    }
    if Resolved(table, BatchOf(items[..k + 1], date)) {
      PrefixResolved(table, items[..k + 1], date, k);
      assert items[..k + 1][..k] == items[..k];
    }
  }

  lemma {:induction false} FittingIsInOrder(table: Items, items: seq<RawItem>, k: nat)
    requires k <= |items|
    ensures (forall i :: 0 <= i < k ==> FitsAt(table, items, i)) <==>
            (forall i :: 0 <= i < k ==> InOrder(items[i]) && Placed(table, items, i))
    decreases k
  {
    if k > 0 {
      FittingIsInOrder(table, items, k - 1);
      if forall i :: 0 <= i < k - 1 ==> InOrder(items[i]) && Placed(table, items, i) {
        assert forall j :: 0 <= j < k - 1 ==> Placed(table, items, j) && items[j].id.Value?;
        hide FitsAt, InOrder, Placed;
        FitsIsInOrder(table, items, k - 1);
      }
    }
  }

  /** The imports accepted, by the request's own fields. */
  lemma AcceptedImports(table: Items, body: Body)
    ensures Acceptable(table, body) <==>
      && body.updateDate.Value? && Timestamp.IsDateValid(body.updateDate.value)
      && body.items.Value? && body.items.value.Array? && |body.items.value.items| >= 1
      && AllInOrder(table, body.items.value.items)
  {
    hide Timestamp.IsDateValid, Resolved, BatchOf, WellShaped, FitsAt, InOrder, Placed;
    if body.updateDate.Value? && body.items.Value? && body.items.value.Array? {
      var items := body.items.value.items;
      FittingResolves(table, items, body.updateDate.value, |items|);
      FittingIsInOrder(table, items, |items|);
      assert items[..|items|] == items;
    }
  }

  /** Item `k` is a FILE with a null size, or with a proper size and a null url; it is placed, and all items before it
      are fine. */
  ghost predicate NullAfterFine(table: Items, items: seq<RawItem>, k: int)
    requires 0 <= k < |items|
  {
    && Placed(table, items, k) && items[k].kind == Value("FILE")
    && (items[k].size == Null || (items[k].size.Value? && items[k].size.value >= 1 && items[k].url == Null))
    && forall i :: 0 <= i < k ==> InOrder(items[i]) && Placed(table, items, i)
  }

  /** The imports that raise: those with a null date, or with a null in the first item that is not fine. */
  lemma RaisedImports(table: Items, body: Body)
    ensures Raises(table, body) <==>
      && !body.items.Missing? && !body.updateDate.Missing?
      && (|| body.updateDate == Null
          || (Timestamp.IsDateValid(body.updateDate.value) && body.items.Value? && body.items.value.Array? &&
              var items := body.items.value.items;
              exists k :: 0 <= k < |items| && NullAfterFine(table, items, k)))
  {
    hide Timestamp.IsDateValid;
    if body.items.Value? && body.items.value.Array? {
      var items := body.items.value.items;
      hide FitsAt, ReadsNullAt, NullAfterFine;
      forall k | 0 <= k < |items|
        ensures (ReadsNullAt(table, items, k) && forall i :: 0 <= i < k ==> FitsAt(table, items, i)) <==>
                NullAfterFine(table, items, k)
      {
        RaisingItem(table, items, k);
      }
      assert ItemsRaise(table, items) <==> exists k :: 0 <= k < |items| && NullAfterFine(table, items, k);
    }
  }

  lemma RaisingItem(table: Items, items: seq<RawItem>, k: int)
    requires 0 <= k < |items|
    ensures (ReadsNullAt(table, items, k) && forall i :: 0 <= i < k ==> FitsAt(table, items, i)) <==>
            NullAfterFine(table, items, k)
  {
    FittingIsInOrder(table, items, k);
    if forall i :: 0 <= i < k ==> InOrder(items[i]) && Placed(table, items, i) {
      assert forall j :: 0 <= j < k ==> Placed(table, items, j) && items[j].id.Value?;
      PlacedHeadFits(table, items, k);
      hide Placed, FitsAt, InOrder, IdsOf, FoldersOf;
      HeadIsThere(table, items, k);
    }
  }

  // ----- deletes -----

  /** Everything a delete leaves. The rows at or below `id` and their history are gone; the rows above it lose the
      FILE sizes removed, get the request's date and are recorded once each, root first; all else stays. */
  lemma DeleteLeaves(s: State, id: Id, date: string)
    requires WellFormed(s.items) && id in s.items && Timestamp.IsDateValid(date)
    ensures var (t, gone, line) :=
        (Served(s, Delete(id, Some(date))), Subtree(s.items, id), Above(s.items, s.items[id].parentId));
      && t.items.Keys == s.items.Keys - gone
      && (forall x :: x in t.items ==>
            t.items[x] == if x in line then s.items[x].(size := s.items[x].size - TrueSize(s.items, id), date := date)
                          else s.items[x])
      && (forall x :: x in line ==> x in t.items)
      && (forall e :: e in t.history ==> e.id !in gone)
      && var kept := Only(s.history, IdsIn(s.history) - gone);
         && |t.history| == |kept| + |line| && t.history[..|kept|] == kept
         && (forall i :: 0 <= i < |line| ==> t.history[|kept| + i] == Entry(line[i], t.items[line[i]]))
  {
    hide Timestamp.IsDateValid, Lineage, FileSum, Forget, Only, BumpedAt, Above, WellFormed;
    var r, parent, gone := Removed(s, id), ParentOf(s.items, id), Subtree(s.items, id);
    WalkSurvives(s, id);
    ForgetIsOnly(s.history, gone, IdsIn(s.history) - gone);
    BumpedAtLine(r, parent, -TrueSize(s.items, id), date);
    hide Subtree, TrueSize;
    forall e | e in Served(s, Delete(id, Some(date))).history ensures e.id !in gone {
      ForgetDropsDead(s.history, gone, e);
      EntryFromWalk(r, Served(s, Delete(id, Some(date))), Above(s.items, parent), -TrueSize(s.items, id), date, e);
    }
  }

  /** The rows above a removed subtree survive it, and so does the walk to them. */
  lemma WalkSurvives(s: State, id: Id)
    requires WellFormed(s.items) && id in s.items
    ensures Above(Removed(s, id).items, s.items[id].parentId) == Above(s.items, s.items[id].parentId)
    ensures forall x :: x in Above(s.items, s.items[id].parentId) ==> x in s.items && x !in Subtree(s.items, id)
  {
    SubtreeDownClosed(s.items, id);
    if s.items[id].parentId.Some? {
      NotAboveItself(s.items, id);
      RemoveLineage(s.items, Subtree(s.items, id), s.items[id].parentId.value);
    }
  }

  lemma EntryFromWalk(r: State, t: State, line: seq<Id>, delta: int, date: string, e: Entry)
    requires BumpsLine(r, t, line, delta, date) && e in t.history
    ensures e in r.history || e.id in line
  {
    var i :| 0 <= i < |t.history| && t.history[i] == e;
    if i < |r.history| {
      assert t.history[..|r.history|][i] == e;
    } else {
      var k := i - |r.history|;
      assert line[k] in line && t.history[|r.history| + k] == Entry(line[k], t.items[line[k]]);
    }
  }

  // ----- imports -----

  lemma ServedBatch(s: State, body: Body) returns (batch: seq<Import>)
    requires WellFormed(s.items) && Acceptable(s.items, body) && Reasonable(s, Imports(body))
    ensures batch == BatchOf(body.items.value.items, body.updateDate.value) && |batch| == |body.items.value.items|
    ensures Served(s, Imports(body)) == ImportedAll(s, batch) && AllPlaceable(s, batch)
    ensures forall i, j :: 0 <= i < j < |batch| ==> batch[i].id != batch[j].id
    ensures forall b :: b in batch ==> b.row.date == body.updateDate.value
  {
    hide Timestamp.IsDateValid, WellFormed, Trusted, ImportedAll, AllPlaceable;
    batch := BatchOf(body.items.value.items, body.updateDate.value);
    AcceptedBatchIsSafe(s, batch);
  }

  /** Every item of an accepted import is stored with what it was sent with: its parent and the request's date;
      a FILE with its size and url, a FOLDER with no url. */
  lemma ImportStores(s: State, body: Body, k: nat)
    requires WellFormed(s.items) && Acceptable(s.items, body) && Reasonable(s, Imports(body))
    requires k < |body.items.value.items|
    ensures var (item, t) := (body.items.value.items[k], Served(s, Imports(body)).items);
      item.id.Value? && item.id.value in t &&
      var row := t[item.id.value];
      && row.date == body.updateDate.value
      && (item.parentId.Value? ==> row.parentId == Some(item.parentId.value))
      && (item.parentId.Null? ==> row.parentId == None)
      && (item.kind == Value("FILE") ==>
            row.kind.File? && item.size == Value(row.size) && item.url.Value? && row.url == Some(item.url.value))
      && (item.kind == Value("FOLDER") ==> row.kind.Folder? && row.url == None)
      && (item.kind == Value("FILE") || item.kind == Value("FOLDER"))
  {
    hide Timestamp.IsDateValid, WellFormed, Resolved, Reasonable, Served, ImportedAll, AllPlaceable;
    var batch := ServedBatch(s, body);
    BatchStores(s, batch, k, body.updateDate.value);
    assert WellShaped(body.items.value.items[k]);
  }

  lemma SentIds(items: seq<RawItem>, date: string, x: Id)
    requires forall i :: 0 <= i < |items| ==> WellShaped(items[i])
    ensures (exists b :: b in BatchOf(items, date) && b.id == x) <==> (exists item :: item in items && item.id == Value(x))
  {
    var batch := BatchOf(items, date);
    hide RowOf;
    if b :| b in batch && b.id == x {
      var i :| 0 <= i < |batch| && batch[i] == b;
      assert WellShaped(items[i]) && items[i] in items;
    }
    if item :| item in items && item.id == Value(x) {
      var i :| 0 <= i < |items| && items[i] == item;
      assert batch[i] in batch;
    }
  }

  /** The ids after an accepted import: those before it and those sent. */
  lemma ImportAddsIds(s: State, body: Body, x: Id)
    requires WellFormed(s.items) && Acceptable(s.items, body) && Reasonable(s, Imports(body))
    ensures x in Served(s, Imports(body)).items <==>
            x in s.items || exists item :: item in body.items.value.items && item.id == Value(x)
  {
    hide Timestamp.IsDateValid, WellFormed, Resolved, Reasonable, Served, ImportedAll, AllPlaceable, WellShaped, BatchOf;
    var batch := ServedBatch(s, body);
    SentIds(body.items.value.items, body.updateDate.value, x);
    BatchIds(s, batch, x);
  }

  /** None of the items is `x`, and `x` is above neither the parent an item names nor the parent it has. */
  ghost predicate Beyond(table: Items, items: seq<RawItem>, x: Id) {
    forall i :: 0 <= i < |items| ==>
      && items[i].id != Value(x)
      && (items[i].parentId.Value? ==> x !in Lineage(table, items[i].parentId.value))
      && (items[i].id.Value? && items[i].id.value in table && table[items[i].id.value].parentId.Some? ==>
            x !in Lineage(table, table[items[i].id.value].parentId.value))
  }

  lemma BeyondIsOutOfReach(table: Items, items: seq<RawItem>, date: string, x: Id)
    requires (forall i :: 0 <= i < |items| ==> WellShaped(items[i])) && Beyond(table, items, x)
    ensures OutOfReach(table, BatchOf(items, date), x)
  {
    hide Lineage;
    var batch := BatchOf(items, date);
    forall b | b in batch
      ensures b.id != x && x !in Above(table, b.row.parentId) && x !in Above(table, ParentOf(table, b.id))
    {
      var i :| 0 <= i < |batch| && batch[i] == b;
      assert WellShaped(items[i]);
    }
  }

  /** An accepted import leaves every other row as it was. */
  lemma ImportLeaves(s: State, body: Body, x: Id)
    requires WellFormed(s.items) && Acceptable(s.items, body) && Reasonable(s, Imports(body))
    requires x in s.items && Beyond(s.items, body.items.value.items, x)
    ensures var t := Served(s, Imports(body)).items; x in t && t[x] == s.items[x]
  {
    hide Timestamp.IsDateValid, WellFormed, Resolved, Reasonable, Served, ImportedAll, AllPlaceable, Beyond, OutOfReach,
      WellShaped, BatchOf;
    var batch := ServedBatch(s, body);
    BeyondIsOutOfReach(s.items, body.items.value.items, body.updateDate.value, x);
    BatchLeaves(s, batch, x);
  }

  /** Of the rows not sent an accepted import changes only FOLDERs, in size and to the request's date. */
  lemma ImportKeepsRest(s: State, body: Body, x: Id)
    requires WellFormed(s.items) && Acceptable(s.items, body) && Reasonable(s, Imports(body))
    requires x in s.items && forall i :: 0 <= i < |body.items.value.items| ==> body.items.value.items[i].id != Value(x)
    ensures var t := Served(s, Imports(body)).items;
      x in t && (t[x] == s.items[x] || (s.items[x].kind.Folder?
                                        && t[x] == s.items[x].(size := t[x].size, date := body.updateDate.value)))
  {
    var items := body.items.value.items;
    assert forall i :: 0 <= i < |items| ==> WellShaped(items[i]);
    hide Timestamp.IsDateValid, WellFormed, Resolved, Reasonable, Served, ImportedAll, AllPlaceable;
    var batch := ServedBatch(s, body);
    forall b | b in batch ensures b.id != x {
      var i :| 0 <= i < |batch| && batch[i] == b;
      assert WellShaped(items[i]);
    }
    BatchTouches(s, batch, x, body.updateDate.value);
  }

  /** A refused request changes nothing. */
  lemma RefusedChangesNothing(s: State, req: Request)
    ensures match req
            case Imports(body) => !Acceptable(s.items, body) ==> Served(s, req) == s
            case Delete(id, date) =>
              date.None? || !Timestamp.IsDateValid(date.value) || id !in s.items ==> Served(s, req) == s
  {
  }

  // ----- how often a row is recorded over a run -----

  /** The number of entries of `x` after a request that finds `count` of them. */
  ghost function CountThen(s: State, req: Request, count: int, x: Id): int {
    match req
    case Imports(body) =>
      if Acceptable(s.items, body) then
        count + TimesInBatch(s, BatchOf(body.items.value.items, body.updateDate.value), x)
      else count
    case Delete(id, date) =>
      if date.None? || !Timestamp.IsDateValid(date.value) || id !in s.items then count
      else if x in Subtree(s.items, id) then 0
      else count + if x in Above(s.items, s.items[id].parentId) then 1 else 0
  }

  lemma {:induction false} OnlyOfSmaller(h: seq<Entry>, ids: set<Id>, x: Id)
    ensures Only(Only(h, ids), {x}) == if x in ids then Only(h, {x}) else []
    decreases |h|
  {
    if h != [] {
      var n := |h| - 1;
      OnlyOfSmaller(h[..n], ids, x);
      OnlyOfConcat(Only(h[..n], ids), if h[n].id in ids then [h[n]] else [], {x});
      OnlyOfOne(h[n], {x});
    }
  }

  lemma {:induction false} OnlyOfAbsent(h: seq<Entry>, x: Id)
    requires x !in IdsIn(h)
    ensures Only(h, {x}) == []
    decreases |h|
  {
    if h != [] {
      assert h[|h| - 1].id in IdsIn(h);
      OnlyOfAbsent(h[..|h| - 1], x);
    }
  }

  lemma DeleteCount(s: State, id: Id, date: string, x: Id)
    requires WellFormed(s.items) && id in s.items && Timestamp.IsDateValid(date)
    ensures var req := Delete(id, Some(date));
      Count(Served(s, req).history, x) == CountThen(s, req, Count(s.history, x), x)
  {
    hide Timestamp.IsDateValid, Lineage, FileSum, Only, WellFormed, Served, Above;
    var t, gone, line := Served(s, Delete(id, Some(date))), Subtree(s.items, id), Above(s.items, s.items[id].parentId);
    var kept := Only(s.history, IdsIn(s.history) - gone);
    DeleteLeaves(s, id, date);
    WalkSurvives(s, id);
    LineFacts(s, id);
    var more := t.history[|kept|..];
    assert t.history == kept + more;
    CountOfConcat(kept, more, x);
    CountOfLine(more, line, x);
    OnlyOfSmaller(s.history, IdsIn(s.history) - gone, x);
    if x !in IdsIn(s.history) {
      OnlyOfAbsent(s.history, x);
    }
  }

  lemma LineFacts(s: State, id: Id)
    requires WellFormed(s.items) && id in s.items
    ensures var line := Above(s.items, s.items[id].parentId);
      forall i, j :: 0 <= i < j < |line| ==> line[i] != line[j]
  {
    assert FolderOrNone(s.items, s.items[id].parentId);
    hide Lineage, Above;
    AboveDistinct(s.items, s.items[id].parentId);
  }

  lemma RequestCount(s: State, req: Request, x: Id)
    requires WellFormed(s.items) && Reasonable(s, req)
    ensures Count(Served(s, req).history, x) == CountThen(s, req, Count(s.history, x), x)
  {
    hide Timestamp.IsDateValid, WellFormed, Count, Lineage, Above, Reasonable, ImportedAll, Deleted, Subtree;
    match req
    case Imports(body) =>
      if Acceptable(s.items, body) {
        var batch := ServedBatch(s, body);
        BatchCount(s, batch, x);
      }
    case Delete(id, date) =>
      if date.Some? && Timestamp.IsDateValid(date.value) && id in s.items {
        DeleteCount(s, id, date.value, x);
      }
  }

  ghost function CountAfter(s: State, reqs: seq<Request>, count: int, x: Id): int
    decreases |reqs|
  {
    if reqs == [] then count
    else CountAfter(Served(s, reqs[0]), reqs[1..], CountThen(s, reqs[0], count, x), x)
  }

  /** Over any run, how often each id stands in the history: exactly as often as the requests record it. */
  lemma {:induction false} RunCount(s: State, reqs: seq<Request>, x: Id)
    requires WellFormed(s.items) && ReasonableRun(s, reqs)
    ensures Count(Run(s, reqs).history, x) == CountAfter(s, reqs, Count(s.history, x), x)
    decreases |reqs|
  {
    if reqs != [] {
      hide WellFormed, Served, Reasonable, Count, CountThen;
      ServedKeeps(s, reqs[0]);
      RequestCount(s, reqs[0], x);
      RunCount(Served(s, reqs[0]), reqs[1..], x);
    }
  }

  // ----- what every row and every entry satisfies -----

  /** A valid date; a FILE has a positive size and a url of at most 255 characters, a FOLDER has no url. */
  predicate Sound(row: Row) {
    && Timestamp.IsDateValid(row.date)
    && match row.kind
       case File => row.size > 0 && row.url.Some? && |row.url.value| <= 255
       case Folder => row.url.None?
  }

  ghost predicate AllSound(s: State) {
    (forall x :: x in s.items ==> Sound(s.items[x])) && (forall e :: e in s.history ==> Sound(e.row))
  }

  lemma FolderStaysSound(row: Row, size: int, date: string)
    requires Sound(row) && row.kind.Folder? && Timestamp.IsDateValid(date)
    ensures Sound(row.(size := size, date := date))
  {
  }

  lemma ImportKeepsRowsSound(s: State, id: Id, row: Row, x: Id)
    requires WellFormed(s.items) && Placeable(s.items, id, row) && AllSound(s) && Sound(row)
    requires x in Imported(s, id, row).items
    ensures Sound(Imported(s, id, row).items[x])
  {
    hide Timestamp.IsDateValid, Imported, WellFormed, Placeable, LeftWalk, Above, AtOrAbove, ParentOf;
    ImportedSizes(s, id, row);
    if x == id {
      ImportTouches(s, id, row, id);
    } else {
      OneRoundTouches(s, id, row, x);
      if s.items[x].kind.Folder? {
        FolderStaysSound(s.items[x], Imported(s, id, row).items[x].size, row.date);
      }
    }
  }

  lemma ImportKeepsSound(s: State, id: Id, row: Row)
    requires WellFormed(s.items) && Placeable(s.items, id, row) && AllSound(s) && Sound(row)
    ensures AllSound(Imported(s, id, row))
  {
    var t, n := Imported(s, id, row), |s.history|;
    var from, to := LeftWalk(s.items, id, row), Above(s.items, row.parentId);
    hide Timestamp.IsDateValid, Imported, WellFormed, Placeable, LeftWalk, Above, Sound;
    assert forall x :: x in s.items ==> Sound(s.items[x]);
    forall x | x in t.items ensures Sound(t.items[x]) {
      ImportKeepsRowsSound(s, id, row, x);
    }
    ImportRecord(s, id, row);
    WalksAreFolders(s, id, row);
    assert Timestamp.IsDateValid(row.date) by { DateOfSound(row); }
    forall k | 0 <= k < |t.history| ensures Sound(t.history[k].row) {
      if k < n {
        assert t.history[..n][k] == t.history[k] && s.history[k] in s.history;
      } else if k > n && k <= n + |from| {
        var i := k - n - 1;
        assert from[i] in from && t.history[n + 1 + i] == t.history[k];
        FolderStaysSound(s.items[from[i]], s.items[from[i]].size - row.size, row.date);
      } else if k > n + |from| {
        var i := k - n - 1 - |from|;
        assert to[i] in t.items && t.history[n + 1 + |from| + i] == t.history[k];
      }
    }
  }

  lemma DateOfSound(row: Row)
    requires Sound(row)
    ensures Timestamp.IsDateValid(row.date)
  {
  }

  lemma {:induction false} BatchKeepsSound(s: State, batch: seq<Import>)
    requires WellFormed(s.items) && AllPlaceable(s, batch) && AllSound(s) && forall b :: b in batch ==> Sound(b.row)
    ensures AllSound(ImportedAll(s, batch))
    decreases |batch|
  {
    if batch != [] {
      hide Imported, WellFormed, Placeable, Sound, AllSound;
      ImportedSizes(s, batch[0].id, batch[0].row);
      ImportKeepsSound(s, batch[0].id, batch[0].row);
      BatchKeepsSound(Imported(s, batch[0].id, batch[0].row), batch[1..]);
    }
  }

  lemma SentRowsAreSound(items: seq<RawItem>, date: string)
    requires (forall i :: 0 <= i < |items| ==> WellShaped(items[i])) && Timestamp.IsDateValid(date)
    ensures forall b :: b in BatchOf(items, date) ==> Sound(b.row)
  {
    hide Timestamp.IsDateValid;
    var batch := BatchOf(items, date);
    forall b | b in batch ensures Sound(b.row) {
      var i :| 0 <= i < |batch| && batch[i] == b;
      assert WellShaped(items[i]);
    }
  }

  lemma KeptAreSound(h: seq<Entry>, ids: set<Id>)
    requires forall e :: e in h ==> Sound(e.row)
    ensures forall e :: e in Only(h, ids) ==> Sound(e.row)
  {
    hide Sound;
    var at := OnlyPicks(h, ids);
    forall e | e in Only(h, ids) ensures Sound(e.row) {
      var i :| 0 <= i < |at| && Only(h, ids)[i] == e;
      assert h[at[i]] in h;
    }
  }

  lemma DeleteKeepsRowsSound(s: State, id: Id, date: string)
    requires WellFormed(s.items) && id in s.items && Timestamp.IsDateValid(date) && AllSound(s)
    ensures var t := Served(s, Delete(id, Some(date))); forall x :: x in t.items ==> Sound(t.items[x])
  {
    var t, line := Served(s, Delete(id, Some(date))), Above(s.items, s.items[id].parentId);
    hide Timestamp.IsDateValid, WellFormed, Served, Subtree, Above, Only, Sound, IdsIn, TrueSize;
    DeleteLeaves(s, id, date);
    LineIsFolders(s, id);
    forall x | x in t.items ensures Sound(t.items[x]) {
      if x in line {
        FolderStaysSound(s.items[x], s.items[x].size - TrueSize(s.items, id), date);
      }
    }
  }

  /** Sound entries followed by entries of sound rows. */
  lemma FollowedBySound(h: seq<Entry>, kept: seq<Entry>, line: seq<Id>, items: Items)
    requires |h| == |kept| + |line| && h[..|kept|] == kept && forall e :: e in kept ==> Sound(e.row)
    requires forall i :: 0 <= i < |line| ==> line[i] in items && h[|kept| + i] == Entry(line[i], items[line[i]])
    requires forall x :: x in items ==> Sound(items[x])
    ensures forall e :: e in h ==> Sound(e.row)
  {
    hide Sound;
    forall k | 0 <= k < |h| ensures Sound(h[k].row) {
      if k < |kept| {
        assert h[..|kept|][k] == h[k] && kept[k] in kept;
      } else {
        assert h[|kept| + (k - |kept|)] == Entry(line[k - |kept|], items[line[k - |kept|]]);
      }
    }
  }

  lemma DeleteKeepsSound(s: State, id: Id, date: string)
    requires WellFormed(s.items) && id in s.items && Timestamp.IsDateValid(date) && AllSound(s)
    ensures AllSound(Served(s, Delete(id, Some(date))))
  {
    hide Timestamp.IsDateValid, WellFormed, Served, Subtree, Above, Only, Sound, IdsIn, TrueSize;
    DeleteKeepsRowsSound(s, id, date);
    KeptAreSound(s.history, IdsIn(s.history) - Subtree(s.items, id));
    var t := Served(s, Delete(id, Some(date)));
    DeleteLeaves(s, id, date);
    FollowedBySound(t.history, Only(s.history, IdsIn(s.history) - Subtree(s.items, id)),
                    Above(s.items, s.items[id].parentId), t.items);
  }

  lemma LineIsFolders(s: State, id: Id)
    requires WellFormed(s.items) && id in s.items
    ensures forall a :: a in Above(s.items, s.items[id].parentId) ==> a in s.items && s.items[a].kind.Folder?
  {
    assert FolderOrNone(s.items, s.items[id].parentId);
    hide Lineage, Above;
    AboveDistinct(s.items, s.items[id].parentId);
  }

  lemma ServedKeepsSound(s: State, req: Request)
    requires WellFormed(s.items) && Reasonable(s, req) && AllSound(s)
    ensures AllSound(Served(s, req))
  {
    hide Timestamp.IsDateValid, WellFormed, AllSound, Sound, Reasonable, ImportedAll, Deleted, Resolved, WellShaped;
    match req
    case Imports(body) =>
      if Acceptable(s.items, body) {
        var batch := ServedBatch(s, body);
        SentRowsAreSound(body.items.value.items, body.updateDate.value);
        BatchKeepsSound(s, batch);
      }
    case Delete(id, date) =>
      if date.Some? && Timestamp.IsDateValid(date.value) && id in s.items {
        DeleteKeepsSound(s, id, date.value);
      }
  }

  /** Over every run each row and each recorded row is sound. */
  lemma {:induction false} RunsKeepSound(s: State, reqs: seq<Request>)
    requires WellFormed(s.items) && ReasonableRun(s, reqs) && AllSound(s)
    ensures AllSound(Run(s, reqs))
    decreases |reqs|
  {
    if reqs != [] {
      hide WellFormed, Served, Reasonable, AllSound;
      ServedKeeps(s, reqs[0]);
      ServedKeepsSound(s, reqs[0]);
      RunsKeepSound(Served(s, reqs[0]), reqs[1..]);
    }
  }
}
