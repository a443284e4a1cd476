/** The requests that change the tables: validation, the handlers, and whole runs of them. */
module Requests {
  import opened Options
  import opened FileTree
  import opened TreeChanges
  import opened Store
  import opened Runs
  import opened Database
  import opened Handlers
  import Timestamp

  /** A field of a JSON object: absent, null, or a value of the expected type. */
  datatype Field<+T> = Missing | Null | Value(value: T)

  datatype RawItem = RawItem(id: Field<string>, kind: Field<string>, parentId: Field<string>,
                             size: Field<int>, url: Field<string>)
  datatype ItemsValue = NotArray | Array(items: seq<RawItem>)
  datatype Body = Body(items: Field<ItemsValue>, updateDate: Field<string>)

  /** Validation accepts, rejects, or raises because a null stands where a value is read. */
  datatype Verdict = Accepted | Rejected | Raised
  datatype Reply = Ok | BadRequest | NotFound | Exception

  // ----- what validation accepts -----

  function Get<T>(f: Field<T>, default: T): T {
    if f.Value? then f.value else default
  }

  predicate WellShaped(item: RawItem) {
    && item.id.Value? && item.kind.Value? && !item.parentId.Missing?
    && (|| (item.kind.value == "FOLDER" && !item.size.Value? && !item.url.Value?)
        || (item.kind.value == "FILE" && item.size.Value? && item.size.value > 0
            && item.url.Value? && |item.url.value| <= 255))
  }

  /** The row the import loop builds from an item: FOLDERs get size 0 and a null url. */
  function RowOf(item: RawItem, date: string): Row {
    var parent := if item.parentId.Value? then Some(item.parentId.value) else None;
    if item.kind == Value("FOLDER") then Row(Folder, 0, date, parent, None)
    else Row(File, Get(item.size, 0), date, parent, if item.url.Value? then Some(item.url.value) else None)
  }

  function BatchOf(items: seq<RawItem>, date: string): seq<Import> {
    seq(|items|, i requires 0 <= i < |items| => Import(Get(items[i].id, ""), RowOf(items[i], date)))
  }

  ghost predicate AcceptableItems(table: Items, items: seq<RawItem>, date: string) {
    && items != []
    && (forall i :: 0 <= i < |items| ==> WellShaped(items[i]))
    && Resolved(table, BatchOf(items, date))
  }

  ghost predicate Acceptable(table: Items, body: Body) {
    && body.updateDate.Value? && Timestamp.IsDateValid(body.updateDate.value)
    && body.items.Value? && body.items.value.Array?
    && AcceptableItems(table, body.items.value.items, body.updateDate.value)
  }

  // ----- validation -----

  /** An item's id, kind and parent pass: the id is new and the parent, if any, is a FOLDER of the table or of
      an earlier item. */
  ghost predicate HeadFits(table: Items, item: RawItem, ids: set<string>, folders: set<string>) {
    && item.id.Value? && item.kind.Value? && !item.parentId.Missing? && item.id.value !in ids
    && (item.parentId.Value? ==> (item.parentId.value in table && table[item.parentId.value].kind.Folder?)
                                 || item.parentId.value in folders)
  }

  /** The item passes every check. */
  ghost predicate Fits(table: Items, item: RawItem, ids: set<string>, folders: set<string>) {
    WellShaped(item) && HeadFits(table, item, ids, folders)
  }

  /** The first check the item fails reads a null: a FILE's size, or its url after a proper size. */
  ghost predicate ReadsNull(table: Items, item: RawItem, ids: set<string>, folders: set<string>) {
    && HeadFits(table, item, ids, folders) && item.kind.value == "FILE"
    && (item.size.Null? || (item.size.Value? && item.size.value > 0 && item.url.Null?))
  }

  /** The checks on one item, given the ids and the FOLDERs before it in the batch. */
  method ValidateItem(dbm: DbManager, item: RawItem, ids: set<string>, folders: set<string>) returns (v: Verdict)
    ensures v.Accepted? <==> Fits(dbm.items, item, ids, folders)
    ensures v.Raised? <==> ReadsNull(dbm.items, item, ids, folders)
  {
    if item.id.Missing? || item.kind.Missing? || item.parentId.Missing? {
      return Rejected;
    }
    if item.id.Null? || item.kind.Null? || item.id.value in ids {
      return Rejected;
    }
    if item.parentId.Value? {
      var parentType := dbm.GetType(item.parentId.value);
      if parentType != "FOLDER" && item.parentId.value !in folders {
        return Rejected;
      }
    }
    if item.kind.value == "FOLDER" {
      if item.size.Value? || item.url.Value? {
        return Rejected;
      }
    } else if item.kind.value == "FILE" {
      if item.size.Missing? {
        return Rejected;
      }
      if item.size.Null? {
        return Raised;
      }
      if item.size.value <= 0 || item.url.Missing? {
        return Rejected;
      }
      if item.url.Null? {
        return Raised;
      }
      if |item.url.value| > 255 {
        return Rejected;
      }
    } else {
      return Rejected;
    }
    return Accepted;
  }

  ghost function IdsOf(items: seq<RawItem>): set<string> {
    set i | 0 <= i < |items| :: Get(items[i].id, "")
  }

  ghost function FoldersOf(items: seq<RawItem>): set<string> {
    set i | 0 <= i < |items| && items[i].kind == Value("FOLDER") :: Get(items[i].id, "")
  }

  ghost predicate FitsAt(table: Items, items: seq<RawItem>, k: int)
    requires 0 <= k < |items|
  {
    Fits(table, items[k], IdsOf(items[..k]), FoldersOf(items[..k]))
  }

  ghost predicate ReadsNullAt(table: Items, items: seq<RawItem>, k: int)
    requires 0 <= k < |items|
  {
    ReadsNull(table, items[k], IdsOf(items[..k]), FoldersOf(items[..k]))
  }

  /** The first item that fails does so by reading a null. */
  ghost predicate ItemsRaise(table: Items, items: seq<RawItem>) {
    exists k :: 0 <= k < |items| && ReadsNullAt(table, items, k) && forall i :: 0 <= i < k ==> FitsAt(table, items, i)
  }

  /** The first check the request fails reads a null. */
  ghost predicate Raises(table: Items, body: Body) {
    && !body.items.Missing? && !body.updateDate.Missing?
    && (|| body.updateDate.Null?
        || (Timestamp.IsDateValid(body.updateDate.value) && body.items.Value? && body.items.value.Array?
            && ItemsRaise(table, body.items.value.items)))
  }

  lemma ReadingNullFails(table: Items, items: seq<RawItem>, k: int)
    requires 0 <= k < |items|
    ensures ReadsNullAt(table, items, k) ==> !FitsAt(table, items, k)
  {
  }

  /** Whether the loop raises is settled by the first item that fails. */
  lemma FirstFailureDecides(table: Items, items: seq<RawItem>, k: int)
    requires 0 <= k <= |items| && forall i :: 0 <= i < k ==> FitsAt(table, items, i)
    requires k < |items| ==> !FitsAt(table, items, k)
    ensures ItemsRaise(table, items) <==> k < |items| && ReadsNullAt(table, items, k)
  {
    hide FitsAt, ReadsNullAt;
    forall i | 0 <= i < |items| ensures ReadsNullAt(table, items, i) ==> !FitsAt(table, items, i) {
      ReadingNullFails(table, items, i);
    }
  }

  /** What the checks on item `k` decide, once the items before it are fine. */
  lemma NextItem(table: Items, items: seq<RawItem>, date: string, k: nat)
    requires k < |items| && WellShaped(items[k]) && (forall i :: 0 <= i < k ==> WellShaped(items[i]))
    requires Resolved(table, BatchOf(items[..k], date))
    ensures Resolved(table, BatchOf(items[..k + 1], date)) <==>
      && items[k].id.value !in IdsOf(items[..k])
      && (items[k].parentId.Value? ==> (items[k].parentId.value in table && table[items[k].parentId.value].kind.Folder?)
                                       || items[k].parentId.value in FoldersOf(items[..k]))
  {
    var old_, batch := BatchOf(items[..k], date), BatchOf(items[..k + 1], date);
    assert batch == old_ + [Import(items[k].id.value, RowOf(items[k], date))];
    forall i | 0 <= i <= k ensures batch[..i] == old_[..i] {
    }
    if items[k].parentId.Value? {
      EarlierFolder(items[..k], date, items[k].parentId.value);
    }
    assert items[k].id.value in IdsOf(items[..k]) <==> exists i :: 0 <= i < k && batch[i].id == batch[k].id by {
      assert forall i :: 0 <= i < k ==> items[..k][i] == items[i] && batch[i].id == items[i].id.value;
    }
    assert old_[..k] == old_;
  }

  lemma EarlierFolder(items: seq<RawItem>, date: string, p: string)
    requires forall i :: 0 <= i < |items| ==> WellShaped(items[i])
    ensures p in FoldersOf(items) <==> exists e :: e in BatchOf(items, date) && e.id == p && e.row.kind.Folder?
  {
    var batch := BatchOf(items, date);
    if p in FoldersOf(items) {
      var i :| 0 <= i < |items| && items[i].kind == Value("FOLDER") && Get(items[i].id, "") == p;
      assert batch[i] in batch;
    }
  }

  lemma PrefixResolved(table: Items, items: seq<RawItem>, date: string, k: nat)
    requires k <= |items| && Resolved(table, BatchOf(items, date))
    ensures Resolved(table, BatchOf(items[..k], date))
  {
    var whole, part := BatchOf(items, date), BatchOf(items[..k], date);
    assert part == whole[..k];
    forall i | 0 <= i < k ensures part[..i] == whole[..i] {
    }
  }

  /** The loop over the items: accepts exactly when all are well shaped and their ids and parents resolve. */
  method ValidateItems(dbm: DbManager, items: seq<RawItem>, ghost date: string) returns (v: Verdict)
    ensures v.Accepted? <==>
      (forall i :: 0 <= i < |items| ==> WellShaped(items[i])) && Resolved(dbm.items, BatchOf(items, date))
    ensures v.Raised? <==> ItemsRaise(dbm.items, items)
  {
    hide Resolved, BatchOf, WellShaped, Fits, ReadsNull, ItemsRaise;
    var ids: set<string> := {};
    var folders: set<string> := {};
    NoItems(dbm.items, items, date);
    for k := 0 to |items|
      invariant ids == IdsOf(items[..k]) && folders == FoldersOf(items[..k])
      invariant forall i :: 0 <= i < k ==> WellShaped(items[i])
      invariant Resolved(dbm.items, BatchOf(items[..k], date))
      invariant forall i :: 0 <= i < k ==> FitsAt(dbm.items, items, i)
    {
      v := ValidateItem(dbm, items[k], ids, folders);
      ItemDecides(dbm.items, items, date, k);
      if v != Accepted {
        FirstFailureDecides(dbm.items, items, k);
        return v;
      }
      AddsItem(items, k);
      ids := ids + {Get(items[k].id, "")};
      if items[k].kind == Value("FOLDER") {
        folders := folders + {Get(items[k].id, "")};
      }
    }
    FirstFailureDecides(dbm.items, items, |items|);
    assert items[..|items|] == items;
    return Accepted;
  }

  lemma NoItems(table: Items, items: seq<RawItem>, date: string)
    ensures IdsOf(items[..0]) == {} && FoldersOf(items[..0]) == {} && Resolved(table, BatchOf(items[..0], date))
  {
  }

  /** An item that fits extends the resolved batch; one that does not spoils it for good. */
  lemma ItemDecides(table: Items, items: seq<RawItem>, date: string, k: nat)
    requires k < |items| && (forall i :: 0 <= i < k ==> WellShaped(items[i]))
    requires Resolved(table, BatchOf(items[..k], date))
    ensures var fits := Fits(table, items[k], IdsOf(items[..k]), FoldersOf(items[..k]));
      && (fits ==> WellShaped(items[k]) && Resolved(table, BatchOf(items[..k + 1], date)))
      && (!fits ==> !WellShaped(items[k]) || !Resolved(table, BatchOf(items, date)))
  {
    if WellShaped(items[k]) {
      NextItem(table, items, date, k);
      hide Resolved, BatchOf, WellShaped, IdsOf, FoldersOf;
      if Resolved(table, BatchOf(items, date)) {
        PrefixResolved(table, items, date, k + 1);
      }
    }
  }

  /** Accepts exactly the batches whose items are well shaped, have distinct ids, and name as parents only
      FOLDERs of the table or of earlier items. */
  method ImportsValidate(dbm: DbManager, req: Body) returns (v: Verdict)
    ensures v.Accepted? <==> Acceptable(dbm.items, req)
    ensures v.Raised? <==> Raises(dbm.items, req)
  {
    hide Timestamp.IsDateValid, Resolved, WellShaped, FitsAt, ReadsNullAt;
    if req.items.Missing? || req.updateDate.Missing? {
      return Rejected;
    }
    if req.updateDate.Null? {
      return Raised;
    }
    if !Timestamp.IsDateValid(req.updateDate.value) {
      return Rejected;
    }
    if !req.items.Value? || !req.items.value.Array? || req.items.value.items == [] {
      return Rejected;
    }
    v := ValidateItems(dbm, req.items.value.items, req.updateDate.value);
  }

  lemma AddsItem(items: seq<RawItem>, k: nat)
    requires k < |items| && WellShaped(items[k])
    ensures IdsOf(items[..k + 1]) == IdsOf(items[..k]) + {Get(items[k].id, "")}
    ensures FoldersOf(items[..k + 1]) ==
            FoldersOf(items[..k]) + if items[k].kind == Value("FOLDER") then {Get(items[k].id, "")} else {}
  {
    assert items[..k + 1] == items[..k] + [items[k]];
    assert items[..k + 1][k] == items[k];
    assert forall i :: 0 <= i < k ==> items[..k][i] == items[..k + 1][i];
  }

  // ----- requests -----

  datatype Request = Imports(body: Body) | Delete(id: Id, date: Option<string>)

  /** What a request leaves in the tables; a refused one leaves them as they were. */
  ghost function Served(s: State, req: Request): State {
    match req
    case Imports(body) =>
      if Acceptable(s.items, body) then ImportedAll(s, BatchOf(body.items.value.items, body.updateDate.value)) else s
    case Delete(id, date) =>
      if date.Some? && Timestamp.IsDateValid(date.value) && id in s.items then Deleted(s, id, date.value) else s
  }

  /** What the code trusts a request with. */
  ghost predicate Reasonable(s: State, req: Request) {
    req.Imports? && Acceptable(s.items, req.body) ==>
      var batch := BatchOf(req.body.items.value.items, req.body.updateDate.value);
      Trusted(s.items, batch) && AcyclicMoves(s, batch)
  }

  method ImportsHandler(dbm: DbManager, body: Body) returns (reply: Reply)
    requires WellFormed(dbm.items) && Reasonable(dbm.Tables(), Imports(body))
    modifies dbm
    ensures dbm.Tables() == Served(old(dbm.Tables()), Imports(body))
    ensures reply == if Acceptable(old(dbm.items), body) then Ok
                     else if Raises(old(dbm.items), body) then Exception else BadRequest
    ensures reply != Ok ==> dbm.items == old(dbm.items) && dbm.history == old(dbm.history)
  {
    hide Timestamp.IsDateValid, WellFormed, Imported, Trusted, Resolved, Lineage, ItemsRaise;
    var v := ImportsValidate(dbm, body);
    if v != Accepted {
      return if v == Raised then Exception else BadRequest;
    }
    var date := body.updateDate.value;
    var batch := BatchOf(body.items.value.items, date);
    ghost var s := dbm.Tables();
    AcceptedBatchIsSafe(s, batch);
    hide Acceptable, AcceptableItems, Served;
    for k := 0 to |batch|
      invariant WellFormed(dbm.items) && AllPlaceable(dbm.Tables(), batch[k..])
      invariant ImportedAll(dbm.Tables(), batch[k..]) == ImportedAll(s, batch)
    {
      ghost var t := dbm.Tables();
      NextRound(t, batch, k);
      ImportItem(dbm, batch[k].id, batch[k].row);
    }
    ServedImports(s, body, batch);
    return Ok;
  }

  lemma ServedImports(s: State, body: Body, batch: seq<Import>)
    requires Acceptable(s.items, body) && batch == BatchOf(body.items.value.items, body.updateDate.value)
    ensures Served(s, Imports(body)) == ImportedAll(s, batch)
  {
  }

  lemma NextRound(t: State, batch: seq<Import>, k: nat)
    requires k < |batch| && WellFormed(t.items) && AllPlaceable(t, batch[k..])
    ensures var u := Imported(t, batch[k].id, batch[k].row);
      && Placeable(t.items, batch[k].id, batch[k].row) && WellFormed(u.items)
      && AllPlaceable(u, batch[k + 1..]) && ImportedAll(t, batch[k..]) == ImportedAll(u, batch[k + 1..])
  {
    hide Imported, WellFormed, Placeable;
    assert batch[k..][1..] == batch[k + 1..];
    ImportedSizes(t, batch[k].id, batch[k].row);
  }

  method DeleteHandler(dbm: DbManager, id: Id, date: Option<string>) returns (reply: Reply)
    requires WellFormed(dbm.items)
    modifies dbm
    ensures dbm.Tables() == Served(old(dbm.Tables()), Delete(id, date))
    ensures reply == if date.None? || !Timestamp.IsDateValid(date.value) then BadRequest
                     else if id !in old(dbm.items) then NotFound else Ok
    ensures reply != Ok ==> dbm.items == old(dbm.items) && dbm.history == old(dbm.history)
  {
    hide Timestamp.IsDateValid, WellFormed, FileSum, Lineage, Forget, BumpedAt;
    if date.None? || !Timestamp.IsDateValid(date.value) {
      return BadRequest;
    }
    var found := dbm.ItemExists(id);
    if !found {
      return NotFound;
    }
    ghost var s := dbm.Tables();
    RemovedFacts(s, id);
    ParentIsNamed(s.items, id);
    var parent := dbm.GetParent(id);
    var deletedSize := DeleteIter(dbm, id);
    ChangeSizeAt(dbm, ParentOf(s.items, id), parent, -deletedSize, date.value);
    return Ok;
  }

  lemma ParentIsNamed(items: Items, id: Id)
    requires WellFormed(items) && id in items
    ensures ParentOf(items, id) != Some("")
  {
  }

  // ----- runs -----

  ghost function Run(s: State, reqs: seq<Request>): State
    decreases |reqs|
  {
    if reqs == [] then s else Run(Served(s, reqs[0]), reqs[1..])
  }

  ghost predicate ReasonableRun(s: State, reqs: seq<Request>)
    decreases |reqs|
  {
    reqs != [] ==> Reasonable(s, reqs[0]) && ReasonableRun(Served(s, reqs[0]), reqs[1..])
  }

  /** Deletes are always clean; imports are when each of their rounds is. */
  ghost predicate CleanRequest(s: State, req: Request) {
    req.Imports? && Acceptable(s.items, req.body) ==>
      CleanBatch(s, BatchOf(req.body.items.value.items, req.body.updateDate.value))
  }

  ghost predicate CleanRun(s: State, reqs: seq<Request>)
    decreases |reqs|
  {
    reqs != [] ==> CleanRequest(s, reqs[0]) && CleanRun(Served(s, reqs[0]), reqs[1..])
  }

  lemma ServedKeeps(s: State, req: Request)
    requires WellFormed(s.items) && Reasonable(s, req)
    ensures WellFormed(Served(s, req).items)
    ensures HistoryTracks(s) ==> HistoryTracks(Served(s, req))
    ensures SizesExact(s.items) && CleanRequest(s, req) ==> SizesExact(Served(s, req).items)
  {
    hide Timestamp.IsDateValid, WellFormed, Imported, ImportedAll, Deleted, HistoryTracks, SizesExact, Trusted, Resolved, Lineage, FileSum;
    match req
    case Imports(body) =>
      if Acceptable(s.items, body) {
        var batch := BatchOf(body.items.value.items, body.updateDate.value);
        AcceptedBatchIsSafe(s, batch);
        BatchKeeps(s, batch);
      }
    case Delete(id, date) =>
      if date.Some? && Timestamp.IsDateValid(date.value) && id in s.items {
        DeletedWellFormed(s, id, date.value);
        if HistoryTracks(s) {
          DeleteKeepsHistory(s, id, date.value);
        }
        if SizesExact(s.items) {
          DeleteKeepsSizes(s, id, date.value);
        }
      }
  }

  lemma DeleteKeepsSizes(s: State, id: Id, date: string)
    requires WellFormed(s.items) && id in s.items && SizesExact(s.items)
    ensures SizesExact(Deleted(s, id, date).items)
  {
    hide Lineage, FileSum, Deleted, WellFormed;
    DeletedShape(s, id, date);
    var t := Deleted(s, id, date);
    forall a | a in t.items && t.items[a].kind.Folder? ensures Drift(t.items, a) == 0 {
      assert a in s.items - Subtree(s.items, id);
      DeleteDrift(s, id, date, a);
    }
  }

  /** Over every run: the forest stays a forest of existing FOLDERs, and history tracks it. */
  lemma {:induction false} RunsKeepForestAndHistory(s: State, reqs: seq<Request>)
    requires WellFormed(s.items) && HistoryTracks(s) && ReasonableRun(s, reqs)
    ensures WellFormed(Run(s, reqs).items) && HistoryTracks(Run(s, reqs))
    decreases |reqs|
  {
    if reqs != [] {
      hide WellFormed, HistoryTracks, Served, Reasonable;
      ServedKeeps(s, reqs[0]);
      RunsKeepForestAndHistory(Served(s, reqs[0]), reqs[1..]);
    }
  }

  /** What a caller can check before sending a request, against the table it finds: ids are not empty, no id
      changes its type, and no existing FOLDER changes its parent. */
  ghost predicate FolderKeeping(table: Items, req: Request) {
    req.Imports? && Acceptable(table, req.body) ==>
      var batch := BatchOf(req.body.items.value.items, req.body.updateDate.value);
      Trusted(table, batch) && FoldersStay(table, batch)
  }

  ghost predicate FolderKeepingRun(s: State, reqs: seq<Request>)
    decreases |reqs|
  {
    reqs != [] ==> FolderKeeping(s.items, reqs[0]) && FolderKeepingRun(Served(s, reqs[0]), reqs[1..])
  }

  lemma FolderKeepingIsReasonable(s: State, req: Request)
    requires WellFormed(s.items) && FolderKeeping(s.items, req)
    ensures Reasonable(s, req)
  {
    hide Timestamp.IsDateValid, WellFormed, Trusted, Resolved, FoldersStay, AcyclicMoves;
    if req.Imports? && Acceptable(s.items, req.body) {
      UnmovedFoldersCloseNoCycle(s, BatchOf(req.body.items.value.items, req.body.updateDate.value));
    }
  }

  /** A run that never changes an existing FOLDER's parent never closes a cycle. */
  lemma {:induction false} FolderKeepingRunsAreReasonable(s: State, reqs: seq<Request>)
    requires WellFormed(s.items) && FolderKeepingRun(s, reqs)
    ensures ReasonableRun(s, reqs)
    decreases |reqs|
  {
    if reqs != [] {
      hide WellFormed, Served, Reasonable, FolderKeeping;
      FolderKeepingIsReasonable(s, reqs[0]);
      ServedKeeps(s, reqs[0]);
      FolderKeepingRunsAreReasonable(Served(s, reqs[0]), reqs[1..]);
    }
  }

  /** Over every run of clean requests the cached sizes stay exact. */
  lemma {:induction false} CleanRunsKeepSizes(s: State, reqs: seq<Request>)
    requires WellFormed(s.items) && SizesExact(s.items) && ReasonableRun(s, reqs) && CleanRun(s, reqs)
    ensures SizesExact(Run(s, reqs).items)
    decreases |reqs|
  {
    if reqs != [] {
      hide WellFormed, SizesExact, Served, Reasonable, CleanRequest;
      ServedKeeps(s, reqs[0]);
      CleanRunsKeepSizes(Served(s, reqs[0]), reqs[1..]);
    }
  }

  // ----- drift over a run -----

  /** The drift one request adds to the FOLDER `a`: deletes and refused requests add none. */
  ghost function RequestDriftAdded(s: State, req: Request, a: Id): int {
    if req.Imports? && Acceptable(s.items, req.body) then
      BatchDriftAdded(s, BatchOf(req.body.items.value.items, req.body.updateDate.value), a)
    else 0
  }

  /** The drift of `a` after one request: the request adds to it if it leaves such a FOLDER. */
  ghost function DriftThen(s: State, req: Request, drift: int, a: Id): int {
    if IsFolder(Served(s, req).items, a) then drift + RequestDriftAdded(s, req, a) else 0
  }

  /** The drift of `a` after a run that finds it at `drift`. */
  ghost function DriftAfter(s: State, reqs: seq<Request>, drift: int, a: Id): int
    decreases |reqs|
  {
    if reqs == [] then drift
    else DriftAfter(Served(s, reqs[0]), reqs[1..], DriftThen(s, reqs[0], drift, a), a)
  }

  /** The exact drift of every FOLDER a request leaves, those it creates included. */
  lemma RequestDrift(s: State, req: Request, a: Id)
    requires WellFormed(s.items) && Reasonable(s, req)
    ensures FolderDrift(Served(s, req).items, a) == DriftThen(s, req, FolderDrift(s.items, a), a)
  {
    if !IsFolder(Served(s, req).items, a) {
      return;
    }
    hide Timestamp.IsDateValid, WellFormed, Imported, ImportedAll, Deleted, Drift, Trusted, Resolved, Lineage, FileSum;
    match req
    case Imports(body) =>
      if Acceptable(s.items, body) {
        var batch := BatchOf(body.items.value.items, body.updateDate.value);
        AcceptedBatchIsSafe(s, batch);
        BatchDrift(s, batch, a);
      }
    case Delete(id, date) =>
      if date.Some? && Timestamp.IsDateValid(date.value) && id in s.items {
        DeletedShape(s, id, date.value);
        DeleteDrift(s, id, date.value, a);
      }
  }

  /** The exact drift over any run, clean or not, of every FOLDER, whenever it was created or deleted. */
  lemma {:induction false} RunDrift(s: State, reqs: seq<Request>, a: Id)
    requires WellFormed(s.items) && ReasonableRun(s, reqs)
    ensures FolderDrift(Run(s, reqs).items, a) == DriftAfter(s, reqs, FolderDrift(s.items, a), a)
    decreases |reqs|
  {
    if reqs != [] {
      hide WellFormed, Served, Reasonable, FolderDrift, DriftThen;
      ServedKeeps(s, reqs[0]);
      RequestDrift(s, reqs[0], a);
      RunDrift(Served(s, reqs[0]), reqs[1..], a);
    }
  }

  // ----- history over a run -----

  /** A request leaves the history of every row it leaves as it was, or adds to it. */
  lemma RequestExtendsHistory(s: State, req: Request, x: Id)
    requires x in Served(s, req).items
    ensures Only(s.history, {x}) <= Only(Served(s, req).history, {x})
  {
    hide Timestamp.IsDateValid, ImportedAll, Deleted, Only, AcceptableItems;
    match req
    case Imports(body) =>
      if Acceptable(s.items, body) {
        var batch := BatchOf(body.items.value.items, body.updateDate.value);
        BatchExtendsHistory(s, batch);
        OnlyOfPrefix(s.history, ImportedAll(s, batch).history, {x});
      }
    case Delete(id, date) =>
      if date.Some? && Timestamp.IsDateValid(date.value) && id in s.items {
        DeleteExtendsHistory(s, id, date.value, x);
      }
  }

  /** No request of the run deletes `x` once it is there. */
  ghost predicate NeverDeleted(s: State, reqs: seq<Request>, x: Id)
    decreases |reqs|
  {
    reqs != [] ==>
      var t := Served(s, reqs[0]);
      (x in s.items ==> x in t.items) && NeverDeleted(t, reqs[1..], x)
  }

  lemma {:induction false} NoEntriesOfDead(h: seq<Entry>, x: Id)
    requires forall e :: e in h ==> e.id != x
    ensures Only(h, {x}) == []
    decreases |h|
  {
    if h != [] {
      NoEntriesOfDead(h[..|h| - 1], x);
    }
  }

  /** Over a run the history of a row that is never deleted is only ever extended. */
  lemma {:induction false} RunExtendsHistory(s: State, reqs: seq<Request>, x: Id)
    requires WellFormed(s.items) && HistoryTracks(s) && ReasonableRun(s, reqs) && NeverDeleted(s, reqs, x)
    ensures Only(s.history, {x}) <= Only(Run(s, reqs).history, {x})
    decreases |reqs|
  {
    if reqs != [] {
      if x !in s.items {
        NoEntriesOfDead(s.history, x);
      }
      hide WellFormed, HistoryTracks, Served, Reasonable, Only;
      ServedKeeps(s, reqs[0]);
      RunExtendsHistory(Served(s, reqs[0]), reqs[1..], x);
      if x in s.items {
        RequestExtendsHistory(s, reqs[0], x);
      }
    }
  }

  // ----- from empty tables -----

  /** Every run from empty tables. */
  lemma RunsFromEmptyTables(reqs: seq<Request>)
    requires ReasonableRun(State(map[], []), reqs)
    ensures var t := Run(State(map[], []), reqs);
      && WellFormed(t.items) && HistoryTracks(t)
      && (CleanRun(State(map[], []), reqs) ==> SizesExact(t.items))
      && (forall a :: FolderDrift(t.items, a) == DriftAfter(State(map[], []), reqs, 0, a))
  {
    var empty := State(map[], []);
    EmptyTables(empty);
    hide *;
    RunsKeepForestAndHistory(empty, reqs);
    if CleanRun(empty, reqs) {
      CleanRunsKeepSizes(empty, reqs);
    }
    forall a ensures FolderDrift(Run(empty, reqs).items, a) == DriftAfter(empty, reqs, 0, a) {
      RunDrift(empty, reqs, a);
    }
  }

  lemma EmptyTables(empty: State)
    requires empty == State(map[], [])
    ensures WellFormed(empty.items) && HistoryTracks(empty) && SizesExact(empty.items)
    ensures forall a :: FolderDrift(empty.items, a) == 0
  {
    assert Ranked(empty.items, map[]);
  }
}
