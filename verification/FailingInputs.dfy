/** Two short runs from empty tables after which a FOLDER's stored size is wrong. */
module FailingInputs {
  import opened Options
  import opened FileTree
  import opened TreeChanges
  import opened Store
  import opened Runs
  import opened Requests
  import opened Decimal
  import Dates
  import Timestamp

  // ----- a valid date -----

  const DATE := "2022-02-02T12:00:00Z"

  lemma NumbersInDate()
    ensures Val("2022") == 2022 && Val("02") == 2 && Val("12") == 12 && Val("00") == 0
  {
    hide Val;
    Timestamp.ValOfTwo("20");
    Timestamp.ValOfTwo("02");
    Timestamp.ValOfTwo("12");
    Timestamp.ValOfTwo("00");
    ValOfConcat("20", '2');
    ValOfConcat("202", '2');
    assert "20" + ['2'] == "202" && "202" + ['2'] == "2022";
  }

  lemma DayReads(r: string)
    ensures Timestamp.TakeDate("2022" + ("-" + ("02" + ("-" + ("02" + r))))) == Some((Dates.Date(2022, 2, 2), r))
  {
    hide Timestamp.TakeUnsigned, Val;
    NumbersInDate();
    var s2 := "-" + ("02" + r);
    var s1 := "-" + ("02" + s2);
    Timestamp.TakesDigits("2022", s1, 4);
    Timestamp.TakesDigits("02", s2, 2);
    Timestamp.TakesDigits("02", r, 2);
    Timestamp.TakesChar('-', "02" + s2);
    Timestamp.TakesChar('-', "02" + r);
  }

  lemma NoonReads(ymd: Dates.Date)
    ensures Timestamp.TakeTime(ymd, "12" + (":" + ("00" + (":" + ("00" + "Z"))))) == Some((Timestamp.Fields(ymd, 12, 0, 0), "Z"))
  {
    hide Timestamp.TakeUnsigned, Timestamp.TakeSeconds, Val;
    NumbersInDate();
    var s2 := ":" + ("00" + "Z");
    var s1 := ":" + ("00" + s2);
    Timestamp.TakesDigits("12", s1, 2);
    Timestamp.TakesDigits("00", s2, 2);
    Timestamp.TakesSecondsText("00", "Z");
    Timestamp.TakesChar(':', "00" + s2);
    Timestamp.TakesChar(':', "00" + "Z");
  }

  lemma DateIsValid()
    ensures Timestamp.IsDateValid(DATE)
  {
    hide Timestamp.TakeDate, Timestamp.TakeTime;
    var noon := "12" + (":" + ("00" + (":" + ("00" + "Z"))));
    assert DATE == "2022" + ("-" + ("02" + ("-" + ("02" + ("T" + noon)))));
    DayReads("T" + noon);
    Timestamp.TakesChar('T', noon);
    NoonReads(Dates.Date(2022, 2, 2));
    Timestamp.TakesChar('Z', "");
    assert ['Z'] + "" == "Z";
  }

  // ----- the requests -----

  function FolderItem(id: string): RawItem {
    RawItem(Value(id), Value("FOLDER"), Null, Missing, Missing)
  }

  function FileItem(parent: string, size: int): RawItem {
    RawItem(Value("f"), Value("FILE"), Value(parent), Value(size), Value("u"))
  }

  function ImportOf(items: seq<RawItem>, date: string): Request {
    Imports(Body(Value(Array(items)), Value(date)))
  }

  /** Two FOLDERs at the root and a FILE of size 5 in the first. */
  function Setup(date: string): Request {
    ImportOf([FolderItem("d"), FolderItem("e"), FileItem("d", 5)], date)
  }

  function FolderRow(size: int, date: string): Row {
    Row(Folder, size, date, None, None)
  }

  function FileRow(parent: string, size: int, date: string): Row {
    Row(File, size, date, Some(parent), Some("u"))
  }

  const EMPTY := State(map[], [])

  /** What the first request leaves. */
  function Table(date: string): Items {
    map["d" := FolderRow(5, date), "e" := FolderRow(0, date), "f" := FileRow("d", 5, date)]
  }

  function SetupBatch(date: string): seq<Import> {
    [Import("d", FolderRow(0, date)), Import("e", FolderRow(0, date)), Import("f", FileRow("d", 5, date))]
  }

  lemma SetupIsAccepted(date: string)
    requires Timestamp.IsDateValid(date)
    ensures Served(EMPTY, Setup(date)) == ImportedAll(EMPTY, SetupBatch(date))
    ensures FolderKeeping(EMPTY.items, Setup(date))
    ensures RequestDriftAdded(EMPTY, Setup(date), "d") == BatchDriftAdded(EMPTY, SetupBatch(date), "d")
  {
    hide Timestamp.IsDateValid, ImportedAll, BatchDriftAdded;
    var batch := SetupBatch(date);
    assert BatchOf([FolderItem("d"), FolderItem("e"), FileItem("d", 5)], date) == batch;
    assert batch[..2][0] == batch[0];
    assert ParentResolved(map[], batch[..2], "d");
    assert Resolved(map[], batch);
  }

  lemma ImportAtRoot(s: State, id: Id, row: Row)
    requires id !in s.items && row.parentId.None?
    ensures Imported(s, id, row).items == s.items[id := row]
    ensures DriftAdded(s.items, id, row, "d") == 0
  {
  }

  /** A new FILE adds its size to its FOLDER, here one at the root. */
  lemma ImportInFolder(s: State, id: Id, row: Row, d: Id)
    requires Acyclic(s.items[id := row])
    requires id !in s.items && row.parentId == Some(d) && d in s.items && s.items[d].parentId.None?
    ensures Imported(s, id, row).items ==
            s.items[id := row][d := s.items[d].(size := s.items[d].size + row.size, date := row.date)]
    ensures DriftAdded(s.items, id, row, "d") == 0
  {
    assert Lineage(s.items[id := row], d) == [d];
  }

  lemma SetupLeaves(date: string)
    ensures ImportedAll(EMPTY, SetupBatch(date)).items == Table(date)
    ensures BatchDriftAdded(EMPTY, SetupBatch(date), "d") == 0
  {
    hide Imported, DriftAdded, Lineage;
    var b := SetupBatch(date);
    var s1 := Imported(EMPTY, "d", b[0].row);
    var s2 := Imported(s1, "e", b[1].row);
    var s3 := Imported(s2, "f", b[2].row);
    ImportAtRoot(EMPTY, "d", b[0].row);
    ImportAtRoot(s1, "e", b[1].row);
    assert Ranked(s2.items["f" := b[2].row], map["d" := 0, "e" := 0, "f" := 1]);
    ImportInFolder(s2, "f", b[2].row, "d");
    assert b[1..][1..] == b[2..] && b[2..][1..] == [];
    assert ImportedAll(s2, b[2..]) == s3 && BatchDriftAdded(s2, b[2..], "d") == 0;
    assert ImportedAll(s1, b[1..]) == s3 && BatchDriftAdded(s1, b[1..], "d") == 0;
  }

  // ----- the second request -----

  lemma AfterSetup(date: string)
    requires Timestamp.IsDateValid(date)
    ensures var t := Served(EMPTY, Setup(date));
      && t.items == Table(date) && WellFormed(t.items) && FolderDrift(t.items, "d") == 0
      && Reasonable(EMPTY, Setup(date))
  {
    hide Timestamp.IsDateValid, Served, Reasonable, ImportedAll, BatchDriftAdded, RequestDriftAdded, FolderKeeping, Lineage, FileSum;
    EmptyTables(EMPTY);
    SetupIsAccepted(date);
    SetupLeaves(date);
    hide WellFormed;
    FolderKeepingIsReasonable(EMPTY, Setup(date));
    ServedKeeps(EMPTY, Setup(date));
    RequestDrift(EMPTY, Setup(date), "d");
  }

  /** An accepted request of one item is one import. */
  lemma OneItem(s: State, item: RawItem, date: string)
    requires Timestamp.IsDateValid(date) && Fits(s.items, item, {}, {}) && item.id.value != ""
    requires item.id.value in s.items
    requires var row := RowOf(item, date);
      s.items[item.id.value].kind == row.kind && (row.kind.Folder? ==> s.items[item.id.value].parentId == row.parentId)
    ensures var (req, id, row) := (ImportOf([item], date), item.id.value, RowOf(item, date));
      && Acceptable(s.items, req.body) && BatchOf([item], date) == [Import(id, row)]
      && Served(s, req) == Imported(s, id, row)
      && FolderKeeping(s.items, req)
      && RequestDriftAdded(s, req, "d") == DriftAdded(s.items, id, row, "d")
  {
    hide Timestamp.IsDateValid, Imported, DriftAdded;
    var batch := BatchOf([item], date);
    assert batch == [Import(item.id.value, RowOf(item, date))] && batch[..0] == [] && batch[1..] == [];
    assert Resolved(s.items, batch);
    OneRound(s, batch);
  }

  lemma OneRound(s: State, batch: seq<Import>)
    requires |batch| == 1
    ensures ImportedAll(s, batch) == Imported(s, batch[0].id, batch[0].row)
    ensures BatchDriftAdded(s, batch, "d") == DriftAdded(s.items, batch[0].id, batch[0].row, "d")
  {
    hide Imported, DriftAdded;
    var t := Imported(s, batch[0].id, batch[0].row);
    assert batch[1..] == [] && ImportedAll(t, []) == t && BatchDriftAdded(t, [], "d") == 0;
  }

  /** The table after the setup and one more item: the FOLDER "d" is off by what that import adds. */
  lemma SetupAndOneItem(item: RawItem, date: string)
    requires Timestamp.IsDateValid(date) && Fits(Table(date), item, {}, {}) && item.id.value in {"d", "f"}
    requires Table(date)[item.id.value].kind == RowOf(item, date).kind
    requires item.id.value == "d" ==> item.parentId.Null?
    ensures var (reqs, row) := ([Setup(date), ImportOf([item], date)], RowOf(item, date));
      && ReasonableRun(EMPTY, reqs)
      && IsFolder(Run(EMPTY, reqs).items, "d")
      && Drift(Run(EMPTY, reqs).items, "d") == DriftAdded(Table(date), item.id.value, row, "d")
  {
    var (r1, r2) := (Setup(date), ImportOf([item], date));
    var t := Served(EMPTY, r1);
    hide Timestamp.IsDateValid, Served, Reasonable, Imported, DriftAdded, RequestDriftAdded, FolderKeeping, Lineage, FileSum, WellFormed;
    AfterSetup(date);
    OneItem(t, item, date);
    FolderKeepingIsReasonable(t, r2);
    StaysThere(t, r2, item.id.value, RowOf(item, date), "d");
    RequestDrift(t, r2, "d");
    assert [r1, r2][1..] == [r2] && [r2][1..] == [];
    assert Run(t, [r2]) == Served(t, r2) && ReasonableRun(t, [r2]);
  }

  lemma StaysThere(s: State, req: Request, id: Id, row: Row, a: Id)
    requires WellFormed(s.items) && Reasonable(s, req) && IsFolder(s.items, a)
    requires Served(s, req) == Imported(s, id, row) && req.Imports? && Acceptable(s.items, req.body)
    requires BatchOf(req.body.items.value.items, req.body.updateDate.value) == [Import(id, row)]
    ensures IsFolder(Served(s, req).items, a)
  {
    hide Timestamp.IsDateValid, Imported, WellFormed, Served, Lineage;
    AcceptedBatchIsSafe(s, [Import(id, row)]);
    FoldersAfterImport(s, id, row, a);
  }

  /** Importing the FOLDER "d" again, unchanged, leaves its size 5 too small although "f" is still there. */
  lemma ReimportedFolderFails(date: string)
    requires Timestamp.IsDateValid(date)
    ensures var reqs := [Setup(date), ImportOf([FolderItem("d")], date)];
      && ReasonableRun(EMPTY, reqs) && IsFolder(Run(EMPTY, reqs).items, "d")
      && Drift(Run(EMPTY, reqs).items, "d") == -5
  {
    hide Timestamp.IsDateValid, ReasonableRun, Run;
    AfterSetup(date);
    SetupAndOneItem(FolderItem("d"), date);
  }

  /** Moving "f" to the FOLDER "e" with size 7 takes 7 from "d" instead of 5. */
  lemma ResizedMoveFails(date: string)
    requires Timestamp.IsDateValid(date)
    ensures var reqs := [Setup(date), ImportOf([FileItem("e", 7)], date)];
      && ReasonableRun(EMPTY, reqs) && IsFolder(Run(EMPTY, reqs).items, "d")
      && Drift(Run(EMPTY, reqs).items, "d") == -2
  {
    hide Timestamp.IsDateValid, ReasonableRun, Run;
    AfterSetup(date);
    SetupAndOneItem(FileItem("e", 7), date);
  }

  /** Both, with a date written out. */
  lemma SizesGoWrong()
    ensures !SizesExact(Run(EMPTY, [Setup(DATE), ImportOf([FolderItem("d")], DATE)]).items)
    ensures !SizesExact(Run(EMPTY, [Setup(DATE), ImportOf([FileItem("e", 7)], DATE)]).items)
  {
    hide Timestamp.IsDateValid, Run, Drift, ReasonableRun;
    DateIsValid();
    ReimportedFolderFails(DATE);
    ResizedMoveFails(DATE);
  }
}
