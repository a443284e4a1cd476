# The file service, its size cache and its calendars

A Dafny model of a service that keeps FILEs and FOLDERs in two database tables and answers HTTP requests about
them, and of the date library it carries. `dafny verify dfyconfig.toml` checks everything.

## What is modelled

**The file tree.** The `items` table is a map from ids to rows, a forest linked by `parentId`; `history` is a
sequence of row snapshots. `Database.DbManager` is a class with these two fields, and each row operation is a
method on it. The recursive helpers (`ChangeSize`, `DeleteIter`, `NodesIter`), the import loop, the validation loop
and the two writing handlers are methods over that class, each proved equal to a function of the tables before
the call (`Store.Bumped`, `Store.Imported`, `Store.Removed`, `Requests.Served`). About these functions the
hard results are proved, in terms of the request, the rows and the walks to the roots alone: what a bump, an import
and a delete leave in every row and in the history (`Records`, `RequestLaws`), and how far the cached folder sizes
are from the truth afterwards.

The size cache is *not* kept by every import. Re-importing a FOLDER overwrites its stored size with 0, and moving
a FILE that is re-sent with another size takes the new size from its old parent. `Store.ImportDrift` gives the exact
error of every import and `Store.CleanStepsKeepSizes` says exactly which imports keep the cache right.
`Requests.RunDrift` and `Requests.CleanRunsKeepSizes` carry both over whole runs, for every FOLDER whenever it was
created, and `FailingInputs` holds two runs of two requests each, from empty tables, after which a size is wrong.

Three things the code takes on trust are assumptions of the run results: ids are not empty, an existing id keeps its
type (`Runs.Trusted`), and no row is moved below itself (`Runs.AcyclicMoves`). The last one is needed exactly
(`TreeChanges.CycleIffBelowItself`, `Runs.AcceptedBatchIsSafe`) and holds over every run in which no existing FOLDER
changes its parent (`Requests.FolderKeepingRunsAreReasonable`).

**The parallel answer.** Result rows are cut into pages of 4 and one task per page stores into a shared array.
A task's work on a row is two atomic steps, growing the array with nulls and storing, and a run is any sequence
of steps of unfinished tasks. The source takes no lock: that each step is atomic is an assumption.

**Calendars and clocks.** Gregorian, Julian, Islamic and Solar Hijri dates to and from day numbers, ISO week dates,
and UTC with an arbitrary table of leap seconds. C++ division is `Dates.Quot`, which truncates. The leap second
conversions need gaps in the table; the exact gaps are found (entry i+1 at least i, or i+1, seconds after entry i),
and they are weaker than gaps as long as the whole table.

**Text forms.** Timestamps `%FT%TZ`, read from a stream (a class) and printed, and the query-string parser with
percent-decoding. `TimestampText` and `QueryText` say exactly which texts are accepted and as what, in terms of the
texts alone. `Date24HAgo` is right for every timestamp whose previous day lies in a year from 0 to 9999 or
-9999 to -100. For other years its answer cannot be read: years are padded to width 4 with zeros *before* the minus
sign, and a year of five digits does not fit the reader.

## Model

| member | source | states |
|---|---|---|
| FileTree.LineageIsTheRootPath | src/Main.cpp:62-66 | The rows `ChangeSize` reaches by following parents, root first, are the one and only walk from a root down to the row (if and only if). |
| FileTree.LineageDistinct | src/Main.cpp:62-66 | No row occurs twice on that walk, so the recursion ends and no row is bumped twice. |
| FileTree.LineageOfFolder | src/Main.cpp:35-39 | Whatever lies above a FOLDER is a FOLDER. |
| FileTree.SameShapeTrueSize | src/DbManager.h:156-170 | Changing stored folder sizes and dates leaves every sum of FILE sizes alone. |
| TreeChanges.PutWellFormed | src/Main.cpp:86-94 | Writing a row under a present FOLDER that is not below the row keeps the forest: no cycle, no dangling link, only FOLDERs with children. |
| TreeChanges.CycleIffBelowItself | src/Main.cpp:35-39 | The check the code does not make: a written row closes a cycle if and only if its new parent is the row itself or lies below it. |
| TreeChanges.PutSubtreeElsewhere | src/Main.cpp:86-94 | Which rows come to lie below which others when a row with all its subtree moves: the old ancestors lose exactly the moved rows, the new ones gain exactly them. |
| TreeChanges.PutTrueSizeElsewhere | src/Main.cpp:95-102 | The true size of every row not below the written one changes by what moved out of the old ancestors and into the new ones. |
| TreeChanges.PutTrueSizeBelow | src/Main.cpp:95-102 | FOLDERs at or below the written row keep their true size. |
| TreeChanges.RemoveTrueSize | src/Main.cpp:133-136 | Removing a subtree takes its FILE sizes from the rows above it and from no other survivor. |
| Store.BumpTouchesLineage | src/Main.cpp:62-70 | `ChangeSize` changes size and date of exactly the row and its ancestors, and appends one snapshot of each, root first, equal to the row's final state; everything else in both tables stays. |
| Store.BumpedAtFacts | src/Main.cpp:101-102 | A guarded `ChangeSize` call adds its delta to the rows at or above the parent and to no other, and changes neither the forest nor any true size. |
| Store.ImportTouches | src/Main.cpp:80-103 | After one import the written row is as sent; of the others only rows above its old or new parent differ, and those in size and date only. |
| Store.ImportedSizes | src/Main.cpp:80-103 | The stored size every row has after one import, from the deltas subtracted above the old parent and added above the new one. |
| Store.ImportDrift | src/Main.cpp:80-103 | The exact change of (stored size minus true size) of every FOLDER under every import, nothing assumed about the sizes before: a moved FILE of size old re-sent as new leaves old - new above its old parent; a FOLDER stored as s re-sent in place leaves -s on itself and all above; a FOLDER of true size t moved leaves -s on itself, +t above the old parent only, -t above the new one only. |
| Store.NewFolderExact | src/Main.cpp:82-90 | A FOLDER imported for the first time starts with the right size. |
| Store.ImportFolderDrift | src/Main.cpp:80-103 | The exact drift after an import of every FOLDER then present, the imported one included: what it was before, or 0 if it is new, plus what the import adds. |
| Store.CleanMeansNoDrift | src/Main.cpp:80-103 | On right sizes, re-importing a row adds no drift anywhere if and only if the step is clean. |
| Store.CleanStepsKeepSizes | src/Main.cpp:80-103 | An import keeps all folder sizes right if and only if it is a new row, a FILE under the same parent, a FILE that was at the root or keeps its size, or a FOLDER whose stored size is 0. |
| Store.DeletedWellFormed | src/Main.cpp:120-139 | A delete leaves a forest again; in particular no row whose parent is missing. |
| Store.DeletedShape | src/Main.cpp:120-139 | A delete removes exactly the rows at or below the id; the rest keep kind and parent. |
| Store.DeleteDrift | src/Main.cpp:107-136 | A delete changes no survivor's drift, however wrong the stored sizes were. |
| Runs.LatestOfSnapshots | src/Main.cpp:68-69 | After one bump the latest snapshot of a touched row is its final state. |
| Runs.ForgetFacts | src/DbManager.h:116-120 | After deleting ids from the history an entry is there exactly if it was and names another id, and every other id has the same latest entry. |
| Runs.OnlyPicks | src/DbManager.h:116-120 | Keeping the entries of some ids keeps exactly these, each once and in order: they stand at increasing positions, which are all positions of these ids. |
| Runs.ForgetKeepsOthers | src/DbManager.h:116-120 | Deleting ids from the history leaves the entries of any set of other ids as they were, all of them and in order, and none of the deleted ids. |
| Runs.ImportKeepsHistory | src/Main.cpp:80-103 | One import keeps: every live row's latest snapshot is the row, and no snapshot names a dead id. |
| Runs.DeleteKeepsHistory | src/Main.cpp:107-136 | One delete keeps the same. |
| Runs.DeleteExtendsHistory | src/Main.cpp:107-136 | A delete leaves the recorded history of every survivor as it was, or adds to its end. |
| Runs.AcceptedBatchIsSafe | src/Main.cpp:10-60 | A batch validated once against the table before it finds, at every later round, its row's parent null or a present FOLDER not below the row, if and only if no round puts a row below itself. |
| Runs.UnmovedFoldersCloseNoCycle | src/Main.cpp:72-105 | No round of an accepted batch puts a row below itself when no existing FOLDER changes its parent. |
| Runs.BatchKeeps | src/Main.cpp:80-103 | A whole batch keeps the forest and the history property, and the folder sizes when each round is clean. |
| Runs.BatchDrift | src/Main.cpp:80-103 | The drift of every FOLDER after a whole batch, those the batch creates included, is its drift before (0 if it was not there) plus the drifts the rounds add. |
| Records.BumpedAtLine | src/Main.cpp:101-102 | The exact rows and the exact history after a guarded `ChangeSize` call; with no parent, nothing changes. |
| Records.ImportRecord | src/Main.cpp:80-103 | The exact history one import leaves: the old one, one entry for the row as sent, one for each row above the old parent if it moved (with the sent size taken off), and one for each row above the new parent as it ends up, each root first. |
| Records.ImportCount | src/Main.cpp:80-103 | How often one import records each id. |
| Records.BatchCount | src/Main.cpp:80-103 | A batch records each id exactly as often as its rounds do. |
| Records.BatchStores | src/Main.cpp:80-103 | Each row of a batch is there in the end: a FILE exactly as written, a FOLDER but for its size. |
| Records.BatchTouches | src/Main.cpp:80-103 | Of the rows not in the batch only FOLDERs change, in size and date. |
| Records.BatchLeaves | src/Main.cpp:80-103 | Rows neither in the batch nor above an old or new parent of one of its rows, as the table stood before, stay as they were. |
| Database.DbManager.ItemExists | src/DbManager.h:62-66 | Says whether the id has a row. |
| Database.DbManager.InsertIntoHistory | src/DbManager.h:108-114 | Appends one entry. |
| Database.DbManager.DeleteFromHistory | src/DbManager.h:116-120 | Drops every entry of the id, keeping the order of the others. |
| Database.DbManager.UpdateItem | src/DbManager.h:122-135 | Overwrites the existing row and records it; returns new size minus old. |
| Database.DbManager.InsertItem | src/DbManager.h:137-147 | Adds the row and records it; returns its size. |
| Database.DbManager.GetType | src/DbManager.h:149-154 | The type's name, or the empty string when there is no such row. |
| Database.DbManager.ChangeSize | src/DbManager.h:156-162 | Adds the delta to one row's size and changes nothing else. |
| Database.DbManager.SetDate | src/DbManager.h:164-170 | Sets one row's date and changes nothing else. |
| Database.DbManager.GetParent | src/DbManager.h:172-179 | The parent's id, or the empty string for a null parent. |
| Database.DbManager.GetChildren | src/DbManager.h:181-190 | Lists exactly the rows whose parent is the id, each once. |
| Database.DbManager.DeleteItem | src/DbManager.h:192-199 | Removes one row and returns its stored size. |
| Database.DbManager.GetItem | src/DbManager.h:201-207 | The row as stored. |
| Handlers.BumpedFromParent | src/Main.cpp:62-70 | Bumping the parent's walk and then updating and recording the row itself equals bumping the row's walk. |
| Handlers.ChangeSize | src/Main.cpp:62-70 | The recursive method ends on every forest and leaves both tables as the bump of the whole walk. |
| Handlers.SubtreeFromChildren | src/Main.cpp:107-118 | The subtree of a row is itself and the disjoint subtrees of its children, and FILE sizes add up accordingly. |
| Handlers.NextSiblingStays | src/Main.cpp:109-110 | Deleting earlier siblings leaves the next sibling's subtree and its sum whole. |
| Handlers.NextSiblingGoes | src/Main.cpp:109-110 | Deleting the next sibling removes exactly its subtree and adds exactly its sum. |
| Handlers.DeleteIter | src/Main.cpp:107-118 | Ends on every forest; removes exactly the rows at or below the id and all their history, and returns the sum of the FILE sizes removed, whatever the stored folder sizes; every other row and entry stays. |
| Handlers.WriteItem | src/Main.cpp:86-94 | Inserts or overwrites and records the row; returns the old parent and the size difference. |
| Handlers.PushUp | src/Main.cpp:95-102 | From the written state, the calls of `ChangeSize` give the state of a whole import. |
| Handlers.ImportItem | src/Main.cpp:80-103 | One round of the import loop has the effect the drift results are about. |
| Nodes.NodesIter | src/Main.cpp:141-152 | Answers a tree with every row at its real place: a FOLDER lists each of its children once, a FILE lists nothing. |
| Nodes.ListedIsSubtree | src/Main.cpp:141-152 | Such an answer contains exactly the rows at or below the id, each once. |
| Nodes.FoldersShowChildrenSizes | src/Main.cpp:141-152 | With right folder sizes, every FOLDER of the answer, at any depth, shows the sum of the sizes of its listed children. |
| Requests.ValidateItem | src/Main.cpp:22-56 | Accepts an item if and only if it is well shaped, its id is new in the batch, and its parent is null, a FOLDER of the table or an earlier FOLDER of the batch; raises if and only if id, kind and parent pass and a FILE's size, or its url after a proper size, is null. |
| Requests.ValidateItems | src/Main.cpp:19-59 | The loop accepts if and only if all items are well shaped and ids and parents resolve, and raises if and only if the first item that fails does so by reading a null. |
| Requests.ImportsValidate | src/Main.cpp:10-60 | Accepts a request if and only if it is acceptable: valid date, non-empty array, well shaped items, distinct ids, resolved parents; raises if and only if the first check that fails reads a null. |
| Requests.FirstFailureDecides | src/Main.cpp:21-57 | Whether the loop raises is settled by the first item that fails. |
| RequestLaws.AcceptedImports | src/Main.cpp:10-60 | The imports accepted, item by item from the request's fields: a valid date; ids that are there and differ; parents null, FOLDERs of the table or FOLDERs earlier in the batch; FOLDERs without size and url, FILEs with a positive size and a url of at most 255 characters. |
| RequestLaws.RaisedImports | src/Main.cpp:14-52 | The imports that raise: a null date, or a first item not in order that is a placed FILE with a null size, or a proper size and a null url. |
| Requests.ItemDecides | src/Main.cpp:21-57 | An item that passes extends the resolved batch; one that fails spoils every longer batch, so stopping early is right. |
| Requests.ImportsHandler | src/Main.cpp:72-105 | Success exactly for an acceptable request, which leaves both tables as the rounds of its batch in order; otherwise nothing changes, and the answer is an exception exactly when validation reads a null, else 400. |
| Requests.DeleteHandler | src/Main.cpp:120-139 | Bad date: 400; no such row: 404, both changing nothing; otherwise subtree and history are gone and the ancestors lose what was removed. |
| Requests.ServedKeeps | src/Main.cpp:62-139 | Each request keeps the forest and the history property, and right sizes when it is clean. |
| Requests.RunsKeepForestAndHistory | src/Main.cpp:62-139 | Over every run of requests: the forest stays one, each live row's latest snapshot is the row, no snapshot names a dead id. |
| Requests.CleanRunsKeepSizes | src/Main.cpp:62-139 | Over every run of clean requests each FOLDER's stored size stays the sum of the FILE sizes below it. |
| Requests.RequestDrift | src/Main.cpp:62-139 | The exact drift of every id after a request: 0 if the request leaves no such FOLDER, else the drift before plus the sum over the rounds of an accepted import, nothing for a delete or a refusal. |
| Requests.RunDrift | src/Main.cpp:62-139 | The exact drift of every FOLDER after any run, clean or not, whenever it was created, deleted or created again. |
| Requests.RunsFromEmptyTables | src/Main.cpp:217-221 | Every run that starts with empty tables has these properties, and the drift of every FOLDER in the end is what the requests added since its creation. |
| Requests.FolderKeepingRunsAreReasonable | src/Main.cpp:72-105 | A run in which, before each request, its ids are non-empty, existing ids keep their type and existing FOLDERs their parent meets every assumption of the run results. |
| Requests.RequestExtendsHistory | src/Main.cpp:62-139 | A request leaves the recorded history of every row it leaves as it was, or adds to its end. |
| Requests.RunExtendsHistory | src/Main.cpp:62-139 | Over a run the history of a row that is not deleted is only ever extended. |
| RequestLaws.DeleteLeaves | src/Main.cpp:120-139 | Everything an accepted delete leaves: the rows at or below the id and all their entries are gone; each row above it loses the FILE sizes removed, has the request's date and is recorded once, root first, after the survivors' old entries; all other rows stay. |
| RequestLaws.ImportStores | src/Main.cpp:78-94 | Every item of an accepted import is stored as sent: its parent and the request's date; a FILE with its size and url, a FOLDER with no url. |
| RequestLaws.ImportAddsIds | src/Main.cpp:86-94 | The ids after an accepted import are those before and those sent. |
| RequestLaws.ImportLeaves | src/Main.cpp:80-103 | Rows not sent and above no old or new parent of an item stay as they were. |
| RequestLaws.ImportKeepsRest | src/Main.cpp:80-103 | Of the rows not sent only FOLDERs change, in size and to the request's date. |
| RequestLaws.RefusedChangesNothing | src/Main.cpp:73-76 | A refused request leaves both tables as they were. |
| RequestLaws.RequestCount | src/Main.cpp:62-139 | How often each id stands in the history after a request, deleted ids included. |
| RequestLaws.RunCount | src/Main.cpp:62-139 | The same over every run. |
| RequestLaws.RunsKeepSound | src/Main.cpp:10-60 | Over every run each row and each recorded row has a valid date, a FILE a positive size and a url of at most 255 characters, a FOLDER no url. |
| FailingInputs.ReimportedFolderFails | src/DbManager.h:122-135 | Failing input for every valid date: two requests on empty tables, a FOLDER with a FILE of size 5 and then the FOLDER again, leave its size 5 too small. |
| FailingInputs.ResizedMoveFails | src/Main.cpp:96-100 | Failing input for every valid date: two requests on empty tables, of which the second moves a FILE of size 5 with size 7, leave its old FOLDER 2 too small. |
| FailingInputs.SizesGoWrong | src/Main.cpp:72-105 | Both, with a date written out that validation accepts. |
| Pages.Paginate | src/Paginator.h:26-35 | The pages follow each other from 0 to n without gap or overlap; none is empty and all but the last are full. |
| Pages.Launch | src/DbManager.h:221-236 | Starts one task per page, each with its page's bounds and the slot number 4k, on an empty array. |
| Pages.StepConsistent | src/DbManager.h:229-234 | Every step of every task keeps: a task stays in its page, a slot holds its row once its task has passed it and null before. |
| Pages.StoreOverwritesNull | src/DbManager.h:230-233 | Every store overwrites a null, so no slot is written twice, and no store moves another slot. |
| Pages.EveryRunFillsInOrder | src/DbManager.h:218-239 | Every finished interleaving leaves exactly the n rows, in query order. |
| Pages.RunsEnd | src/DbManager.h:238-239 | Each step takes one off a count that is 0 exactly when all tasks are done, so no interleaving goes on forever or gets stuck. |
| Pages.LaunchedRunsFill | src/DbManager.h:244-272 | From the launch, an interleaving is finished if and only if it has taken 2n steps, and then the array is the query's answer. |
| Gregorian.DaysRoundTrip | include/date/date.h:3084-3103 | Every day number gives a valid date that leads back to it. |
| Gregorian.DateRoundTrip | include/date/date.h:2970-2987 | Every valid date is given back from its day number. |
| Gregorian.ToDaysClosed | include/date/date.h:2970-2987 | The era computation equals the count of years, leap days and months with floored divisions, for all inputs. |
| Gregorian.NextDayIsNext | include/date/date.h:2970-2987 | The next calendar day is valid and has the next day number. |
| Gregorian.MonthLengths | include/date/date.h:2734-2748 | From the first of each month to the first of the next it is the number of days of the calendar's table; 29 in February of leap years. |
| Gregorian.Epoch | include/date/date.h:2970-2987 | 1970-01-01 is day 0, which with the next-day result pins every day number. |
| Gregorian.OrderPreserved | include/date/date.h:3029-3039 | Calendar order and the order of day numbers are the same (if and only if). |
| Gregorian.ToDaysBounds | include/date/date.h:2981-2985 | The ranges the comments give for year of era, day of year and day of era. |
| Gregorian.FromDaysBounds | include/date/date.h:3093-3101 | The ranges the comments give for all six intermediate values. |
| Gregorian.StoredRoundTrip | include/date/date.h:3102-3102 | With the year stored in 16 bits: the result is `ok()` and leads back if and only if the year is in -32767..32767. |
| Julian.DaysRoundTrip | include/date/julian.h:2269-2288 | Every day number gives a valid Julian date that leads back to it. |
| Julian.DateRoundTrip | include/date/julian.h:2159-2176 | Every valid Julian date is given back from its day number. |
| Julian.NextDayIsNext | include/date/julian.h:2159-2176 | The next calendar day is valid and has the next day number. |
| Julian.MonthLengths | include/date/julian.h:1947-1959 | From the first of each month to the first of the next it is the number of days of the calendar's table; 29 in February of every fourth year. |
| Julian.AheadOfGregorian | include/date/julian.h:2159-2176 | For the same year, month and day, with y' the year starting in March, the Julian day number exceeds the Gregorian one by y'/100 - y'/400 - 2, divisions floored, for all years. |
| Islamic.LeapTableAgrees | include/date/islamic.h:1049-1074 | The table of 11 marks exactly the years over which (11*(yoe+1)+3)/30 grows. |
| Islamic.YearLength | include/date/islamic.h:2139-2156 | Consecutive new years are 355 days apart exactly when the first is leap. |
| Islamic.DaysRoundTrip | include/date/islamic.h:2249-2267 | Every day number gives a valid date that leads back to it. |
| Islamic.DateRoundTrip | include/date/islamic.h:2139-2156 | Every valid date is given back from its day number. |
| Islamic.NextDayIsNext | include/date/islamic.h:2139-2156 | The next calendar day is valid and has the next day number. |
| Islamic.MonthLengths | include/date/islamic.h:1929-1938 | From the first of each month to the first of the next it is the number of days of the calendar's table; 30 and 29 in turn, 30 at the end of the 11 leap years of an era. |
| Islamic.Epoch | include/date/islamic.h:2139-2156 | The first day of year 1 is 16 July 622 of the Julian calendar, which pins every day number. |
| SolarHijri.DaysRoundTrip | include/date/solar_hijri.h:2341-2387 | Every day number, in every era, period, cycle and group, gives a valid date that leads back to it. |
| SolarHijri.DateRoundTrip | include/date/solar_hijri.h:2214-2248 | Every valid date is given back from its day number. |
| SolarHijri.YearLength | include/date/solar_hijri.h:1083-1099 | Consecutive new years are 366 days apart exactly when `is_leap` says so, across cycle, period and era boundaries. |
| SolarHijri.LeapYears | include/date/solar_hijri.h:1083-1099 | The leap years of every era told by year of era alone. |
| SolarHijri.NextDayIsNext | include/date/solar_hijri.h:2214-2248 | The next calendar day is valid and has the next day number. |
| SolarHijri.MonthLengths | include/date/solar_hijri.h:2000-2013 | From the first of each month to the first of the next it is the number of days of the calendar's table; 30 at the end of leap years. |
| SolarHijri.LeapLaid | include/date/solar_hijri.h:1083-1099 | `is_leap` marks, in every era, each fourth year after a cycle's first year, and the last of the 4 years closing the era. |
| SolarHijri.YearFound | include/date/solar_hijri.h:2362-2383 | The branches over period, cycle, group and year of group find the right year and day of year for every day of an era. |
| SolarHijri.Epoch | include/date/solar_hijri.h:42-45 | The first day of year 1 is 22 March 622 of the Gregorian calendar and 11 Dey 1348 is 1970-01-01, which pins every day number. |
| IsoWeek.UnsignedWeekdayAgrees | include/date/date.h:1820-1827 | The 32-bit unsigned computation is the floored remainder by 7 on every `int`. |
| IsoWeek.IsoWeekdayAgrees | include/date/iso_week.h:438-443 | The ISO weekday computed with truncated remainders is the same weekday numbered from Monday 1 to Sunday 7, for all days. |
| IsoWeek.WeekdaysFollow | include/date/date.h:1820-1827 | 1970-01-01 is a Thursday and weekdays follow each other, in both numberings. |
| IsoWeek.WeekdayMinusFloors | include/date/date.h:1902-1910 | Both weekday differences, signed and 32-bit unsigned, are the days forward modulo 7. |
| IsoWeek.LastWeekdayIsLast | include/date/date.h:3466-3473 | The day found has the weekday asked for, lies in the month, and no later day of the month has that weekday. |
| IsoWeek.LastWeekIs52Or53 | include/date/iso_week.h:1018-1027 | The last week of every year is 52 or 53, and it is the number of weeks between the week years' starts. |
| IsoWeek.DaysRoundTrip | include/date/iso_week.h:1500-1517 | Every day number gives an `ok()` week date that leads back to it. |
| IsoWeek.WeekDateRoundTrip | include/date/iso_week.h:1476-1482 | Every `ok()` week date is given back from its day number. |
| IsoWeek.WeekYearIsYearOfThursday | include/date/iso_week.h:1500-1517 | The week year is the Gregorian year of the week's Thursday (section 4.1.4 of ISO 8601:2004). |
| UtcClock.UpperBoundSplits | include/date/tz.h:1896-1896 | On an increasing table the entries before the index found are exactly those not after the time. |
| UtcClock.FromSysIncreases | include/date/tz.h:1889-1898 | `from_sys` is strictly increasing for every table. |
| UtcClock.FromSysCounts | include/date/tz.h:1889-1898 | UTC is ahead by one second for each entry of an increasing table that is not after the time. |
| UtcClock.ImageIsOutside | include/date/tz.h:1889-1898 | The instants no system time is mapped to are exactly the inserted seconds. |
| UtcClock.IsLeapSecond | include/date/tz.h:1900-1926 | The stepwise method computes the answer the results below are about. |
| UtcClock.ToSys | include/date/tz.h:1942-1953 | The stepwise method computes the conversion the results below are about. |
| UtcClock.RoundTripIffGaps | include/date/tz.h:1942-1953 | `to_sys` undoes `from_sys` at every time if and only if entry i+1 comes at least i seconds after entry i. |
| UtcClock.DetectionIffGaps | include/date/tz.h:1900-1926 | `is_leap_second` is true on exactly the instants outside the image of `from_sys` if and only if entry i+1 comes at least i+1 seconds after entry i. |
| UtcClock.InsertedInfo | include/date/tz.h:1942-1953 | With such gaps every instant of inserted second i counts i+1 leap seconds and becomes the last tick before it. |
| Timestamp.Stream.ReadUnsigned | include/date/date.h:6318-6341 | Takes the longest run of digits up to the greatest width, returns its value, and fails if there are fewer than the least width. |
| Timestamp.Stream.ReadSigned | include/date/date.h:6343-6367 | Reads a sign and then digits as the grammar says, or fails; for every least width, 0 included. |
| Timestamp.Stream.ReadSeconds | include/date/date.h:6369-6419 | Reads up to the greatest width of digits and one decimal point, rounded to the nearest second with ties to even, or fails below the least width. |
| Timestamp.ReadDate | include/date/date.h:6937-6959 | Reads a `%F` date off the stream exactly when its text has one. |
| Timestamp.ReadTime | include/date/date.h:7300-7325 | Reads a `%T` time off the stream exactly when its text has one. |
| Timestamp.FromStream | src/Utils.h:18-23 | Reading off the stream, stopping at the first failure, accepts exactly the texts with a parse and yields the instant they denote. |
| TimestampText.AcceptedTimestamps | src/Utils.h:18-23 | A text is read as an instant if and only if it is an optional sign, 1 to 4 digits, `-`, 1 or 2 digits, `-`, 1 or 2 digits, `T`, 1 or 2 digits, `:`, 1 or 2 digits, `:`, 1 or 2 characters of seconds, `Z` and anything, and its numbers are the date and the time of day of that instant. |
| TimestampText.ValidTimestamps | src/Utils.h:18-23 | The texts accepted: those of this form with a date of the calendar and a time of day. |
| TimestampText.SecondsRead | include/date/date.h:7300-7325 | What one or two characters of seconds are read as, decimal points included. |
| TimestampText.UnsignedReads | include/date/date.h:6318-6341 | A number is read exactly as its longest run of digits within the widths. |
| TimestampText.SignedReads | include/date/date.h:6343-6367 | A signed number is read exactly as an optional sign and such a run, or as nothing where none is asked for. |
| TimestampText.ScanReads | include/date/date.h:6369-6419 | The scan of seconds takes the longest decimal number it may and holds its digits before and after the point. |
| TimestampText.RoundedIsNearest | include/date/date.h:7314-7315 | The seconds read are the nearest whole number, the even one of two equally near. |
| Timestamp.SplitDayFloors | include/date/date.h:6209-6224 | Truncating to a day and correcting below zero is the floored split into day and time of day. |
| Timestamp.TimeReadsBack | include/date/date.h:4082-4085 | The hours, minutes and seconds printed for a time of day read back as a conventional time that adds up to it. |
| Timestamp.PrintParse | include/date/date.h:5309-5327 | A printed instant is read back as itself if its year is in 0..9999 or -9999..-100, and is not accepted otherwise. |
| TimestampText.PrintedText | include/date/date.h:5309-5327 | The printed text of every instant, character by character: the year, zero-filled to four characters with the zeros before a minus sign, and 16 characters with digits and separators in fixed places. |
| Timestamp.DayAgoIsDayAgo | src/Utils.h:25-31 | For every valid timestamp the answer is valid if and only if the previous day's year is readable, and then it denotes exactly 86400 seconds earlier. |
| TimestampText.DayAgoText | src/Utils.h:25-31 | For previous days in the years 0 to 9999 the answer is 20 characters with digits, `-`, `T`, `:` and `Z` in fixed places (section 5.6 of RFC 3339) and no sign. |
| Timestamp.YearZeroFails | src/Utils.h:25-31 | Concrete failing input: the first instant of year 0 is valid and the day before it is printed unreadably. |
| Decimal.PaddedNumber | include/date/date.h:5320-5326 | A number printed with zero fill and a width reads back with the same value, and is as long as the width or its digits. |
| Query.UrlDecode | src/Utils.h:33-57 | The loop decodes the whole text, or gives the empty text when an escape is cut off or unreadable. |
| QueryText.DecodedTexts | src/Utils.h:33-57 | A text decodes to t if and only if it spells t character by character: as itself, a space as `+`, a byte as an escape with digits of either case. |
| QueryText.UndecodableTexts | src/Utils.h:37-50 | A text is answered with the empty text for failure if and only if, after some spelled characters, it comes to an escape that is cut off or unreadable. |
| Query.DecodeEncode | src/Utils.h:33-57 | Decoding undoes percent-encoding (section 2.1 of RFC 3986, `+` for space) of every text of bytes. |
| Query.Find | src/RequestParser.cpp:17-17 | The first position of a character, or none if it does not occur. |
| Query.TakePair | src/RequestParser.cpp:23-33 | One round reads off the first key and value, or fails, exactly as the list grammar says. |
| Query.ParseParameters | src/RequestParser.cpp:14-38 | The shrinking loop ends and gives the map of the whole list, later pairs winning, and no pair at all when any piece is malformed. |
| QueryText.NoQuestionMark | src/RequestParser.cpp:17-19 | A text without `?` has no parameters. |
| QueryText.ParametersOfList | src/RequestParser.cpp:20-37 | A proper list after the first `?` gives exactly its keys, each with the decoded value of its last pair. |
| QueryText.ParametersOfOtherList | src/RequestParser.cpp:25-32 | Any other list gives no parameter at all. |
| Query.AcceptedLists | src/RequestParser.cpp:22-35 | The lists that give parameters are exactly key=value pairs joined by `&`, perhaps with a closing `&`, with non-empty keys without `=` and values other than empty or one space (if and only if). |
| Query.ParseUndoesPrint | src/RequestParser.cpp:14-38 | Parsing a printed path and parameter list gives back exactly the printed parameters. |

## Left out

- SQL text, transactions and the driver: each row operation is modelled by its effect on the two tables, and a row that must exist is a precondition where the source would throw. Quoting of values inside statements is not modelled.
- Database.DbManager.GetChildren: the order of the children is left open, as the query has none.
- Requests.ImportsHandler: JSON text is not parsed; a field is absent, null, or a value of the right type. A null where a value is read raises, and the reply is then `Exception` with nothing changed. What the server does with an exception is not modelled.
- Requests.RunsKeepForestAndHistory: assumes of each accepted batch that ids are not empty, that existing ids keep their type, and that no row is moved below itself; the code checks none of these.
- Requests that only read (`nodes` beyond its tree, `updates`, `node` history): their row selection is SQL; only the paged filling of the answer and the tree are modelled.
- 32-bit overflow of stored sizes: sizes are unbounded.
- Handlers.ImportItem: one round of the source's loop body is split into `WriteItem` and `PushUp`, and one round of the parser's loop into `Query.TakePair`, to keep each proof small.
- Pages.StepConsistent: growing and storing are each atomic; a data race inside one of them is not modelled.
- Pages.Paginate: needs a page size above 0 unless there is nothing to page; with page size 0 the source's loop does not end. The caller passes 4.
- Gregorian.DaysRoundTrip: years and day numbers are unbounded, as in the other calendars; only `Gregorian.StoredRoundTrip` models the 16-bit year. Weekdays use the floored remainder, which `IsoWeek.UnsignedWeekdayAgrees` proves equal to the source's 32-bit computation on every `int`.
- SolarHijri.YearFound: the source divides by the era length in `double` and truncates; the model truncates the exact quotient. Its mixed signed and unsigned 32-bit arithmetic is modelled on integers.
- UtcClock.ToSys: the table is a parameter; loading it, and time zones, are not part of this model. Durations are whole ticks.
- Timestamp.Stream.ReadUnsigned: needs a greatest width above 0, as do the other readers; the callers pass 2 or 4.
- Timestamp.Stream.ReadSeconds: the `long double` sum is exact in the model and rounded once.
- Timestamp.PrintParse: printed years are unbounded; the source's 16-bit year limits what can be printed to -32767..32767, which covers every day before a valid timestamp.
- All other format specifiers, locales, durations in floating point, and the operator boilerplate of the date headers.
- Query.UrlDecode: what stream extraction makes of two characters that are not both hexadecimal digits is a parameter `odd`; the results hold for every choice of it.
- Splitting the request line and headers, finding the body, replies, sockets, the accept loop and signals.
- `include/date/ptz.h`, `include/date/tz_private.h`, the zone database, the bundled network and JSON libraries.
