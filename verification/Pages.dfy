/** Cutting a result set into pages and filling one shared array from all pages at once. */
module Pages {
  import opened Options

  const NTHREADS := 4

  // ----- the page partition -----

  datatype Page = Page(begin: int, end: int)

  function Min(a: int, b: int): int {
    if a <= b then a else b
  }

  /** Pages follow each other from 0 to `n`; all but the last are full and none is empty. */
  ghost predicate Partition(pages: seq<Page>, n: int, pageSize: int) {
    && (forall k :: 0 <= k < |pages| ==> pages[k].begin == k * pageSize && pages[k].end == Min(k * pageSize + pageSize, n))
    && (forall k :: 0 <= k < |pages| ==> pages[k].begin < pages[k].end)
    && (forall k :: 0 <= k < |pages| - 1 ==> pages[k].end - pages[k].begin == pageSize && pages[k].end == pages[k + 1].begin)
    && (if n == 0 then pages == [] else pages != [] && pages[0].begin == 0 && pages[|pages| - 1].end == n)
  }

  method Paginate(n: nat, pageSize: nat) returns (pages: seq<Page>)
    requires pageSize > 0 || n == 0
    ensures Partition(pages, n, pageSize)
  {
    pages := [];
    var begin := 0;
    var left := n;
    while left > 0
      invariant begin + left == n && left >= 0 && begin >= 0
      invariant left > 0 ==> begin == |pages| * pageSize
      invariant Partition(pages, begin, pageSize)
      decreases left
    {
      ghost var k := |pages|;
      var currentPageSize := Min(pageSize, left);
      var currentPageEnd := begin + currentPageSize;
      Grows(pages, begin, currentPageEnd, pageSize);
      NextMultiple(k, pageSize);
      pages := pages + [Page(begin, currentPageEnd)];
      left := left - currentPageSize;
      begin := currentPageEnd;
    }
  }

  lemma NextMultiple(k: int, pageSize: int)
    ensures (k + 1) * pageSize == k * pageSize + pageSize
  {
  }

  /** Adding a page after full pages. */
  lemma Grows(pages: seq<Page>, n: int, end: int, pageSize: int)
    requires Partition(pages, n, pageSize) && n == |pages| * pageSize && n < end <= n + pageSize && n >= 0
    ensures Partition(pages + [Page(n, end)], end, pageSize)
  {
    var k := |pages|;
    if k > 0 {
      NextMultiple(k - 1, pageSize);
    }
    forall j | 0 <= j < k ensures pages[j].end == j * pageSize + pageSize {
      if j < k - 1 {
        assert pages[j].end == pages[j].begin + pageSize;
      }
    }
  }

  // ----- the shared array -----

  /** One task: the rows still to be copied, the slot the next one goes to, and whether the array has
      already been grown to hold that slot. */
  datatype Writer = Writer(row: int, end: int, slot: int, grown: bool)

  /** The array, where None is a null that has not been overwritten yet, and the tasks. */
  datatype Fill<R> = Fill(slots: seq<Option<R>>, writers: seq<Writer>)

  function Nulls<R>(n: nat): seq<Option<R>> {
    seq(n, _ => None)
  }

  /** Starts one task per page, each told its first slot. */
  method Launch<R>(rows: seq<R>) returns (s: Fill<R>)
    ensures s == Started(rows)
  {
    var pages := Paginate(|rows|, NTHREADS);
    var writers: seq<Writer> := [];
    var i := 0;
    for k := 0 to |pages|
      invariant i == NTHREADS * k && |writers| == k
      invariant forall j :: 0 <= j < k ==> writers[j] == Writer(pages[j].begin, pages[j].end, NTHREADS * j, false)
    {
      writers := writers + [Writer(pages[k].begin, pages[k].end, i, false)];
      i := i + NTHREADS;
    }
    PageCount(pages, |rows|);
    s := Fill([], writers);
    assert writers == Started(rows).writers;
  }

  function Tasks(n: int): int {
    (n + 3) / 4
  }

  ghost function Started<R>(rows: seq<R>): Fill<R> {
    Fill([], seq(Tasks(|rows|), k requires 0 <= k < Tasks(|rows|) =>
      Writer(NTHREADS * k, Min(NTHREADS * k + NTHREADS, |rows|), NTHREADS * k, false)))
  }

  lemma PageCount(pages: seq<Page>, n: nat)
    requires Partition(pages, n, NTHREADS)
    ensures |pages| == Tasks(n)
  {
    if pages != [] {
      var last := |pages| - 1;
      assert pages[last].begin == last * NTHREADS;
    }
  }

  predicate Enabled<R>(s: Fill<R>, w: int) {
    0 <= w < |s.writers| && s.writers[w].row < s.writers[w].end
  }

  /** One atomic step of task `w`: growing the array with nulls up to its slot, or storing its row there. */
  function Step<R>(rows: seq<R>, s: Fill<R>, w: int): Fill<R>
    requires Enabled(s, w)
  {
    var x := s.writers[w];
    if !x.grown then
      Fill(if x.slot < |s.slots| then s.slots else s.slots + Nulls(x.slot + 1 - |s.slots|),
           s.writers[w := x.(grown := true)])
    else if 0 <= x.slot < |s.slots| && 0 <= x.row < |rows| then
      Fill(s.slots[x.slot := Some(rows[x.row])], s.writers[w := Writer(x.row + 1, x.end, x.slot + 1, false)])
    else s
  }

  /** A run is any sequence of steps of enabled tasks. */
  ghost predicate IsRun<R>(rows: seq<R>, s: Fill<R>, schedule: seq<int>, t: Fill<R>)
    decreases |schedule|
  {
    if schedule == [] then s == t
    else Enabled(s, schedule[0]) && IsRun(rows, Step(rows, s, schedule[0]), schedule[1..], t)
  }

  ghost predicate Finished<R>(s: Fill<R>) {
    forall w :: 0 <= w < |s.writers| ==> !Enabled(s, w)
  }

  /** What every interleaving keeps: a task stays in its own page, and a slot holds its row once its task has
      passed it and null before. */
  ghost predicate Consistent<R>(rows: seq<R>, s: Fill<R>) {
    && |s.writers| == Tasks(|rows|)
    && |s.slots| <= |rows|
    && (forall w :: 0 <= w < |s.writers| ==>
          var x := s.writers[w];
          && 4 * w <= x.row <= x.end == Min(4 * w + 4, |rows|) && x.slot == x.row && x.row <= |rows|
          && (x.grown ==> x.row < x.end && x.slot < |s.slots|))
    && (forall i :: 0 <= i < |s.slots| ==> s.slots[i] == if i < s.writers[i / 4].row then Some(rows[i]) else None)
    && (forall w :: 0 <= w < |s.writers| && 4 * w < s.writers[w].row ==> s.writers[w].row <= |s.slots|)
  }

  lemma StartedConsistent<R>(rows: seq<R>)
    ensures Consistent(rows, Started(rows))
  {
  }

  lemma StepConsistent<R>(rows: seq<R>, s: Fill<R>, w: int)
    requires Consistent(rows, s) && Enabled(s, w)
    ensures Consistent(rows, Step(rows, s, w))
  {
    var x, t := s.writers[w], Step(rows, s, w);
    forall i | 0 <= i < |t.slots|
      ensures t.slots[i] == if i < t.writers[i / 4].row then Some(rows[i]) else None
    {
      if i / 4 != w {
        assert 4 * (i / 4) >= s.writers[i / 4].row || s.writers[i / 4].row <= |s.slots|;
      }
    }
  }

  /** No slot is written twice: a store always overwrites a null. */
  lemma StoreOverwritesNull<R>(rows: seq<R>, s: Fill<R>, w: int)
    requires Consistent(rows, s) && Enabled(s, w) && s.writers[w].grown
    ensures s.slots[s.writers[w].slot] == None
    ensures Step(rows, s, w).slots == s.slots[s.writers[w].slot := Some(rows[s.writers[w].row])]
  {
    assert s.writers[w].slot / 4 == w;
  }

  /** Every finished interleaving leaves exactly the rows, in query order. */
  lemma {:induction false} EveryRunFillsInOrder<R>(rows: seq<R>, s: Fill<R>, schedule: seq<int>, t: Fill<R>)
    requires Consistent(rows, s) && IsRun(rows, s, schedule, t)
    ensures Consistent(rows, t)
    ensures Finished(t) ==> |t.slots| == |rows| && forall i :: 0 <= i < |rows| ==> t.slots[i] == Some(rows[i])
    decreases |schedule|
  {
    if schedule == [] {
      if Finished(t) {
        FinishedIsFull(rows, t);
      }
    } else {
      StepConsistent(rows, s, schedule[0]);
      EveryRunFillsInOrder(rows, Step(rows, s, schedule[0]), schedule[1..], t);
    }
  }

  lemma FinishedAt<R>(rows: seq<R>, t: Fill<R>, i: int)
    requires Consistent(rows, t) && Finished(t) && 0 <= i < |rows|
    ensures i < |t.slots| && t.slots[i] == Some(rows[i])
  {
    var w := i / 4;
    assert !Enabled(t, w);
    assert i < t.writers[w].row;
  }

  lemma FinishedIsFull<R>(rows: seq<R>, t: Fill<R>)
    requires Consistent(rows, t) && Finished(t)
    ensures |t.slots| == |rows| && forall i :: 0 <= i < |rows| ==> t.slots[i] == Some(rows[i])
  {
    if |rows| > 0 {
      FinishedAt(rows, t, |rows| - 1);
    }
    forall i | 0 <= i < |rows| ensures t.slots[i] == Some(rows[i]) {
      FinishedAt(rows, t, i);
    }
  }

  // ----- every run ends -----

  /** The steps still to come: two for a row, one when the array is already grown for it. */
  ghost function Left(writers: seq<Writer>): int {
    if writers == [] then 0
    else
      var x := writers[|writers| - 1];
      Left(writers[..|writers| - 1]) + 2 * (x.end - x.row) - (if x.grown then 1 else 0)
  }

  lemma {:induction false} LeftAfterUpdate(writers: seq<Writer>, w: int, x: Writer)
    requires 0 <= w < |writers|
    ensures Left(writers[w := x]) == Left(writers)
              - (2 * (writers[w].end - writers[w].row) - (if writers[w].grown then 1 else 0))
              + 2 * (x.end - x.row) - (if x.grown then 1 else 0)
    decreases |writers|
  {
    var n := |writers| - 1;
    if w == n {
      assert writers[w := x][..n] == writers[..n];
    } else {
      assert writers[w := x][..n] == writers[..n][w := x];
      LeftAfterUpdate(writers[..n], w, x);
    }
  }

  lemma {:induction false} LeftAtStart<R>(rows: seq<R>, k: int)
    requires 0 <= k <= Tasks(|rows|)
    ensures Left(Started(rows).writers[..k]) == 2 * Min(4 * k, |rows|)
    decreases k
  {
    if k > 0 {
      LeftAtStart(rows, k - 1);
      assert Started(rows).writers[..k][..k - 1] == Started(rows).writers[..k - 1];
    }
  }

  /** Each step takes one off what is left, so no run is longer than two steps a row; and a run that cannot
      go on is finished. */
  lemma {:induction false} RunsEnd<R>(rows: seq<R>, s: Fill<R>, schedule: seq<int>, t: Fill<R>)
    requires Consistent(rows, s) && IsRun(rows, s, schedule, t)
    ensures Left(s.writers) == |schedule| + Left(t.writers) && Left(t.writers) >= 0
    ensures (Left(t.writers) == 0) <==> Finished(t)
    decreases |schedule|
  {
    if schedule == [] {
      LeftIsPositive(rows, t, |t.writers|);
      assert t.writers[..|t.writers|] == t.writers;
    } else {
      var w := schedule[0];
      StepConsistent(rows, s, w);
      LeftAfterUpdate(s.writers, w, Step(rows, s, w).writers[w]);
      RunsEnd(rows, Step(rows, s, w), schedule[1..], t);
    }
  }

  lemma {:induction false} LeftIsPositive<R>(rows: seq<R>, t: Fill<R>, k: int)
    requires Consistent(rows, t) && 0 <= k <= |t.writers|
    ensures Left(t.writers[..k]) >= 0
    ensures Left(t.writers[..k]) == 0 <==> forall w :: 0 <= w < k ==> !Enabled(t, w)
    decreases k
  {
    if k > 0 {
      LeftIsPositive(rows, t, k - 1);
      assert t.writers[..k][..k - 1] == t.writers[..k - 1];
      var x := t.writers[k - 1];
      assert Enabled(t, k - 1) <==> 2 * (x.end - x.row) - (if x.grown then 1 else 0) > 0;
    }
  }

  /** From the launch: any run of 2n steps, and only such a run, is finished, and it has filled the array. */
  lemma LaunchedRunsFill<R>(rows: seq<R>, schedule: seq<int>, t: Fill<R>)
    requires IsRun(rows, Started(rows), schedule, t)
    ensures |schedule| <= 2 * |rows|
    ensures |schedule| == 2 * |rows| <==> Finished(t)
    ensures Finished(t) ==> |t.slots| == |rows| && forall i :: 0 <= i < |rows| ==> t.slots[i] == Some(rows[i])
  {
    var s := Started(rows);
    StartedConsistent(rows);
    hide Left, IsRun, Consistent, Finished;
    LeftAtStart(rows, Tasks(|rows|));
    assert s.writers[..|s.writers|] == s.writers;
    RunsEnd(rows, s, schedule, t);
    EveryRunFillsInOrder(rows, s, schedule, t);
  }
}
