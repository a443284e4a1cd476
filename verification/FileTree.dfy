/** The `items` table as a value: a forest of FILE and FOLDER rows linked by `parentId`,
    the root-first lineage of a row, and the FILE sizes that really lie below a row. */
module FileTree {
  import opened Options

  type Id = string
  datatype Kind = File | Folder
  datatype Row = Row(kind: Kind, size: int, date: string, parentId: Option<Id>, url: Option<string>)
  type Items = map<Id, Row>

  // ----- shape -----

  /** Every parent link leads to a present row of smaller rank. */
  ghost predicate Ranked(items: Items, rank: map<Id, nat>) {
    && rank.Keys == items.Keys
    && forall x :: x in items && items[x].parentId.Some? ==>
         items[x].parentId.value in items && rank[items[x].parentId.value] < rank[x]
  }

  ghost predicate Acyclic(items: Items) {
    exists rank: map<Id, nat> :: Ranked(items, rank)
  }

  ghost function RankOf(items: Items): (rank: map<Id, nat>)
    requires Acyclic(items)
    ensures Ranked(items, rank)
  {
    var rank :| Ranked(items, rank); rank
  }

  /** What every request keeps: no cycle, no dangling link, only FOLDERs have children, and
      the empty string, which `GetParent` returns for a null parent, is not an id. */
  ghost predicate WellFormed(items: Items) {
    && Acyclic(items)
    && "" !in items
    && forall x :: x in items && items[x].parentId.Some? ==>
         items[x].parentId.value in items && items[items[x].parentId.value].kind.Folder?
  }

  /** The ids met on the way from the root of x's tree down to x itself; empty when x is not a row
      of an acyclic table. */
  ghost function Lineage(items: Items, x: Id): (line: seq<Id>)
    ensures Acyclic(items) && x in items ==> |line| > 0 && line[|line| - 1] == x
    ensures forall a :: a in line ==> a in items
    decreases if Acyclic(items) && x in items then RankOf(items)[x] else 0
  {
    if !Acyclic(items) || x !in items then []
    else if items[x].parentId.None? then [x]
    else Lineage(items, items[x].parentId.value) + [x]
  }

  /** The rows at or below `a`. */
  ghost function Subtree(items: Items, a: Id): set<Id> {
    set x | x in items && a in Lineage(items, x)
  }

  lemma {:induction false} LineageRank(items: Items, x: Id, a: Id)
    requires Acyclic(items) && x in items && a in Lineage(items, x)
    ensures RankOf(items)[a] <= RankOf(items)[x]
    ensures a != x ==> RankOf(items)[a] < RankOf(items)[x]
    decreases RankOf(items)[x]
  {
    if a != x {
      LineageRank(items, items[x].parentId.value, a);
    }
  }

  /** A row's lineage starts with the lineage of each of its ancestors. */
  lemma {:induction false} LineagePrefix(items: Items, x: Id, a: Id)
    requires Acyclic(items) && x in items && a in Lineage(items, x)
    ensures Lineage(items, a) <= Lineage(items, x)
    decreases RankOf(items)[x]
  {
    if a != x {
      LineagePrefix(items, items[x].parentId.value, a);
    }
  }

  /** A walk down the parent links from a root. */
  ghost predicate RootPath(items: Items, path: seq<Id>) {
    && path != []
    && (forall i :: 0 <= i < |path| ==> path[i] in items)
    && items[path[0]].parentId.None?
    && (forall i :: 1 <= i < |path| ==> items[path[i]].parentId == Some(path[i - 1]))
  }

  lemma RootPathEnd(items: Items, path: seq<Id>)
    requires RootPath(items, path)
    ensures |path| > 1 ==> items[path[|path| - 1]].parentId == Some(path[|path| - 2])
  {
  }

  /** The lineage is the one walk from a root to the row. */
  lemma {:induction false} LineageIsTheRootPath(items: Items, x: Id, path: seq<Id>)
    requires Acyclic(items) && x in items
    ensures path == Lineage(items, x) <==> RootPath(items, path) && path[|path| - 1] == x
    decreases RankOf(items)[x]
  {
    var line := Lineage(items, x);
    if items[x].parentId.Some? {
      var p := items[x].parentId.value;
      LineageIsTheRootPath(items, p, Lineage(items, p));
      if RootPath(items, path) && path[|path| - 1] == x {
        var above := path[..|path| - 1];
        assert above != [] && RootPath(items, above);
        LineageIsTheRootPath(items, p, above);
        assert path == above + [x];
      }
    } else if RootPath(items, path) && path[|path| - 1] == x {
      RootPathEnd(items, path);
    }
  }

  lemma NotAboveItself(items: Items, x: Id)
    requires Acyclic(items) && x in items && items[x].parentId.Some?
    ensures x !in Lineage(items, items[x].parentId.value)
  {
    if x in Lineage(items, items[x].parentId.value) {
      LineageRank(items, items[x].parentId.value, x);
    }
  }

  /** No row occurs twice on its own lineage. */
  lemma {:induction false} LineageDistinct(items: Items, x: Id)
    requires Acyclic(items) && x in items
    ensures var line := Lineage(items, x); forall i, j :: 0 <= i < j < |line| ==> line[i] != line[j]
    decreases RankOf(items)[x]
  {
    if items[x].parentId.Some? {
      var above := Lineage(items, items[x].parentId.value);
      LineageDistinct(items, items[x].parentId.value);
      NotAboveItself(items, x);
      assert Lineage(items, x) == above + [x];
      assert forall i :: 0 <= i < |above| ==> above[i] != x;
    }
  }

  /** Being at or below is transitive. */
  lemma LineageTransitive(items: Items, x: Id, a: Id, b: Id)
    requires Acyclic(items) && x in items && a in Lineage(items, x) && b in Lineage(items, a)
    ensures b in Lineage(items, x)
  {
    LineagePrefix(items, x, a);
    var i :| 0 <= i < |Lineage(items, a)| && Lineage(items, a)[i] == b;
    assert Lineage(items, x)[i] == b;
  }

  /** Between an ancestor and a row strictly below it lies exactly one child of the ancestor. */
  lemma {:induction false} ChildOnTheWay(items: Items, x: Id, a: Id) returns (c: Id)
    requires Acyclic(items) && x in items && a in Lineage(items, x) && a != x
    ensures c in items && items[c].parentId == Some(a) && c in Lineage(items, x)
    decreases RankOf(items)[x]
  {
    var p := items[x].parentId.value;
    if p == a {
      c := x;
    } else {
      c := ChildOnTheWay(items, p, a);
    }
  }

  lemma ChildIsUnique(items: Items, x: Id, a: Id, c: Id, d: Id)
    requires Acyclic(items) && x in items
    requires c in Lineage(items, x) && d in Lineage(items, x)
    requires items[c].parentId == items[d].parentId == Some(a)
    ensures c == d
  {
    LineagePrefix(items, x, c);
    LineagePrefix(items, x, d);
    assert Lineage(items, c)[|Lineage(items, a)|] == c;
    assert Lineage(items, d)[|Lineage(items, a)|] == d;
    assert Lineage(items, x)[|Lineage(items, a)|] == c;
    assert Lineage(items, x)[|Lineage(items, a)|] == d;
  }

  /** Ancestors of a FOLDER are FOLDERs. */
  lemma LineageOfFolder(items: Items, x: Id)
    requires WellFormed(items) && x in items && items[x].kind.Folder?
    ensures forall a :: a in Lineage(items, x) ==> items[a].kind.Folder?
  {
    forall a | a in Lineage(items, x) ensures items[a].kind.Folder? {
      if a != x {
        var c := ChildOnTheWay(items, x, a);
      }
    }
  }

  // ----- tables of the same shape -----

  /** Sizes, dates and urls may differ, links and kinds may not. */
  ghost predicate SameShape(items: Items, items': Items) {
    && items.Keys == items'.Keys
    && forall x :: x in items ==> items'[x].parentId == items[x].parentId && items'[x].kind == items[x].kind
  }

  lemma SameShapeAcyclic(items: Items, items': Items)
    requires SameShape(items, items') && Acyclic(items)
    ensures Acyclic(items')
    ensures WellFormed(items) ==> WellFormed(items')
  {
    assert Ranked(items', RankOf(items));
  }

  lemma {:induction false} SameShapeLineage(items: Items, items': Items, x: Id)
    requires SameShape(items, items') && Acyclic(items)
    ensures Acyclic(items') && Lineage(items', x) == Lineage(items, x)
    decreases if x in items then RankOf(items)[x] else 0
  {
    SameShapeAcyclic(items, items');
    if x in items && items[x].parentId.Some? {
      SameShapeLineage(items, items', items[x].parentId.value);
    }
  }

  lemma SameShapeSubtree(items: Items, items': Items, a: Id)
    requires SameShape(items, items') && Acyclic(items)
    ensures Subtree(items', a) == Subtree(items, a)
  {
    forall x ensures Lineage(items', x) == Lineage(items, x) {
      SameShapeLineage(items, items', x);
    }
  }

  // ----- sums of FILE sizes -----

  /** What a row adds to the true size of its ancestors: FILE sizes count, stored FOLDER sizes do not. */
  function Weight(items: Items, x: Id): int {
    if x in items && items[x].kind.File? then items[x].size else 0
  }

  /** The sum of the FILE sizes among the given ids. */
  ghost function FileSum(items: Items, s: set<Id>): int
    decreases s
  {
    if s == {} then 0 else var x :| x in s; Weight(items, x) + FileSum(items, s - {x})
  }

  /** The FILE sizes really at or below `a`, whatever the folders' stored sizes say. */
  ghost function TrueSize(items: Items, a: Id): int {
    FileSum(items, Subtree(items, a))
  }

  lemma {:induction false} FileSumPick(items: Items, s: set<Id>, x: Id)
    requires x in s
    ensures FileSum(items, s) == Weight(items, x) + FileSum(items, s - {x})
    decreases s
  {
    var y :| y in s && FileSum(items, s) == Weight(items, y) + FileSum(items, s - {y});
    if y != x {
      FileSumPick(items, s - {y}, x);
      FileSumPick(items, s - {x}, y);
      assert s - {y} - {x} == s - {x} - {y};
    }
  }

  lemma {:induction false} FileSumUnion(items: Items, s: set<Id>, t: set<Id>)
    requires s !! t
    ensures FileSum(items, s + t) == FileSum(items, s) + FileSum(items, t)
    decreases s
  {
    if s == {} {
      assert s + t == t;
    } else {
      var x :| x in s;
      FileSumPick(items, s, x);
      FileSumPick(items, s + t, x);
      assert s + t - {x} == (s - {x}) + t;
      FileSumUnion(items, s - {x}, t);
    }
  }

  lemma {:induction false} FileSumSame(items: Items, items': Items, s: set<Id>)
    requires forall x :: x in s ==> Weight(items', x) == Weight(items, x)
    ensures FileSum(items', s) == FileSum(items, s)
    decreases s
  {
    if s != {} {
      var x :| x in s;
      FileSumPick(items, s, x);
      FileSumPick(items', s, x);
      FileSumSame(items, items', s - {x});
    }
  }

  /** Same shape and same FILE sizes mean the same true sizes. */
  lemma SameShapeTrueSize(items: Items, items': Items, a: Id)
    requires SameShape(items, items') && Acyclic(items)
    requires forall x :: x in items ==> Weight(items', x) == Weight(items, x)
    ensures TrueSize(items', a) == TrueSize(items, a)
  {
    SameShapeSubtree(items, items', a);
    FileSumSame(items, items', Subtree(items, a));
  }
}
