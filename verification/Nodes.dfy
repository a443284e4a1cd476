/** The tree answered for one row, and how its sizes fit together. */
module Nodes {
  import opened Options
  import opened FileTree
  import opened TreeChanges
  import opened Store
  import opened Database
  import opened Handlers

  /** The `children` field is null for a FILE and a list for a FOLDER. */
  datatype Node = Leaf(id: Id, row: Row) | Branch(id: Id, row: Row, children: seq<Node>)

  function NodeIds(nodes: seq<Node>): seq<Id> {
    seq(|nodes|, i requires 0 <= i < |nodes| => nodes[i].id)
  }

  /** Every row at its place: FOLDERs list each of their children once, FILEs list nothing. */
  ghost predicate IsTreeOf(items: Items, node: Node, id: Id)
    decreases node
  {
    && node.id == id && id in items && node.row == items[id]
    && match node
       case Leaf(_, _) => items[id].kind.File?
       case Branch(_, _, nodes) =>
         && items[id].kind.Folder?
         && (forall x :: x in NodeIds(nodes) <==> x in items && items[x].parentId == Some(id))
         && (forall i, j :: 0 <= i < j < |nodes| ==> nodes[i].id != nodes[j].id)
         && (forall i :: 0 <= i < |nodes| ==> IsTreeOf(items, nodes[i], nodes[i].id))
  }

  method NodesIter(dbm: DbManager, id: Id) returns (item: Node)
    requires WellFormed(dbm.items) && id in dbm.items
    ensures IsTreeOf(dbm.items, item, id)
    decreases Subtree(dbm.items, id)
  {
    hide Lineage, FileSum, WellFormed;
    var row := dbm.GetItem(id);
    if row.kind == Folder {
      var nodes: seq<Node> := [];
      var children := dbm.GetChildren(id);
      for k := 0 to |children|
        invariant |nodes| == k
        invariant forall i :: 0 <= i < k ==> nodes[i].id == children[i] && IsTreeOf(dbm.items, nodes[i], children[i])
      {
        BelowChildIsBelow(dbm.items, id, children, k);
        var child := NodesIter(dbm, children[k]);
        nodes := nodes + [child];
      }
      assert NodeIds(nodes) == children;
      item := Branch(id, row, nodes);
    } else {
      item := Leaf(id, row);
    }
  }

  /** Every id of the answer, parents before children. */
  function Listed(node: Node): seq<Id>
    decreases node, 1
  {
    [node.id] + if node.Leaf? then [] else ListedAll(node.children)
  }

  function ListedAll(nodes: seq<Node>): seq<Id>
    decreases nodes, 0
  {
    if nodes == [] then [] else ListedAll(nodes[..|nodes| - 1]) + Listed(nodes[|nodes| - 1])
  }

  ghost predicate AreTreesOf(items: Items, id: Id, nodes: seq<Node>) {
    && Siblings(items, id, NodeIds(nodes))
    && (forall i :: 0 <= i < |nodes| ==> IsTreeOf(items, nodes[i], nodes[i].id))
  }

  lemma FileHasNothingBelow(items: Items, id: Id)
    requires WellFormed(items) && id in items && items[id].kind.File?
    ensures Subtree(items, id) == {id} && TrueSize(items, id) == items[id].size
  {
    forall x | x in Subtree(items, id) ensures x == id {
      if x != id {
        var c := ChildOnTheWay(items, x, id);
      }
    }
    FileSumPick(items, {id}, id);
  }

  /** The answer lists exactly the rows at or below `id`, each once. */
  lemma {:induction false} ListedIsSubtree(items: Items, node: Node, id: Id)
    requires WellFormed(items) && IsTreeOf(items, node, id)
    ensures multiset(Listed(node)) == multiset(Subtree(items, id))
    decreases node, 1
  {
    hide Lineage, FileSum;
    match node
    case Leaf(_, _) =>
      FileHasNothingBelow(items, id);
    case Branch(_, _, nodes) =>
      assert AreTreesOf(items, id, nodes);
      ListedAllIsUnder(items, id, nodes);
      SubtreeFromChildren(items, id, NodeIds(nodes));
  }

  lemma DisjointUnion<T>(s: set<T>, t: set<T>)
    requires s !! t
    ensures multiset(s + t) == multiset(s) + multiset(t)
  {
  }

  lemma {:induction false} ListedAllIsUnder(items: Items, id: Id, nodes: seq<Node>)
    requires WellFormed(items) && AreTreesOf(items, id, nodes)
    ensures multiset(ListedAll(nodes)) == multiset(Under(items, NodeIds(nodes)))
    decreases nodes, 0
  {
    hide Lineage, FileSum;
    if nodes == [] {
      assert Under(items, NodeIds(nodes)) == {};
    } else {
      var n := |nodes| - 1;
      var roots := NodeIds(nodes);
      assert NodeIds(nodes[..n]) == roots[..n] && roots[..n + 1] == roots;
      ListedAllIsUnder(items, id, nodes[..n]);
      ListedIsSubtree(items, nodes[n], nodes[n].id);
      NextSiblingGoes(items, id, roots, n);
      SiblingsApart(items, id, roots, n);
      DisjointUnion(Under(items, roots[..n]), Subtree(items, roots[n]));
      hide Under, Subtree, IsTreeOf, Listed, WellFormed, Siblings;
      assert ListedAll(nodes) == ListedAll(nodes[..n]) + Listed(nodes[n]);
    }
  }

  function SizesOf(nodes: seq<Node>): int {
    if nodes == [] then 0 else SizesOf(nodes[..|nodes| - 1]) + nodes[|nodes| - 1].row.size
  }

  /** Every FOLDER of the answer, at any depth, shows the sum of the sizes of its listed children. */
  ghost predicate ShowsChildrenSizes(node: Node)
    decreases node
  {
    node.Branch? ==>
      && node.row.size == SizesOf(node.children)
      && forall i :: 0 <= i < |node.children| ==> ShowsChildrenSizes(node.children[i])
  }

  lemma FolderAddsUp(items: Items, node: Node, id: Id)
    requires WellFormed(items) && SizesExact(items) && IsTreeOf(items, node, id) && node.Branch?
    ensures node.row.size == SizesOf(node.children)
  {
    hide Lineage, FileSum;
    assert AreTreesOf(items, id, node.children);
    SizesAreTrue(items, id, node.children);
    SubtreeFromChildren(items, id, NodeIds(node.children));
    assert Drift(items, id) == 0;
  }

  /** With an exact cache the answer's sizes add up at every FOLDER. */
  lemma {:induction false} FoldersShowChildrenSizes(items: Items, node: Node, id: Id)
    requires WellFormed(items) && SizesExact(items) && IsTreeOf(items, node, id)
    ensures ShowsChildrenSizes(node)
    decreases node
  {
    if node.Branch? {
      hide WellFormed, SizesExact;
      FolderAddsUp(items, node, id);
      forall i | 0 <= i < |node.children| ensures ShowsChildrenSizes(node.children[i]) {
        FoldersShowChildrenSizes(items, node.children[i], node.children[i].id);
      }
    }
  }

  lemma {:induction false} SizesAreTrue(items: Items, id: Id, nodes: seq<Node>)
    requires WellFormed(items) && SizesExact(items) && AreTreesOf(items, id, nodes)
    ensures SizesOf(nodes) == FileSum(items, Under(items, NodeIds(nodes)))
    decreases |nodes|
  {
    hide Lineage;
    if nodes == [] {
      assert Under(items, NodeIds(nodes)) == {};
    } else {
      hide FileSum;
      var n := |nodes| - 1;
      var roots := NodeIds(nodes);
      assert NodeIds(nodes[..n]) == roots[..n] && roots[..n + 1] == roots;
      SizesAreTrue(items, id, nodes[..n]);
      NextSiblingGoes(items, id, roots, n);
      if nodes[n].row.kind.File? {
        FileHasNothingBelow(items, nodes[n].id);
      } else {
        assert Drift(items, nodes[n].id) == 0;
      }
    }
  }
}
