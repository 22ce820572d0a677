/** The object table of benchmarks/gc_prototype.cpp and the mark loop that both of its collectors run on it. */
module ObjectTable {
  import opened Reachability
  import opened Sequences

  const NULL: int := -1

  /** An object of the table: the targets of its references, and where its memory is. */
  class TableNode {
    var refs: seq<TableNode>
    var ptr: int
    var marked: bool

    constructor ()
      ensures refs == [] && ptr == NULL && !marked
    {
      refs, ptr, marked := [], NULL, false;
    }
  }

  ghost function Edges(nodes: set<TableNode>): map<TableNode, seq<TableNode>>
    reads nodes`refs
  {
    map n | n in nodes :: n.refs
  }

  ghost predicate ClosedTable(nodes: set<TableNode>)
    reads nodes`refs
  {
    forall n, k :: n in nodes && 0 <= k < |n.refs| ==> n.refs[k] in nodes
  }

  // ---------------------------------------------------------------- the mark loop

  /** Every reference of a scanned node leads to a scanned node or to a node that waits in a list. */
  ghost predicate Frontier(done: set<TableNode>, edges: map<TableNode, seq<TableNode>>, waiting: set<TableNode>)
  {
    forall n, k :: n in done && n in edges && 0 <= k < |edges[n]| ==> edges[n][k] in done + waiting
  }

  /** Scan one node: its unmarked targets are queued, as often as it refers to them. */
  method ScanRefs(node: TableNode, gray: seq<TableNode>) returns (gray': seq<TableNode>)
    ensures forall x :: x in gray' ==> x in gray || (x in node.refs && !x.marked)
    ensures forall x :: x in gray ==> x in gray'
    ensures forall k :: 0 <= k < |node.refs| ==> node.refs[k].marked || node.refs[k] in gray'
  {
    gray' := gray;
    for i := 0 to |node.refs|
      invariant forall x :: x in gray' ==> x in gray || (x in node.refs && !x.marked)
      invariant forall x :: x in gray ==> x in gray'
      invariant forall k :: 0 <= k < i ==> node.refs[k].marked || node.refs[k] in gray'
    {
      var to := node.refs[i];
      if !to.marked {
        gray' := gray' + [to];
      }
    }
  }

  /** What the mark loop knows: `done` are the scanned nodes, `waiting` those in the two lists. */
  ghost predicate Marking(nodes: set<TableNode>, root: TableNode, edges: map<TableNode, seq<TableNode>>,
                          done: set<TableNode>, waiting: set<TableNode>)
    reads nodes
  {
    && done <= nodes && waiting <= nodes && edges == Edges(nodes)
    && root in done + waiting
    && (forall n :: n in nodes && n != root ==> (n.marked <==> n in done))
    && (root in done ==> root.marked)
    && Frontier(done, edges, waiting)
    && (forall n :: n in done + waiting ==> Reachable(edges, root, n))
  }

  /** Mark one node of the black list and scan it. */
  method MarkNode(ghost nodes: set<TableNode>, root: TableNode, node: TableNode, gray: seq<TableNode>,
                  ghost edges: map<TableNode, seq<TableNode>>, ghost done: set<TableNode>, ghost rest: set<TableNode>)
    returns (gray': seq<TableNode>)
    requires root in nodes && ClosedTable(nodes)
    requires Marking(nodes, root, edges, done, {node} + rest + Elements(gray)) && (root in done || node == root)
    modifies nodes`marked
    ensures Marking(nodes, root, edges, done + {node}, rest + Elements(gray'))
    ensures node in done ==> forall x :: x in gray' ==> x in gray || x !in done
  {
    node.marked := true;
    gray' := ScanRefs(node, gray);
    forall x | x in node.refs ensures Reachable(edges, root, x) && x in nodes {
      ReachStep(edges, root, node, x);
    }
    ghost var waiting := rest + Elements(gray');
    forall n, k | n in done + {node} && n in edges && 0 <= k < |edges[n]|
      ensures edges[n][k] in done + {node} + waiting
    {
      assert n == node || edges[n][k] in done + ({node} + rest + Elements(gray));
    }
  }

  /** One pass over the black list; what it finds is the next list. */
  method MarkPass(ghost nodes: set<TableNode>, root: TableNode, black: seq<TableNode>,
                  ghost edges: map<TableNode, seq<TableNode>>, ghost done: set<TableNode>)
    returns (gray: seq<TableNode>, ghost done': set<TableNode>)
    requires root in nodes && ClosedTable(nodes) && Marking(nodes, root, edges, done, Elements(black))
    requires black != [] && (root in done || root == black[0])
    modifies nodes`marked
    ensures Marking(nodes, root, edges, done', Elements(gray))
    ensures done' == done + Elements(black) && root in done'
    ensures Elements(black) <= done ==> forall x :: x in gray ==> x !in done'
  {
    hide Marking;
    gray, done' := [], done;
    assert Elements(black) == Elements(black[0..]) + Elements(gray);
    for i := 0 to |black|
      invariant Marking(nodes, root, edges, done', Elements(black[i..]) + Elements(gray))
      invariant root in done' || (i == 0 && root == black[0])
      invariant done' == done + Elements(black[..i])
      invariant Elements(black) <= done ==> forall x :: x in gray ==> x !in done'
    {
      var node := black[i];
      ghost var rest := Elements(black[i + 1..]);
      assert Elements(black[i..]) + Elements(gray) == {node} + rest + Elements(gray) by {
        assert black[i..] == [node] + black[i + 1..];
        ElementsSplit([node], black[i + 1..]);
      }
      gray := MarkNode(nodes, root, node, gray, edges, done', rest);
      assert black[..i + 1] == black[..i] + [node];
      ElementsSplit(black[..i], [node]);
      done' := done' + {node};
    }
    assert Elements(black[|black|..]) + Elements(gray) == Elements(gray);
    assert black[..|black|] == black;
  }

  /** The mark loop: it ends for any graph, cyclic or with nodes queued more than once, and marks
      exactly what the root reaches.  The root may be marked before, as its mark is never reset. */
  method Mark(ghost nodes: set<TableNode>, root: TableNode) returns (ghost live: set<TableNode>)
    requires root in nodes && ClosedTable(nodes)
    requires forall n :: n in nodes && n.marked ==> n == root
    modifies nodes`marked
    ensures live == LiveNodes(old(Edges(nodes)), root) && root in live
    ensures forall n :: n in nodes ==> (n.marked <==> n in live)
  {
    ghost var edges := Edges(nodes);
    var black := [root];
    ghost var done: set<TableNode> := {};
    RootReachable(edges, root);
    while black != []
      invariant Marking(nodes, root, edges, done, Elements(black))
      invariant root in done || (black != [] && root == black[0])
      decreases |nodes - done|, if black != [] && Elements(black) <= done then 1 else 0
    {
      ghost var was := done;
      black, done := MarkPass(nodes, root, black, edges, done);
      if done != was {
        Shrinks(nodes, was, done);
      } else if black != [] {
        assert black[0] in Elements(black) && black[0] !in done;
      }
    }
    live := done;
    ReachableSet(edges, root, live);
  }

  // ---------------------------------------------------------------- the table

  class Table {
    var objects: seq<TableNode>
    const root: TableNode

    ghost function Nodes(): set<TableNode>
      reads this
    {
      Elements(objects) + {root}
    }

    /** The targets of all references are objects of the table, or its root. */
    ghost predicate Valid()
      reads this, Nodes()`refs
    {
      root !in objects && NoDup(objects) && ClosedTable(Nodes())
    }

    ghost function Live(): set<TableNode>
      reads this, Nodes()`refs
    {
      LiveNodes(Edges(Nodes()), root)
    }

    constructor ()
      ensures Valid() && objects == [] && fresh(root) && root.refs == []
    {
      objects := [];
      var node := new TableNode();
      root := node;
    }

    method AddObjNode() returns (node: TableNode)
      requires Valid()
      modifies this
      ensures fresh(node) && node.refs == [] && node.ptr == NULL && !node.marked
      ensures objects == [node] + old(objects)
      ensures Valid()
    {
      node := new TableNode();
      objects := [node] + objects;
    }

    method AddRefNode(from: TableNode, to: TableNode)
      requires Valid() && from in Nodes() && to in Nodes()
      modifies from`refs
      ensures Valid() && from.refs == [to] + old(from.refs)
    {
      from.refs := [to] + from.refs;
    }

    /** A reference node is named by its place in the chain of its object. */
    method RemRefNode(from: TableNode, k: nat)
      requires Valid() && from in Nodes() && k < |from.refs|
      modifies from`refs
      ensures Valid() && from.refs == old(from.refs[..k] + from.refs[k + 1..])
    {
      from.refs := from.refs[..k] + from.refs[k + 1..];
    }

    method RemObjNode(node: TableNode)
      modifies this, node`refs
      ensures objects == Remove(old(objects), node) && node.refs == []
    {
      node.refs := [];
      objects := Remove(objects, node);
    }

    /** Collects the unmarked objects, and resets the marks. */
    method ResetMarks(ghost live: set<TableNode>) returns (dead: seq<TableNode>)
      requires NoDup(objects) && forall o :: o in objects ==> (o.marked <==> o in live)
      modifies objects`marked
      ensures dead == Keep(objects, Elements(objects) - live)
      ensures forall o :: o in objects ==> !o.marked
    {
      dead := [];
      for i := 0 to |objects|
        invariant dead == Keep(objects[..i], Elements(objects) - live)
        invariant forall k :: 0 <= k < i ==> !objects[k].marked
        invariant forall k :: i <= k < |objects| ==> (objects[k].marked <==> objects[k] in live)
      {
        KeepAppend(objects[..i], objects[i], Elements(objects) - live);
        assert objects[..i + 1] == objects[..i] + [objects[i]];
        if !objects[i].marked {
          dead := dead + [objects[i]];
        }
        objects[i].marked := false;
      }
      assert objects[..|objects|] == objects;
    }
  }
}
