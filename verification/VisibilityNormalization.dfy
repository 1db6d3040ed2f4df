/** Normalization: roll up same-operator children, sort, drop duplicates, collapse single children. */
module VisibilityNormalization {
  import opened VisibilityTree

  // ---- The algorithm ----

  /** Inserts after every node that does not sort later. */
  function Insert(nodes: seq<Node>, node: Node): seq<Node> {
    if nodes == [] then [node]
    else
      var front, last := nodes[..|nodes| - 1], nodes[|nodes| - 1];
      if Precedes(node, last) then Insert(front, node) + [last] else nodes + [node]
  }

  /** sort.SliceStable by CompareVisibilityNodes. */
  function StableSorted(nodes: seq<Node>): seq<Node> {
    if nodes == [] then [] else Insert(StableSorted(nodes[..|nodes| - 1]), nodes[|nodes| - 1])
  }

  /** Keeps the first node of every run of equal ones. */
  function Deduped(nodes: seq<Node>): (kept: seq<Node>)
    ensures nodes != [] ==> kept != []
    ensures |kept| <= |nodes|
  {
    if nodes == [] then []
    else
      var kept, last := Deduped(nodes[..|nodes| - 1]), nodes[|nodes| - 1];
      if kept != [] && CompareNodes(kept[|kept| - 1], last) == 0 then kept else kept + [last]
  }

  function Rolled(op: Operator, children: seq<Node>): seq<Node>
    decreases children, 0
  {
    if children == [] then []
    else Rolled(op, children[..|children| - 1]) + RollUp(op, Normalized(children[|children| - 1]))
  }

  function Collapse(node: Node, children: seq<Node>): Node
    requires node.OpNode?
  {
    if |children| == 1 then children[0] else OpNode(node.op, node.expression, node.start, node.end, children)
  }

  function Normalized(node: Node): Node
    decreases node, 1
  {
    match node
    case OpNode(op, _, _, _, children) => Collapse(node, Deduped(StableSorted(Rolled(op, children))))
    case _ => node
  }

  /** Compacts runs of equal nodes within the slice, as the loop over `rolled[:0]` does. */
  method CompactInPlace(nodes: array<Node>) returns (length: nat)
    modifies nodes
    ensures length <= nodes.Length && nodes[..length] == Deduped(old(nodes[..]))
  {
    hide Deduped, CompareNodes;
    length := 0;
    ghost var before := nodes[..];
    for index := 0 to nodes.Length
      invariant length <= index && (index > 0 ==> length > 0)
      invariant nodes[..length] == Deduped(before[..index])
      invariant nodes[index..] == before[index..]
    {
      DedupedSnoc(before[..index], before[index]);
      assert before[..index + 1] == before[..index] + [before[index]];
      assert nodes[index] == nodes[index..][0] == before[index];
      assert length > 0 ==> nodes[length - 1] == nodes[..length][length - 1];
      if index == 0 || CompareNodes(nodes[length - 1], nodes[index]) != 0 {
        nodes[length] := nodes[index];
        length := length + 1;
      }
      assert nodes[index + 1..] == before[index + 1..];
    }
    assert before[..nodes.Length] == before;
  }

  lemma DedupedSnoc(nodes: seq<Node>, node: Node)
    ensures nodes == [] ==> Deduped(nodes) == []
    ensures var kept := Deduped(nodes);
            Deduped(nodes + [node])
            == if kept != [] && CompareNodes(kept[|kept| - 1], node) == 0 then kept else kept + [node]
  {
    hide CompareNodes, CompareLists;
    assert (nodes + [node])[..|nodes|] == nodes;
  }

  /** normalizeVisibilityNode. */
  method Normalize(node: Node) returns (normalized: Node)
    ensures normalized == Normalized(node)
    decreases node
  {
    if !node.OpNode? { return node; }
    var rolled: seq<Node> := [];
    for index := 0 to |node.children|
      invariant rolled == Rolled(node.op, node.children[..index])
    {
      var child := Normalize(node.children[index]);
      assert node.children[..index + 1][..index] == node.children[..index];
      if child.OpNode? && child.op == node.op {
        rolled := rolled + child.children;
      } else {
        rolled := rolled + [child];
      }
    }
    assert node.children[..|node.children|] == node.children;
    var sorted := StableSorted(rolled);
    var slice := new Node[|sorted|](i requires 0 <= i < |sorted| => sorted[i]);
    assert slice[..] == sorted;
    var length := CompactInPlace(slice);
    if length == 1 {
      assert slice[0] == slice[..length][0];
      return slice[0];
    }
    return OpNode(node.op, node.expression, node.start, node.end, slice[..length]);
  }

  // ---- Sorting and compacting ----

  predicate SortedNodes(nodes: seq<Node>) {
    forall i, j :: 0 <= i < j < |nodes| ==> NotAfter(nodes[i], nodes[j])
  }

  predicate StrictlyAscending(nodes: seq<Node>) {
    forall i, j :: 0 <= i < j < |nodes| ==> Precedes(nodes[i], nodes[j])
  }

  /** The nodes of a list that compare equal to `to`, in list order. */
  function EqualNodes(nodes: seq<Node>, to': Node): seq<Node> {
    if nodes == [] then []
    else
      EqualNodes(nodes[..|nodes| - 1], to')
      + if CompareNodes(nodes[|nodes| - 1], to') == 0 then [nodes[|nodes| - 1]] else []
  }

  lemma {:induction false} InsertSorts(nodes: seq<Node>, node: Node)
    requires SortedNodes(nodes)
    ensures SortedNodes(Insert(nodes, node))
    ensures multiset(Insert(nodes, node)) == multiset(nodes) + multiset{node}
  {
    hide CompareNodes, CompareLists;
    if nodes != [] {
      var front, last := nodes[..|nodes| - 1], nodes[|nodes| - 1];
      assert nodes == front + [last];
      if Precedes(node, last) {
        InsertSorts(front, node);
        var inner := Insert(front, node);
        forall i | 0 <= i < |inner| ensures NotAfter(inner[i], last) {
          assert inner[i] in multiset(inner);
          assert inner[i] in front || inner[i] == node;
        }
      } else {
        CompareNodesAntisymmetric(node, last);
        forall i | 0 <= i < |front| ensures NotAfter(front[i], node) {
          CompareNodesTransitive(front[i], last, node);
        }
      }
    }
  }

  lemma {:induction false} InsertIsStable(nodes: seq<Node>, node: Node, p: Node)
    ensures EqualNodes(Insert(nodes, node), p) == EqualNodes(nodes + [node], p)
  {
    if nodes != [] {
      var front, last := nodes[..|nodes| - 1], nodes[|nodes| - 1];
      assert nodes == front + [last];
      if Precedes(node, last) {
        InsertIsStable(front, node, p);
        SwapKeepsEqualNodes(front, last, node, Insert(front, node), p);
      }
    }
  }

  lemma SwapKeepsEqualNodes(front: seq<Node>, last: Node, node: Node, inner: seq<Node>, p: Node)
    requires Precedes(node, last) && EqualNodes(inner, p) == EqualNodes(front + [node], p)
    ensures EqualNodes(inner + [last], p) == EqualNodes(front + [last] + [node], p)
  {
    hide EqualNodes, CompareNodes;
    EqualNodesSnoc(inner, last, p);
    EqualNodesSnoc(front + [last], node, p);
    EqualNodesSnoc(front, last, p);
    EqualNodesSnoc(front, node, p);
    CompareEqualIsSameShape(node, p);
    CompareEqualIsSameShape(last, p);
    CompareEqualIsSameShape(node, last);
  }

  lemma EqualNodesSnoc(nodes: seq<Node>, node: Node, p: Node)
    ensures EqualNodes(nodes + [node], p) == EqualNodes(nodes, p) + if CompareNodes(node, p) == 0 then [node] else []
  {
    assert (nodes + [node])[..|nodes|] == nodes;
  }

  /** The sort is a stable sort: sorted, a permutation, and equal nodes keep their order. */
  lemma {:induction false} StableSortedSorts(nodes: seq<Node>)
    ensures SortedNodes(StableSorted(nodes))
    ensures multiset(StableSorted(nodes)) == multiset(nodes)
    ensures forall p :: EqualNodes(StableSorted(nodes), p) == EqualNodes(nodes, p)
  {
    if nodes != [] {
      var front, last := nodes[..|nodes| - 1], nodes[|nodes| - 1];
      assert nodes == front + [last];
      StableSortedSorts(front);
      InsertSorts(StableSorted(front), last);
      forall p ensures EqualNodes(StableSorted(nodes), p) == EqualNodes(nodes, p) {
        InsertIsStable(StableSorted(front), last, p);
        assert (StableSorted(front) + [last])[..|StableSorted(front)|] == StableSorted(front);
      }
    }
  }

  ghost function ShapeSet(nodes: seq<Node>): set<Shape> {
    set i | 0 <= i < |nodes| :: ShapeOf(nodes[i])
  }

  /** Compacting keeps nodes of the list and ends with one equal to its last. */
  lemma {:induction false} DedupedKeeps(nodes: seq<Node>)
    ensures forall x :: x in Deduped(nodes) ==> x in nodes
    ensures nodes != [] ==> CompareNodes(Deduped(nodes)[|Deduped(nodes)| - 1], nodes[|nodes| - 1]) == 0
  {
    hide Deduped, CompareNodes;
    if nodes == [] {
      DedupedSnoc(nodes, EmptyNode);
    } else {
      var front, last := nodes[..|nodes| - 1], nodes[|nodes| - 1];
      DedupedKeeps(front);
      assert nodes == front + [last];
      DedupedSnoc(front, last);
      CompareEqualIsSameShape(last, last);
    }
  }

  lemma {:induction false} DedupedAscends(nodes: seq<Node>)
    requires SortedNodes(nodes)
    ensures StrictlyAscending(Deduped(nodes))
    ensures ShapeSet(Deduped(nodes)) == ShapeSet(nodes)
  {
    hide Deduped, CompareNodes, ShapeSet, ShapeOf;
    if nodes == [] {
      DedupedSnoc(nodes, EmptyNode);
    } else {
      var front, last := nodes[..|nodes| - 1], nodes[|nodes| - 1];
      var kept := Deduped(front);
      DedupedAscends(front);
      DedupedKeeps(front);
      assert nodes == front + [last];
      DedupedSnoc(front, last);
      ShapeSetSnoc(front, last);
      ShapeSetSnoc(kept, last);
      if kept != [] {
        var end := kept[|kept| - 1];
        CompareEqualIsSameShape(end, last);
        assert end in front;
        if CompareNodes(end, last) == 0 {
          ShapeSetHas(kept, |kept| - 1);
        } else {
          AscendingSnoc(kept, last);
        }
      }
    }
  }

  lemma ShapeSetHas(nodes: seq<Node>, i: nat)
    requires i < |nodes|
    ensures ShapeOf(nodes[i]) in ShapeSet(nodes)
  {
  }

  lemma AscendingSnoc(nodes: seq<Node>, last: Node)
    requires StrictlyAscending(nodes) && (nodes != [] ==> Precedes(nodes[|nodes| - 1], last))
    ensures StrictlyAscending(nodes + [last])
  {
    hide CompareNodes;
    forall i | 0 <= i < |nodes| ensures Precedes(nodes[i], last) {
      if i < |nodes| - 1 { CompareNodesTransitive(nodes[i], nodes[|nodes| - 1], last); }
    }
  }

  lemma ShapeSetSnoc(front: seq<Node>, last: Node)
    ensures ShapeSet(front + [last]) == ShapeSet(front) + {ShapeOf(last)}
  {
    var nodes := front + [last];
    forall x ensures x in ShapeSet(nodes) <==> x in ShapeSet(front) + {ShapeOf(last)} {
      if x in ShapeSet(front) {
        var i :| 0 <= i < |front| && ShapeOf(front[i]) == x;
        assert ShapeOf(nodes[i]) == x;
      }
      assert ShapeOf(nodes[|front|]) == ShapeOf(last);
    }
  }

  lemma PermutationKeepsShapes(a: seq<Node>, b: seq<Node>)
    requires multiset(a) == multiset(b)
    ensures ShapeSet(a) == ShapeSet(b)
  {
    assert forall x :: x in a <==> x in multiset(a);
    assert forall x :: x in b <==> x in multiset(b);
    forall i | 0 <= i < |a| ensures ShapeOf(a[i]) in ShapeSet(b) { assert a[i] in b; }
    forall i | 0 <= i < |b| ensures ShapeOf(b[i]) in ShapeSet(a) { assert b[i] in a; }
  }

  /** What sorting and compacting a rolled list leaves. */
  lemma CompactedList(rolled: seq<Node>)
    ensures var kept := Deduped(StableSorted(rolled));
            && StrictlyAscending(kept)
            && (forall x :: x in kept ==> x in rolled)
            && ShapeSet(kept) == ShapeSet(rolled)
            && (rolled != [] ==> kept != [])
  {
    StableSortedSorts(rolled);
    var sorted := StableSorted(rolled);
    DedupedAscends(sorted);
    DedupedKeeps(sorted);
    PermutationKeepsShapes(sorted, rolled);
    assert forall x :: x in sorted ==> x in multiset(sorted);
    assert forall x :: x in multiset(rolled) ==> x in rolled;
    assert |sorted| == |multiset(sorted)| == |rolled|;
  }
}
