/** Parsed visibility trees: nodes, the term a node spans, and the order normalization sorts by. */
module VisibilityTree {
  import opened Bytes
  import opened Wrappers

  const QUOTE: byte := 0x22
  const AMPERSAND: byte := 0x26
  const OPEN: byte := 0x28
  const CLOSE: byte := 0x29
  const BACKSLASH: byte := 0x5C
  const BAR: byte := 0x7C

  datatype Operator = Or | And

  function OperatorByte(op: Operator): byte {
    if op == And then AMPERSAND else BAR
  }

  /** A tree node. A term spans `expression[start..end]`; the empty node is Go's zero value, the only
      one without an expression. */
  datatype Node =
    | EmptyNode
    | TermNode(expression: Bytes, start: nat, end: nat)
    | OpNode(op: Operator, expression: Bytes, start: nat, end: nat, children: seq<Node>)

  /** The numeric value of the node's type, in declaration order. */
  function TypeOf(node: Node): int {
    match node
    case EmptyNode => 0
    case TermNode(_, _, _) => 1
    case OpNode(op, _, _, _, _) => if op == Or then 2 else 3
  }

  /** The raw span of a term, quotes and escapes included. */
  function RawTerm(node: Node): Bytes
    requires node.TermNode?
  {
    if node.end > |node.expression| || node.end < node.start then []
    else node.expression[node.start..node.end]
  }

  /** A node's children when it has the given operator, the node itself otherwise. */
  function RollUp(op: Operator, node: Node): seq<Node> {
    if node.OpNode? && node.op == op then node.children else [node]
  }

  /** Resolves the escapes between two quotes; only \\ and \" are escapes. */
  function Unescape(quoted: Bytes): Option<Bytes> {
    if quoted == [] then Some([])
    else if quoted[0] != BACKSLASH then
      match Unescape(quoted[1..])
      case None => None
      case Some(rest) => Some([quoted[0]] + rest)
    else if |quoted| == 1 || (quoted[1] != BACKSLASH && quoted[1] != QUOTE) then None
    else
      match Unescape(quoted[2..])
      case None => None
      case Some(rest) => Some([quoted[1]] + rest)
  }

  /** The label a raw span stands for: itself, or what is between its quotes with escapes resolved. */
  function LabelOf(raw: Bytes): Option<Bytes> {
    if |raw| >= 2 && raw[0] == QUOTE && raw[|raw| - 1] == QUOTE then Unescape(raw[1..|raw| - 1])
    else Some(raw)
  }

  /** What a tree looks like once positions are forgotten. */
  datatype Shape =
    | EmptyShape
    | TermShape(raw: Bytes)
    | OpShape(op: Operator, parts: seq<Shape>)

  function ShapeOf(node: Node): Shape
    decreases node, 1
  {
    match node
    case EmptyNode => EmptyShape
    case TermNode(_, _, _) => TermShape(RawTerm(node))
    case OpNode(op, _, _, _, children) => OpShape(op, ShapesOf(children))
  }

  function ShapesOf(nodes: seq<Node>): (shapes: seq<Shape>)
    ensures |shapes| == |nodes|
    ensures forall i :: 0 <= i < |nodes| ==> shapes[i] == ShapeOf(nodes[i])
    decreases nodes, 0
  {
    if nodes == [] then [] else [ShapeOf(nodes[0])] + ShapesOf(nodes[1..])
  }

  /** CompareVisibilityNodes: by type, then term bytes, then child count, then children in order. */
  function CompareNodes(left: Node, right: Node): int
    decreases left, 1
  {
    var diff := TypeOf(left) - TypeOf(right);
    if diff != 0 then diff
    else
      match left
      case EmptyNode => 0
      case TermNode(_, _, _) => Compare(RawTerm(left), RawTerm(right))
      case OpNode(_, _, _, _, children) =>
        if |children| != |right.children| then |children| - |right.children|
        else CompareLists(children, right.children)
  }

  function CompareLists(left: seq<Node>, right: seq<Node>): int
    requires |left| == |right|
    decreases left, 0
  {
    if left == [] then 0
    else
      var diff := CompareNodes(left[0], right[0]);
      if diff != 0 then diff else CompareLists(left[1..], right[1..])
  }

  /** Comparing equal is having the same shape. */
  lemma {:induction false} CompareEqualIsSameShape(left: Node, right: Node)
    ensures CompareNodes(left, right) == 0 <==> ShapeOf(left) == ShapeOf(right)
    decreases left, 1
  {
    if left.OpNode? && right.OpNode? && |left.children| == |right.children| {
      CompareListsEqualIsSameShape(left.children, right.children);
    } else if left.OpNode? && right.OpNode? {
      assert |ShapesOf(left.children)| != |ShapesOf(right.children)|;
    }
  }

  lemma {:induction false} CompareListsEqualIsSameShape(left: seq<Node>, right: seq<Node>)
    requires |left| == |right|
    ensures CompareLists(left, right) == 0 <==> ShapesOf(left) == ShapesOf(right)
    decreases left, 0
  {
    if left != [] {
      CompareEqualIsSameShape(left[0], right[0]);
      CompareListsEqualIsSameShape(left[1..], right[1..]);
      assert ShapesOf(left) == [ShapeOf(left[0])] + ShapesOf(left[1..]);
      assert ShapesOf(right) == [ShapeOf(right[0])] + ShapesOf(right[1..]);
      assert ShapesOf(left)[1..] == ShapesOf(left[1..]) && ShapesOf(right)[1..] == ShapesOf(right[1..]);
    }
  }

  function Sign(n: int): int {
    if n < 0 then -1 else if n == 0 then 0 else 1
  }

  /** Swapping the arguments flips the sign. */
  lemma {:induction false} CompareNodesAntisymmetric(left: Node, right: Node)
    ensures Sign(CompareNodes(left, right)) == -Sign(CompareNodes(right, left))
    decreases left, 1
  {
    if left.TermNode? && right.TermNode? {
      CompareAntisymmetric(RawTerm(left), RawTerm(right));
    } else if left.OpNode? && right.OpNode? && |left.children| == |right.children| {
      CompareListsAntisymmetric(left.children, right.children);
    }
  }

  lemma {:induction false} CompareListsAntisymmetric(left: seq<Node>, right: seq<Node>)
    requires |left| == |right|
    ensures Sign(CompareLists(left, right)) == -Sign(CompareLists(right, left))
    decreases left, 0
  {
    if left != [] {
      CompareNodesAntisymmetric(left[0], right[0]);
      CompareListsAntisymmetric(left[1..], right[1..]);
    }
  }

  /** The order of normal forms, stated of shapes: nothing before terms, terms before OR, OR before AND; terms by
      their bytes; operators of one type by how many parts they have, then by the first part that differs. */
  ghost predicate Below(a: Shape, b: Shape) {
    match a
    case EmptyShape => !b.EmptyShape?
    case TermShape(raw) => b.OpShape? || (b.TermShape? && Less(raw, b.raw))
    case OpShape(op, parts) =>
      b.OpShape? &&
      if op != b.op then op == Or
      else if |parts| != |b.parts| then |parts| < |b.parts|
      else exists i :: 0 <= i < |parts| && parts[..i] == b.parts[..i] && Below(parts[i], b.parts[i])
  }

  /** The comparison is negative exactly for a shape below another. */
  lemma {:induction false} PrecedesIsBelow(left: Node, right: Node)
    ensures Precedes(left, right) <==> Below(ShapeOf(left), ShapeOf(right))
    decreases left, 1
  {
    if left.OpNode? && right.OpNode? && left.op == right.op {
      if |left.children| == |right.children| { FirstPartIsBelow(left.children, right.children); }
    }
  }

  ghost predicate FirstBelow(a: seq<Shape>, b: seq<Shape>) {
    |a| == |b| && exists i :: 0 <= i < |a| && a[..i] == b[..i] && Below(a[i], b[i])
  }

  lemma {:induction false} FirstPartIsBelow(left: seq<Node>, right: seq<Node>)
    requires |left| == |right|
    ensures CompareLists(left, right) < 0 <==> FirstBelow(ShapesOf(left), ShapesOf(right))
    decreases left, 0
  {
    if left != [] {
      PrecedesIsBelow(left[0], right[0]);
      CompareEqualIsSameShape(left[0], right[0]);
      FirstPartIsBelow(left[1..], right[1..]);
      FirstBelowSteps(ShapesOf(left), ShapesOf(right));
      assert ShapesOf(left)[1..] == ShapesOf(left[1..]) && ShapesOf(right)[1..] == ShapesOf(right[1..]);
      NotBelowItself(ShapeOf(left[0]));
    }
  }

  lemma {:induction false} NotBelowItself(a: Shape)
    ensures !Below(a, a)
  {
    match a
    case EmptyShape =>
    case TermShape(raw) => CompareAntisymmetric(raw, raw);
    case OpShape(_, parts) =>
      forall i | 0 <= i < |parts| ensures !Below(parts[i], parts[i]) { NotBelowItself(parts[i]); }
  }

  lemma FirstBelowSteps(a: seq<Shape>, b: seq<Shape>)
    requires |a| == |b| && a != []
    ensures FirstBelow(a, b) <==> Below(a[0], b[0]) || (a[0] == b[0] && FirstBelow(a[1..], b[1..]))
  {
    if i :| 0 <= i < |a| && a[..i] == b[..i] && Below(a[i], b[i]) {
      if i > 0 {
        assert a[0] == a[..i][0] == b[..i][0] == b[0];
        assert a[1..][..i - 1] == a[..i][1..] == b[..i][1..] == b[1..][..i - 1];
        assert Below(a[1..][i - 1], b[1..][i - 1]);
      }
    }
    if Below(a[0], b[0]) { assert a[..0] == b[..0]; }
    if a[0] == b[0] && FirstBelow(a[1..], b[1..]) {
      var j :| 0 <= j < |a[1..]| && a[1..][..j] == b[1..][..j] && Below(a[1..][j], b[1..][j]);
      assert a[..j + 1] == [a[0]] + a[1..][..j] && b[..j + 1] == [b[0]] + b[1..][..j];
    }
  }

  predicate Precedes(left: Node, right: Node) {
    CompareNodes(left, right) < 0
  }

  predicate NotAfter(left: Node, right: Node) {
    CompareNodes(left, right) <= 0
  }

  /** The order of nodes is transitive, strictly when either step is strict. */
  lemma {:induction false} CompareNodesTransitive(a: Node, b: Node, c: Node)
    requires NotAfter(a, b) && NotAfter(b, c)
    ensures NotAfter(a, c)
    ensures Precedes(a, b) || Precedes(b, c) ==> Precedes(a, c)
    decreases a, 1
  {
    if a.TermNode? && b.TermNode? && c.TermNode? {
      CompareTransitive(RawTerm(a), RawTerm(b), RawTerm(c));
    } else if a.OpNode? && b.OpNode? && c.OpNode? && TypeOf(a) == TypeOf(b) == TypeOf(c) {
      if |a.children| == |b.children| == |c.children| {
        CompareListsTransitive(a.children, b.children, c.children);
      }
    }
  }

  lemma {:induction false} CompareListsTransitive(a: seq<Node>, b: seq<Node>, c: seq<Node>)
    requires |a| == |b| == |c|
    requires CompareLists(a, b) <= 0 && CompareLists(b, c) <= 0
    ensures CompareLists(a, c) <= 0
    ensures CompareLists(a, b) < 0 || CompareLists(b, c) < 0 ==> CompareLists(a, c) < 0
    decreases a, 0
  {
    if a != [] {
      CompareNodesTransitive(a[0], b[0], c[0]);
      if CompareNodes(a[0], b[0]) == 0 && CompareNodes(b[0], c[0]) == 0 {
        CompareEqualIsSameShape(a[0], b[0]);
        CompareEqualIsSameShape(b[0], c[0]);
        CompareEqualIsSameShape(a[0], c[0]);
        CompareListsTransitive(a[1..], b[1..], c[1..]);
      }
    }
  }
}
