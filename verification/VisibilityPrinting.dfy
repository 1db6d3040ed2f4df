/** Printing a normalized tree, and the round trip through the parser. */
module VisibilityPrinting {
  import opened Bytes
  import opened VisibilityTree
  import opened VisibilityGrammar
  import opened VisibilityParser
  import opened VisibilityParserTheorems
  import opened VisibilityEvaluation
  import opened VisibilityNormalization
  import opened VisibilityNormalForms

  /** Parentheses go around a child only when it is an operator of another type. */
  predicate Parenthesized(op: Operator, child: Node) {
    !child.TermNode? && !(child.OpNode? && child.op == op)
  }

  function Flattened(node: Node): Bytes
    decreases node, 2
  {
    match node
    case EmptyNode => []
    case TermNode(_, _, _) => RawTerm(node)
    case OpNode(op, _, _, _, children) => Joined(op, children)
  }

  function Piece(op: Operator, child: Node): Bytes
    decreases child, 3
  {
    if Parenthesized(op, child) then [OPEN] + Flattened(child) + [CLOSE] else Flattened(child)
  }

  function Joined(op: Operator, children: seq<Node>): Bytes
    decreases children, 0
  {
    if children == [] then []
    else if |children| == 1 then Piece(op, children[0])
    else Joined(op, children[..|children| - 1]) + [OperatorByte(op)] + Piece(op, children[|children| - 1])
  }

  lemma JoinedNothing(op: Operator)
    ensures Joined(op, []) == []
  {
  }

  lemma JoinedSteps(op: Operator, children: seq<Node>, index: nat)
    requires index < |children|
    ensures Joined(op, children[..index + 1])
            == Joined(op, children[..index]) + (if index == 0 then [] else [OperatorByte(op)]) + Piece(op, children[index])
  {
    var next := children[..index + 1];
    assert next[..index] == children[..index] && next[index] == children[index];
  }

  class Buffer {
    var bytes: Bytes

    constructor ()
      ensures bytes == []
    {
      bytes := [];
    }

    /** flattenVisibilityNode: appends the node's text. */
    method Write(node: Node)
      modifies this
      ensures bytes == old(bytes) + Flattened(node)
      decreases node
    {
      hide RawTerm, Parenthesized, Joined;
      if node.TermNode? {
        bytes := bytes + RawTerm(node);
        return;
      }
      if node.EmptyNode? { return; }
      var separator: Bytes := [];
      JoinedNothing(node.op);
      for index := 0 to |node.children|
        invariant bytes == old(bytes) + Joined(node.op, node.children[..index])
        invariant separator == if index == 0 then [] else [OperatorByte(node.op)]
      {
        var child := node.children[index];
        JoinedSteps(node.op, node.children, index);
        bytes := bytes + separator;
        if Parenthesized(node.op, child) {
          bytes := bytes + [OPEN];
          Write(child);
          bytes := bytes + [CLOSE];
        } else {
          Write(child);
        }
        separator := [OperatorByte(node.op)];
      }
      assert node.children[..|node.children|] == node.children;
    }
  }

  /** ColumnVisibility.Flatten of a parsed root. */
  method Flatten(root: Node) returns (text: Bytes)
    ensures text == Flattened(Normalized(root))
  {
    if root.EmptyNode? { return []; }
    var normalized := Normalize(root);
    var buffer := new Buffer();
    buffer.Write(normalized);
    text := buffer.bytes;
  }

  // ---- The printed text is an expression of the grammar ----

  /** Raw term text the grammar can read back. */
  predicate TermText(raw: Bytes) {
    || (raw != [] && PlainText(raw))
    || (|raw| >= 3 && raw[0] == QUOTE == raw[|raw| - 1] && QuotedText(raw[1..|raw| - 1]))
  }

  predicate Printable(node: Node) {
    match node
    case EmptyNode => false
    case TermNode(_, _, _) => TermText(RawTerm(node))
    case OpNode(_, _, _, _, children) => children != [] && forall i :: 0 <= i < |children| ==> Printable(children[i])
  }

  function SyntaxOfTerm(raw: Bytes): Syntax {
    if |raw| >= 2 && raw[0] == QUOTE then Quoted(raw[1..|raw| - 1]) else Plain(raw)
  }

  function SyntaxOf(node: Node): Syntax
    decreases node, 2
  {
    match node
    case EmptyNode => Plain([])
    case TermNode(_, _, _) => SyntaxOfTerm(RawTerm(node))
    case OpNode(op, _, _, _, children) => Chain(op, ItemsOf(children))
  }

  function ItemOf(node: Node): Syntax
    decreases node, 3
  {
    if node.OpNode? then Parens(SyntaxOf(node)) else SyntaxOf(node)
  }

  function ItemsOf(nodes: seq<Node>): (items: seq<Syntax>)
    ensures |items| == |nodes|
    decreases nodes, 0
  {
    if nodes == [] then [] else ItemsOf(nodes[..|nodes| - 1]) + [ItemOf(nodes[|nodes| - 1])]
  }

  lemma TermTextIsTerm(raw: Bytes)
    requires TermText(raw)
    ensures WellFormed(SyntaxOfTerm(raw)) && Show(SyntaxOfTerm(raw)) == raw
  {
    if raw[0] != QUOTE || |raw| < 2 {
    } else {
      assert !ValidTermByte(raw[0]);
      assert raw == [raw[0]] + raw[1..|raw| - 1] + [raw[|raw| - 1]];
    }
  }

  /** A normal form is printed as the grammar writes it. */
  lemma {:induction false} PrintedIsExpression(node: Node)
    requires NormalForm(node) && Printable(node)
    ensures WellFormed(SyntaxOf(node)) && Show(SyntaxOf(node)) == Flattened(node)
    decreases node, 2
  {
    if node.TermNode? {
      TermTextIsTerm(RawTerm(node));
    } else {
      hide Show, ShowOpen, Joined, Piece, ItemsOf, ItemOf, Printable, NormalForm, WellFormed;
      var front, last := node.children[..|node.children| - 1], node.children[|node.children| - 1];
      NormalChildren(node, front, last);
      PrintedItems(node.op, front);
      PrintedItem(node.op, last);
      PrintedChain(node, front, last);
    }
  }

  lemma NormalChildren(node: Node, front: seq<Node>, last: Node)
    requires NormalForm(node) && Printable(node) && node.OpNode? && node.children == front + [last]
    ensures front != [] && NormalParts(node.op, front) && forall i :: 0 <= i < |front| ==> Printable(front[i])
    ensures NormalForm(last) && Printable(last) && !(last.OpNode? && last.op == node.op)
  {
    assert node.children[|front|] == last;
    assert forall i :: 0 <= i < |front| ==> front[i] == node.children[i];
  }

  lemma PrintedChain(node: Node, front: seq<Node>, last: Node)
    requires node.OpNode? && node.children == front + [last] && front != []
    requires Items(ItemsOf(front)) && !ItemOf(last).Chain? && WellFormed(ItemOf(last))
    requires ShowOpen(node.op, ItemsOf(front)) == Joined(node.op, front) + [OperatorByte(node.op)]
    requires Show(ItemOf(last)) == Piece(node.op, last)
    ensures WellFormed(SyntaxOf(node)) && Show(SyntaxOf(node)) == Flattened(node)
  {
    hide Show, ShowOpen, Joined, Piece, ItemsOf, ItemOf;
    ItemsOfSnoc(front, last);
    ChainEndsWith(node.op, ItemsOf(front), ItemOf(last), [], 0, false);
    JoinedSnoc(node.op, front, last);
  }

  lemma ItemsOfSnoc(front: seq<Node>, last: Node)
    ensures ItemsOf(front + [last]) == ItemsOf(front) + [ItemOf(last)]
  {
    assert (front + [last])[..|front|] == front;
  }

  lemma JoinedSnoc(op: Operator, front: seq<Node>, last: Node)
    ensures front != [] ==> Joined(op, front + [last]) == Joined(op, front) + [OperatorByte(op)] + Piece(op, last)
    ensures Joined(op, [last]) == Piece(op, last)
  {
    assert (front + [last])[..|front|] == front;
  }

  lemma {:induction false} PrintedItem(op: Operator, node: Node)
    requires NormalForm(node) && Printable(node) && !(node.OpNode? && node.op == op)
    ensures !ItemOf(node).Chain? && WellFormed(ItemOf(node)) && Show(ItemOf(node)) == Piece(op, node)
    decreases node, 3
  {
    PrintedIsExpression(node);
  }

  lemma {:induction false} PrintedItems(op: Operator, nodes: seq<Node>)
    requires NormalParts(op, nodes) && forall i :: 0 <= i < |nodes| ==> Printable(nodes[i])
    ensures Items(ItemsOf(nodes))
    ensures ShowOpen(op, ItemsOf(nodes)) == if nodes == [] then [] else Joined(op, nodes) + [OperatorByte(op)]
    decreases nodes, 0
  {
    hide Show, ShowOpen, Joined, Piece, Flattened, WellFormed, ItemsOf, ItemOf, Printable, NormalForm, TreeOf, ItemTrees;
    if nodes != [] {
      var front, last := nodes[..|nodes| - 1], nodes[|nodes| - 1];
      assert nodes == front + [last];
      PrintedItems(op, front);
      PrintedItem(op, last);
      ItemsOfSnoc(front, last);
      ChainEndsWith(op, ItemsOf(front), ItemOf(last), [], 0, false);
      JoinedSnoc(op, front, last);
    } else {
      NothingRead(op, [], 0);
      assert ItemsOf(nodes) == [];
    }
  }

  // ---- Parsing it back gives the same tree ----

  lemma {:induction false} ReadBackShape(node: Node, e: Bytes, at: nat, nested: bool)
    requires NormalForm(node) && Printable(node)
    requires WrittenAt(Show(SyntaxOf(node)), e, at)
    ensures ShapeOf(TreeOf(SyntaxOf(node), e, at, nested)) == ShapeOf(node)
    decreases node, 2
  {
    hide Show, ShowOpen, TreeOf, ItemTrees, WrittenAt, Printable;
    if node.TermNode? {
      ReadBackTerm(node, e, at, nested);
    } else {
      var front, last := node.children[..|node.children| - 1], node.children[|node.children| - 1];
      NormalChildren(node, front, last);
      ReadBackOperator(node, front, last, e, at, nested);
    }
  }

  lemma {:induction false} ReadBackOperator(node: Node, front: seq<Node>, last: Node, e: Bytes, at: nat, nested: bool)
    requires node.OpNode? && node.children == front + [last]
    requires NormalParts(node.op, front) && forall i :: 0 <= i < |front| ==> Printable(front[i])
    requires NormalForm(last) && Printable(last) && !(last.OpNode? && last.op == node.op)
    requires WrittenAt(Show(SyntaxOf(node)), e, at)
    ensures ShapeOf(TreeOf(SyntaxOf(node), e, at, nested)) == ShapeOf(node)
    decreases node, 1
  {
    hide Show, ShowOpen, TreeOf, ItemTrees, WrittenAt, Printable, NormalForm, ItemsOf, ItemOf, ShapeOf;
    ItemsOfSnoc(front, last);
    InsideChain(node.op, ItemsOf(front), ItemOf(last), e, at);
    assert front == node.children[..|front|] && last == node.children[|front|];
    ReadBackItems(node.op, front, e, at);
    ReadBackItem(last, e, at + |ShowOpen(node.op, ItemsOf(front))|);
    ReadBackChain(node, front, last, e, at, nested);
  }

  lemma ReadBackTerm(node: Node, e: Bytes, at: nat, nested: bool)
    requires node.TermNode? && Printable(node)
    requires WrittenAt(Show(SyntaxOf(node)), e, at)
    ensures ShapeOf(TreeOf(SyntaxOf(node), e, at, nested)) == ShapeOf(node)
  {
    TermTextIsTerm(RawTerm(node));
    assert RawTerm(TreeOf(SyntaxOf(node), e, at, nested)) == RawTerm(node);
  }

  lemma ReadBackChain(node: Node, front: seq<Node>, last: Node, e: Bytes, at: nat, nested: bool)
    requires node.OpNode? && node.children == front + [last] && !(last.OpNode? && last.op == node.op)
    requires ShapesOf(ItemTrees(node.op, ItemsOf(front), e, at)) == ShapesOf(front)
    requires ShapeOf(TreeOf(ItemOf(last), e, at + |ShowOpen(node.op, ItemsOf(front))|, true)) == ShapeOf(last)
    ensures ShapeOf(TreeOf(SyntaxOf(node), e, at, nested)) == ShapeOf(node)
    ensures ShapesOf(ItemTrees(node.op, ItemsOf(front + [last]), e, at)) == ShapesOf(front + [last])
  {
    hide Show, ShowOpen, TreeOf, ItemTrees, ItemsOf, ItemOf, ShapesOf;
    ItemsOfSnoc(front, last);
    ChainEndsWith(node.op, ItemsOf(front), ItemOf(last), e, at, nested);
    var tree := TreeOf(ItemOf(last), e, at + |ShowOpen(node.op, ItemsOf(front))|, true);
    ShapesSnoc(ItemTrees(node.op, ItemsOf(front), e, at), tree);
    ShapesSnoc(front, last);
  }

  lemma ShapesSnoc(front: seq<Node>, last: Node)
    ensures ShapesOf(front + [last]) == ShapesOf(front) + [ShapeOf(last)]
  {
    ShapesConcat(front, [last]);
    assert ShapesOf([last]) == [ShapeOf(last)];
  }

  lemma {:induction false} ReadBackItem(node: Node, e: Bytes, at: nat)
    requires NormalForm(node) && Printable(node) && WrittenAt(Show(ItemOf(node)), e, at)
    ensures ShapeOf(TreeOf(ItemOf(node), e, at, true)) == ShapeOf(node)
    decreases node, 3
  {
    if node.OpNode? {
      InsideParentheses(SyntaxOf(node), e, at);
      ReadBackShape(node, e, at + 1, true);
    } else {
      ReadBackShape(node, e, at, true);
    }
  }

  lemma {:induction false} ReadBackItems(op: Operator, nodes: seq<Node>, e: Bytes, at: nat)
    requires NormalParts(op, nodes) && forall i :: 0 <= i < |nodes| ==> Printable(nodes[i])
    requires WrittenAt(ShowOpen(op, ItemsOf(nodes)), e, at)
    ensures ShapesOf(ItemTrees(op, ItemsOf(nodes), e, at)) == ShapesOf(nodes)
    decreases nodes, 0
  {
    hide Show, ShowOpen, TreeOf, ItemTrees, WrittenAt, ItemsOf, ItemOf;
    if nodes != [] {
      var front, last := nodes[..|nodes| - 1], nodes[|nodes| - 1];
      assert nodes == front + [last];
      ItemsOfSnoc(front, last);
      InsideOpen(op, ItemsOf(front), ItemOf(last), e, at);
      ReadBackItems(op, front, e, at);
      ReadBackItem(last, e, at + |ShowOpen(op, ItemsOf(front))|);
      ReadBackChain(OpNode(op, e, 0, 0, nodes), front, last, e, at, true);
    } else {
      NothingRead(op, e, at);
      assert ItemsOf(nodes) == [];
    }
  }

  // ---- Parsed trees are printable ----

  lemma {:induction false} ParsedIsPrintable(s: Syntax, e: Bytes, at: nat, nested: bool)
    requires WellFormed(s) && WrittenAt(Show(s), e, at)
    ensures Printable(TreeOf(s, e, at, nested))
    decreases s, 1
  {
    hide TreeOf, ItemTrees, Show, ShowOpen, Printable, WrittenAt;
    match s
    case Parens(inner) =>
      InsideParentheses(inner, e, at);
      ParsedIsPrintable(inner, e, at + 1, true);
      InsideIsPrintable(inner, e, at, nested);
    case Chain(op, items) =>
      var front, last := items[..|items| - 1], items[|items| - 1];
      assert s == Chain(op, front + [last]);
      InsideChain(op, front, last, e, at);
      ItemsArePrintable(op, front, e, at);
      ParsedIsPrintable(last, e, at + |ShowOpen(op, front)|, true);
      ChainIsPrintable(op, front, last, e, at, nested);
    case _ =>
      LeafIsPrintable(s, e, at, nested);
  }

  lemma InsideIsPrintable(inner: Syntax, e: Bytes, at: nat, nested: bool)
    requires Printable(TreeOf(inner, e, at + 1, true))
    ensures Printable(TreeOf(Parens(inner), e, at, nested))
  {
  }

  lemma LeafIsPrintable(s: Syntax, e: Bytes, at: nat, nested: bool)
    requires s.Plain? || s.Quoted?
    requires WellFormed(s) && WrittenAt(Show(s), e, at)
    ensures Printable(TreeOf(s, e, at, nested))
  {
    var raw := Show(s);
    assert RawTerm(TreeOf(s, e, at, nested)) == raw;
    if s.Quoted? { assert raw[1..|raw| - 1] == s.body; }
  }

  lemma {:induction false} ItemsArePrintable(op: Operator, items: seq<Syntax>, e: Bytes, at: nat)
    requires Items(items) && WrittenAt(ShowOpen(op, items), e, at)
    ensures forall i :: 0 <= i < |items| ==> Printable(ItemTrees(op, items, e, at)[i])
    decreases items, 0
  {
    hide TreeOf, ItemTrees, Show, ShowOpen, Printable, WrittenAt, WellFormed;
    if items != [] {
      var front, last := items[..|items| - 1], items[|items| - 1];
      assert items == front + [last];
      InsideOpen(op, front, last, e, at);
      ChainEndsWith(op, front, last, e, at, true);
      ItemsArePrintable(op, front, e, at);
      ParsedIsPrintable(last, e, at + |ShowOpen(op, front)|, true);
    }
  }

  lemma ChainIsPrintable(op: Operator, front: seq<Syntax>, last: Syntax, e: Bytes, at: nat, nested: bool)
    requires forall i :: 0 <= i < |front| ==> Printable(ItemTrees(op, front, e, at)[i])
    requires Printable(TreeOf(last, e, at + |ShowOpen(op, front)|, true))
    ensures Printable(TreeOf(Chain(op, front + [last]), e, at, nested))
  {
    hide TreeOf, ItemTrees, Show, ShowOpen;
    ChainEndsWith(op, front, last, e, at, nested);
  }

  lemma {:induction false} PrintableIsRegular(node: Node)
    requires Printable(node)
    ensures Regular(node)
  {
    if node.OpNode? {
      forall i | 0 <= i < |node.children| ensures Regular(node.children[i]) { PrintableIsRegular(node.children[i]); }
    }
  }

  lemma {:induction false} NormalizedIsPrintable(node: Node)
    requires Printable(node)
    ensures Printable(Normalized(node))
    decreases node, 1
  {
    if node.OpNode? {
      RolledArePrintable(node.op, node.children);
      CompactedList(Rolled(node.op, node.children));
      var kept := Deduped(StableSorted(Rolled(node.op, node.children)));
      forall i | 0 <= i < |kept| ensures Printable(kept[i]) {
        assert kept[i] in Rolled(node.op, node.children);
      }
    }
  }

  lemma {:induction false} RolledArePrintable(op: Operator, children: seq<Node>)
    requires forall i :: 0 <= i < |children| ==> Printable(children[i])
    ensures forall i :: 0 <= i < |Rolled(op, children)| ==> Printable(Rolled(op, children)[i])
    ensures children != [] ==> Rolled(op, children) != []
    decreases children, 0
  {
    if children != [] {
      RolledArePrintable(op, children[..|children| - 1]);
      NormalizedIsPrintable(children[|children| - 1]);
    }
  }

  /** Printing depends only on shape. */
  lemma {:induction false} PrintedByShape(a: Node, b: Node)
    requires ShapeOf(a) == ShapeOf(b)
    ensures Flattened(a) == Flattened(b)
    decreases a, 2
  {
    if a.OpNode? {
      assert |ShapesOf(a.children)| == |ShapesOf(b.children)|;
      forall i | 0 <= i < |a.children| ensures ShapeOf(a.children[i]) == ShapeOf(b.children[i]) {
        assert ShapesOf(a.children)[i] == ShapesOf(b.children)[i];
      }
      JoinedByShape(a.op, a.children, b.children);
    }
  }

  lemma {:induction false} JoinedByShape(op: Operator, a: seq<Node>, b: seq<Node>)
    requires |a| == |b| && forall i :: 0 <= i < |a| ==> ShapeOf(a[i]) == ShapeOf(b[i])
    ensures Joined(op, a) == Joined(op, b)
    decreases a, 0
  {
    if a != [] {
      JoinedByShape(op, a[..|a| - 1], b[..|b| - 1]);
      PrintedByShape(a[|a| - 1], b[|b| - 1]);
    }
  }

  /** A parsed tree: regular, printable and readable from its own expression. */
  lemma ParsedTree(e: Bytes)
    requires e != [] && ParseExpression(e).Ok?
    ensures Printable(ParseExpression(e).value) && Regular(ParseExpression(e).value)
    ensures Evaluable(ParseExpression(e).value, e)
  {
    var s := AcceptedIsExpression(e);
    ParsedIsPrintable(s, e, 0, false);
    PrintableIsRegular(TreeOf(s, e, 0, false));
    ParsedTreesAreEvaluable(e);
  }

  /** Printing then parsing: for every accepted expression the printed normal form parses to a tree that
      compares equal to the normal form, prints to the same bytes again, and every authorization set
      decides both expressions alike. */
  lemma PrintParseRoundTrip(e: Bytes, labels: seq<Bytes>)
    requires e != [] && ParseExpression(e).Ok? && StrictlySorted(labels)
    ensures var normal := Normalized(ParseExpression(e).value);
            var printed := Flattened(normal);
            && ParseExpression(printed).Ok?
            && CompareNodes(ParseExpression(printed).value, normal) == 0
            && Normalized(ParseExpression(printed).value) == ParseExpression(printed).value
            && Flattened(Normalized(ParseExpression(printed).value)) == printed
            && EvaluateNode(printed, ParseExpression(printed).value, labels)
               == EvaluateNode(e, ParseExpression(e).value, labels)
  {
    hide Flattened, CompareNodes, EvaluateNode, Satisfied, Normalized, ParseLoop;
    var root := ParseExpression(e).value;
    var normal := Normalized(root);
    var printed := Flattened(normal);
    ParsedTree(e);
    NormalizedIsNormalForm(root);
    NormalizedIsPrintable(root);
    PrintedIsExpression(normal);
    ParsesEveryExpression(SyntaxOf(normal));
    ReadBackShape(normal, printed, 0, false);
    var reread := ParseExpression(printed).value;
    CompareEqualIsSameShape(reread, normal);
    NormalFormByShape(reread, normal);
    NormalFormIsFixed(reread);
    PrintedByShape(reread, normal);
    ShowNonempty(SyntaxOf(normal));
    ParsedTree(printed);
    NormalizationKeepsMeaning(root, LabelSet(labels));
    EvaluationIsMeaning(e, root, labels);
    EvaluationIsMeaning(printed, reread, labels);
  }

  lemma {:induction false} NormalFormByShape(a: Node, b: Node)
    requires ShapeOf(a) == ShapeOf(b) && NormalForm(b)
    ensures NormalForm(a)
  {
    if a.OpNode? {
      assert |ShapesOf(a.children)| == |ShapesOf(b.children)|;
      forall i | 0 <= i < |a.children| ensures ShapeOf(a.children[i]) == ShapeOf(b.children[i]) {
        assert ShapesOf(a.children)[i] == ShapesOf(b.children)[i];
      }
      forall i | 0 <= i < |a.children|
        ensures NormalForm(a.children[i]) && !(a.children[i].OpNode? && a.children[i].op == a.op)
      {
        NormalFormByShape(a.children[i], b.children[i]);
      }
      forall i, j | 0 <= i < j < |a.children| ensures Precedes(a.children[i], a.children[j]) {
        PrecedesByShape(a.children[i], b.children[i], a.children[j], b.children[j]);
      }
    }
  }

  lemma PrecedesByShape(a: Node, b: Node, a': Node, b': Node)
    requires ShapeOf(a) == ShapeOf(b) && ShapeOf(a') == ShapeOf(b') && Precedes(b, b')
    ensures Precedes(a, a')
  {
    CompareEqualIsSameShape(a, b);
    CompareEqualIsSameShape(b', a');
    CompareNodesTransitive(a, b, b');
    CompareNodesTransitive(a, b', a');
  }

  /** Two terms print with the lesser bytes first, whichever way they were written. */
  lemma TwoTermsPrintInOrder(op: Operator, e: Bytes, start: nat, end: nat, a: Node, b: Node)
    requires a.TermNode? && b.TermNode? && Less(RawTerm(a), RawTerm(b))
    ensures var printed := RawTerm(a) + [OperatorByte(op)] + RawTerm(b);
            && Flattened(Normalized(OpNode(op, e, start, end, [a, b]))) == printed
            && Flattened(Normalized(OpNode(op, e, start, end, [b, a]))) == printed
  {
    hide RawTerm, Normalized, Joined, CompareNodes;
    var ordered, swapped := OpNode(op, e, start, end, [a, b]), OpNode(op, e, start, end, [b, a]);
    PrecedesInBytes(a, b);
    NormalFormIsFixed(ordered);
    JoinedNothing(op);
    JoinedSteps(op, [a, b], 0);
    JoinedSteps(op, [a, b], 1);
    assert [a, b][..0] == [] && [a, b][..1] == [a] && [a, b][..2] == [a, b];
    SameChildShapes(a, b);
    ReorderingKeepsNormalForm(ordered, swapped);
    CompareEqualIsSameShape(Normalized(ordered), Normalized(swapped));
    PrintedByShape(Normalized(ordered), Normalized(swapped));
  }

  lemma SameChildShapes(a: Node, b: Node)
    ensures ShapeSet([a, b]) == ShapeSet([b, a])
  {
    assert forall shape :: shape in ShapesOf([a, b]) <==> shape == ShapeOf(a) || shape == ShapeOf(b);
    assert forall shape :: shape in ShapesOf([b, a]) <==> shape == ShapeOf(a) || shape == ShapeOf(b);
  }

  lemma PrecedesInBytes(a: Node, b: Node)
    requires a.TermNode? && b.TermNode? && Less(RawTerm(a), RawTerm(b))
    ensures Precedes(a, b)
  {
  }
}
