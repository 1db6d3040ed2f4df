/** Deciding a parsed tree against a sorted slice of labels, and what that decision means. */
module VisibilityEvaluation {
  import opened Bytes
  import opened Wrappers
  import opened Auths
  import opened VisibilityTree
  import opened VisibilityGrammar
  import opened VisibilityParser
  import opened VisibilityParserTheorems

  datatype EvalError = SpanOutside | BadEscape | TooFewChildren | NoSuchType

  /** The label of a term node, read out of the expression the caller hands in. */
  function TermLabel(node: Node, expression: Bytes): Result<Bytes, EvalError>
    requires node.TermNode?
  {
    if node.end > |expression| || node.end < node.start then Err(SpanOutside)
    else
      match LabelOf(expression[node.start..node.end])
      case None => Err(BadEscape)
      case Some(term) => Ok(term)
  }

  /** evaluateVisibilityNode: children in order, stopping at the first error or deciding child. */
  function EvaluateNode(expression: Bytes, root: Node, labels: seq<Bytes>): Result<bool, EvalError>
    decreases root, 1
  {
    match root
    case EmptyNode => Err(NoSuchType)
    case TermNode(_, _, _) => (
      match TermLabel(root, expression)
      case Err(error) => Err(error)
      case Ok(term) => Ok(Contains(labels, term)))
    case OpNode(op, _, _, _, children) =>
      if |children| < 2 then Err(TooFewChildren)
      else EvaluateChildren(expression, op, children, labels)
  }

  function EvaluateChildren(expression: Bytes, op: Operator, children: seq<Node>, labels: seq<Bytes>)
    : Result<bool, EvalError>
    decreases children, 0
  {
    if children == [] then Ok(op == And)
    else
      match EvaluateNode(expression, children[0], labels)
      case Err(error) => Err(error)
      case Ok(satisfied) =>
        if satisfied == (op == Or) then Ok(satisfied)
        else EvaluateChildren(expression, op, children[1..], labels)
  }

  /** The Boolean meaning of a tree, independent of positions and of evaluation order. */
  ghost predicate Satisfied(shape: Shape, labels: set<Bytes>) {
    match shape
    case EmptyShape => true
    case TermShape(raw) => LabelOf(raw).Some? && LabelOf(raw).value in labels
    case OpShape(And, parts) => forall i :: 0 <= i < |parts| ==> Satisfied(parts[i], labels)
    case OpShape(Or, parts) => exists i :: 0 <= i < |parts| && Satisfied(parts[i], labels)
  }

  /** A tree that reads its terms out of `e`, with readable terms and at least two children per operator. */
  predicate Evaluable(node: Node, e: Bytes) {
    match node
    case EmptyNode => false
    case TermNode(expression, start, end) =>
      expression == e && start <= end <= |e| && LabelOf(e[start..end]).Some?
    case OpNode(_, expression, _, _, children) =>
      expression == e && |children| >= 2 && forall i :: 0 <= i < |children| ==> Evaluable(children[i], e)
  }

  function LabelSet(labels: seq<Bytes>): set<Bytes> {
    set x | x in labels
  }

  /** Evaluation of such a tree never errs and decides its Boolean meaning. */
  lemma {:induction false} EvaluationIsMeaning(e: Bytes, node: Node, labels: seq<Bytes>)
    requires Evaluable(node, e) && StrictlySorted(labels)
    ensures EvaluateNode(e, node, labels) == Ok(Satisfied(ShapeOf(node), LabelSet(labels)))
    decreases node, 1
  {
    match node
    case TermNode(_, _, _) =>
      ContainsIsMembership(labels, TermLabel(node, e).value);
    case OpNode(op, _, _, _, children) =>
      EvaluationOfChildren(e, op, children, labels);
  }

  lemma {:induction false} EvaluationOfChildren(e: Bytes, op: Operator, children: seq<Node>, labels: seq<Bytes>)
    requires forall i :: 0 <= i < |children| ==> Evaluable(children[i], e)
    requires StrictlySorted(labels)
    ensures EvaluateChildren(e, op, children, labels)
            == Ok(Satisfied(OpShape(op, ShapesOf(children)), LabelSet(labels)))
    decreases children, 0
  {
    if children != [] {
      EvaluationIsMeaning(e, children[0], labels);
      EvaluationOfChildren(e, op, children[1..], labels);
      SatisfiedSplits(op, [ShapeOf(children[0])], ShapesOf(children[1..]), LabelSet(labels));
      SatisfiedSingle(op, ShapeOf(children[0]), LabelSet(labels));
      assert ShapesOf(children) == [ShapeOf(children[0])] + ShapesOf(children[1..]);
    }
  }

  /** The meaning of an operator over two lists of parts. */
  lemma SatisfiedSplits(op: Operator, a: seq<Shape>, b: seq<Shape>, labels: set<Bytes>)
    ensures Satisfied(OpShape(op, a + b), labels)
            <==> if op == And then Satisfied(OpShape(op, a), labels) && Satisfied(OpShape(op, b), labels)
                 else Satisfied(OpShape(op, a), labels) || Satisfied(OpShape(op, b), labels)
  {
    var ab := a + b;
    forall i | 0 <= i < |a| ensures ab[i] == a[i] {}
    forall i | 0 <= i < |b| ensures ab[|a| + i] == b[i] {}
    assert forall i :: |a| <= i < |ab| ==> ab[i] == b[i - |a|];
    if op == Or {
      if exists i :: 0 <= i < |a| && Satisfied(a[i], labels) {
        var i :| 0 <= i < |a| && Satisfied(a[i], labels);
        assert Satisfied(ab[i], labels);
      }
      if exists i :: 0 <= i < |b| && Satisfied(b[i], labels) {
        var i :| 0 <= i < |b| && Satisfied(b[i], labels);
        assert Satisfied(ab[|a| + i], labels);
      }
    } else if Satisfied(OpShape(op, ab), labels) {
      forall i | 0 <= i < |a| ensures Satisfied(a[i], labels) { assert Satisfied(ab[i], labels); }
      forall i | 0 <= i < |b| ensures Satisfied(b[i], labels) { assert Satisfied(ab[|a| + i], labels); }
    }
  }

  lemma SatisfiedSingle(op: Operator, part: Shape, labels: set<Bytes>)
    ensures Satisfied(OpShape(op, [part]), labels) <==> Satisfied(part, labels)
  {
    var parts := [part];
    assert parts[0] == part;
    assert Satisfied(part, labels) ==> Satisfied(parts[0], labels);
  }

  lemma ShapesConcat(a: seq<Node>, b: seq<Node>)
    ensures ShapesOf(a + b) == ShapesOf(a) + ShapesOf(b)
  {
  }

  // ---- The parsed tree means what the grammar says ----

  lemma PlainIsNotQuoted(text: Bytes)
    requires PlainText(text)
    ensures LabelOf(text) == Some(text)
  {
    assert |text| > 0 ==> ValidTermByte(text[0]);
  }

  lemma QuotedLabel(body: Bytes)
    requires QuotedText(body)
    ensures LabelOf([QUOTE] + body + [QUOTE]) == Unescape(body) && Unescape(body).Some?
  {
    QuotedTextUnescapes(body);
    var raw := [QUOTE] + body + [QUOTE];
    assert raw[1..|raw| - 1] == body;
  }

  /** `tree` evaluates to what `s` says. */
  ghost predicate Means(tree: Node, s: Syntax, e: Bytes, labels: set<Bytes>) {
    Evaluable(tree, e) && (Satisfied(ShapeOf(tree), labels) <==> Holds(s, labels))
  }

  lemma {:induction false} TreeMeansFormula(s: Syntax, e: Bytes, at: nat, nested: bool, labels: set<Bytes>)
    requires WellFormed(s) && WrittenAt(Show(s), e, at)
    ensures Means(TreeOf(s, e, at, nested), s, e, labels)
    decreases s, 1
  {
    hide TreeOf, ItemTrees, Show, ShowOpen, Means, WrittenAt;
    match s
    case Parens(inner) =>
      InsideParentheses(inner, e, at);
      TreeMeansFormula(inner, e, at + 1, true, labels);
      ParenthesesMeanInside(inner, e, at, nested, labels);
    case Chain(op, items) =>
      var front, last := items[..|items| - 1], items[|items| - 1];
      assert s == Chain(op, front + [last]);
      InsideChain(op, front, last, e, at);
      ItemsMeanFormulas(op, front, e, at, labels);
      TreeMeansFormula(last, e, at + |ShowOpen(op, front)|, true, labels);
      ChainMeansFormula(op, front, last, e, at, nested, labels);
    case _ =>
      LeafMeansFormula(s, e, at, nested, labels);
  }

  lemma ParenthesesMeanInside(inner: Syntax, e: Bytes, at: nat, nested: bool, labels: set<Bytes>)
    requires Means(TreeOf(inner, e, at + 1, true), inner, e, labels)
    ensures Means(TreeOf(Parens(inner), e, at, nested), Parens(inner), e, labels)
  {
  }

  lemma LeafMeansFormula(s: Syntax, e: Bytes, at: nat, nested: bool, labels: set<Bytes>)
    requires s.Plain? || s.Quoted?
    requires WellFormed(s) && WrittenAt(Show(s), e, at)
    ensures Means(TreeOf(s, e, at, nested), s, e, labels)
  {
    if s.Plain? {
      PlainIsNotQuoted(s.text);
    } else {
      QuotedLabel(s.body);
    }
    var tree := TreeOf(s, e, at, nested);
    assert RawTerm(tree) == Show(s);
    assert ShapeOf(tree) == TermShape(Show(s));
  }

  lemma InsideParentheses(inner: Syntax, e: Bytes, at: nat)
    requires WrittenAt(Show(Parens(inner)), e, at)
    ensures WrittenAt(Show(inner), e, at + 1)
  {
    assert Show(Parens(inner)) == [OPEN] + (Show(inner) + [CLOSE]);
    WrittenParts([OPEN], Show(inner) + [CLOSE], e, at);
    WrittenParts(Show(inner), [CLOSE], e, at + 1);
  }

  lemma InsideChain(op: Operator, front: seq<Syntax>, last: Syntax, e: Bytes, at: nat)
    requires WrittenAt(Show(Chain(op, front + [last])), e, at)
    ensures WrittenAt(ShowOpen(op, front), e, at) && WrittenAt(Show(last), e, at + |ShowOpen(op, front)|)
  {
    ChainEndsWith(op, front, last, e, at, true);
    WrittenParts(ShowOpen(op, front), Show(last), e, at);
  }

  lemma {:induction false} ItemsMeanFormulas(op: Operator, items: seq<Syntax>, e: Bytes, at: nat, labels: set<Bytes>)
    requires Items(items) && WrittenAt(ShowOpen(op, items), e, at)
    ensures forall i :: 0 <= i < |items| ==> Means(ItemTrees(op, items, e, at)[i], items[i], e, labels)
    decreases items, 0
  {
    hide TreeOf, ItemTrees, Show, ShowOpen, Means, WrittenAt, WellFormed;
    if items != [] {
      var front, last := items[..|items| - 1], items[|items| - 1];
      assert items == front + [last];
      InsideOpen(op, front, last, e, at);
      ChainEndsWith(op, front, last, e, at, true);
      ItemsMeanFormulas(op, front, e, at, labels);
      TreeMeansFormula(last, e, at + |ShowOpen(op, front)|, true, labels);
    }
  }

  lemma InsideOpen(op: Operator, front: seq<Syntax>, last: Syntax, e: Bytes, at: nat)
    requires WrittenAt(ShowOpen(op, front + [last]), e, at)
    ensures WrittenAt(ShowOpen(op, front), e, at) && WrittenAt(Show(last), e, at + |ShowOpen(op, front)|)
  {
    hide *;
    ChainEndsWith(op, front, last, e, at, true);
    WrittenParts(ShowOpen(op, front) + Show(last), [OperatorByte(op)], e, at);
    WrittenParts(ShowOpen(op, front), Show(last), e, at);
  }

  lemma ChainMeansFormula(
    op: Operator, front: seq<Syntax>, last: Syntax, e: Bytes, at: nat, nested: bool, labels: set<Bytes>)
    requires front != []
    requires forall i :: 0 <= i < |front| ==> Means(ItemTrees(op, front, e, at)[i], front[i], e, labels)
    requires Means(TreeOf(last, e, at + |ShowOpen(op, front)|, true), last, e, labels)
    ensures Means(TreeOf(Chain(op, front + [last]), e, at, nested), Chain(op, front + [last]), e, labels)
  {
    hide TreeOf, ItemTrees, Show, ShowOpen, Holds, Satisfied;
    ChainEndsWith(op, front, last, e, at, nested);
    var trees, tree := ItemTrees(op, front, e, at), TreeOf(last, e, at + |ShowOpen(op, front)|, true);
    var lasts := LastTrees(op, tree, nested);
    ShapesConcat(trees, lasts);
    SatisfiedSplits(op, ShapesOf(trees), ShapesOf(lasts), labels);
    SatisfiedSingle(op, ShapeOf(tree), labels);
    assert ShapesOf([tree]) == [ShapeOf(tree)];
    assert Satisfied(OpShape(op, ShapesOf(lasts)), labels) <==> Satisfied(ShapeOf(tree), labels);
    HoldsSplits(op, front, last, labels);
    FormulasAgree(op, trees, front, labels);
  }

  lemma HoldsSplits(op: Operator, front: seq<Syntax>, last: Syntax, labels: set<Bytes>)
    ensures Holds(Chain(op, front + [last]), labels)
            <==> if op == And then Holds(Chain(op, front), labels) && Holds(last, labels)
                 else Holds(Chain(op, front), labels) || Holds(last, labels)
  {
    var items := front + [last];
    assert items[|front|] == last;
    assert forall i :: 0 <= i < |front| ==> items[i] == front[i];
    if op == Or && Holds(Chain(op, front), labels) {
      var i :| 0 <= i < |front| && Holds(front[i], labels);
      assert Holds(items[i], labels);
    }
    if op == And && Holds(Chain(op, items), labels) {
      forall i | 0 <= i < |front| ensures Holds(front[i], labels) { assert Holds(items[i], labels); }
      assert Holds(items[|front|], labels);
    }
  }

  lemma FormulasAgree(op: Operator, trees: seq<Node>, items: seq<Syntax>, labels: set<Bytes>)
    requires |trees| == |items|
    requires forall i :: 0 <= i < |items| ==> (Satisfied(ShapeOf(trees[i]), labels) <==> Holds(items[i], labels))
    ensures Satisfied(OpShape(op, ShapesOf(trees)), labels) <==> Holds(Chain(op, items), labels)
  {
    if op == Or {
      if Satisfied(OpShape(op, ShapesOf(trees)), labels) {
        var i :| 0 <= i < |trees| && Satisfied(ShapesOf(trees)[i], labels);
        assert Holds(items[i], labels);
      }
      if Holds(Chain(op, items), labels) {
        var i :| 0 <= i < |items| && Holds(items[i], labels);
        assert Satisfied(ShapesOf(trees)[i], labels);
      }
    } else if Satisfied(OpShape(op, ShapesOf(trees)), labels) {
      forall i | 0 <= i < |items| ensures Holds(items[i], labels) { assert Satisfied(ShapesOf(trees)[i], labels); }
    }
  }

  /** Every accepted expression evaluates without error, to the formula the grammar assigns it. */
  lemma ParsedExpressionsDecide(e: Bytes, s: Syntax, labels: seq<Bytes>)
    requires WellFormed(s) && Show(s) == e && StrictlySorted(labels)
    ensures ParseExpression(e).Ok?
    ensures EvaluateNode(e, ParseExpression(e).value, labels) == Ok(Holds(s, LabelSet(labels)))
  {
    ParsesEveryExpression(s);
    TreeMeansFormula(s, e, 0, false, LabelSet(labels));
    EvaluationIsMeaning(e, ParseExpression(e).value, labels);
  }

  /** A parsed tree can always be evaluated against its own expression. */
  lemma ParsedTreesAreEvaluable(e: Bytes)
    requires e != [] && ParseExpression(e).Ok?
    ensures Evaluable(ParseExpression(e).value, e)
  {
    var s := AcceptedIsExpression(e);
    TreeMeansFormula(s, e, 0, false, {});
  }
}
