/** What normalization guarantees: the shape of its results, their meaning, and when two are equal. */
module VisibilityNormalForms {
  import opened Bytes
  import opened VisibilityTree
  import opened VisibilityEvaluation
  import opened VisibilityNormalization

  /** No empty node and no operator without children; every parsed tree is of this kind. */
  predicate Regular(node: Node) {
    match node
    case EmptyNode => false
    case TermNode(_, _, _) => true
    case OpNode(_, _, _, _, children) => children != [] && forall i :: 0 <= i < |children| ==> Regular(children[i])
  }

  /** At least two children, strictly increasing, none of the parent's operator. */
  predicate NormalForm(node: Node) {
    match node
    case EmptyNode => false
    case TermNode(_, _, _) => true
    case OpNode(op, _, _, _, children) => |children| >= 2 && StrictlyAscending(children) && NormalParts(op, children)
  }

  predicate NormalParts(op: Operator, nodes: seq<Node>)
    decreases nodes, 0
  {
    forall i :: 0 <= i < |nodes| ==> NormalForm(nodes[i]) && !(nodes[i].OpNode? && nodes[i].op == op)
  }

  lemma {:induction false} EvaluableIsRegular(node: Node, e: Bytes)
    requires Evaluable(node, e)
    ensures Regular(node)
  {
    if node.OpNode? {
      forall i | 0 <= i < |node.children| ensures Regular(node.children[i]) {
        EvaluableIsRegular(node.children[i], e);
      }
    }
  }

  // ---- Normal forms ----

  lemma {:induction false} NormalizedIsNormalForm(node: Node)
    requires Regular(node)
    ensures NormalForm(Normalized(node))
    decreases node, 1
  {
    if node.OpNode? {
      RolledAreNormalParts(node.op, node.children);
      CompactedList(Rolled(node.op, node.children));
      var kept := Deduped(StableSorted(Rolled(node.op, node.children)));
      forall i | 0 <= i < |kept|
        ensures NormalForm(kept[i]) && !(kept[i].OpNode? && kept[i].op == node.op)
      {
        assert kept[i] in Rolled(node.op, node.children);
      }
    }
  }

  /** Everywhere in the tree the children of an operator ascend in the order of shapes. */
  ghost predicate InOrder(node: Node) {
    node.OpNode? ==>
      && (forall i, j :: 0 <= i < j < |node.children| ==> Below(ShapeOf(node.children[i]), ShapeOf(node.children[j])))
      && (forall i :: 0 <= i < |node.children| ==> InOrder(node.children[i]))
  }

  lemma {:induction false} NormalFormIsInOrder(node: Node)
    requires NormalForm(node)
    ensures InOrder(node)
  {
    if node.OpNode? {
      hide Below, ShapeOf;
      assert NormalParts(node.op, node.children);
      forall i, j | 0 <= i < j < |node.children| ensures Below(ShapeOf(node.children[i]), ShapeOf(node.children[j])) {
        PrecedesIsBelow(node.children[i], node.children[j]);
      }
      forall i | 0 <= i < |node.children| ensures InOrder(node.children[i]) { NormalFormIsInOrder(node.children[i]); }
    }
  }

  /** A normalized tree is in order throughout. */
  lemma NormalizedIsInOrder(node: Node)
    requires Regular(node)
    ensures InOrder(Normalized(node))
  {
    NormalizedIsNormalForm(node);
    NormalFormIsInOrder(Normalized(node));
  }

  /** Of two children of a normalized operator: terms come first, in the order of their bytes; operators are of
      one type, with child counts that do not decrease, and of two with as many the first child that differs
      decides. */
  lemma NormalizedChildrenAscend(node: Node, i: nat, j: nat)
    requires Regular(node) && Normalized(node).OpNode? && i < j < |Normalized(node).children|
    ensures SiblingsAscend(Normalized(node).op, Normalized(node).children[i], Normalized(node).children[j])
  {
    hide Normalized, Below, ShapeOf;
    NormalizedIsNormalForm(node);
    NormalizedIsInOrder(node);
    SiblingsOfNormalForm(Normalized(node), i, j);
  }

  ghost predicate SiblingsAscend(op: Operator, a: Node, b: Node) {
    && !a.EmptyNode? && !b.EmptyNode?
    && (b.TermNode? ==> a.TermNode? && Less(RawTerm(a), RawTerm(b)))
    && (a.OpNode? ==> b.OpNode? && a.op == b.op != op && |a.children| <= |b.children| && FewerOrFirst(a.children, b.children))
  }

  /** There are fewer nodes, or the first shape that differs is below the other's. */
  ghost predicate FewerOrFirst(a: seq<Node>, b: seq<Node>) {
    |a| < |b| || exists k :: 0 <= k < |a| == |b| && ShapesOf(a)[..k] == ShapesOf(b)[..k] && Below(ShapesOf(a)[k], ShapesOf(b)[k])
  }

  lemma SiblingsOfNormalForm(node: Node, i: nat, j: nat)
    requires NormalForm(node) && InOrder(node) && node.OpNode? && i < j < |node.children|
    ensures SiblingsAscend(node.op, node.children[i], node.children[j])
  {
    var a, b := node.children[i], node.children[j];
    assert NormalForm(a) && NormalForm(b) && Below(ShapeOf(a), ShapeOf(b));
    if a.OpNode? && b.OpNode? && a.op == b.op && |a.children| == |b.children| {
      var parts, parts' := ShapesOf(a.children), ShapesOf(b.children);
      var k :| 0 <= k < |parts| && parts[..k] == parts'[..k] && Below(parts[k], parts'[k]);
    }
  }

  lemma {:induction false} RolledAreNormalParts(op: Operator, children: seq<Node>)
    requires forall i :: 0 <= i < |children| ==> Regular(children[i])
    ensures NormalParts(op, Rolled(op, children))
    ensures children != [] ==> Rolled(op, children) != []
    decreases children, 0
  {
    if children != [] {
      var front, last := children[..|children| - 1], children[|children| - 1];
      RolledAreNormalParts(op, front);
      NormalizedIsNormalForm(last);
    }
  }

  /** Normalization leaves a normal form alone. */
  lemma {:induction false} NormalFormIsFixed(node: Node)
    requires NormalForm(node)
    ensures Normalized(node) == node
    decreases node, 1
  {
    if node.OpNode? {
      NormalPartsAreFixed(node.op, node.children);
      AscendingIsFixed(node.children);
    }
  }

  lemma {:induction false} NormalPartsAreFixed(op: Operator, nodes: seq<Node>)
    requires NormalParts(op, nodes)
    ensures Rolled(op, nodes) == nodes
    decreases nodes, 0
  {
    if nodes != [] {
      var front, last := nodes[..|nodes| - 1], nodes[|nodes| - 1];
      NormalPartsAreFixed(op, front);
      NormalFormIsFixed(last);
      assert front + [last] == nodes;
    }
  }

  lemma {:induction false} AscendingIsFixed(nodes: seq<Node>)
    requires StrictlyAscending(nodes)
    ensures StableSorted(nodes) == nodes && Deduped(nodes) == nodes
  {
    if nodes != [] {
      var front, last := nodes[..|nodes| - 1], nodes[|nodes| - 1];
      AscendingIsFixed(front);
      assert front + [last] == nodes;
      if front != [] {
        CompareNodesAntisymmetric(front[|front| - 1], last);
        assert Precedes(nodes[|nodes| - 2], nodes[|nodes| - 1]);
      }
    }
  }

  lemma NormalizationIsIdempotent(node: Node)
    requires Regular(node)
    ensures Normalized(Normalized(node)) == Normalized(node)
  {
    NormalizedIsNormalForm(node);
    NormalFormIsFixed(Normalized(node));
  }

  // ---- Meaning ----

  /** The meaning of an operator depends on which shapes its parts have, not on order or repetition. */
  lemma MeaningOfShapeSet(op: Operator, a: seq<Node>, b: seq<Node>, labels: set<Bytes>)
    requires ShapeSet(a) == ShapeSet(b)
    ensures Satisfied(OpShape(op, ShapesOf(a)), labels) <==> Satisfied(OpShape(op, ShapesOf(b)), labels)
  {
    MeaningImplied(op, a, b, labels);
    MeaningImplied(op, b, a, labels);
  }

  lemma MeaningImplied(op: Operator, a: seq<Node>, b: seq<Node>, labels: set<Bytes>)
    requires ShapeSet(a) == ShapeSet(b)
    ensures Satisfied(OpShape(op, ShapesOf(a)), labels) ==> Satisfied(OpShape(op, ShapesOf(b)), labels)
  {
    if Satisfied(OpShape(op, ShapesOf(a)), labels) {
      if op == And {
        forall i | 0 <= i < |b| ensures Satisfied(ShapesOf(b)[i], labels) {
          assert ShapeOf(b[i]) in ShapeSet(a);
          var j :| 0 <= j < |a| && ShapeOf(a[j]) == ShapeOf(b[i]);
          assert Satisfied(ShapesOf(a)[j], labels);
        }
      } else {
        var j :| 0 <= j < |a| && Satisfied(ShapesOf(a)[j], labels);
        assert ShapeOf(a[j]) in ShapeSet(b);
        var i :| 0 <= i < |b| && ShapeOf(b[i]) == ShapeOf(a[j]);
        assert Satisfied(ShapesOf(b)[i], labels);
      }
    }
  }

  /** Every set of labels decides a tree and its normal form alike. */
  lemma {:induction false} NormalizationKeepsMeaning(node: Node, labels: set<Bytes>)
    requires Regular(node)
    ensures Satisfied(ShapeOf(Normalized(node)), labels) <==> Satisfied(ShapeOf(node), labels)
    decreases node, 1
  {
    if node.OpNode? {
      var rolled := Rolled(node.op, node.children);
      RolledKeepsMeaning(node.op, node.children, labels);
      RolledAreNormalParts(node.op, node.children);
      CompactedList(rolled);
      var kept := Deduped(StableSorted(rolled));
      MeaningOfShapeSet(node.op, kept, rolled, labels);
      if |kept| == 1 {
        SatisfiedSingle(node.op, ShapeOf(kept[0]), labels);
        assert ShapesOf(kept) == [ShapeOf(kept[0])];
      }
    }
  }

  lemma {:induction false} RolledKeepsMeaning(op: Operator, children: seq<Node>, labels: set<Bytes>)
    requires forall i :: 0 <= i < |children| ==> Regular(children[i])
    ensures Satisfied(OpShape(op, ShapesOf(Rolled(op, children))), labels)
            <==> Satisfied(OpShape(op, ShapesOf(children)), labels)
    decreases children, 0
  {
    hide Satisfied, ShapeOf, ShapesOf, Normalized;
    if children != [] {
      var front, last := children[..|children| - 1], children[|children| - 1];
      RolledKeepsMeaning(op, front, labels);
      NormalizationKeepsMeaning(last, labels);
      assert front + [last] == children;
      var pieces := RollUp(op, Normalized(last));
      RollUpKeepsMeaning(op, Normalized(last), labels);
      RollUpKeepsMeaning(op, last, labels);
      ShapesConcat(Rolled(op, front), pieces);
      ShapesConcat(front, [last]);
      SatisfiedSplits(op, ShapesOf(Rolled(op, front)), ShapesOf(pieces), labels);
      SatisfiedSplits(op, ShapesOf(front), ShapesOf([last]), labels);
    }
  }

  /** Rolling a node up, or not, does not change what it contributes to its operator. */
  lemma RollUpKeepsMeaning(op: Operator, node: Node, labels: set<Bytes>)
    ensures Satisfied(OpShape(op, ShapesOf(RollUp(op, node))), labels) <==> Satisfied(ShapeOf(node), labels)
    ensures Satisfied(OpShape(op, ShapesOf([node])), labels) <==> Satisfied(ShapeOf(node), labels)
  {
    assert ShapesOf([node]) == [ShapeOf(node)];
    SatisfiedSingle(op, ShapeOf(node), labels);
  }

  // ---- Canonicity ----

  /** A tree up to the order, repetition and same-operator nesting of children: operators hold sets. */
  datatype Formula =
    | TermFormula(raw: Bytes)
    | OpFormula(op: Operator, parts: set<Formula>)
    | NoFormula

  ghost function PartsOf(op: Operator, formula: Formula): set<Formula> {
    if formula.OpFormula? && formula.op == op then formula.parts else {formula}
  }

  ghost function CollapseFormula(op: Operator, parts: set<Formula>): Formula {
    if |parts| == 1 then (var only :| only in parts; only) else OpFormula(op, parts)
  }

  ghost function FormulaOf(shape: Shape): Formula {
    match shape
    case EmptyShape => NoFormula
    case TermShape(raw) => TermFormula(raw)
    case OpShape(op, shapes) =>
      CollapseFormula(op, set i, f | 0 <= i < |shapes| && f in PartsOf(op, FormulaOf(shapes[i])) :: f)
  }

  /** The parts a list of nodes contributes to its operator. */
  ghost function PartsOfNodes(op: Operator, nodes: seq<Node>): set<Formula> {
    set s, f | s in ShapeSet(nodes) && f in PartsOf(op, FormulaOf(s)) :: f
  }

  lemma FormulaOfOperator(op: Operator, nodes: seq<Node>)
    ensures FormulaOf(OpShape(op, ShapesOf(nodes))) == CollapseFormula(op, PartsOfNodes(op, nodes))
  {
    var shapes := ShapesOf(nodes);
    var parts := set i, f | 0 <= i < |shapes| && f in PartsOf(op, FormulaOf(shapes[i])) :: f;
    assert parts == PartsOfNodes(op, nodes) by {
      forall f | f in parts ensures f in PartsOfNodes(op, nodes) {
        var i :| 0 <= i < |shapes| && f in PartsOf(op, FormulaOf(shapes[i]));
        assert shapes[i] in ShapeSet(nodes);
      }
      forall f | f in PartsOfNodes(op, nodes) ensures f in parts {
        var s :| s in ShapeSet(nodes) && f in PartsOf(op, FormulaOf(s));
        var i :| 0 <= i < |nodes| && ShapeOf(nodes[i]) == s;
        assert shapes[i] == s;
      }
    }
  }

  function Size(node: Node): nat
    decreases node, 1
  {
    if node.OpNode? then 1 + SizeOfAll(node.children) else 1
  }

  function SizeOfAll(nodes: seq<Node>): nat
    decreases nodes, 0
  {
    if nodes == [] then 0 else Size(nodes[0]) + SizeOfAll(nodes[1..])
  }

  lemma {:induction false} SizeOfMember(nodes: seq<Node>, i: nat)
    requires i < |nodes|
    ensures Size(nodes[i]) <= SizeOfAll(nodes)
    ensures i > 0 ==> Size(nodes[0]) + Size(nodes[i]) <= SizeOfAll(nodes)
  {
    if i > 0 {
      SizeOfMember(nodes[1..], i - 1);
    }
  }

  /** A normal operator's formula is an operator over its children's formulas, at least two of them. */
  lemma {:induction false} NormalFormula(node: Node)
    requires NormalForm(node) && node.OpNode?
    ensures PartsOfNodes(node.op, node.children) == FormulasOf(ShapeSet(node.children))
    ensures FormulaOf(ShapeOf(node)) == OpFormula(node.op, PartsOfNodes(node.op, node.children))
    decreases Size(node), 0
  {
    var op, children := node.op, node.children;
    forall i | 0 <= i < |children|
      ensures PartsOf(op, FormulaOf(ShapeOf(children[i]))) == {FormulaOf(ShapeOf(children[i]))}
    {
      SizeOfMember(children, i);
      if children[i].OpNode? { NormalFormula(children[i]); }
    }
    FlatParts(op, children);
    FormulaOfOperator(op, children);
    SizeOfMember(children, 1);
    assert Precedes(children[0], children[1]);
    CompareEqualIsSameShape(children[0], children[1]);
    EqualFormulasEqualShapes(children[0], children[1]);
    TwoFormulas(children);
  }

  lemma FlatParts(op: Operator, nodes: seq<Node>)
    requires forall i :: 0 <= i < |nodes| ==> PartsOf(op, FormulaOf(ShapeOf(nodes[i]))) == {FormulaOf(ShapeOf(nodes[i]))}
    ensures PartsOfNodes(op, nodes) == FormulasOf(ShapeSet(nodes))
  {
    forall s | s in ShapeSet(nodes) ensures PartsOf(op, FormulaOf(s)) == {FormulaOf(s)} {
      var i :| 0 <= i < |nodes| && ShapeOf(nodes[i]) == s;
    }
  }

  lemma TwoFormulas(nodes: seq<Node>)
    requires |nodes| >= 2 && FormulaOf(ShapeOf(nodes[0])) != FormulaOf(ShapeOf(nodes[1]))
    ensures |FormulasOf(ShapeSet(nodes))| >= 2
  {
    var f, g := FormulaOf(ShapeOf(nodes[0])), FormulaOf(ShapeOf(nodes[1]));
    assert ShapeOf(nodes[0]) in ShapeSet(nodes) && ShapeOf(nodes[1]) in ShapeSet(nodes);
    assert f in FormulasOf(ShapeSet(nodes)) && g in FormulasOf(ShapeSet(nodes));
    SubsetSize({f, g}, FormulasOf(ShapeSet(nodes)));
  }

  lemma SubsetSize<T>(a: set<T>, b: set<T>)
    requires a <= b
    ensures |a| <= |b|
  {
    assert b == a + (b - a);
  }

  /** Normal forms with the same formula have the same shape. */
  lemma {:induction false} EqualFormulasEqualShapes(a: Node, b: Node)
    requires NormalForm(a) && NormalForm(b)
    ensures FormulaOf(ShapeOf(a)) == FormulaOf(ShapeOf(b)) ==> ShapeOf(a) == ShapeOf(b)
    decreases Size(a) + Size(b), 1
  {
    if a.OpNode? { NormalFormula(a); }
    if b.OpNode? { NormalFormula(b); }
    if a.OpNode? && b.OpNode? && FormulaOf(ShapeOf(a)) == FormulaOf(ShapeOf(b)) {
      forall i, j | 0 <= i < |a.children| && 0 <= j < |b.children|
        ensures FormulaOf(ShapeOf(a.children[i])) == FormulaOf(ShapeOf(b.children[j]))
                ==> ShapeOf(a.children[i]) == ShapeOf(b.children[j])
      {
        SizeOfMember(a.children, i);
        SizeOfMember(b.children, j);
        EqualFormulasEqualShapes(a.children[i], b.children[j]);
      }
      SameParts(a.children, b.children);
      SameParts(b.children, a.children);
      AscendingShapesAreUnique(a.children, b.children);
    }
  }

  ghost function FormulasOf(shapes: set<Shape>): set<Formula> {
    set s | s in shapes :: FormulaOf(s)
  }

  lemma SameParts(a: seq<Node>, b: seq<Node>)
    requires FormulasOf(ShapeSet(a)) <= FormulasOf(ShapeSet(b))
    requires forall i, j :: 0 <= i < |a| && 0 <= j < |b| && FormulaOf(ShapeOf(a[i])) == FormulaOf(ShapeOf(b[j]))
               ==> ShapeOf(a[i]) == ShapeOf(b[j])
    ensures ShapeSet(a) <= ShapeSet(b)
  {
    forall i | 0 <= i < |a| ensures ShapeOf(a[i]) in ShapeSet(b) {
      assert ShapeOf(a[i]) in ShapeSet(a);
      assert FormulaOf(ShapeOf(a[i])) in FormulasOf(ShapeSet(a));
      var t :| t in ShapeSet(b) && FormulaOf(t) == FormulaOf(ShapeOf(a[i]));
      var j :| 0 <= j < |b| && ShapeOf(b[j]) == t;
    }
  }

  /** A set of shapes has one strictly increasing list. */
  lemma {:induction false} AscendingShapesAreUnique(a: seq<Node>, b: seq<Node>)
    requires StrictlyAscending(a) && StrictlyAscending(b) && ShapeSet(a) == ShapeSet(b)
    ensures ShapesOf(a) == ShapesOf(b)
  {
    assert a != [] ==> ShapeOf(a[0]) in ShapeSet(a);
    assert b != [] ==> ShapeOf(b[0]) in ShapeSet(b);
    if a != [] {
      HeadIsLeastShape(a, b);
      HeadIsLeastShape(b, a);
      CompareNodesAntisymmetric(a[0], b[0]);
      CompareEqualIsSameShape(a[0], b[0]);
      TailShapes(a);
      TailShapes(b);
      AscendingShapesAreUnique(a[1..], b[1..]);
    }
  }

  lemma HeadIsLeastShape(a: seq<Node>, b: seq<Node>)
    requires a != [] && b != [] && StrictlyAscending(a) && ShapeOf(b[0]) in ShapeSet(a)
    ensures NotAfter(a[0], b[0])
  {
    var i :| 0 <= i < |a| && ShapeOf(a[i]) == ShapeOf(b[0]);
    CompareEqualIsSameShape(a[i], b[0]);
    CompareEqualIsSameShape(a[0], a[0]);
    CompareNodesTransitive(a[0], a[i], b[0]);
  }

  lemma TailShapes(a: seq<Node>)
    requires a != [] && StrictlyAscending(a)
    ensures ShapeSet(a[1..]) == ShapeSet(a) - {ShapeOf(a[0])}
  {
    var tail := a[1..];
    forall i | 0 <= i < |tail| ensures ShapeOf(tail[i]) in ShapeSet(a) - {ShapeOf(a[0])} {
      assert tail[i] == a[i + 1];
      CompareEqualIsSameShape(a[0], a[i + 1]);
    }
    forall s | s in ShapeSet(a) - {ShapeOf(a[0])} ensures s in ShapeSet(tail) {
      var i :| 0 <= i < |a| && ShapeOf(a[i]) == s;
      assert tail[i - 1] == a[i];
    }
  }

  lemma ShapeSetConcat(a: seq<Node>, b: seq<Node>)
    ensures ShapeSet(a + b) == ShapeSet(a) + ShapeSet(b)
  {
    var nodes := a + b;
    forall i | 0 <= i < |a| ensures ShapeOf(a[i]) in ShapeSet(nodes) { assert nodes[i] == a[i]; }
    forall i | 0 <= i < |b| ensures ShapeOf(b[i]) in ShapeSet(nodes) { assert nodes[|a| + i] == b[i]; }
    forall i | 0 <= i < |nodes| ensures ShapeOf(nodes[i]) in ShapeSet(a) + ShapeSet(b) {
      if i < |a| { assert nodes[i] == a[i]; } else { assert nodes[i] == b[i - |a|]; }
    }
  }

  lemma PartsOfConcat(op: Operator, a: seq<Node>, b: seq<Node>)
    ensures PartsOfNodes(op, a + b) == PartsOfNodes(op, a) + PartsOfNodes(op, b)
  {
    ShapeSetConcat(a, b);
  }

  lemma PartsOfOne(op: Operator, node: Node)
    ensures PartsOfNodes(op, [node]) == PartsOf(op, FormulaOf(ShapeOf(node)))
  {
    assert [node][0] == node;
    assert ShapeSet([node]) == {ShapeOf(node)};
  }

  /** The parts of normal children are not formulas of the parent's operator. */
  lemma NormalPartsAreFlat(op: Operator, nodes: seq<Node>)
    requires NormalParts(op, nodes)
    ensures forall f :: f in PartsOfNodes(op, nodes) ==> PartsOf(op, f) == {f}
  {
    forall f | f in PartsOfNodes(op, nodes) ensures PartsOf(op, f) == {f} {
      var s :| s in ShapeSet(nodes) && f in PartsOf(op, FormulaOf(s));
      var i :| 0 <= i < |nodes| && ShapeOf(nodes[i]) == s;
      if nodes[i].OpNode? { NormalFormula(nodes[i]); }
    }
  }

  /** Normalizing keeps the formula. */
  lemma {:induction false} NormalizationKeepsFormula(node: Node)
    requires Regular(node)
    ensures FormulaOf(ShapeOf(Normalized(node))) == FormulaOf(ShapeOf(node))
    decreases node, 1
  {
    if node.OpNode? {
      var op, rolled := node.op, Rolled(node.op, node.children);
      RolledKeepsParts(op, node.children);
      RolledAreNormalParts(op, node.children);
      CompactedList(rolled);
      NormalPartsAreFlat(op, rolled);
      var kept := Deduped(StableSorted(rolled));
      assert PartsOfNodes(op, kept) == PartsOfNodes(op, node.children);
      hide PartsOfNodes, NormalForm, FormulaOf;
      FormulaOfOperator(op, node.children);
      FormulaOfOperator(op, kept);
      if |kept| == 1 {
        assert kept[0] in rolled;
        FormulaOfSingle(op, kept);
      }
    }
  }

  lemma FormulaOfSingle(op: Operator, kept: seq<Node>)
    requires |kept| == 1 && NormalForm(kept[0])
    requires forall f :: f in PartsOfNodes(op, kept) ==> PartsOf(op, f) == {f}
    requires !(kept[0].OpNode? && kept[0].op == op)
    ensures CollapseFormula(op, PartsOfNodes(op, kept)) == FormulaOf(ShapeOf(kept[0]))
  {
    assert kept == [kept[0]];
    PartsOfOne(op, kept[0]);
    if kept[0].OpNode? { NormalFormula(kept[0]); }
  }

  lemma {:induction false} RolledKeepsParts(op: Operator, children: seq<Node>)
    requires forall i :: 0 <= i < |children| ==> Regular(children[i])
    ensures PartsOfNodes(op, Rolled(op, children)) == PartsOfNodes(op, children)
    decreases children, 0
  {
    hide PartsOfNodes, FormulaOf, NormalForm, PartsOf, Normalized, RollUp, ShapeOf, Regular;
    if children != [] {
      var front, last := children[..|children| - 1], children[|children| - 1];
      RolledKeepsParts(op, front);
      NormalizationKeepsFormula(last);
      NormalizedIsNormalForm(last);
      PartsOfConcat(op, Rolled(op, front), RollUp(op, Normalized(last)));
      PartsOfConcat(op, front, [last]);
      assert front + [last] == children;
      PartsOfOne(op, last);
      PartsOfRollUp(op, Normalized(last));
    }
  }

  lemma PartsOfRollUp(op: Operator, node: Node)
    requires NormalForm(node)
    ensures PartsOfNodes(op, RollUp(op, node)) == PartsOf(op, FormulaOf(ShapeOf(node)))
  {
    PartsOfOne(op, node);
    if node.OpNode? && node.op == op { NormalFormula(node); }
  }

  /** Two trees have equal normal forms exactly when they are the same formula up to the order, the
      repetition and the same-operator nesting of children. */
  lemma NormalizationIsCanonical(a: Node, b: Node)
    requires Regular(a) && Regular(b)
    ensures CompareNodes(Normalized(a), Normalized(b)) == 0 <==> FormulaOf(ShapeOf(a)) == FormulaOf(ShapeOf(b))
  {
    NormalizedIsNormalForm(a);
    NormalizedIsNormalForm(b);
    NormalizationKeepsFormula(a);
    NormalizationKeepsFormula(b);
    CompareEqualIsSameShape(Normalized(a), Normalized(b));
    EqualFormulasEqualShapes(Normalized(a), Normalized(b));
  }

  /** Reordering or repeating children leaves the normal form unchanged. */
  lemma ReorderingKeepsNormalForm(a: Node, b: Node)
    requires Regular(a) && Regular(b) && a.OpNode? && b.OpNode? && a.op == b.op
    requires ShapeSet(a.children) == ShapeSet(b.children)
    ensures CompareNodes(Normalized(a), Normalized(b)) == 0
  {
    FormulaOfOperator(a.op, a.children);
    FormulaOfOperator(b.op, b.children);
    NormalizationIsCanonical(a, b);
  }

  lemma PartsOfGroup(group: Node)
    requires Regular(group) && group.OpNode?
    ensures PartsOfNodes(group.op, [group]) == PartsOfNodes(group.op, group.children)
  {
    var op := group.op;
    PartsOfOne(op, group);
    FormulaOfOperator(op, group.children);
    RolledKeepsParts(op, group.children);
    RolledAreNormalParts(op, group.children);
    NormalPartsAreFlat(op, Rolled(op, group.children));
    hide PartsOfNodes, FormulaOf;
    var parts := PartsOfNodes(op, group.children);
    if |parts| == 1 {
      var only :| only in parts;
      SubsetSize({only}, parts);
      assert parts == {only} by { assert |parts - {only}| == 0; }
    }
  }

  /** Grouping some children under the same operator leaves the normal form unchanged. */
  lemma NestingKeepsNormalForm(a: Node, b: Node, before: seq<Node>, group: Node, after: seq<Node>)
    requires Regular(a) && Regular(b) && a.OpNode? && b.OpNode? && group.OpNode? && a.op == b.op == group.op
    requires Regular(group) && a.children == before + [group] + after && b.children == before + group.children + after
    ensures CompareNodes(Normalized(a), Normalized(b)) == 0
  {
    hide PartsOfNodes, FormulaOf;
    var op := a.op;
    FormulaOfOperator(op, a.children);
    FormulaOfOperator(op, b.children);
    PartsOfConcat(op, before + [group], after);
    PartsOfConcat(op, before, [group]);
    PartsOfConcat(op, before + group.children, after);
    PartsOfConcat(op, before, group.children);
    PartsOfGroup(group);
    NormalizationIsCanonical(a, b);
  }
}
