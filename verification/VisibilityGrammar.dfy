/** The visibility grammar on its own: expressions, their text, their trees and what satisfies them. */
module VisibilityGrammar {
  import opened Bytes
  import opened Wrappers
  import opened VisibilityTree

  /** A term without quotes, a quoted term (escapes kept), a parenthesised expression, or two or more
      items joined by one operator. */
  datatype Syntax =
    | Plain(text: Bytes)
    | Quoted(body: Bytes)
    | Parens(inner: Syntax)
    | Chain(op: Operator, items: seq<Syntax>)

  /** ValidAuthorizationCharacter plus '.' and '/'. */
  predicate ValidTermByte(c: byte) {
    || 0x61 <= c <= 0x7A
    || 0x41 <= c <= 0x5A
    || 0x30 <= c <= 0x39
    || c == 0x5F || c == 0x2D || c == 0x3A
    || c == 0x2E || c == 0x2F
  }

  predicate PlainText(text: Bytes) {
    forall i :: 0 <= i < |text| ==> ValidTermByte(text[i])
  }

  /** What may stand between quotes: no bare quote, and a backslash only before a backslash or quote. */
  predicate QuotedText(body: Bytes) {
    if body == [] then true
    else if body[0] == QUOTE then false
    else if body[0] != BACKSLASH then QuotedText(body[1..])
    else |body| >= 2 && (body[1] == BACKSLASH || body[1] == QUOTE) && QuotedText(body[2..])
  }

  predicate WellFormed(s: Syntax) {
    match s
    case Plain(text) => text != [] && PlainText(text)
    case Quoted(body) => body != [] && QuotedText(body)
    case Parens(inner) => WellFormed(inner)
    case Chain(_, items) => |items| >= 2 && forall i :: 0 <= i < |items| ==> !items[i].Chain? && WellFormed(items[i])
  }

  predicate Items(items: seq<Syntax>) {
    forall i :: 0 <= i < |items| ==> !items[i].Chain? && WellFormed(items[i])
  }

  /** The bytes of an expression. */
  function Show(s: Syntax): (text: Bytes)
    decreases s, 1
  {
    match s
    case Plain(text) => text
    case Quoted(body) => [QUOTE] + body + [QUOTE]
    case Parens(inner) => [OPEN] + Show(inner) + [CLOSE]
    case Chain(op, items) =>
      if items == [] then [] else ShowOpen(op, items[..|items| - 1]) + Show(items[|items| - 1])
  }

  /** Items each followed by the operator. */
  function ShowOpen(op: Operator, items: seq<Syntax>): Bytes
    decreases items, 0
  {
    if items == [] then []
    else ShowOpen(op, items[..|items| - 1]) + Show(items[|items| - 1]) + [OperatorByte(op)]
  }

  /** The tree of the expression written at `at` in `e`. A parenthesised chain rolls up its last item
      when that is a chain of the same operator; nothing else is rolled up. */
  function TreeOf(s: Syntax, e: Bytes, at: nat, nested: bool): Node
    decreases s, 1
  {
    match s
    case Plain(_) => TermNode(e, at, at + |Show(s)|)
    case Quoted(_) => TermNode(e, at, at + |Show(s)|)
    case Parens(inner) => TreeOf(inner, e, at + 1, true)
    case Chain(op, items) =>
      if items == [] then EmptyNode
      else
        var front, last := items[..|items| - 1], items[|items| - 1];
        var trees := ItemTrees(op, front, e, at);
        var tree := TreeOf(last, e, at + |ShowOpen(op, front)|, true);
        OpNode(op, e, at, at + |Show(s)|, trees + LastTrees(op, tree, nested))
  }

  function LastTrees(op: Operator, last: Node, nested: bool): seq<Node> {
    if nested then RollUp(op, last) else [last]
  }

  function ItemTrees(op: Operator, items: seq<Syntax>, e: Bytes, at: nat): (trees: seq<Node>)
    ensures |trees| == |items|
    decreases items, 0
  {
    if items == [] then []
    else
      var front, last := items[..|items| - 1], items[|items| - 1];
      ItemTrees(op, front, e, at) + [TreeOf(last, e, at + |ShowOpen(op, front)|, true)]
  }

  lemma PairTree(op: Operator, a: Bytes, b: Bytes, e: Bytes, at: nat)
    ensures var tree := TreeOf(Chain(op, [Plain(a), Plain(b)]), e, at, true);
            tree.OpNode? && tree.op == op && |tree.children| == 2
  {
    hide Show, ShowOpen;
    assert [Plain(a), Plain(b)][..1] == [Plain(a)];
  }

  /** A group that ends a chain is a child by itself - unless the chain is itself in parentheses and the group's
      operator is its own, when the group's items take its place. */
  lemma LastGroupIsInlined(op: Operator, inner: Operator, first: Bytes, a: Bytes, b: Bytes, e: Bytes, at: nat)
    ensures var s := Chain(op, [Plain(first), Parens(Chain(inner, [Plain(a), Plain(b)]))]);
            && TreeOf(s, e, at, false).OpNode? && |TreeOf(s, e, at, false).children| == 2
            && TreeOf(Parens(s), e, at, false).OpNode?
            && |TreeOf(Parens(s), e, at, false).children| == if inner == op then 3 else 2
  {
    hide Show, ShowOpen;
    var group := Chain(inner, [Plain(a), Plain(b)]);
    assert [Plain(a), Plain(b)][..1] == [Plain(a)];
    var s := Chain(op, [Plain(first), Parens(group)]);
    assert s.items[..1] == [Plain(first)];
    var p := at + |ShowOpen(op, [Plain(first)])|;
    PairTree(inner, a, b, e, p + 1);
    PairTree(inner, a, b, e, p + 2);
    assert TreeOf(Parens(group), e, p, true) == TreeOf(group, e, p + 1, true);
    assert TreeOf(Parens(group), e, p + 1, true) == TreeOf(group, e, p + 2, true);
    assert at + 1 + |ShowOpen(op, [Plain(first)])| == p + 1;
  }

  /** The Boolean formula the grammar assigns. */
  ghost predicate Holds(s: Syntax, labels: set<Bytes>) {
    match s
    case Plain(text) => text in labels
    case Quoted(body) => Unescape(body).Some? && Unescape(body).value in labels
    case Parens(inner) => Holds(inner, labels)
    case Chain(And, items) => forall i :: 0 <= i < |items| ==> Holds(items[i], labels)
    case Chain(Or, items) => exists i :: 0 <= i < |items| && Holds(items[i], labels)
  }

  /** `text` is written at `at` in `e`. */
  predicate WrittenAt(text: Bytes, e: Bytes, at: nat) {
    at + |text| <= |e| && e[at..at + |text|] == text
  }

  lemma WrittenParts(a: Bytes, b: Bytes, e: Bytes, at: nat)
    ensures WrittenAt(a + b, e, at) <==> WrittenAt(a, e, at) && WrittenAt(b, e, at + |a|)
  {
    if at + |a| + |b| <= |e| {
      var whole := e[at..at + |a| + |b|];
      assert whole == e[at..at + |a|] + e[at + |a|..at + |a| + |b|];
      assert whole == a + b ==> whole[..|a|] == a && whole[|a|..] == b;
    }
  }

  lemma {:induction false} ShowNonempty(s: Syntax)
    requires WellFormed(s)
    ensures Show(s) != []
  {
    match s
    case Plain(_) =>
    case Quoted(_) =>
    case Parens(_) =>
    case Chain(_, items) => ShowNonempty(items[|items| - 1]);
  }

  /** Every quote is escaped. */
  predicate NoBareQuote(body: Bytes) {
    if body == [] then true
    else if body[0] == QUOTE then false
    else if body[0] == BACKSLASH && |body| >= 2 then NoBareQuote(body[2..])
    else NoBareQuote(body[1..])
  }

  /** What may stand between quotes is exactly what holds no bare quote and unescapes. */
  lemma {:induction false} QuotedTextUnescapes(body: Bytes)
    ensures QuotedText(body) <==> NoBareQuote(body) && Unescape(body).Some?
  {
    if body != [] && body[0] != QUOTE {
      if body[0] != BACKSLASH {
        QuotedTextUnescapes(body[1..]);
      } else if |body| >= 2 {
        QuotedTextUnescapes(body[2..]);
      }
    }
  }

  /** The bytes of the grammar, as characters. */
  lemma GrammarBytes(c: byte)
    ensures ValidTermByte(c) <==>
              var ch := (c as int) as char;
              'a' <= ch <= 'z' || 'A' <= ch <= 'Z' || '0' <= ch <= '9' || ch in "_-:./"
    ensures OperatorByte(And) as int == '&' as int && OperatorByte(Or) as int == '|' as int
    ensures OPEN as int == '(' as int && CLOSE as int == ')' as int
    ensures QUOTE as int == '"' as int && BACKSLASH as int == '\\' as int
  {
    assert forall ch :: ch in "_-:./" <==> ch == '_' || ch == '-' || ch == ':' || ch == '.' || ch == '/';
  }

  /** A label between quotes: its quotes and backslashes are escaped. */
  function Escaped(name: Bytes): Bytes {
    if name == [] then []
    else
      (if name[0] == QUOTE || name[0] == BACKSLASH then [BACKSLASH, name[0]] else [name[0]]) + Escaped(name[1..])
  }

  /** Every label can be quoted and reads back. */
  lemma {:induction false} EscapedReadsBack(name: Bytes)
    ensures QuotedText(Escaped(name)) && Unescape(Escaped(name)) == Some(name)
  {
    if name != [] {
      EscapedReadsBack(name[1..]);
      var first, rest := name[0], Escaped(name[1..]);
      if first == QUOTE || first == BACKSLASH {
        assert ([BACKSLASH, first] + rest)[2..] == rest;
      } else {
        assert ([first] + rest)[1..] == rest;
      }
      assert name == [first] + name[1..];
    }
  }

  /** What may stand between quotes is exactly the escaped form of the label it stands for. */
  lemma {:induction false} QuotedIsEscaped(body: Bytes, name: Bytes)
    requires QuotedText(body)
    ensures Unescape(body) == Some(name) <==> body == Escaped(name)
  {
    EscapedReadsBack(name);
    QuotedTextUnescapes(body);
    UnescapedIsEscaped(body);
  }

  lemma {:induction false} UnescapedIsEscaped(body: Bytes)
    requires QuotedText(body)
    ensures Unescape(body).Some? && Escaped(Unescape(body).value) == body
  {
    if body != [] {
      if body[0] != BACKSLASH {
        UnescapedIsEscaped(body[1..]);
        var rest := Unescape(body[1..]).value;
        assert ([body[0]] + rest)[1..] == rest;
        assert body == [body[0]] + body[1..];
      } else {
        UnescapedIsEscaped(body[2..]);
        var rest := Unescape(body[2..]).value;
        assert ([body[1]] + rest)[1..] == rest;
        assert body == [body[0], body[1]] + body[2..];
      }
    }
  }
}
