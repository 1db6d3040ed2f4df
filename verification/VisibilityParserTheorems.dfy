/** The parser accepts exactly the grammar and builds the grammar's tree. */
module VisibilityParserTheorems {
  import opened Bytes
  import opened Wrappers
  import opened VisibilityTree
  import opened VisibilityGrammar
  import opened VisibilityParser

  // ---- Every well-formed expression parses to its tree ----

  lemma {:induction false} SkipsPlainText(e: Bytes, whole: nat, depth: nat, s: Scan, stop: nat)
    requires s.start <= s.index <= stop <= |e| && !s.quoted
    requires PlainText(e[s.index..stop])
    ensures ParseLoop(e, whole, depth, s) == ParseLoop(e, whole, depth, s.(index := stop))
    decreases stop - s.index
  {
    if s.index < stop {
      assert e[s.index..stop][0] == e[s.index];
      assert e[s.index..stop][1..] == e[s.index + 1..stop];
      SkipsPlainText(e, whole, depth, s.(index := s.index + 1), stop);
    }
  }

  lemma {:induction false} FindsClosingQuote(e: Bytes, start: nat, i: nat, body: Bytes)
    requires start < i && QuotedText(body) && WrittenAt(body + [QUOTE], e, i)
    requires start + 1 < i + |body|
    ensures QuotedEnd(e, start, i) == Ok(i + |body| + 1)
    decreases |body|
  {
    WrittenParts(body, [QUOTE], e, i);
    if body == [] {
      assert e[i] == e[i..i + 1][0];
    } else {
      assert e[i] == e[i..i + |body|][0] == body[0];
      var step := if body[0] == BACKSLASH then 2 else 1;
      if step == 2 { assert e[i + 1] == e[i..i + |body|][1] == body[1]; }
      assert e[i + step..i + |body|] == e[i..i + |body|][step..] == body[step..];
      WrittenParts(body[step..], [QUOTE], e, i + step);
      FindsClosingQuote(e, start, i + step, body[step..]);
    }
  }

  /** The loop state once an item has been read into an empty slot. */
  function AfterItem(item: Syntax, e: Bytes, at: nat, result: Node): Scan {
    var end := at + |Show(item)|;
    match item
    case Parens(inner) => Scan(end, result, TreeOf(item, e, at, true), end, false)
    case _ => Scan(end, result, EmptyNode, at, item.Quoted?)
  }

  /** Reading `item` leads the loop to `AfterItem`, where the slot holds the item's tree. */
  ghost predicate ItemIsRead(item: Syntax, e: Bytes, at: nat, whole: nat, depth: nat, result: Node) {
    var s := AfterItem(item, e, at, result);
    && at <= s.start <= s.index <= |e|
    && ParseLoop(e, whole, depth, Scan(at, result, EmptyNode, at, false)) == ParseLoop(e, whole, depth, s)
    && ProcessTerm(e, s.start, s.index, s.current) == Ok(TreeOf(item, e, at, true))
  }

  lemma {:induction false} ReadsItem(item: Syntax, e: Bytes, at: nat, whole: nat, depth: nat, result: Node)
    requires !item.Chain? && WellFormed(item) && WrittenAt(Show(item), e, at)
    ensures ItemIsRead(item, e, at, whole, depth, result)
    decreases item, 0
  {
    hide TreeOf, ItemTrees, Show, ShowOpen, ParseLoop, ItemIsRead;
    match item
    case Plain(_) => ReadsPlain(item, e, at, whole, depth, result);
    case Quoted(_) => ReadsQuoted(item, e, at, whole, depth, result);
    case Parens(inner) =>
      OpensParentheses(inner, e, at);
      ReadsLevel(inner, e, at + 1, depth + 1);
      EntersParentheses(inner, e, at, whole, depth, result);
  }

  lemma ReadsPlain(item: Syntax, e: Bytes, at: nat, whole: nat, depth: nat, result: Node)
    requires item.Plain? && WellFormed(item) && WrittenAt(Show(item), e, at)
    ensures ItemIsRead(item, e, at, whole, depth, result)
  {
    SkipsPlainText(e, whole, depth, Scan(at, result, EmptyNode, at, false), at + |item.text|);
  }

  lemma ReadsQuoted(item: Syntax, e: Bytes, at: nat, whole: nat, depth: nat, result: Node)
    requires item.Quoted? && WellFormed(item) && WrittenAt(Show(item), e, at)
    ensures ItemIsRead(item, e, at, whole, depth, result)
  {
    assert Show(item) == [QUOTE] + (item.body + [QUOTE]);
    WrittenParts([QUOTE], item.body + [QUOTE], e, at);
    assert e[at] == e[at..at + 1][0];
    FindsClosingQuote(e, at, at + 1, item.body);
  }

  lemma EntersParentheses(inner: Syntax, e: Bytes, at: nat, whole: nat, depth: nat, result: Node)
    requires WellFormed(inner) && WrittenAt([OPEN], e, at)
    requires |Show(Parens(inner))| == |Show(inner)| + 2
    requires ParseLoop(e, at + 1, depth + 1, Fresh(at + 1)) == Ok((TreeOf(inner, e, at + 1, true), at + |Show(inner)| + 2))
    ensures ItemIsRead(Parens(inner), e, at, whole, depth, result)
  {
    assert e[at] == e[at..at + 1][0];
    TreeNonempty(inner, e, at + 1, true);
    assert TreeOf(Parens(inner), e, at, true) == TreeOf(inner, e, at + 1, true);
    hide TreeOf, Show;
  }

  lemma OpensParentheses(inner: Syntax, e: Bytes, at: nat)
    requires WrittenAt(Show(Parens(inner)), e, at)
    ensures WrittenAt([OPEN], e, at) && WrittenAt(Show(inner) + [CLOSE], e, at + 1)
    ensures |Show(Parens(inner))| == |Show(inner)| + 2
    ensures TreeOf(Parens(inner), e, at, true) == TreeOf(inner, e, at + 1, true)
  {
    assert Show(Parens(inner)) == [OPEN] + (Show(inner) + [CLOSE]);
    WrittenParts([OPEN], Show(inner) + [CLOSE], e, at);
  }

  lemma {:induction false} TreeNonempty(s: Syntax, e: Bytes, at: nat, nested: bool)
    requires WellFormed(s)
    ensures !TreeOf(s, e, at, nested).EmptyNode?
    ensures TreeOf(s, e, at, nested).OpNode? ==> |TreeOf(s, e, at, nested).children| >= 2
    decreases s
  {
    hide Show, ShowOpen, WrittenAt;
    if s.Parens? {
      TreeNonempty(s.inner, e, at + 1, true);
    } else if s.Chain? {
      var front, last := s.items[..|s.items| - 1], s.items[|s.items| - 1];
      TreeNonempty(last, e, at + |ShowOpen(s.op, front)|, true);
    }
  }

  /** A level written at `at` and followed by its terminator parses to its tree. */
  lemma {:induction false} ReadsLevel(s: Syntax, e: Bytes, at: nat, depth: nat)
    requires WellFormed(s)
    requires depth > 0 ==> WrittenAt(Show(s) + [CLOSE], e, at)
    requires depth == 0 ==> WrittenAt(Show(s), e, at) && at + |Show(s)| == |e|
    ensures ParseLoop(e, at, depth, Fresh(at))
            == Ok((TreeOf(s, e, at, depth > 0), at + |Show(s)| + if depth > 0 then 1 else 0))
    decreases s, 1
  {
    hide ParseLoop, TreeOf, ItemTrees, Show;
    var end := at + |Show(s)|;
    if depth > 0 {
      WrittenParts(Show(s), [CLOSE], e, at);
      assert e[end] == e[end..end + 1][0];
    }
    if s.Chain? {
      assert [] + s.items == s.items && s == Chain(s.op, [] + s.items);
      ReadsItems(s.op, [], s.items, e, at, depth);
    } else {
      TreeIgnoresNesting(s, e, at, depth > 0);
      ReadsItem(s, e, at, at, depth, EmptyNode);
      TreeNonempty(s, e, at, true);
      EndsItem(e, at, depth, AfterItem(s, e, at, EmptyNode), TreeOf(s, e, at, true));
    }
  }

  lemma NothingRead(op: Operator, e: Bytes, at: nat)
    ensures ShowOpen(op, []) == [] && ItemTrees(op, [], e, at) == []
  {
  }

  lemma TreeIgnoresNesting(item: Syntax, e: Bytes, at: nat, nested: bool)
    requires !item.Chain?
    ensures TreeOf(item, e, at, nested) == TreeOf(item, e, at, true)
  {
  }

  lemma EndsItem(e: Bytes, whole: nat, depth: nat, s: Scan, node: Node)
    requires s.start <= s.index <= |e| && s.result == EmptyNode
    requires depth > 0 ==> s.index < |e| && e[s.index] == CLOSE
    requires depth == 0 ==> s.index == |e|
    requires !node.EmptyNode? && (node.OpNode? ==> |node.children| >= 2)
    requires ProcessTerm(e, s.start, s.index, s.current) == Ok(node)
    ensures ParseLoop(e, whole, depth, s) == Ok((node, s.index + if depth > 0 then 1 else 0))
  {
    assert EndLevel(e, s, depth > 0) == Ok(node);
  }

  function Building(op: Operator, done: seq<Syntax>, e: Bytes, whole: nat): Node {
    if done == [] then EmptyNode else OpNode(op, e, whole, whole + 1, ItemTrees(op, done, e, whole))
  }

  /** From the state in which `done` has been read, the rest of the chain is read and the level ends. */
  lemma {:induction false} ReadsItems(
    op: Operator, done: seq<Syntax>, rest: seq<Syntax>, e: Bytes, whole: nat, depth: nat)
    requires Items(done) && Items(rest) && rest != [] && |done| + |rest| >= 2
    requires var text := Show(Chain(op, done + rest));
             && WrittenAt(text, e, whole)
             && (depth > 0 ==> whole + |text| < |e| && e[whole + |text|] == CLOSE)
             && (depth == 0 ==> whole + |text| == |e|)
    ensures var at := whole + |ShowOpen(op, done)|;
            at <= |e| &&
            ParseLoop(e, whole, depth, Scan(at, Building(op, done, e, whole), EmptyNode, at, false))
            == Ok((TreeOf(Chain(op, done + rest), e, whole, depth > 0),
                   whole + |Show(Chain(op, done + rest))| + if depth > 0 then 1 else 0))
    decreases rest, 0
  {
    hide ParseLoop, TreeOf, ItemTrees, Show, ShowOpen;
    var at := whole + |ShowOpen(op, done)|;
    var item := rest[0];
    var result := Building(op, done, e, whole);
    ShowOpenPrefix(op, done, rest, e, whole);
    ReadsItem(item, e, at, whole, depth, result);
    var s := AfterItem(item, e, at, result);
    if |rest| == 1 {
      assert rest == [item];
      EndsChain(op, done, item, e, whole, depth, s);
    } else {
      assert (done + [item]) + rest[1..] == done + rest;
      StepsOverOperator(op, done, item, e, whole, depth, s);
      ReadsItems(op, done + [item], rest[1..], e, whole, depth);
    }
  }

  lemma StepsOverOperator(
    op: Operator, done: seq<Syntax>, item: Syntax, e: Bytes, whole: nat, depth: nat, s: Scan)
    requires s.start <= s.index < |e| && e[s.index] == OperatorByte(op)
    requires s.result == Building(op, done, e, whole)
    requires ProcessTerm(e, s.start, s.index, s.current) == Ok(TreeOf(item, e, whole + |ShowOpen(op, done)|, true))
    requires s.index == whole + |ShowOpen(op, done)| + |Show(item)|
    ensures var at := whole + |ShowOpen(op, done + [item])|;
            at == s.index + 1 &&
            ParseLoop(e, whole, depth, s)
            == ParseLoop(e, whole, depth, Scan(at, Building(op, done + [item], e, whole), EmptyNode, at, false))
  {
    hide TreeOf, ItemTrees, Show, ShowOpen;
    ChainEndsWith(op, done, item, e, whole, true);
    var term := TreeOf(item, e, whole + |ShowOpen(op, done)|, true);
    assert done == [] ==> ItemTrees(op, done, e, whole) + [term] == [term];
    var next := Scan(s.index + 1, Building(op, done + [item], e, whole), EmptyNode, s.index + 1, false);
    assert AfterOperator(e, whole, s, op) == Ok(next);
  }

  lemma EndsChain(op: Operator, done: seq<Syntax>, item: Syntax, e: Bytes, whole: nat, depth: nat, s: Scan)
    requires done != [] && s.start <= s.index <= |e|
    requires depth > 0 ==> s.index < |e| && e[s.index] == CLOSE
    requires depth == 0 ==> s.index == |e|
    requires s.result == Building(op, done, e, whole)
    requires WellFormed(item)
    requires ProcessTerm(e, s.start, s.index, s.current) == Ok(TreeOf(item, e, whole + |ShowOpen(op, done)|, true))
    requires s.index == whole + |Show(Chain(op, done + [item]))|
    ensures ParseLoop(e, whole, depth, s)
            == Ok((TreeOf(Chain(op, done + [item]), e, whole, depth > 0), s.index + if depth > 0 then 1 else 0))
  {
    hide TreeOf, ItemTrees, Show, ShowOpen;
    ChainEndsWith(op, done, item, e, whole, depth > 0);
    TreeNonempty(item, e, whole + |ShowOpen(op, done)|, true);
    assert EndLevel(e, s, depth > 0) == Ok(TreeOf(Chain(op, done + [item]), e, whole, depth > 0));
  }

  /** A chain grown by one item: its text and its tree. */
  lemma ChainEndsWith(op: Operator, done: seq<Syntax>, item: Syntax, e: Bytes, at: nat, nested: bool)
    ensures Show(Chain(op, done + [item])) == ShowOpen(op, done) + Show(item)
    ensures ShowOpen(op, done + [item]) == ShowOpen(op, done) + Show(item) + [OperatorByte(op)]
    ensures var last := TreeOf(item, e, at + |ShowOpen(op, done)|, true);
            && ItemTrees(op, done + [item], e, at) == ItemTrees(op, done, e, at) + [last]
            && TreeOf(Chain(op, done + [item]), e, at, nested)
               == OpNode(op, e, at, at + |Show(Chain(op, done + [item]))|, ItemTrees(op, done, e, at) + LastTrees(op, last, nested))
  {
    var items := done + [item];
    assert items[..|items| - 1] == done && items[|items| - 1] == item;
  }

  /** Where the next item of a written chain stands, and what follows it. */
  lemma ShowOpenPrefix(op: Operator, done: seq<Syntax>, rest: seq<Syntax>, e: Bytes, whole: nat)
    requires rest != [] && WrittenAt(Show(Chain(op, done + rest)), e, whole)
    ensures var at := whole + |ShowOpen(op, done)|;
            && WrittenAt(Show(rest[0]), e, at)
            && (|rest| > 1 ==> at + |Show(rest[0])| < |e| && e[at + |Show(rest[0])|] == OperatorByte(op))
            && (|rest| == 1 ==> at + |Show(rest[0])| == whole + |Show(Chain(op, done + rest))|)
  {
    hide Show, ShowOpen, TreeOf, ItemTrees;
    ChainEndsWith(op, done, rest[0], e, whole, false);
    if |rest| == 1 {
      assert rest == [rest[0]];
      WrittenParts(ShowOpen(op, done), Show(rest[0]), e, whole);
    } else {
      var done' := done + [rest[0]];
      assert done' + rest[1..] == done + rest;
      OpenIsWritten(op, done', rest[1..], e, whole);
      var at := whole + |ShowOpen(op, done)|;
      assert ShowOpen(op, done') == ShowOpen(op, done) + (Show(rest[0]) + [OperatorByte(op)]);
      WrittenParts(ShowOpen(op, done), Show(rest[0]) + [OperatorByte(op)], e, whole);
      WrittenParts(Show(rest[0]), [OperatorByte(op)], e, at);
      assert e[at + |Show(rest[0])|] == e[at + |Show(rest[0])|..at + |Show(rest[0])| + 1][0];
    }
  }

  lemma OpenIsWritten(op: Operator, done: seq<Syntax>, rest: seq<Syntax>, e: Bytes, whole: nat)
    requires rest != [] && WrittenAt(Show(Chain(op, done + rest)), e, whole)
    ensures WrittenAt(ShowOpen(op, done), e, whole)
  {
    hide Show, ShowOpen;
    OpenIsPrefix(op, done, rest);
    var text := Show(Chain(op, done + rest));
    assert text == ShowOpen(op, done) + text[|ShowOpen(op, done)|..];
    WrittenParts(ShowOpen(op, done), text[|ShowOpen(op, done)|..], e, whole);
  }

  lemma {:induction false} OpenIsPrefix(op: Operator, done: seq<Syntax>, rest: seq<Syntax>)
    requires rest != []
    ensures ShowOpen(op, done) <= Show(Chain(op, done + rest))
    decreases |rest|
  {
    var items := done + rest;
    if |rest| == 1 {
      assert items[..|items| - 1] == done;
    } else {
      var done' := done + [rest[0]];
      assert done' + rest[1..] == items && done'[..|done|] == done;
      OpenIsPrefix(op, done', rest[1..]);
    }
  }

  lemma ParsesEveryExpression(s: Syntax)
    requires WellFormed(s)
    ensures ParseExpression(Show(s)) == Ok(TreeOf(s, Show(s), 0, false))
  {
    ShowNonempty(s);
    ReadsLevel(s, Show(s), 0, 0);
  }

  // ---- Whatever the parser accepts is a well-formed expression with that tree ----

  /** What the current slot holds so far: nothing, plain text, a quoted term, or a parenthesised
      expression; `slot` is the syntax of the last. */
  ghost predicate SlotHolds(e: Bytes, at: nat, s: Scan, slot: Option<Syntax>) {
    && at <= s.start <= s.index <= |e|
    && match slot
       case None =>
         s.current == EmptyNode && s.start == at &&
         (if s.quoted then
            at + 2 < s.index && QuotedText(e[at + 1..s.index - 1]) && e[at] == QUOTE == e[s.index - 1]
          else PlainText(e[at..s.index]))
       case Some(item) =>
         && item.Parens? && WellFormed(item) && WrittenAt(Show(item), e, at)
         && s.current == TreeOf(item, e, at, true) && s.start == at + |Show(item)|
  }

  ghost predicate Reads(e: Bytes, whole: nat, s: Scan, op: Operator, done: seq<Syntax>, slot: Option<Syntax>) {
    && Items(done)
    && WrittenAt(ShowOpen(op, done), e, whole)
    && s.result == Building(op, done, e, whole)
    && SlotHolds(e, whole + |ShowOpen(op, done)|, s, slot)
  }

  /** A slot that ends well holds exactly one item. */
  lemma SlotIsItem(e: Bytes, at: nat, s: Scan, slot: Option<Syntax>) returns (item: Syntax)
    requires SlotHolds(e, at, s, slot) && ProcessTerm(e, s.start, s.index, s.current).Ok?
    ensures !item.Chain? && WellFormed(item) && WrittenAt(Show(item), e, at) && at + |Show(item)| == s.index
    ensures ProcessTerm(e, s.start, s.index, s.current) == Ok(TreeOf(item, e, at, true))
  {
    if slot.Some? {
      item := slot.value;
      TreeNonempty(item, e, at, true);
    } else if s.quoted {
      item := Quoted(e[at + 1..s.index - 1]);
      assert e[at..s.index] == Show(item);
    } else {
      item := Plain(e[at..s.index]);
    }
  }

  /** `at` is the start of the slot after `done`; adding an item and its operator moves it. */
  lemma ExtendOpen(op: Operator, done: seq<Syntax>, item: Syntax, e: Bytes, whole: nat)
    requires WrittenAt(ShowOpen(op, done), e, whole)
    requires WrittenAt(Show(item), e, whole + |ShowOpen(op, done)|)
    requires var end := whole + |ShowOpen(op, done)| + |Show(item)|; end < |e| && e[end] == OperatorByte(op)
    ensures WrittenAt(ShowOpen(op, done + [item]), e, whole)
  {
    hide TreeOf, ItemTrees, Show, ShowOpen;
    var at := whole + |ShowOpen(op, done)|;
    var end := at + |Show(item)|;
    ChainEndsWith(op, done, item, e, whole, true);
    assert e[end..end + 1] == [OperatorByte(op)];
    WrittenParts(ShowOpen(op, done), Show(item), e, whole);
    WrittenParts(ShowOpen(op, done) + Show(item), [OperatorByte(op)], e, whole);
  }

  lemma {:induction false} QuotedEndIsQuoted(e: Bytes, start: nat, i: nat)
    requires start < i <= |e| && QuotedEnd(e, start, i).Ok?
    ensures var end := QuotedEnd(e, start, i).value;
            i < end && e[end - 1] == QUOTE && QuotedText(e[i..end - 1]) && start + 2 < end
    decreases |e| - i
  {
    var end := QuotedEnd(e, start, i).value;
    if e[i] != QUOTE {
      var step := if e[i] == BACKSLASH then 2 else 1;
      QuotedEndIsQuoted(e, start, i + step);
      var body := e[i..end - 1];
      assert body[0] == e[i] && body[step..] == e[i + step..end - 1];
      assert step == 2 ==> body[1] == e[i + 1];
    }
  }

  ghost predicate IsLevel(s: Syntax, e: Bytes, whole: nat, depth: nat, node: Node, stop: nat) {
    && WellFormed(s)
    && (depth > 0 ==> WrittenAt(Show(s) + [CLOSE], e, whole) && stop == whole + |Show(s)| + 1)
    && (depth == 0 ==> WrittenAt(Show(s), e, whole) && stop == whole + |Show(s)| == |e|)
    && node == TreeOf(s, e, whole, depth > 0)
  }

  lemma ByteWritten(e: Bytes, at: nat)
    requires at < |e|
    ensures WrittenAt([e[at]], e, at)
  {
  }

  /** The level that ends in state `s` is the chain read so far and the item in the slot. */
  lemma EndIsLevel(e: Bytes, whole: nat, depth: nat, s: Scan, op: Operator, done: seq<Syntax>, slot: Option<Syntax>)
    returns (level: Syntax)
    requires Reads(e, whole, s, op, done, slot)
    requires depth > 0 ==> s.index < |e| && e[s.index] == CLOSE
    requires depth == 0 ==> s.index == |e|
    requires EndLevel(e, s, depth > 0).Ok?
    ensures IsLevel(level, e, whole, depth, EndLevel(e, s, depth > 0).value, s.index + if depth > 0 then 1 else 0)
  {
    hide TreeOf, ItemTrees, Show, ShowOpen, SlotHolds, ProcessTerm, WrittenAt;
    var at := whole + |ShowOpen(op, done)|;
    var item := SlotIsItem(e, at, s, slot);
    ChainEndsWith(op, done, item, e, whole, depth > 0);
    NothingRead(op, e, whole);
    if done == [] {
      level := item;
      TreeIgnoresNesting(item, e, at, depth > 0);
    } else {
      level := Chain(op, done + [item]);
      WrittenParts(ShowOpen(op, done), Show(item), e, whole);
    }
    if depth > 0 {
      ByteWritten(e, s.index);
      WrittenParts(Show(level), [CLOSE], e, whole);
    }
  }

  /** Bytes after a parenthesised expression end the parse. */
  lemma {:induction false} TrailingBytesFail(e: Bytes, whole: nat, depth: nat, s: Scan)
    requires s.start < s.index <= |e| && !s.current.EmptyNode?
    ensures ParseLoop(e, whole, depth, s).Err?
    decreases |e| - s.index
  {
    if s.index < |e| && !s.quoted && ValidTermByte(e[s.index]) {
      TrailingBytesFail(e, whole, depth, s.(index := s.index + 1));
    }
  }

  lemma {:induction false} AcceptedIsLevel(
    e: Bytes, whole: nat, depth: nat, s: Scan, op: Operator, done: seq<Syntax>, slot: Option<Syntax>)
    returns (level: Syntax)
    requires Reads(e, whole, s, op, done, slot)
    requires ParseLoop(e, whole, depth, s).Ok?
    ensures var (node, stop) := ParseLoop(e, whole, depth, s).value; IsLevel(level, e, whole, depth, node, stop)
    decreases |e| - s.index
  {
    hide TreeOf, ItemTrees, Show, ShowOpen, Reads;
    if s.index == |e| || e[s.index] == CLOSE {
      level := EndIsLevel(e, whole, depth, s, op, done, slot);
    } else if e[s.index] == AMPERSAND || e[s.index] == BAR {
      level := AcceptedAfterOperator(e, whole, depth, s, op, done, slot);
    } else if e[s.index] == OPEN {
      level := AcceptedAfterParentheses(e, whole, depth, s, op, done, slot);
    } else {
      var next := ReadsByteOrQuote(e, whole, depth, s, op, done, slot);
      level := AcceptedIsLevel(e, whole, depth, next, op, done, slot);
    }
  }

  /** A quoted term or a plain byte extends the slot. */
  lemma ReadsByteOrQuote(
    e: Bytes, whole: nat, depth: nat, s: Scan, op: Operator, done: seq<Syntax>, slot: Option<Syntax>)
    returns (next: Scan)
    requires Reads(e, whole, s, op, done, slot)
    requires s.index < |e| && e[s.index] !in {AMPERSAND, BAR, OPEN, CLOSE}
    requires ParseLoop(e, whole, depth, s).Ok?
    ensures Reads(e, whole, next, op, done, slot) && s.index < next.index
    ensures next.start <= next.index <= |e| && ParseLoop(e, whole, depth, s) == ParseLoop(e, whole, depth, next)
  {
    hide TreeOf, ItemTrees, Show, ShowOpen, Building, WellFormed, Items, EndLevel, AfterOperator, ProcessTerm, QuotedEnd;
    var at := whole + |ShowOpen(op, done)|;
    if e[s.index] == QUOTE {
      next := s.(index := QuotedEnd(e, s.start, s.index + 1).value, quoted := true);
      QuotedEndIsQuoted(e, s.start, s.index + 1);
    } else {
      next := s.(index := s.index + 1);
      assert e[at..s.index + 1] == e[at..s.index] + [e[s.index]];
    }
    if slot.Some? {
      TreeNonempty(slot.value, e, at, true);
      TrailingBytesFail(e, whole, depth, next);
      assert false;
    }
  }

  lemma {:induction false} AcceptedAfterOperator(
    e: Bytes, whole: nat, depth: nat, s: Scan, op: Operator, done: seq<Syntax>, slot: Option<Syntax>)
    returns (level: Syntax)
    requires Reads(e, whole, s, op, done, slot)
    requires s.index < |e| && (e[s.index] == AMPERSAND || e[s.index] == BAR)
    requires ParseLoop(e, whole, depth, s).Ok?
    ensures var (node, stop) := ParseLoop(e, whole, depth, s).value; IsLevel(level, e, whole, depth, node, stop)
    decreases |e| - s.index, 0
  {
    hide TreeOf, ItemTrees, Show, ShowOpen, WrittenAt, EndLevel, QuotedEnd;
    NothingRead(op, e, whole);
    var op' := if e[s.index] == BAR then Or else And;
    NothingRead(op', e, whole);
    var item := SlotIsItem(e, whole + |ShowOpen(op, done)|, s, slot);
    StepsOverOperator(op', done, item, e, whole, depth, s);
    ExtendOpen(op', done, item, e, whole);
    var after := Scan(s.index + 1, Building(op', done + [item], e, whole), EmptyNode, s.index + 1, false);
    level := AcceptedIsLevel(e, whole, depth, after, op', done + [item], None);
  }

  lemma ParenthesesAround(inner: Syntax, e: Bytes, at: nat)
    requires WellFormed(inner) && at < |e| && e[at] == OPEN && WrittenAt(Show(inner) + [CLOSE], e, at + 1)
    ensures WellFormed(Parens(inner)) && WrittenAt(Show(Parens(inner)), e, at)
    ensures |Show(Parens(inner))| == |Show(inner)| + 2
    ensures TreeOf(Parens(inner), e, at, true) == TreeOf(inner, e, at + 1, true)
  {
    assert Show(Parens(inner)) == [OPEN] + (Show(inner) + [CLOSE]);
    assert e[at..at + 1] == [OPEN];
    WrittenParts([OPEN], Show(inner) + [CLOSE], e, at);
  }

  lemma {:induction false} AcceptedAfterParentheses(
    e: Bytes, whole: nat, depth: nat, s: Scan, op: Operator, done: seq<Syntax>, slot: Option<Syntax>)
    returns (level: Syntax)
    requires Reads(e, whole, s, op, done, slot)
    requires s.index < |e| && e[s.index] == OPEN
    requires ParseLoop(e, whole, depth, s).Ok?
    ensures var (node, stop) := ParseLoop(e, whole, depth, s).value; IsLevel(level, e, whole, depth, node, stop)
    decreases |e| - s.index, 0
  {
    hide TreeOf, ItemTrees, Show, ShowOpen, Reads;
    var next := s.index + 1;
    var (inner, after) := ParseLoop(e, next, depth + 1, Fresh(next)).value;
    ReadsNothing(e, next);
    var syntax := AcceptedIsLevel(e, next, depth + 1, Fresh(next), Or, [], None);
    var s' := Scan(after, s.result, inner, after, false);
    ReadsParentheses(e, whole, depth, s, op, done, slot, syntax, inner, after);
    level := AcceptedIsLevel(e, whole, depth, s', op, done, Some(Parens(syntax)));
  }

  lemma ReadsNothing(e: Bytes, at: nat)
    requires at <= |e|
    ensures Reads(e, at, Fresh(at), Or, [], None)
  {
    NothingRead(Or, e, at);
    assert e[at..at] == [];
  }

  lemma ReadsParentheses(
    e: Bytes, whole: nat, depth: nat, s: Scan, op: Operator, done: seq<Syntax>, slot: Option<Syntax>,
    inner: Syntax, node: Node, after: nat)
    requires Reads(e, whole, s, op, done, slot)
    requires s.start == s.index < |e| && e[s.index] == OPEN && s.current == EmptyNode
    requires IsLevel(inner, e, s.index + 1, depth + 1, node, after)
    ensures Reads(e, whole, Scan(after, s.result, node, after, false), op, done, Some(Parens(inner)))
  {
    hide TreeOf, ItemTrees, Show, ShowOpen, Building;
    if slot.Some? {
      TreeNonempty(slot.value, e, whole + |ShowOpen(op, done)|, true);
      assert false;
    }
    ParenthesesAround(inner, e, s.index);
  }

  lemma AcceptedIsExpression(e: Bytes) returns (s: Syntax)
    requires e != [] && ParseExpression(e).Ok?
    ensures WellFormed(s) && Show(s) == e && ParseExpression(e) == Ok(TreeOf(s, e, 0, false))
  {
    ReadsNothing(e, 0);
    s := AcceptedIsLevel(e, 0, 0, Fresh(0), Or, [], None);
    assert e[0..|e|] == e;
  }

  /** The parser accepts a non-empty expression exactly when the grammar derives it, and the tree it
      returns is the grammar's tree. */
  lemma AcceptsExactlyTheGrammar(e: Bytes)
    requires e != []
    ensures ParseExpression(e).Ok? <==> exists s :: WellFormed(s) && Show(s) == e
    ensures forall s :: WellFormed(s) && Show(s) == e ==> ParseExpression(e) == Ok(TreeOf(s, e, 0, false))
  {
    forall s | WellFormed(s) && Show(s) == e ensures ParseExpression(e) == Ok(TreeOf(s, e, 0, false)) {
      ParsesEveryExpression(s);
    }
    if ParseExpression(e).Ok? {
      var s := AcceptedIsExpression(e);
    }
  }
}
