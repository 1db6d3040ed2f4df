/** The recursive-descent parser: one cursor shared by every level. */
module VisibilityParser {
  import opened Bytes
  import opened Wrappers
  import opened VisibilityTree
  import opened VisibilityGrammar

  datatype Reason =
    | NeedsOperator | CannotMix | UnbalancedClose | MissingTerm | EmptyTerm
    | BadCharacter | UnclosedParenthesis | InvalidEscape | UnclosedQuote

  datatype ParseError = ParseError(reason: Reason, offset: nat)

  /** The local variables of one level: the cursor, the node under construction, the sub-expression
      parsed for the current slot, where the slot starts, and whether a quoted term fills it. */
  datatype Scan = Scan(index: nat, result: Node, current: Node, start: nat, quoted: bool)

  function Fresh(index: nat): Scan {
    Scan(index, EmptyNode, EmptyNode, index, false)
  }

  function ProcessTerm(e: Bytes, start: nat, end: nat, current: Node): Result<Node, ParseError> {
    if start != end then
      if !current.EmptyNode? then Err(ParseError(NeedsOperator, start)) else Ok(TermNode(e, start, end))
    else if current.EmptyNode? then Err(ParseError(EmptyTerm, start))
    else Ok(current)
  }

  /** The index past the closing quote of the term that opens at `start`, scanning from `i`. */
  function QuotedEnd(e: Bytes, start: nat, i: nat): (r: Result<nat, ParseError>)
    requires start < i <= |e|
    ensures r.Ok? ==> i < r.value <= |e|
    decreases |e| - i
  {
    if i == |e| then Err(ParseError(UnclosedQuote, i))
    else if e[i] == QUOTE then (if start + 1 == i then Err(ParseError(EmptyTerm, start)) else Ok(i + 1))
    else if e[i] == BACKSLASH then
      if i + 1 == |e| || (e[i + 1] != BACKSLASH && e[i + 1] != QUOTE) then Err(ParseError(InvalidEscape, i + 1))
      else QuotedEnd(e, start, i + 2)
    else QuotedEnd(e, start, i + 1)
  }

  function AfterOperator(e: Bytes, whole: nat, s: Scan, op: Operator): Result<Scan, ParseError> {
    match ProcessTerm(e, s.start, s.index, s.current)
    case Err(error) => Err(error)
    case Ok(term) =>
      if s.result.OpNode? then
        if s.result.op != op then Err(ParseError(CannotMix, s.index))
        else Ok(Scan(s.index + 1, s.result.(children := s.result.children + [term]), EmptyNode, s.index + 1, false))
      else Ok(Scan(s.index + 1, OpNode(op, e, whole, whole + 1, [term]), EmptyNode, s.index + 1, false))
  }

  /** The level ends at a closing parenthesis or at the end of the input. Only the former rolls up a last
      child of the level's own type. */
  function EndLevel(e: Bytes, s: Scan, closed: bool): Result<Node, ParseError> {
    match ProcessTerm(e, s.start, s.index, s.current)
    case Err(error) => Err(error)
    case Ok(child) =>
      if !s.result.OpNode? then
        if !closed && !child.TermNode? && (child.OpNode? ==> |child.children| < 2) then Err(ParseError(MissingTerm, s.index))
        else Ok(child)
      else
        var children := s.result.children + LastTrees(s.result.op, child, closed);
        if |children| < 2 then Err(ParseError(MissingTerm, s.index))
        else Ok(s.result.(children := children, end := s.index))
  }

  /** One level of the parser, from any of its loop states: the level's tree and the index it stops at. */
  function ParseLoop(e: Bytes, whole: nat, depth: nat, s: Scan): (r: Result<(Node, nat), ParseError>)
    requires s.start <= s.index <= |e|
    ensures r.Ok? ==> s.index <= r.value.1 <= |e|
    decreases |e| - s.index
  {
    if s.index == |e| then
      if depth > 0 then Err(ParseError(UnclosedParenthesis, s.index))
      else
        match EndLevel(e, s, false)
        case Err(error) => Err(error)
        case Ok(node) => Ok((node, s.index))
    else
      var c := e[s.index];
      var next := s.index + 1;
      if c == AMPERSAND || c == BAR then
        match AfterOperator(e, whole, s, if c == BAR then Or else And)
        case Err(error) => Err(error)
        case Ok(s') => ParseLoop(e, whole, depth, s')
      else if c == OPEN then
        if s.start != s.index || !s.current.EmptyNode? then Err(ParseError(NeedsOperator, s.index))
        else
          match ParseLoop(e, next, depth + 1, Fresh(next))
          case Err(error) => Err(error)
          case Ok((inner, after)) => ParseLoop(e, whole, depth, Scan(after, s.result, inner, after, false))
      else if c == CLOSE then
        if depth == 0 then Err(ParseError(UnbalancedClose, s.index))
        else
          match EndLevel(e, s, true)
          case Err(error) => Err(error)
          case Ok(node) => Ok((node, next))
      else if c == QUOTE then
        if s.start != s.index then Err(ParseError(NeedsOperator, s.index))
        else
          match QuotedEnd(e, s.start, next)
          case Err(error) => Err(error)
          case Ok(after) => ParseLoop(e, whole, depth, s.(index := after, quoted := true))
      else if s.quoted then Err(ParseError(NeedsOperator, s.index))
      else if !ValidTermByte(c) then Err(ParseError(BadCharacter, s.index))
      else ParseLoop(e, whole, depth, s.(index := next))
  }

  /** NewColumnVisibility: the empty expression parses to the empty tree. */
  function ParseExpression(e: Bytes): Result<Node, ParseError> {
    if e == [] then Ok(EmptyNode)
    else
      match ParseLoop(e, 0, 0, Fresh(0))
      case Err(error) => Err(error)
      case Ok((root, end)) => if end != |e| then Err(ParseError(UnbalancedClose, end)) else Ok(root)
  }

  class Parser {
    const expression: Bytes
    var index: nat

    constructor (expression: Bytes)
      ensures this.expression == expression && index == 0
    {
      this.expression := expression;
      index := 0;
    }

    /** Parses one level from the cursor on and leaves the cursor where the level ends. */
    method Parse(depth: nat) returns (r: Result<Node, ParseError>)
      requires index <= |expression|
      modifies this
      ensures index <= |expression|
      ensures match ParseLoop(expression, old(index), depth, Fresh(old(index)))
              case Err(error) => r == Err(error)
              case Ok((node, end)) => r == Ok(node) && index == end
      decreases |expression| - index
    {
      hide ProcessTerm, QuotedEnd, ValidTermByte;
      ghost var expected := ParseLoop(expression, index, depth, Fresh(index));
      var result, current := EmptyNode, EmptyNode;
      var wholeStart, start, quoted := index, index, false;
      while index < |expression|
        invariant old(index) <= start <= index <= |expression|
        invariant expected == ParseLoop(expression, wholeStart, depth, Scan(index, result, current, start, quoted))
      {
        var c := expression[index];
        index := index + 1;
        if c == AMPERSAND || c == BAR {
          var op := if c == BAR then Or else And;
          var term := ProcessTerm(expression, start, index - 1, current);
          if term.Err? { return term; }
          if result.OpNode? {
            if result.op != op { return Err(ParseError(CannotMix, index - 1)); }
          } else {
            result := OpNode(op, expression, wholeStart, wholeStart + 1, []);
            assert result.children + [term.value] == [term.value];
          }
          result := result.(children := result.children + [term.value]);
          current, start, quoted := EmptyNode, index, false;
        } else if c == OPEN {
          if start != index - 1 || !current.EmptyNode? { return Err(ParseError(NeedsOperator, index - 1)); }
          var inner := Parse(depth + 1);
          if inner.Err? { return inner; }
          current, start, quoted := inner.value, index, false;
        } else if c == CLOSE {
          if depth == 0 { return Err(ParseError(UnbalancedClose, index - 1)); }
          var child := ProcessTerm(expression, start, index - 1, current);
          if child.Err? || !result.OpNode? { return child; }
          if child.value.OpNode? && child.value.op == result.op {
            result := result.(children := result.children + child.value.children, end := index - 1);
          } else {
            result := result.(children := result.children + [child.value], end := index - 1);
          }
          if |result.children| < 2 { return Err(ParseError(MissingTerm, index - 1)); }
          return Ok(result);
        } else if c == QUOTE {
          if start != index - 1 { return Err(ParseError(NeedsOperator, index - 1)); }
          var error := ConsumeQuotedTerm(start);
          if error.Some? { return Err(error.value); }
          quoted := true;
        } else if quoted {
          return Err(ParseError(NeedsOperator, index - 1));
        } else if !ValidTermByte(c) {
          return Err(ParseError(BadCharacter, index - 1));
        }
      }
      if depth > 0 { return Err(ParseError(UnclosedParenthesis, index)); }
      var child := ProcessTerm(expression, start, index, current);
      if child.Err? { return child; }
      if !result.OpNode? {
        result := child.value;
      } else {
        result := result.(children := result.children + [child.value], end := index);
      }
      if !result.TermNode? && (result.OpNode? ==> |result.children| < 2) {
        return Err(ParseError(MissingTerm, index));
      }
      return Ok(result);
    }

    /** Advances past a quoted term, checking its escapes. */
    method ConsumeQuotedTerm(start: nat) returns (error: Option<ParseError>)
      requires start < index <= |expression|
      modifies this
      ensures old(index) <= index <= |expression|
      ensures match QuotedEnd(expression, start, old(index))
              case Err(e) => error == Some(e)
              case Ok(end) => error == None && index == end
    {
      while index < |expression| && expression[index] != QUOTE
        invariant old(index) <= index <= |expression|
        invariant QuotedEnd(expression, start, index) == QuotedEnd(expression, start, old(index))
      {
        if expression[index] == BACKSLASH {
          index := index + 1;
          if index == |expression| || (expression[index] != BACKSLASH && expression[index] != QUOTE) {
            return Some(ParseError(InvalidEscape, index));
          }
        }
        index := index + 1;
      }
      if index == |expression| { return Some(ParseError(UnclosedQuote, index)); }
      if start + 1 == index { return Some(ParseError(EmptyTerm, start)); }
      index := index + 1;
      return None;
    }
  }

  /** Parses a whole expression. */
  method NewColumnVisibility(expression: Bytes) returns (r: Result<Node, ParseError>)
    ensures r == ParseExpression(expression)
  {
    if expression == [] { return Ok(EmptyNode); }
    var parser := new Parser(expression);
    r := parser.Parse(0);
    if r.Ok? && parser.index != |expression| {
      r := Err(ParseError(UnbalancedClose, parser.index));
    }
  }
}
