/** The concurrent evaluator: two locked sections, and a generation that keeps stale decisions out. */
module VisibilityEvaluator {
  import opened Bytes
  import opened Wrappers
  import opened Auths
  import opened VisibilityTree
  import opened VisibilityGrammar
  import opened VisibilityParser
  import opened VisibilityParserTheorems
  import opened VisibilityEvaluation
  import opened VisibilityCache

  const CAPACITY := 1024
  const GENERATIONS := 0x1_0000_0000_0000_0000

  datatype Failure = Malformed(parse: ParseError) | Undecided(evaluation: EvalError)

  /** The answer without a cache: parse, then evaluate. */
  function Decide(expression: Bytes, labels: seq<Bytes>): Result<bool, Failure> {
    if expression == [] then Ok(true)
    else
      match ParseExpression(expression)
      case Err(error) => Err(Malformed(error))
      case Ok(root) =>
        match EvaluateNode(expression, root, labels)
        case Err(error) => Err(Undecided(error))
        case Ok(result) => Ok(result)
  }

  /** Every cached decision is the one a fresh evaluation would make. */
  ghost predicate Faithful(list: seq<Decision>, labels: seq<Bytes>) {
    forall d :: d in list ==> d.key != [] && Decide(d.key, labels) == Ok(d.value)
  }

  lemma TouchKeepsFaithful(list: seq<Decision>, key: Bytes, labels: seq<Bytes>)
    requires Faithful(list, labels)
    ensures Faithful(Touch(list, key), labels)
    ensures Lookup(list, key).Some? ==> key != [] && Decide(key, labels) == Ok(Lookup(list, key).value)
  {
    LookupFinds(list, key);
    WithoutDrops(list, key);
  }

  lemma PutKeepsFaithful(list: seq<Decision>, key: Bytes, value: bool, labels: seq<Bytes>)
    requires Faithful(list, labels)
    ensures Faithful(PutDecision(list, key, value, CAPACITY), labels) <==> key != [] && Decide(key, labels) == Ok(value)
  {
    hide Decide;
    WithoutDrops(list, key);
    assert Decision(key, value) == PutDecision(list, key, value, CAPACITY)[0];
  }

  /** The answer the grammar gives: the empty expression is satisfied by all, an expression by its formula,
      and anything else is malformed. */
  ghost predicate Meant(expression: Bytes, labels: seq<Bytes>, answer: Result<bool, Failure>) {
    && (expression == [] ==> answer == Ok(true))
    && (forall s :: WellFormed(s) && Show(s) == expression ==> answer == Ok(Holds(s, LabelSet(labels))))
    && (expression != [] && !(exists s :: WellFormed(s) && Show(s) == expression) ==> answer.Err? && answer.error.Malformed?)
  }

  lemma DecisionIsMeant(expression: Bytes, labels: seq<Bytes>)
    requires StrictlySorted(labels)
    ensures Meant(expression, labels, Decide(expression, labels))
  {
    hide ParseLoop, EvaluateNode, Holds, Show, WellFormed;
    if expression != [] {
      AcceptsExactlyTheGrammar(expression);
      forall s | WellFormed(s) && Show(s) == expression
        ensures Decide(expression, labels) == Ok(Holds(s, LabelSet(labels)))
      {
        ParsedExpressionsDecide(expression, s, labels);
      }
    } else {
      forall s | WellFormed(s) ensures Show(s) != [] { ShowNonempty(s); }
    }
  }

  // ---- The evaluator's sections ----

  class Evaluator {
    var auths: Authorizations
    var generation: nat
    var cache: Cache

    ghost predicate Valid()
      reads this, auths, cache
    {
      auths.Valid() && cache.Valid() && cache.capacity == CAPACITY && generation < GENERATIONS
    }

    constructor (auths: Authorizations?)
      requires auths != null ==> auths.Valid()
      ensures Valid() && fresh(this.auths) && fresh(cache) && cache.Contents() == []
      ensures this.auths.labels == if auths == null then [] else auths.labels
    {
      this.auths := new Authorizations();
      generation := 1;
      cache := new Cache(CAPACITY);
      new;
      if auths != null { this.auths.labels := auths.labels; }
    }

    /** SetAuthorizations: one locked section; a nil set is the empty set. */
    method SetAuthorizations(auths: Authorizations?)
      requires Valid() && (auths != null ==> auths.Valid())
      modifies this
      ensures Valid() && fresh(this.auths) && fresh(cache)
      ensures this.auths.labels == if auths == null then [] else auths.labels
      ensures generation == (old(generation) + 1) % GENERATIONS && cache.Contents() == []
    {
      var copy := new Authorizations();
      if auths != null { copy.labels := auths.labels; }
      this.auths := copy;
      generation := (generation + 1) % GENERATIONS;
      cache := new Cache(CAPACITY);
    }

    /** The first locked section of Evaluate. */
    method Recall(expression: Bytes) returns (cached: Option<bool>, labels: seq<Bytes>, seen: nat)
      requires Valid()
      modifies cache
      ensures Valid() && labels == auths.labels && seen == generation
      ensures cached == Lookup(old(cache.Contents()), expression)
      ensures cache.Contents() == Touch(old(cache.Contents()), expression)
      ensures cache.Repr() == old(cache.Repr())
    {
      cached := cache.Get(expression);
      labels, seen := auths.labels, generation;
    }

    /** The second locked section: the decision is stored only in the generation it was made for. */
    method Remember(expression: Bytes, seen: nat, result: bool)
      requires Valid()
      modifies cache.Repr()
      ensures Valid()
      ensures cache.Contents() == if seen == generation then PutDecision(old(cache.Contents()), expression, result, CAPACITY)
                                  else old(cache.Contents())
    {
      hide PutDecision, Without, Take, ContentsOf, Consistent;
      if generation == seen {
        cache.Put(expression, result);
      }
    }

    /** Evaluate when nothing else runs between its sections: the fresh decision, cached or not. */
    method Evaluate(expression: Bytes) returns (answer: Result<bool, Failure>)
      requires Valid() && Faithful(cache.Contents(), auths.labels)
      modifies cache.Repr()
      ensures Valid() && Faithful(cache.Contents(), auths.labels)
      ensures answer == Decide(expression, auths.labels) && Meant(expression, auths.labels, answer)
    {
      hide PutDecision, Without, Take, ContentsOf, Consistent, Touch, Lookup, Faithful, Meant;
      hide ParseExpression, ParseLoop, EvaluateNode;
      DecisionIsMeant(expression, auths.labels);
      if expression == [] { return Ok(true); }
      TouchKeepsFaithful(cache.Contents(), expression, auths.labels);
      var cached, labels, seen := Recall(expression);
      if cached.Some? { return Ok(cached.value); }
      answer := Conclude(expression, labels, seen);
      if answer.Ok? { PutKeepsFaithful(old(Touch(cache.Contents(), expression)), expression, answer.value, auths.labels); }
    }

    /** Evaluate from its first locked section on, with what that section read. */
    method Conclude(expression: Bytes, labels: seq<Bytes>, seen: nat) returns (answer: Result<bool, Failure>)
      requires Valid() && expression != []
      modifies cache.Repr()
      ensures Valid() && answer == Decide(expression, labels)
      ensures cache.Contents() == if answer.Ok? && seen == generation
                                  then PutDecision(old(cache.Contents()), expression, answer.value, CAPACITY)
                                  else old(cache.Contents())
    {
      hide PutDecision, Without, Take, ContentsOf, Consistent;
      hide ParseExpression, ParseLoop, EvaluateNode;
      var parsed := NewColumnVisibility(expression);
      if parsed.Err? { return Err(Malformed(parsed.error)); }
      var result := EvaluateNode(expression, parsed.value, labels);
      if result.Err? { return Err(Undecided(result.error)); }
      Remember(expression, seen, result.value);
      return Ok(result.value);
    }
  }

  // ---- Every interleaving of the sections ----

  /** A call between its two sections: what it read, and how many replacements had been made by then. */
  datatype Call = Call(expression: Bytes, labels: seq<Bytes>, seen: nat, started: nat)

  datatype Answer = Answer(expression: Bytes, labels: seq<Bytes>, result: Result<bool, Failure>)

  datatype State = State(
    labels: seq<Bytes>, generation: nat, cache: seq<Decision>, replacements: nat,
    calls: map<nat, Call>, answers: seq<Answer>)

  datatype Step =
    | Begin(id: nat, expression: Bytes)
    | Finish(id: nat)
    | Replace(labels: seq<Bytes>)

  function Next(s: State, step: Step): State {
    match step
    case Begin(id, expression) =>
      if expression == [] then s.(answers := s.answers + [Answer(expression, s.labels, Ok(true))])
      else if Lookup(s.cache, expression).Some? then
        s.(cache := Touch(s.cache, expression),
           answers := s.answers + [Answer(expression, s.labels, Ok(Lookup(s.cache, expression).value))])
      else s.(calls := s.calls[id := Call(expression, s.labels, s.generation, s.replacements)])
    case Finish(id) =>
      if id !in s.calls then s
      else
        var call := s.calls[id];
        var result := Decide(call.expression, call.labels);
        s.(calls := s.calls - {id},
           answers := s.answers + [Answer(call.expression, call.labels, result)],
           cache := if result.Ok? && s.generation == call.seen
                    then PutDecision(s.cache, call.expression, result.value, CAPACITY) else s.cache)
    case Replace(labels) =>
      s.(labels := labels, generation := (s.generation + 1) % GENERATIONS, cache := [], replacements := s.replacements + 1)
  }

  /** The evaluator's fields are those of the state. */
  ghost predicate InState(evaluator: Evaluator, s: State)
    reads evaluator, evaluator.auths, evaluator.cache, evaluator.cache.order
  {
    && evaluator.Valid()
    && s.labels == evaluator.auths.labels && s.generation == evaluator.generation
    && s.cache == evaluator.cache.Contents()
  }

  /** The steps are what the evaluator's methods do, one locked section each: the fields become those of the
      next state, and so do the calls between their sections and the answers given. */
  method Perform(evaluator: Evaluator, ghost s: State, calls: map<nat, Call>, answers: seq<Answer>, replacements: nat,
      step: Step)
    returns (calls': map<nat, Call>, answers': seq<Answer>)
    requires Counted(s) && InState(evaluator, s) && (step.Replace? ==> StrictlySorted(step.labels))
    requires calls == s.calls && answers == s.answers && replacements == s.replacements
    modifies evaluator, evaluator.cache.Repr()
    ensures InState(evaluator, Next(s, step)) && calls' == Next(s, step).calls && answers' == Next(s, step).answers
  {
    hide PutDecision, Without, Take, ContentsOf, Consistent, Lookup, Decide;
    calls', answers' := calls, answers;
    match step {
      case Begin(id, expression) =>
        if expression == [] {
          answers' := answers + [Answer(expression, evaluator.auths.labels, Ok(true))];
        } else {
          var cached, labels, seen := evaluator.Recall(expression);
          if cached.Some? {
            answers' := answers + [Answer(expression, labels, Ok(cached.value))];
          } else {
            calls' := calls[id := Call(expression, labels, seen, replacements)];
          }
        }
      case Finish(id) =>
        if id in calls {
          var call := calls[id];
          var answer := evaluator.Conclude(call.expression, call.labels, call.seen);
          calls', answers' := calls - {id}, answers + [Answer(call.expression, call.labels, answer)];
        }
      case Replace(labels) =>
        var auths := new Authorizations();
        auths.labels := labels;
        evaluator.SetAuthorizations(auths);
    }
  }

  function Run(s: State, steps: seq<Step>): State {
    if steps == [] then s else Next(Run(s, steps[..|steps| - 1]), steps[|steps| - 1])
  }

  function Initial(labels: seq<Bytes>): State {
    State(labels, 1, [], 1, map[], [])
  }

  /** The counter and the calls in flight are consistent. */
  ghost predicate Counted(s: State) {
    && s.generation == s.replacements % GENERATIONS
    && forall id :: id in s.calls ==>
         var call := s.calls[id];
         && call.expression != []
         && call.started <= s.replacements && call.seen == call.started % GENERATIONS
         && (call.started == s.replacements ==> call.labels == s.labels)
  }

  ghost predicate Truthful(s: State) {
    && Faithful(s.cache, s.labels)
    && forall i :: 0 <= i < |s.answers| ==> s.answers[i].result == Decide(s.answers[i].expression, s.answers[i].labels)
  }

  /** A call that lasted through a positive multiple of 2^64 replacements sees its generation again. */
  ghost predicate WrapsAround(s: State, step: Step) {
    step.Finish? && step.id in s.calls &&
    var lasted := s.replacements - s.calls[step.id].started; lasted > 0 && lasted % GENERATIONS == 0
  }

  lemma {:induction false} RunsAreCounted(labels: seq<Bytes>, steps: seq<Step>)
    ensures Counted(Run(Initial(labels), steps))
  {
    if steps != [] {
      hide Next, Counted;
      RunsAreCounted(labels, steps[..|steps| - 1]);
      StepKeepsCount(Run(Initial(labels), steps[..|steps| - 1]), steps[|steps| - 1]);
    }
  }

  lemma StepKeepsCount(s: State, step: Step)
    requires Counted(s)
    ensures Counted(Next(s, step))
  {
    hide Lookup, Touch, PutDecision, Decide;
    if step.Replace? { assert (s.replacements % GENERATIONS + 1) % GENERATIONS == (s.replacements + 1) % GENERATIONS; }
  }

  lemma SameRemainder(a: nat, b: nat)
    requires a <= b
    ensures a % GENERATIONS == b % GENERATIONS <==> (b - a) % GENERATIONS == 0
  {
  }

  /** One step keeps every cached decision true exactly when it is not a call that wrapped around the
      generation counter with a decision the authorizations now in force do not share. */
  lemma StepKeepsTruth(s: State, step: Step)
    requires Counted(s) && Truthful(s)
    ensures Truthful(Next(s, step))
            <==> !(WrapsAround(s, step)
                   && Decide(s.calls[step.id].expression, s.calls[step.id].labels).Ok?
                   && Decide(s.calls[step.id].expression, s.calls[step.id].labels)
                      != Decide(s.calls[step.id].expression, s.labels))
  {
    match step
    case Begin(id, expression) =>
      TouchKeepsFaithful(s.cache, expression, s.labels);
    case Finish(id) =>
      if id in s.calls {
        var call := s.calls[id];
        SameRemainder(call.started, s.replacements);
        var result := Decide(call.expression, call.labels);
        if result.Ok? { PutKeepsFaithful(s.cache, call.expression, result.value, s.labels); }
        assert forall i :: 0 <= i < |s.answers| ==> Next(s, step).answers[i] == s.answers[i];
      }
    case Replace(_) =>
  }

  ghost predicate NoCallWraps(s: State, steps: seq<Step>) {
    forall i :: 0 <= i < |steps| ==> !WrapsAround(Run(s, steps[..i]), steps[i])
  }

  /** In every interleaving in which no call outlasts 2^64 replacements, every cached decision is the
      fresh decision for the authorizations now in force, and every answer is the fresh decision for
      the authorizations its call read. */
  lemma {:induction false} InterleavingsAreTruthful(labels: seq<Bytes>, steps: seq<Step>)
    requires NoCallWraps(Initial(labels), steps)
    ensures Truthful(Run(Initial(labels), steps))
  {
    if steps != [] {
      var front := steps[..|steps| - 1];
      forall i | 0 <= i < |front| ensures !WrapsAround(Run(Initial(labels), front[..i]), front[i]) {
        assert front[..i] == steps[..i];
      }
      InterleavingsAreTruthful(labels, front);
      RunsAreCounted(labels, front);
      StepKeepsTruth(Run(Initial(labels), front), steps[|steps| - 1]);
    }
  }

  /** Every label list of the state is a set in order. */
  ghost predicate Sorted(s: State) {
    && StrictlySorted(s.labels)
    && (forall id :: id in s.calls ==> StrictlySorted(s.calls[id].labels))
    && (forall i :: 0 <= i < |s.answers| ==> StrictlySorted(s.answers[i].labels))
  }

  lemma {:induction false} RunsAreSorted(labels: seq<Bytes>, steps: seq<Step>)
    requires StrictlySorted(labels) && forall i :: 0 <= i < |steps| && steps[i].Replace? ==> StrictlySorted(steps[i].labels)
    ensures Sorted(Run(Initial(labels), steps))
  {
    hide StrictlySorted, Lookup, Touch, PutDecision, Decide;
    if steps != [] {
      var front := steps[..|steps| - 1];
      assert forall i :: 0 <= i < |front| ==> front[i] == steps[i];
      RunsAreSorted(labels, front);
      assert Run(Initial(labels), steps) == Next(Run(Initial(labels), front), steps[|steps| - 1]);
    }
  }

  /** In such an interleaving every answer, and every cached decision, is the one the grammar gives for the
      authorizations it was asked under. */
  lemma InterleavingsAnswerTheGrammar(labels: seq<Bytes>, steps: seq<Step>)
    requires StrictlySorted(labels) && forall i :: 0 <= i < |steps| && steps[i].Replace? ==> StrictlySorted(steps[i].labels)
    requires NoCallWraps(Initial(labels), steps)
    ensures var s := Run(Initial(labels), steps);
            && (forall i :: 0 <= i < |s.answers| ==> Meant(s.answers[i].expression, s.answers[i].labels, s.answers[i].result))
            && (forall d :: d in s.cache ==> Meant(d.key, s.labels, Ok(d.value)))
  {
    hide StrictlySorted, Run, Decide, Meant;
    InterleavingsAreTruthful(labels, steps);
    RunsAreSorted(labels, steps);
    var s := Run(Initial(labels), steps);
    forall i | 0 <= i < |s.answers| ensures Meant(s.answers[i].expression, s.answers[i].labels, s.answers[i].result) {
      DecisionIsMeant(s.answers[i].expression, s.answers[i].labels);
    }
    forall d | d in s.cache ensures Meant(d.key, s.labels, Ok(d.value)) {
      DecisionIsMeant(d.key, s.labels);
    }
  }

  /** A short run cannot wrap the counter. */
  lemma {:induction false} ReplacementsAreSteps(labels: seq<Bytes>, steps: seq<Step>)
    ensures 1 <= Run(Initial(labels), steps).replacements <= 1 + |steps|
    ensures forall id :: id in Run(Initial(labels), steps).calls ==> Run(Initial(labels), steps).calls[id].started >= 1
  {
    if steps != [] { ReplacementsAreSteps(labels, steps[..|steps| - 1]); }
  }

  lemma ShortRunsAreTruthful(labels: seq<Bytes>, steps: seq<Step>)
    requires |steps| < GENERATIONS
    ensures Truthful(Run(Initial(labels), steps))
  {
    hide Next, Run, Truthful;
    forall i | 0 <= i < |steps| ensures !WrapsAround(Run(Initial(labels), steps[..i]), steps[i]) {
      ReplacementsAreSteps(labels, steps[..i]);
      var s := Run(Initial(labels), steps[..i]);
      if steps[i].Finish? && steps[i].id in s.calls { assert s.calls[steps[i].id].started >= 1; }
    }
    InterleavingsAreTruthful(labels, steps);
  }

  lemma {:induction false} Replacing(s: State, n: nat, labels: seq<Bytes>)
    ensures var s' := Run(s, seq(n, _ => Replace(labels)));
            && s'.replacements == s.replacements + n && s'.calls == s.calls
            && (n > 0 ==> s'.labels == labels && s'.cache == [])
  {
    if n > 0 {
      var steps := seq(n, _ => Replace(labels));
      assert steps[..n - 1] == seq(n - 1, _ => Replace(labels));
      Replacing(s, n - 1, labels);
    }
  }

  const A: Bytes := [0x61]

  /** One call begun under the set {a}, and 2^64 replacements by the empty set. */
  ghost function WrappingRun(): seq<Step> {
    [Begin(0, A)] + seq(GENERATIONS, _ => Replace([]))
  }

  lemma WrappingRunWraps()
    ensures var s := Run(Initial([A]), WrappingRun());
            && WrapsAround(s, Finish(0)) && s.labels == [] && s.cache == []
            && s.calls[0].expression == A && s.calls[0].labels == [A]
  {
    hide Lookup;
    var s0 := Initial([A]);
    assert Run(s0, []) == s0;
    assert Run(s0, [Begin(0, A)]) == Next(s0, Begin(0, A));
    assert Lookup(s0.cache, A) == None by { LookupFinds([], A); }
    RunConcat(s0, [Begin(0, A)], seq(GENERATIONS, _ => Replace([])));
    Replacing(Next(s0, Begin(0, A)), GENERATIONS, []);
  }

  /** The counter does wrap: one call that outlasts 2^64 replacements leaves a false decision behind. */
  lemma WrappedGenerationIsStale()
    ensures !Truthful(Run(Initial([A]), WrappingRun() + [Finish(0)]))
  {
    var s := Run(Initial([A]), WrappingRun());
    WrappingRunWraps();
    RunsAreCounted([A], WrappingRun());
    DecidesTermA();
    assert (WrappingRun() + [Finish(0)])[..|WrappingRun()|] == WrappingRun();
    SameRemainder(s.calls[0].started, s.replacements);
    hide Run, Decide, WrappingRun;
    var t := Next(s, Finish(0));
    assert t.cache[0] == Decision(A, true);
  }

  lemma {:induction false} RunConcat(s: State, a: seq<Step>, b: seq<Step>)
    ensures Run(s, a + b) == Run(Run(s, a), b)
    decreases |b|
  {
    if b == [] {
      assert a + b == a;
    } else {
      assert (a + b)[..|a + b| - 1] == a + b[..|b| - 1];
      RunConcat(s, a, b[..|b| - 1]);
    }
  }

  lemma DecidesTermA()
    ensures Decide(A, [A]) == Ok(true) && Decide(A, []) == Ok(false)
  {
    var e := A;
    var s := Fresh(0);
    assert ParseLoop(e, 0, 0, s) == ParseLoop(e, 0, 0, s.(index := 1));
    assert ParseExpression(e) == Ok(TermNode(e, 0, 1));
    assert e[0..1] == e;
    ContainsIsMembership([e], e);
    ContainsIsMembership([], e);
  }
}
