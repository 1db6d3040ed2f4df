/** Installing constraints from several clients over one versioned property store. */
module AddConstraint {
  import opened Wrappers
  import opened Constraints

  /** A table's own properties and the version a write must present to replace them. */
  datatype Versioned = Versioned(version: nat, properties: Properties)

  datatype ConstraintError = EmptyTableName | InvalidClassName | ReadFailed | WriteFailed | NumberUnavailable

  /** What a client that has read both property sets does: the class is there already, or it is written
      under a number. */
  datatype Decision = Found(number: nat) | Put(number: nat)

  ghost predicate Used(view: Properties, number: nat) {
    exists className :: Installs(view, className, number)
  }

  /** The client's view of the table: what everyone sees, overlaid with the table's own properties. */
  function View(effective: Properties, owned: Properties): Properties {
    effective + owned
  }

  /** `d` is what the view calls for. */
  ghost predicate Decides(view: Properties, className: string, d: Decision) {
    match d
    case Found(n) => Installs(view, className, n) && forall m :: Installs(view, className, m) ==> n <= m
    case Put(n) =>
      && (forall m :: !Installs(view, className, m))
      && n >= 1 && !Used(view, n) && forall m :: 1 <= m < n ==> Used(view, m)
  }

  lemma DecisionIsUnique(view: Properties, className: string, d: Decision, e: Decision)
    requires Decides(view, className, d) && Decides(view, className, e)
    ensures d == e
  {
  }

  method Decide(effective: Properties, owned: Properties, className: string) returns (d: Decision)
    ensures Decides(View(effective, owned), className, d)
    ensures d.Put? ==> d.number <= |View(effective, owned)| + 1
  {
    hide Installs, Decides;
    var view := MergeProperties(effective, owned);
    var visible := ParseConstraints(view);
    var number := ConstraintNumberOf(visible, className);
    if number.Some? {
      FoundDecides(view, visible, className, number.value);
      return Found(number.value);
    }
    var next := NextConstraintNumber(visible);
    PutDecides(view, visible, className, next);
    return Put(next);
  }

  lemma FoundDecides(view: Properties, visible: seq<Constraint>, className: string, n: nat)
    requires forall c :: c in visible <==> Installs(view, c.className, c.number)
    requires Constraint(className, n) in visible
    requires forall c :: c in visible && c.className == className ==> n <= c.number
    ensures Decides(view, className, Found(n))
  {
    hide Installs;
    assert Installs(view, Constraint(className, n).className, n);
    forall m | Installs(view, className, m) ensures n <= m {
      assert Constraint(className, m) in visible;
    }
  }

  lemma PutDecides(view: Properties, visible: seq<Constraint>, className: string, n: nat)
    requires forall c :: c in visible <==> Installs(view, c.className, c.number)
    requires forall c :: c in visible ==> c.className != className
    requires LeastFree(Numbers(visible), n)
    ensures Decides(view, className, Put(n))
  {
    hide Installs, Used;
    UsedNumbers(view, visible);
    forall m ensures !Installs(view, className, m) {
      var c := Constraint(className, m);
      assert c in visible <==> Installs(view, c.className, c.number);
    }
  }

  lemma UsedNumbers(view: Properties, visible: seq<Constraint>)
    requires forall c :: c in visible <==> Installs(view, c.className, c.number)
    ensures forall m :: Used(view, m) <==> m in Numbers(visible)
  {
    hide Installs;
    forall m: nat ensures Used(view, m) <==> m in Numbers(visible) {
      if Used(view, m) {
        var name :| Installs(view, name, m);
        assert Constraint(name, m) in visible;
      }
      if c :| c in visible && c.number == m { assert Installs(view, c.className, m); }
    }
  }

  // ---- One client ----

  /** What will come of one attempt: the two reads, the store as the write finds it, and, when the write
      fails otherwise than by finding a newer version, whether it still reached the store. */
  datatype Attempt = Attempt(owned: Option<Versioned>, effective: Option<Properties>, store: Versioned, lost: Option<bool>)

  /** Whitespace that a class name may not hold. */
  predicate ValidClassName(className: string) {
    className != "" && forall c :: c in className ==> c !in " \t\r\n"
  }

  function Installed(properties: Properties, number: nat, className: string): Properties {
    properties[PropertyOf(number) := className]
  }

  /** A call's result and the store each of its writes left. */
  datatype Call = Call(result: Result<nat, ConstraintError>, writes: seq<Versioned>)

  /** `call` is what AddConstraint does from the given attempt on. */
  ghost predicate Calls(className: string, attempt: nat, attempts: nat -> Attempt, call: Call)
    requires attempt <= ALLOCATION_ATTEMPTS
    decreases ALLOCATION_ATTEMPTS - attempt
  {
    if attempt == ALLOCATION_ATTEMPTS then call == Call(Err(NumberUnavailable), [])
    else
      var a := attempts(attempt);
      if a.owned.None? || a.effective.None? then call == Call(Err(ReadFailed), [])
      else
        exists d :: Decides(View(a.effective.value, a.owned.value.properties), className, d)
                    && if d.Found? then call == Call(Ok(d.number), [])
                       else if a.lost == Some(false) then call == Call(Err(WriteFailed), [])
                       else if a.store.version != a.owned.value.version then Calls(className, attempt + 1, attempts, call)
                       else
                         call == Call(if a.lost.Some? then Err(WriteFailed) else Ok(d.number),
                                      [Versioned(a.store.version + 1, Installed(a.owned.value.properties, d.number, className))])
  }

  method AddTableConstraint(tableName: string, className: string, attempts: nat -> Attempt) returns (call: Call)
    ensures tableName == "" ==> call == Call(Err(EmptyTableName), [])
    ensures tableName != "" && !ValidClassName(className) ==> call == Call(Err(InvalidClassName), [])
    ensures tableName != "" && ValidClassName(className) ==> Calls(className, 0, attempts, call)
  {
    hide Decides, Installed;
    if tableName == "" { return Call(Err(EmptyTableName), []); }
    if className == "" || exists c :: c in className && c in " \t\r\n" { return Call(Err(InvalidClassName), []); }
    for attempt := 0 to ALLOCATION_ATTEMPTS
      invariant forall call :: Calls(className, attempt, attempts, call) ==> Calls(className, 0, attempts, call)
    {
      var a := attempts(attempt);
      if a.owned.None? || a.effective.None? { return Call(Err(ReadFailed), []); }
      var owned := a.owned.value;
      var d := Decide(a.effective.value, owned.properties, className);
      if d.Found? { return Call(Ok(d.number), []); }
      if a.lost == Some(false) { return Call(Err(WriteFailed), []); }
      if a.store.version == owned.version {
        var next := Versioned(owned.version + 1, Installed(owned.properties, d.number, className));
        return Call(if a.lost.Some? then Err(WriteFailed) else Ok(d.number), [next]);
      }
    }
    return Call(Err(NumberUnavailable), []);
  }

  // ---- Every client at once ----

  /** Where a client is in its current attempt. */
  datatype Phase =
    | Start
    | HasOwned(base: Versioned)
    | HasBoth(base: Versioned, effective: Properties)
    | Finished(result: Result<nat, ConstraintError>)

  datatype Client = Client(className: string, attempt: nat, phase: Phase)

  datatype System = System(store: Versioned, clients: seq<Client>)

  /** A client's next move, with what it reads or how its write ends. */
  datatype Move = ReadOwned | ReadEffective(effective: Properties) | ReadFails
    | Write(number: nat, lost: Option<bool>) | Find(number: nat)

  /** The moves open to a client. What it reads of the effective properties is anything at all. */
  ghost predicate Open(client: Client, move: Move) {
    match client.phase
    case Start => move.ReadOwned? || move.ReadFails?
    case HasOwned(_) => move.ReadEffective? || move.ReadFails?
    case HasBoth(base, effective) =>
      var view := View(effective, base.properties);
      (move.Write? && Decides(view, client.className, Put(move.number)))
      || (move.Find? && Decides(view, client.className, Found(move.number)))
    case Finished(_) => false
  }

  function Moved(store: Versioned, client: Client, move: Move): (Versioned, Client) {
    match move
    case ReadFails => (store, client.(phase := Finished(Err(ReadFailed))))
    case ReadOwned => (store, client.(phase := HasOwned(store)))
    case ReadEffective(effective) =>
      (store, if client.phase.HasOwned? then client.(phase := HasBoth(client.phase.base, effective)) else client)
    case Find(number) => (store, client.(phase := Finished(Ok(number))))
    case Write(number, lost) =>
      if !client.phase.HasBoth? then (store, client)
      else if lost == Some(false) then (store, client.(phase := Finished(Err(WriteFailed))))
      else
        var base := client.phase.base;
        if store.version != base.version then
          (store, if client.attempt + 1 >= ALLOCATION_ATTEMPTS then client.(phase := Finished(Err(NumberUnavailable)))
                  else client.(attempt := client.attempt + 1, phase := Start))
        else
          (Versioned(base.version + 1, Installed(base.properties, number, client.className)),
           client.(phase := Finished(if lost.Some? then Err(WriteFailed) else Ok(number))))
  }

  ghost predicate MayMove(s: System, i: nat, move: Move) {
    i < |s.clients| && Open(s.clients[i], move)
  }

  function Next(s: System, i: nat, move: Move): System
    requires i < |s.clients|
  {
    var (store, client) := Moved(s.store, s.clients[i], move);
    System(store, s.clients[i := client])
  }

  /** What a client read is what the store held at that version. */
  ghost predicate Consistent(s: System) {
    forall i :: 0 <= i < |s.clients| ==> Fresh(s.store, s.clients[i])
  }

  predicate Fresh(store: Versioned, client: Client) {
    && (client.phase.HasOwned? || client.phase.HasBoth? ==>
          client.phase.base.version <= store.version
          && (client.phase.base.version == store.version ==> client.phase.base == store))
    && ValidClassName(client.className)
  }

  /** In the table's own properties a class has one number and a number has one class. */
  ghost predicate OneToOne(properties: Properties) {
    forall a, b, m: nat, n: nat :: Installs(properties, a, m) && Installs(properties, b, n) ==> (a == b <==> m == n)
  }

  /** The number a client writes under must be one a 32-bit property can name. */
  ghost predicate Nameable(move: Move) {
    move.Write? ==> move.number < INT32_LIMIT
  }

  lemma PropertyNamesNumber(number: nat, className: string)
    requires 1 <= number < INT32_LIMIT && className != ""
    ensures NumberIn(PropertyOf(number), className) == Some(number)
  {
    FormatParses(number);
    assert PropertyOf(number)[|PREFIX|..] == FormatInt(number);
  }

  /** What the new properties install: what they did, and the class under its number. */
  lemma InstalledInstalls(properties: Properties, number: nat, className: string, other: string, n: nat)
    requires 1 <= number < INT32_LIMIT && className != ""
    requires forall c :: !Installs(properties, c, number)
    ensures Installs(Installed(properties, number, className), other, n)
            <==> Installs(properties, other, n) || (other == className && n == number)
    ensures PropertyOf(number) !in properties || properties[PropertyOf(number)] == ""
  {
    hide NumberIn;
    var key, after := PropertyOf(number), Installed(properties, number, className);
    PropertyNamesNumber(number, className);
    NamedIsInstalled(properties, number);
    if Installs(properties, other, n) {
      var p :| p in properties && properties[p] == other && NumberIn(p, other) == Some(n);
      if p == key { NamesNothing(p); }
      assert p in after && after[p] == other;
    }
    assert key in after && after[key] == className;
    if Installs(after, other, n) {
      var p :| p in after && after[p] == other && NumberIn(p, other) == Some(n);
      if p != key { assert p in properties && properties[p] == other; }
    }
  }

  lemma NamedIsInstalled(properties: Properties, number: nat)
    requires 1 <= number < INT32_LIMIT
    ensures var key := PropertyOf(number);
            key in properties && properties[key] != "" ==> Installs(properties, properties[key], number)
  {
    var key := PropertyOf(number);
    if key in properties && properties[key] != "" { PropertyNamesNumber(number, properties[key]); }
  }

  lemma NamesNothing(property: string)
    ensures NumberIn(property, "") == None
  {
  }

  /** The table's own constraints are part of every client's view of it. */
  lemma OwnedIsVisible(effective: Properties, owned: Properties, className: string, number: nat)
    requires Installs(owned, className, number)
    ensures Installs(View(effective, owned), className, number)
  {
    var p :| p in owned && owned[p] == className && NumberIn(p, className) == Some(number);
    assert p in View(effective, owned) && View(effective, owned)[p] == className;
  }

  /** A move that changes the table's properties only adds: it replaces no installed class, the class had
      no number before and has this one now, and the number was the least one free in the client's view. */
  lemma WritesAdd(s: System, i: nat, move: Move)
    requires Consistent(s) && MayMove(s, i, move) && Nameable(move) && Next(s, i, move).store != s.store
    ensures move.Write?
    ensures var client, key := s.clients[i], PropertyOf(move.number);
            var after := Next(s, i, move).store;
            && client.phase.HasBoth?
            && after == Versioned(s.store.version + 1, s.store.properties[key := client.className])
            && (key !in s.store.properties || s.store.properties[key] == "")
            && (forall n :: !Installs(s.store.properties, client.className, n))
            && (forall c :: !Installs(s.store.properties, c, move.number))
            && Decides(View(client.phase.effective, s.store.properties), client.className, Put(move.number))
            && forall c, n :: Installs(after.properties, c, n)
                              <==> Installs(s.store.properties, c, n) || (c == client.className && n == move.number)
  {
    hide Installs;
    var client := s.clients[i];
    assert Fresh(s.store, client);
    assert client.phase.HasBoth? && client.phase.base == s.store;
    var owned, view := s.store.properties, View(client.phase.effective, s.store.properties);
    forall c, n | Installs(owned, c, n) ensures Installs(view, c, n) {
      OwnedIsVisible(client.phase.effective, owned, c, n);
    }
    forall c ensures !Installs(owned, c, move.number) {
      assert Installs(view, c, move.number) ==> Used(view, move.number);
    }
    forall c, n
      ensures Installs(Installed(owned, move.number, client.className), c, n)
              <==> Installs(owned, c, n) || (c == client.className && n == move.number)
    {
      InstalledInstalls(owned, move.number, client.className, c, n);
    }
    InstalledInstalls(owned, move.number, client.className, client.className, move.number);
  }

  lemma NextKeeps(s: System, i: nat, move: Move)
    requires Consistent(s) && OneToOne(s.store.properties) && MayMove(s, i, move) && Nameable(move)
    ensures Consistent(Next(s, i, move)) && OneToOne(Next(s, i, move).store.properties)
  {
    hide Installs, Decides, Installed, ValidClassName;
    assert Fresh(s.store, s.clients[i]);
    var s' := Next(s, i, move);
    forall j | 0 <= j < |s'.clients| ensures Fresh(s'.store, s'.clients[j]) {
      assert Fresh(s.store, s.clients[j]);
    }
    if s'.store != s.store { WritesAdd(s, i, move); }
  }

  function Run(s: System, moves: seq<(nat, Move)>): System
    decreases moves
  {
    if moves == [] || moves[0].0 >= |s.clients| then s else Run(Next(s, moves[0].0, moves[0].1), moves[1..])
  }

  ghost predicate OpenRun(s: System, moves: seq<(nat, Move)>)
    decreases moves
  {
    moves != [] ==>
      MayMove(s, moves[0].0, moves[0].1) && Nameable(moves[0].1) && OpenRun(Next(s, moves[0].0, moves[0].1), moves[1..])
  }

  /** In every interleaving of clients, a class never gets two numbers, nor a number two classes, among the
      table's own properties; and what was installed stays installed. */
  lemma {:induction false} InterleavingsKeepNumbers(s: System, moves: seq<(nat, Move)>, className: string, number: nat)
    requires Consistent(s) && OneToOne(s.store.properties) && OpenRun(s, moves)
    ensures Consistent(Run(s, moves)) && OneToOne(Run(s, moves).store.properties)
    ensures Installs(s.store.properties, className, number) ==> Installs(Run(s, moves).store.properties, className, number)
    decreases moves
  {
    hide Installs, Next, Consistent, OneToOne, Open;
    if moves != [] {
      var (i, move) := moves[0];
      NextKeeps(s, i, move);
      if Next(s, i, move).store != s.store { WritesAdd(s, i, move); }
      NextSize(s, i, move);
      InterleavingsKeepNumbers(Next(s, i, move), moves[1..], className, number);
    }
  }

  lemma NextSize(s: System, i: nat, move: Move)
    requires i < |s.clients|
    ensures |Next(s, i, move).clients| == |s.clients|
  {
  }

  // ---- The clients of the system are calls ----

  /** A client's own moves, each with the store it was made on; other clients may move in between. */
  function OwnEnd(client: Client, steps: seq<(Versioned, Move)>): Client
    decreases steps
  {
    if steps == [] then client else OwnEnd(Moved(steps[0].0, client, steps[0].1).1, steps[1..])
  }

  ghost predicate OwnOpen(client: Client, steps: seq<(Versioned, Move)>)
    decreases steps
  {
    steps != [] ==> Open(client, steps[0].1) && OwnOpen(Moved(steps[0].0, client, steps[0].1).1, steps[1..])
  }

  /** The stores its writes left. */
  function OwnWrites(client: Client, steps: seq<(Versioned, Move)>): seq<Versioned>
    decreases steps
  {
    if steps == [] then []
    else
      var (store, client') := Moved(steps[0].0, client, steps[0].1);
      (if store == steps[0].0 then [] else [store]) + OwnWrites(client', steps[1..])
  }

  lemma {:induction false} CallsLookAhead(className: string, attempt: nat, attempts: nat -> Attempt, others: nat -> Attempt,
      call: Call)
    requires attempt <= ALLOCATION_ATTEMPTS && Calls(className, attempt, attempts, call)
    requires forall k: nat :: k >= attempt ==> others(k) == attempts(k)
    ensures Calls(className, attempt, others, call)
    decreases ALLOCATION_ATTEMPTS - attempt
  {
    hide Decides, Installed, View;
    if attempt < ALLOCATION_ATTEMPTS && Calls(className, attempt + 1, attempts, call) {
      CallsLookAhead(className, attempt + 1, attempts, others, call);
    }
  }

  /** A client that starts its first attempt and finishes has made exactly a call of AddConstraint: the same
      decisions on the same reads, the same result and the same writes. */
  lemma {:induction false} OwnMovesAreCall(client: Client, steps: seq<(Versioned, Move)>)
    returns (attempts: nat -> Attempt, call: Call)
    requires client.phase.Start? && client.attempt < ALLOCATION_ATTEMPTS && OwnOpen(client, steps)
    requires OwnEnd(client, steps).phase.Finished?
    ensures Calls(client.className, client.attempt, attempts, call)
    ensures call.result == OwnEnd(client, steps).phase.result && call.writes == OwnWrites(client, steps)
    decreases steps
  {
    hide Decides, Installed, View, OwnEnd, OwnWrites, OwnOpen;
    OwnSteps(client, steps);
    var (store0, first) := steps[0];
    var read := Moved(store0, client, first).1;
    if first.ReadFails? {
      FinishedStays(read, steps[1..]);
      OwnSteps(read, []);
      attempts := _ => Attempt(None, None, store0, None);
      call := Call(Err(ReadFailed), []);
      return;
    }
    OwnSteps(read, steps[1..]);
    var (store1, second) := steps[1..][0];
    var viewed := Moved(store1, read, second).1;
    if second.ReadFails? {
      FinishedStays(viewed, steps[1..][1..]);
      OwnSteps(viewed, []);
      attempts := _ => Attempt(Some(store0), None, store0, None);
      call := Call(Err(ReadFailed), []);
      return;
    }
    var rest := steps[1..][1..];
    OwnSteps(viewed, rest);
    var (store2, third) := rest[0];
    var after := Moved(store2, viewed, third).1;
    var a := Attempt(Some(store0), Some(second.effective), store2, if third.Write? then third.lost else None);
    if after.phase.Start? {
      var later;
      later, call := OwnMovesAreCall(after, rest[1..]);
      attempts := (k: nat) => if k == client.attempt then a else later(k);
      CallsLookAhead(client.className, client.attempt + 1, later, attempts, call);
      assert Decides(View(second.effective, store0.properties), client.className, Put(third.number));
    } else {
      FinishedStays(after, rest[1..]);
      OwnSteps(after, []);
      attempts := _ => a;
      var d := if third.Find? then Found(third.number) else Put(third.number);
      assert Decides(View(second.effective, store0.properties), client.className, d);
      call := Call(after.phase.result, OwnWrites(client, steps));
    }
  }

  /** A client that has not finished but will has a move to make. */
  lemma OwnSteps(client: Client, steps: seq<(Versioned, Move)>)
    ensures steps == [] ==> OwnEnd(client, steps) == client && OwnWrites(client, steps) == []
    ensures OwnEnd(client, steps).phase.Finished? && !client.phase.Finished? ==> steps != []
    ensures steps != [] ==>
              var (store, client') := Moved(steps[0].0, client, steps[0].1);
              && (OwnOpen(client, steps) ==> Open(client, steps[0].1) && OwnOpen(client', steps[1..]))
              && OwnEnd(client, steps) == OwnEnd(client', steps[1..])
              && OwnWrites(client, steps) == (if store == steps[0].0 then [] else [store]) + OwnWrites(client', steps[1..])
  {
  }

  lemma FinishedStays(client: Client, steps: seq<(Versioned, Move)>)
    requires client.phase.Finished? && OwnOpen(client, steps)
    ensures steps == []
  {
  }

  /** The moves of one client in a run, each with the store it finds. */
  function StepsOf(s: System, moves: seq<(nat, Move)>, i: nat): seq<(Versioned, Move)>
    decreases moves
  {
    if moves == [] || moves[0].0 >= |s.clients| then []
    else
      (if moves[0].0 == i then [(s.store, moves[0].1)] else [])
      + StepsOf(Next(s, moves[0].0, moves[0].1), moves[1..], i)
  }

  lemma {:induction false} ClientMakesItsMoves(s: System, moves: seq<(nat, Move)>, i: nat)
    requires i < |s.clients| && OpenRun(s, moves)
    ensures |Run(s, moves).clients| == |s.clients|
    ensures OwnOpen(s.clients[i], StepsOf(s, moves, i))
    ensures OwnEnd(s.clients[i], StepsOf(s, moves, i)) == Run(s, moves).clients[i]
    decreases moves
  {
    hide Open, Moved, Nameable;
    if moves != [] {
      var (j, move) := moves[0];
      var s' := Next(s, j, move);
      ClientMakesItsMoves(s', moves[1..], i);
      var later := StepsOf(s', moves[1..], i);
      if j == i {
        assert StepsOf(s, moves, i) == [(s.store, move)] + later;
        assert ([(s.store, move)] + later)[1..] == later;
      } else {
        assert StepsOf(s, moves, i) == [] + later == later;
      }
    }
  }

  /** In every interleaving, a client that started and finished has made exactly a call of AddConstraint. */
  lemma ClientsMakeCalls(s: System, moves: seq<(nat, Move)>, i: nat) returns (attempts: nat -> Attempt, call: Call)
    requires i < |s.clients| && OpenRun(s, moves) && s.clients[i].phase.Start? && s.clients[i].attempt == 0
    requires |Run(s, moves).clients| == |s.clients| && Run(s, moves).clients[i].phase.Finished?
    ensures Calls(s.clients[i].className, 0, attempts, call)
    ensures call.result == Run(s, moves).clients[i].phase.result
    ensures call.writes == OwnWrites(s.clients[i], StepsOf(s, moves, i))
  {
    ClientMakesItsMoves(s, moves, i);
    attempts, call := OwnMovesAreCall(s.clients[i], StepsOf(s, moves, i));
  }
}
