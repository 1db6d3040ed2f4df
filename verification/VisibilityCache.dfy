/** The bounded least-recently-used decision cache: a map into a recency-ordered list of entries. */
module VisibilityCache {
  import opened Bytes
  import opened Wrappers

  datatype Decision = Decision(key: Bytes, value: bool)

  // ---- The cache as a list, most recent first ----

  predicate HasKey(list: seq<Decision>, key: Bytes) {
    exists i :: 0 <= i < |list| && list[i].key == key
  }

  function Lookup(list: seq<Decision>, key: Bytes): Option<bool> {
    if list == [] then None
    else if list[0].key == key then Some(list[0].value)
    else Lookup(list[1..], key)
  }

  function Without(list: seq<Decision>, key: Bytes): seq<Decision> {
    if list == [] then []
    else if list[0].key == key then Without(list[1..], key)
    else [list[0]] + Without(list[1..], key)
  }

  function Touch(list: seq<Decision>, key: Bytes): seq<Decision> {
    match Lookup(list, key)
    case None => list
    case Some(value) => [Decision(key, value)] + Without(list, key)
  }

  function Take(list: seq<Decision>, n: int): seq<Decision> {
    if n <= 0 then [] else if n >= |list| then list else list[..n]
  }

  function PutDecision(list: seq<Decision>, key: Bytes, value: bool, capacity: int): seq<Decision> {
    [Decision(key, value)] + if HasKey(list, key) then Without(list, key) else Take(list, capacity - 1)
  }

  ghost predicate DistinctKeys(list: seq<Decision>) {
    forall i, j :: 0 <= i < j < |list| ==> list[i].key != list[j].key
  }

  lemma HasKeyInTail(list: seq<Decision>, key: Bytes)
    ensures HasKey(list, key) <==> list != [] && (list[0].key == key || HasKey(list[1..], key))
  {
    if list != [] && HasKey(list[1..], key) {
      var i :| 0 <= i < |list[1..]| && list[1..][i].key == key;
      assert list[i + 1].key == key;
    }
    if list != [] && HasKey(list, key) {
      var i :| 0 <= i < |list| && list[i].key == key;
      assert i == 0 || list[1..][i - 1].key == key;
    }
  }

  lemma {:induction false} LookupFinds(list: seq<Decision>, key: Bytes)
    ensures Lookup(list, key).Some? <==> HasKey(list, key)
    ensures forall i :: 0 <= i < |list| && DistinctKeys(list) && list[i].key == key ==> Lookup(list, key) == Some(list[i].value)
    ensures Lookup(list, key).Some? ==> Decision(key, Lookup(list, key).value) in list
  {
    if list != [] {
      LookupFinds(list[1..], key);
      HasKeyInTail(list, key);
      forall i | 0 <= i < |list| && DistinctKeys(list) && list[i].key == key
        ensures Lookup(list, key) == Some(list[i].value)
      {
        if i > 0 { assert list[1..][i - 1] == list[i]; }
      }
    }
  }

  lemma {:induction false} WithoutDrops(list: seq<Decision>, key: Bytes)
    ensures forall d :: d in Without(list, key) <==> d in list && d.key != key
    ensures DistinctKeys(list) ==> DistinctKeys(Without(list, key))
    ensures !HasKey(list, key) ==> Without(list, key) == list
  {
    if list != [] {
      WithoutDrops(list[1..], key);
      assert list == [list[0]] + list[1..];
      HasKeyInTail(list, key);
      var rest := Without(list[1..], key);
      if DistinctKeys(list) && list[0].key != key {
        forall i | 0 <= i < |rest| ensures rest[i].key != list[0].key {
          assert rest[i] in list[1..];
        }
      }
    }
  }

  /** Removing the one entry with this key cuts the list at its place. */
  lemma {:induction false} WithoutAt(list: seq<Decision>, i: nat)
    requires DistinctKeys(list) && i < |list|
    ensures Without(list, list[i].key) == list[..i] + list[i + 1..]
  {
    if i == 0 {
      forall j | 0 <= j < |list[1..]| ensures list[1..][j].key != list[0].key {}
      WithoutDrops(list[1..], list[0].key);
    } else {
      WithoutAt(list[1..], i - 1);
      assert list[1..][..i - 1] == list[1..i] && list[1..][i..] == list[i + 1..];
      assert [list[0]] + list[1..i] == list[..i];
    }
  }

  // ---- The cache as the source keeps it ----

  class Entry {
    const key: Bytes
    var value: bool

    constructor (key: Bytes, value: bool)
      ensures this.key == key && this.value == value
    {
      this.key := key;
      this.value := value;
    }
  }

  /** Map and list hold the same entries, one a key. */
  ghost predicate Consistent(entries: map<Bytes, Entry>, order: seq<Entry>) {
    && (forall i :: 0 <= i < |order| ==> order[i].key in entries && entries[order[i].key] == order[i])
    && (forall key :: key in entries ==> entries[key] in order && entries[key].key == key)
    && (forall i, j :: 0 <= i < j < |order| ==> order[i] != order[j])
  }

  /** The list with its element `i` in front. */
  function Moved<T>(list: seq<T>, i: nat): (moved: seq<T>)
    requires i < |list|
    ensures |moved| == |list|
    ensures forall j :: 0 <= j < |list| ==> moved[j] == list[SourceIndex(i, j)]
  {
    [list[i]] + (list[..i] + list[i + 1..])
  }

  function SourceIndex(i: nat, j: int): int {
    if j == 0 then i else if j <= i then j - 1 else j
  }

  lemma MovedPermutes<T>(list: seq<T>, i: nat)
    requires i < |list|
    ensures forall x :: x in Moved(list, i) <==> x in list
    ensures (forall j, k :: 0 <= j < k < |list| ==> list[j] != list[k])
            ==> forall j, k :: 0 <= j < k < |list| ==> Moved(list, i)[j] != Moved(list, i)[k]
  {
    hide Moved;
    var moved := Moved(list, i);
    forall j | 0 <= j < |list| ensures list[j] in moved {
      var k := if j == i then 0 else if j < i then j + 1 else j;
      assert moved[k] == list[SourceIndex(i, k)] == list[j];
    }
    forall j, k | 0 <= j < k < |list| ensures SourceIndex(i, j) != SourceIndex(i, k) {}
  }

  lemma MovedIsConsistent(entries: map<Bytes, Entry>, order: seq<Entry>, i: nat)
    requires Consistent(entries, order) && i < |order|
    ensures forall e :: e in Moved(order, i) <==> e in order
    ensures Consistent(entries, Moved(order, i))
  {
    hide Moved;
    MovedPermutes(order, i);
    var moved := Moved(order, i);
    forall j | 0 <= j < |moved| ensures moved[j].key in entries && entries[moved[j].key] == moved[j] {
      assert moved[j] in order;
    }
  }

  lemma EvictedIsConsistent(entries: map<Bytes, Entry>, order: seq<Entry>)
    requires Consistent(entries, order) && order != []
    ensures Consistent(entries - {order[|order| - 1].key}, order[..|order| - 1])
  {
    var last := order[|order| - 1];
    assert order == order[..|order| - 1] + [last];
    forall key | key in entries - {last.key} ensures entries[key] in order[..|order| - 1] {
      assert entries[key] in order;
    }
  }

  lemma PushedIsConsistent(entries: map<Bytes, Entry>, order: seq<Entry>, entry: Entry)
    requires Consistent(entries, order) && entry.key !in entries
    ensures Consistent(entries[entry.key := entry], [entry] + order)
  {
    var pushed := [entry] + order;
    forall key | key in entries ensures entries[key] in pushed { assert entries[key] in order; }
    assert pushed[0] == entry;
  }

  class Cache {
    const capacity: int
    var entries: map<Bytes, Entry>
    var order: seq<Entry>

    ghost predicate Valid()
      reads this
    {
      Consistent(entries, order)
    }

    ghost function Contents(): (list: seq<Decision>)
      reads this, order
      ensures |list| == |order|
      ensures forall i :: 0 <= i < |order| ==> list[i] == Decision(order[i].key, order[i].value)
    {
      ContentsOf(order)
    }

    /** The objects the cache is made of. */
    ghost function Repr(): set<object>
      reads this
    {
      {this as object} + set e: Entry | e in order :: e as object
    }

    constructor (capacity: int)
      ensures this.capacity == capacity && Valid() && Contents() == [] && entries == map[] && order == []
    {
      this.capacity := capacity;
      entries := map[];
      order := [];
    }

    /** Returns a cached decision and marks it most recently used. */
    method Get(key: Bytes) returns (cached: Option<bool>)
      requires Valid()
      modifies this
      ensures Valid() && Repr() == old(Repr())
      ensures cached == Lookup(old(Contents()), key)
      ensures Contents() == Touch(old(Contents()), key)
    {
      hide Without, DistinctKeys;
      ValidContents();
      LookupFinds(Contents(), key);
      if key !in entries {
        assert !HasKey(Contents(), key);
        return None;
      }
      var entry := entries[key];
      MoveToFront(entry);
      return Some(entry.value);
    }

    /** list.MoveToFront of an entry of the list. */
    method MoveToFront(entry: Entry)
      requires Valid() && entry in order
      modifies this`order
      ensures Valid() && Contents() == [Decision(entry.key, entry.value)] + Without(old(Contents()), entry.key)
      ensures Lookup(old(Contents()), entry.key) == Some(entry.value)
      ensures forall e :: e in order <==> e in old(order)
    {
      hide Moved, ContentsOf, Without, Lookup, Consistent;
      ghost var i :| 0 <= i < |order| && order[i] == entry;
      ghost var before := Contents();
      ValidContents();
      LookupFinds(before, entry.key);
      WithoutAt(before, i);
      MovedIsConsistent(entries, order, i);
      var at := 0;
      while order[at] != entry
        invariant 0 <= at <= i
        decreases i - at
      {
        at := at + 1;
      }
      assert at == i;
      ContentsOfMoved(order, i);
      order := Moved(order, at);
    }

    /** Stores a decision, evicting from the back while the list is full. */
    method Put(key: Bytes, value: bool)
      requires Valid()
      modifies Repr()
      ensures Valid() && fresh(Repr() - old(Repr()))
      ensures Contents() == PutDecision(old(Contents()), key, value, capacity)
    {
      hide ContentsOf, Without, Take;
      ValidContents();
      ghost var before := Contents();
      if key in entries {
        Overwrite(entries[key], value);
      } else {
        MakeRoom();
        Push(key, value);
      }
    }

    /** A stored key takes the new value and becomes the most recent one. */
    method Overwrite(entry: Entry, value: bool)
      requires Valid() && entry in order
      modifies this`order, entry
      ensures Valid() && forall e :: e in order <==> e in old(order)
      ensures Contents() == [Decision(entry.key, value)] + Without(old(Contents()), entry.key)
    {
      hide ContentsOf, Without;
      ghost var before := Contents();
      entry.value := value;
      assert Contents() == Revalued(before, entry.key, value) by { DistinctEntryKeys(); }
      RevaluedWithout(before, entry.key, value);
      MoveToFront(entry);
    }

    method Push(key: Bytes, value: bool)
      requires Valid() && key !in entries
      modifies this
      ensures Valid() && Contents() == [Decision(key, value)] + old(Contents())
      ensures |order| == |old(order)| + 1 && order[1..] == old(order) && fresh(order[0])
    {
      hide Consistent, ContentsOf;
      var entry := new Entry(key, value);
      PushedIsConsistent(entries, order, entry);
      ContentsOfPushed(order, entry);
      order := [entry] + order;
      entries := entries[key := entry];
    }

    /** Evicts from the back while the list is full. */
    method MakeRoom()
      requires Valid()
      modifies this
      ensures Valid() && order <= old(order) && entries.Keys <= old(entries.Keys)
      ensures Contents() == Take(old(Contents()), capacity - 1)
    {
      hide Consistent, ContentsOf;
      while |order| >= capacity && |order| > 0
        invariant Valid() && entries.Keys <= old(entries.Keys)
        invariant order <= old(order)
        invariant |order| >= capacity - 1 || order == old(order)
        decreases |order|
      {
        EvictedIsConsistent(entries, order);
        var oldest := order[|order| - 1];
        order := order[..|order| - 1];
        entries := entries - {oldest.key};
      }
      ContentsOfPrefix(old(order), |order|);
    }

    lemma DistinctEntryKeys()
      requires Valid()
      ensures forall i, j :: 0 <= i < |order| && 0 <= j < |order| && order[i].key == order[j].key ==> order[i] == order[j]
    {
    }

    lemma ValidContents()
      requires Valid()
      ensures DistinctKeys(Contents())
      ensures forall key :: key in entries <==> HasKey(Contents(), key)
    {
      forall key ensures key in entries <==> HasKey(Contents(), key) {
        if key in entries {
          var i :| 0 <= i < |order| && order[i] == entries[key];
          assert Contents()[i].key == key;
        }
      }
    }
  }

  ghost function ContentsOf(order: seq<Entry>): (list: seq<Decision>)
    reads order
    ensures |list| == |order|
    ensures forall i :: 0 <= i < |order| ==> list[i] == Decision(order[i].key, order[i].value)
  {
    if order == [] then [] else [Decision(order[0].key, order[0].value)] + ContentsOf(order[1..])
  }

  lemma ContentsOfMoved(order: seq<Entry>, i: nat)
    requires i < |order|
    ensures ContentsOf(Moved(order, i))
            == [ContentsOf(order)[i]] + (ContentsOf(order)[..i] + ContentsOf(order)[i + 1..])
  {
    MovedShowsAll(ContentsOf(order), i);
    hide Moved, ContentsOf;
    assert ContentsOf(Moved(order, i)) == Moved(ContentsOf(order), i);
  }

  lemma MovedShowsAll(list: seq<Decision>, i: nat)
    requires i < |list|
    ensures Moved(list, i) == [list[i]] + (list[..i] + list[i + 1..])
  {
  }

  lemma ContentsOfPushed(order: seq<Entry>, entry: Entry)
    ensures ContentsOf([entry] + order) == [Decision(entry.key, entry.value)] + ContentsOf(order)
  {
  }

  lemma ContentsOfPrefix(order: seq<Entry>, n: nat)
    requires n <= |order|
    ensures ContentsOf(order[..n]) == ContentsOf(order)[..n]
  {
  }

  ghost function Revalued(list: seq<Decision>, key: Bytes, value: bool): (r: seq<Decision>)
    ensures |r| == |list|
    ensures forall i :: 0 <= i < |list| ==> r[i] == if list[i].key == key then Decision(key, value) else list[i]
  {
    if list == [] then []
    else [if list[0].key == key then Decision(key, value) else list[0]] + Revalued(list[1..], key, value)
  }

  lemma {:induction false} RevaluedWithout(list: seq<Decision>, key: Bytes, value: bool)
    ensures Without(Revalued(list, key, value), key) == Without(list, key)
  {
    if list != [] {
      RevaluedWithout(list[1..], key, value);
      assert Revalued(list, key, value)[1..] == Revalued(list[1..], key, value);
    }
  }

  // ---- What is kept: the most recently used keys ----

  datatype Access = GetAccess(key: Bytes) | PutAccess(key: Bytes, value: bool)

  /** The cache after a history of accesses, oldest first. */
  function Run(capacity: int, history: seq<Access>): seq<Decision> {
    if history == [] then []
    else
      var list := Run(capacity, history[..|history| - 1]);
      match history[|history| - 1]
      case GetAccess(key) => Touch(list, key)
      case PutAccess(key, value) => PutDecision(list, key, value, capacity)
  }

  /** Every key ever stored, by time of last use, nothing forgotten. A get uses a key only while fewer
      than `capacity` other keys have been used since. */
  function Recency(capacity: int, history: seq<Access>): seq<Decision> {
    if history == [] then []
    else
      var all := Recency(capacity, history[..|history| - 1]);
      match history[|history| - 1]
      case GetAccess(key) => if HasKey(Take(all, capacity), key) then Touch(all, key) else all
      case PutAccess(key, value) => [Decision(key, value)] + Without(all, key)
  }

  /** The value of the last put of a key. */
  function LastPut(history: seq<Access>, key: Bytes): Option<bool> {
    if history == [] then None
    else
      var last := history[|history| - 1];
      if last.PutAccess? && last.key == key then Some(last.value) else LastPut(history[..|history| - 1], key)
  }

  lemma {:induction false} RecencyKeepsLastPuts(capacity: int, history: seq<Access>)
    ensures DistinctKeys(Recency(capacity, history))
    ensures forall d :: d in Recency(capacity, history) <==> LastPut(history, d.key) == Some(d.value)
  {
    if history != [] {
      var front, last := history[..|history| - 1], history[|history| - 1];
      var all := Recency(capacity, front);
      RecencyKeepsLastPuts(capacity, front);
      WithoutDrops(all, last.key);
      LookupFinds(all, last.key);
      FrontIsDistinct(all, last.key);
    }
  }

  lemma FrontIsDistinct(all: seq<Decision>, key: Bytes)
    requires DistinctKeys(all)
    ensures forall value :: DistinctKeys([Decision(key, value)] + Without(all, key))
    ensures forall value :: Decision(key, value) in all ==>
              forall d :: d in [Decision(key, value)] + Without(all, key) <==> d in all
  {
    WithoutDrops(all, key);
    forall value ensures DistinctKeys([Decision(key, value)] + Without(all, key)) {
      forall i | 0 <= i < |Without(all, key)| ensures Without(all, key)[i].key != key {
        assert Without(all, key)[i] in Without(all, key);
      }
    }
    forall value, d | Decision(key, value) in all && d in all && d.key == key ensures d == Decision(key, value) {
      LookupFinds(all, key);
    }
  }

  /** With a positive capacity the cache holds exactly the `capacity` most recently used keys, with the
      values last stored: it never exceeds its capacity and only ever forgets the least recent key. */
  lemma {:induction false} CacheKeepsMostRecent(capacity: int, history: seq<Access>)
    requires capacity > 0
    ensures Run(capacity, history) == Take(Recency(capacity, history), capacity)
    ensures |Run(capacity, history)| <= capacity
  {
    hide Without, Lookup, DistinctKeys;
    if history != [] {
      var front, last := history[..|history| - 1], history[|history| - 1];
      var all := Recency(capacity, front);
      CacheKeepsMostRecent(capacity, front);
      RecencyKeepsLastPuts(capacity, front);
      if HasKey(Take(all, capacity), last.key) {
        var i :| 0 <= i < |Take(all, capacity)| && Take(all, capacity)[i].key == last.key;
        UseOfCached(all, capacity, i);
      } else if last.PutAccess? {
        PutOfUncached(all, capacity, last.key);
      } else {
        LookupFinds(Take(all, capacity), last.key);
      }
    }
  }

  lemma UseOfCached(all: seq<Decision>, capacity: int, i: nat)
    requires capacity > 0 && DistinctKeys(all) && i < |Take(all, capacity)|
    ensures var d, list := all[i], Take(all, capacity);
            && (forall x: Decision :: Take([x] + Without(all, d.key), capacity) == [x] + Without(list, d.key))
            && Lookup(list, d.key) == Lookup(all, d.key) == Some(d.value)
  {
    var list := Take(all, capacity);
    assert list[i] == all[i];
    WithoutAt(all, i);
    WithoutAt(list, i);
    LookupFinds(list, all[i].key);
    LookupFinds(all, all[i].key);
    forall x: Decision ensures Take([x] + Without(all, all[i].key), capacity) == [x] + Without(list, all[i].key) {
      TakeOfMoved(all, capacity, i, x);
    }
  }

  lemma TakeOfMoved(all: seq<Decision>, capacity: int, i: nat, x: Decision)
    requires 0 < capacity && i < |Take(all, capacity)|
    ensures Take([x] + (all[..i] + all[i + 1..]), capacity)
            == [x] + (Take(all, capacity)[..i] + Take(all, capacity)[i + 1..])
  {
  }

  lemma PutOfUncached(all: seq<Decision>, capacity: int, key: Bytes)
    requires capacity > 0 && DistinctKeys(all) && !HasKey(Take(all, capacity), key)
    ensures forall x: Decision :: Take([x] + Without(all, key), capacity) == [x] + Take(Take(all, capacity), capacity - 1)
  {
    if HasKey(all, key) {
      var i :| 0 <= i < |all| && all[i].key == key;
      assert i >= |Take(all, capacity)| by {
        assert forall j :: 0 <= j < |Take(all, capacity)| ==> Take(all, capacity)[j] == all[j];
      }
      WithoutAt(all, i);
      forall x: Decision { TakeOfPushed(all[..i] + all[i + 1..], all, capacity, x); }
    } else {
      WithoutDrops(all, key);
      forall x: Decision { TakeOfPushed(all, all, capacity, x); }
    }
  }

  lemma TakeOfPushed(rest: seq<Decision>, all: seq<Decision>, capacity: int, x: Decision)
    requires capacity > 0 && Take(rest, capacity - 1) == Take(all, capacity - 1)
    ensures Take([x] + rest, capacity) == [x] + Take(Take(all, capacity), capacity - 1)
  {
    assert Take([x] + rest, capacity) == [x] + Take(rest, capacity - 1);
    assert Take(Take(all, capacity), capacity - 1) == Take(all, capacity - 1);
  }

  /** When a key was last used: stored, or found in the cache; counted from one, zero for never. */
  function LastUse(capacity: int, history: seq<Access>, key: Bytes): nat {
    if history == [] then 0
    else
      var front, last := history[..|history| - 1], history[|history| - 1];
      if last.key == key && (last.PutAccess? || HasKey(Run(capacity, front), key)) then |history|
      else LastUse(capacity, front, key)
  }

  lemma {:induction false} LastUseIsPast(capacity: int, history: seq<Access>, key: Bytes)
    ensures LastUse(capacity, history, key) <= |history|
  {
    if history != [] { LastUseIsPast(capacity, history[..|history| - 1], key); }
  }

  /** Each key of the list was used later than the ones after it. */
  ghost predicate LatestFirst(list: seq<Decision>, capacity: int, history: seq<Access>) {
    forall i, j :: 0 <= i < j < |list| ==> LastUse(capacity, history, list[i].key) > LastUse(capacity, history, list[j].key)
  }

  /** The recency order is by time of last use; so the cache holds its keys latest first, and every key it has
      forgotten was last used before all of them. */
  lemma {:induction false} RecencyIsByLastUse(capacity: int, history: seq<Access>)
    requires capacity > 0
    ensures LatestFirst(Recency(capacity, history), capacity, history)
  {
    if history != [] {
      hide LastUse, Recency, Run, Touch, Without, HasKey;
      var front, key := history[..|history| - 1], history[|history| - 1].key;
      var all := Recency(capacity, front);
      RecencyIsByLastUse(capacity, front);
      RecencyKeepsLastPuts(capacity, front);
      RecencySteps(capacity, history);
      forall other ensures LastUse(capacity, front, other) <= |front| { LastUseIsPast(capacity, front, other); }
      if LastUse(capacity, history, key) == |history| {
        UsedIsFirst(Recency(capacity, history)[0], all, capacity, front, history);
      }
    }
  }

  /** What one access does to the recency order, and to the times of last use. */
  lemma RecencySteps(capacity: int, history: seq<Access>)
    requires capacity > 0 && history != []
    ensures var front, last := history[..|history| - 1], history[|history| - 1];
            var all, now := Recency(capacity, front), Recency(capacity, history);
            && (forall key :: key != last.key ==> LastUse(capacity, history, key) == LastUse(capacity, front, key))
            && (if last.PutAccess? || HasKey(Run(capacity, front), last.key) then
                  LastUse(capacity, history, last.key) == |history|
                  && now != [] && now[0].key == last.key && now == [now[0]] + Without(all, last.key)
                else LastUse(capacity, history, last.key) == LastUse(capacity, front, last.key) && now == all)
  {
    var front, last := history[..|history| - 1], history[|history| - 1];
    CacheKeepsMostRecent(capacity, front);
    if HasKey(Take(Recency(capacity, front), capacity), last.key) {
      TakenIsThere(Recency(capacity, front), capacity, last.key);
      LookupFinds(Recency(capacity, front), last.key);
    }
  }

  lemma TakenIsThere(list: seq<Decision>, n: int, key: Bytes)
    requires HasKey(Take(list, n), key)
    ensures HasKey(list, key)
  {
    var i :| 0 <= i < |Take(list, n)| && Take(list, n)[i].key == key;
    assert list[i].key == key;
  }

  lemma UsedIsFirst(x: Decision, all: seq<Decision>, capacity: int, front: seq<Access>, history: seq<Access>)
    requires DistinctKeys(all) && LatestFirst(all, capacity, front)
    requires LastUse(capacity, history, x.key) == |history| > |front|
    requires forall key :: LastUse(capacity, front, key) <= |front|
    requires forall key :: key != x.key ==> LastUse(capacity, history, key) == LastUse(capacity, front, key)
    ensures LatestFirst([x] + Without(all, x.key), capacity, history)
  {
    hide LastUse, Without, HasKey;
    var rest := Without(all, x.key);
    NoneLeft(all, x.key);
    WithoutKeepsOrder(all, x.key, capacity, front);
    OrderedBehind(x, rest, capacity, front, history);
  }

  lemma NoneLeft(all: seq<Decision>, key: Bytes)
    ensures forall j :: 0 <= j < |Without(all, key)| ==> Without(all, key)[j].key != key
  {
    hide Without;
    WithoutDrops(all, key);
    forall j | 0 <= j < |Without(all, key)| ensures Without(all, key)[j].key != key {
      assert Without(all, key)[j] in Without(all, key);
    }
  }

  lemma OrderedBehind(x: Decision, rest: seq<Decision>, capacity: int, front: seq<Access>, history: seq<Access>)
    requires LatestFirst(rest, capacity, front) && forall j :: 0 <= j < |rest| ==> rest[j].key != x.key
    requires LastUse(capacity, history, x.key) == |history| > |front|
    requires forall key :: LastUse(capacity, front, key) <= |front|
    requires forall key :: key != x.key ==> LastUse(capacity, history, key) == LastUse(capacity, front, key)
    ensures LatestFirst([x] + rest, capacity, history)
  {
    hide LastUse;
    var list := [x] + rest;
    assert forall j :: 0 < j < |list| ==> list[j] == rest[j - 1];
    forall i, j | 0 <= i < j < |list| ensures LastUse(capacity, history, list[i].key) > LastUse(capacity, history, list[j].key) {
      var later := rest[j - 1].key;
      assert LastUse(capacity, history, later) == LastUse(capacity, front, later) <= |front|;
      if i > 0 {
        var earlier := rest[i - 1].key;
        assert LastUse(capacity, history, earlier) == LastUse(capacity, front, earlier);
      }
    }
  }

  lemma WithoutKeepsOrder(all: seq<Decision>, key: Bytes, capacity: int, history: seq<Access>)
    requires DistinctKeys(all) && LatestFirst(all, capacity, history)
    ensures LatestFirst(Without(all, key), capacity, history)
  {
    hide LastUse, Without;
    WithoutDrops(all, key);
    if i :| 0 <= i < |all| && all[i].key == key { WithoutAt(all, i); }
  }
}
