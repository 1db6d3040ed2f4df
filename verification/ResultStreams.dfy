/** The forward-only cursor: one session open at a time, batches in order, failures after their entries. */
module ResultStreams {
  import opened Wrappers
  import opened Keys

  type Entry = Key

  datatype StreamError = StreamClosed | ContextEnded | Stale | NoScan | Undecodable | Incomplete | ScanFailed(code: int)

  /** The failures joined in one error, in the order they came; a failing call reports at least one. */
  type Report = seq<StreamError>

  function Listed(error: Option<StreamError>): Report {
    if error.Some? then [error.value] else []
  }

  /** One answer of a session: a batch, whether more follow, the failure the call may have come with, an
      entry that could not be decoded, and whether the session has no scan to continue, which only the
      answer to its start can tell: a scan without a number is never continued. */
  datatype Fetch =
    Fetch(entries: seq<Entry>, more: bool, rpcError: Option<StreamError>, undecoded: bool, noScan: bool)
  {
    function Faults(): Report {
      if undecoded then Listed(rpcError) + [Undecodable] else Listed(rpcError)
    }

    /** What a stream's fetch returns. */
    function Failure(): Option<Report> {
      if Faults() != [] then Some(Faults()) else if more && noScan then Some([NoScan]) else None
    }
  }

  /** A queued source, by what will come of opening it: new sources in its place, a failure, or a
      session with the answers it will give, the sources it will leave behind when drained, and whether
      releasing it fails. */
  datatype Source =
    | Replans(sources: seq<Source>)
    | Refuses(error: Report)
    | Opens(fetches: seq<Fetch>, followers: Followers, closeFails: bool)

  datatype Followers = FollowersFail(error: Report) | Follow(sources: seq<Source>)

  function SourceWeight(source: Source): nat
    decreases source, 1
  {
    match source
    case Replans(sources) => 1 + Weight(sources)
    case Refuses(_) => 1
    case Opens(fetches, followers, _) => 2 + |fetches| + FollowersWeight(followers)
  }

  function FollowersWeight(followers: Followers): nat
    decreases followers, 1
  {
    match followers
    case FollowersFail(_) => 0
    case Follow(sources) => Weight(sources)
  }

  function Weight(sources: seq<Source>): nat
    decreases sources, 0
  {
    if sources == [] then 0 else SourceWeight(sources[0]) + Weight(sources[1..])
  }

  lemma WeightOfFirst(queue: seq<Source>)
    requires queue != []
    ensures Weight(queue) == SourceWeight(queue[0]) + Weight(queue[1..])
  {
  }

  lemma {:induction false} WeightConcat(a: seq<Source>, b: seq<Source>)
    ensures Weight(a + b) == Weight(a) + Weight(b)
  {
    if a == [] {
      assert a + b == b;
    } else {
      WeightConcat(a[1..], b);
      assert (a + b)[1..] == a[1..] + b;
    }
  }

  // ---- What an undisturbed consumer receives ----

  /** The entries in order, and the failure that ends them, if any. */
  datatype Outcome = Outcome(entries: seq<Entry>, failure: Option<Report>)

  function After(entries: seq<Entry>, rest: Outcome): Outcome {
    Outcome(entries + rest.entries, rest.failure)
  }

  /** The first entry of what remained has been handed out. */
  ghost predicate Advances(before: Outcome, current: Option<Entry>, after: Outcome) {
    before.entries != [] && current == Some(before.entries[0]) && after == Outcome(before.entries[1..], before.failure)
  }

  lemma AdvanceSteps(entries: seq<Entry>, later: Outcome)
    requires entries != []
    ensures Advances(After(entries, later), Some(entries[0]), After(entries[1..], later))
  {
  }

  lemma AdvancesSteps(entries: seq<Entry>, before: Outcome, current: Option<Entry>, after: Outcome)
    requires Advances(before, current, after)
    ensures current.Some? && |after.entries| < |before.entries| && after.failure == before.failure
    ensures entries + before.entries == entries + [current.value] + after.entries
  {
    assert before.entries == [current.value] + after.entries;
  }

  lemma AfterNothing(later: Outcome)
    ensures After([], later) == later
  {
  }

  function Drained(queue: seq<Source>): Outcome
    decreases Weight(queue), 0
  {
    if queue == [] then Outcome([], None)
    else
      WeightOfFirst(queue);
      match queue[0]
      case Replans(sources) =>
        WeightConcat(sources, queue[1..]);
        Drained(sources + queue[1..])
      case Refuses(error) => Outcome([], Some(error))
      case Opens(fetches, followers, _) => DrainedSession(fetches, followers, queue[1..])
  }

  /** The rest of an open session, then what it leaves behind, then the queue. An answer that is not
      followed by more ends the session, as does running out of answers. */
  function DrainedSession(fetches: seq<Fetch>, followers: Followers, queue: seq<Source>): Outcome
    decreases 1 + |fetches| + FollowersWeight(followers) + Weight(queue), 0
  {
    if fetches == [] then Finished(followers, queue)
    else
      var fetch := fetches[0];
      if fetch.Failure().Some? then Outcome(fetch.entries, fetch.Failure())
      else if fetch.more then After(fetch.entries, DrainedSession(fetches[1..], followers, queue))
      else After(fetch.entries, Finished(followers, queue))
  }

  function Finished(followers: Followers, queue: seq<Source>): Outcome
    decreases FollowersWeight(followers) + Weight(queue), 1
  {
    match followers
    case FollowersFail(error) => Outcome([], Some(error))
    case Follow(sources) =>
      WeightConcat(sources, queue);
      Drained(sources + queue)
  }

  // ---- The stream ----

  /** An open session: its number, in opening order, and the answers still to come. */
  datatype OpenSession = OpenSession(id: nat, fetches: seq<Fetch>, followers: Followers, closeFails: bool)

  class ResultStream {
    var sources: seq<Source>
    var next: nat
    var session: Option<OpenSession>
    var pending: seq<Entry>
    var consumed: nat
    var pendingFatal: Option<Report>
    var current: Option<Entry>
    var fatal: Option<Report>
    var cleanup: nat
    var closed: bool
    var done: bool
    var cancelled: bool

    /** Sessions opened so far, which numbers them, and the sessions released, in release order. */
    var opens: nat
    ghost var released: seq<nat>

    ghost predicate Valid()
      reads this
    {
      && next <= |sources| && consumed <= |pending|
      && (session.Some? ==> session.value.id + 1 == opens)
      && |released| + (if session.Some? then 1 else 0) == opens
      && (forall i :: 0 <= i < |released| ==> released[i] == i)
      && (done || fatal.Some? || closed ==> session.None?)
      && (pendingFatal.Some? ==> fatal.None? && !done && !closed)
      && (done ==> fatal.None? && next == |sources|)
      && (closed ==> pending == [])
      && (fatal.Some? ==> consumed == |pending|)
      && (done ==> consumed == |pending|)
    }

    /** The stream has ended: Next will only return false. */
    predicate Ended()
      reads this
    {
      done || fatal.Some? || closed
    }

    /** What the stream will still deliver if nobody closes or cancels it. */
    ghost function Rest(): Outcome
      requires Valid()
      reads this
    {
      After(pending[consumed..], Later())
    }

    ghost function Later(): Outcome
      requires Valid()
      reads this
    {
      if pendingFatal.Some? then Outcome([], pendingFatal)
      else if fatal.Some? then Outcome([], fatal)
      else if done || closed then Outcome([], None)
      else if session.Some? then DrainedSession(session.value.fetches, session.value.followers, sources[next..])
      else Drained(sources[next..])
    }

    ghost function Work(): nat
      requires Valid()
      reads this
    {
      Weight(sources[next..])
      + if session.Some? then 1 + |session.value.fetches| + FollowersWeight(session.value.followers) else 0
    }

    constructor (sources: seq<Source>)
      ensures Valid() && Rest() == Drained(sources) && !Ended() && !cancelled && opens == 0
    {
      this.sources := sources;
      next, consumed, cleanup := 0, 0, 0;
      session, pendingFatal, current, fatal := None, None, None, None;
      pending := [];
      closed, done, cancelled := false, false, false;
      opens := 0;
      released := [];
      new;
      assert sources[0..] == sources;
      assert pending[0..] + Drained(sources).entries == Drained(sources).entries;
    }

    /** recordClose: releases the session, if one is open. */
    method RecordClose()
      requires next <= |sources|
      requires session.Some? ==> session.value.id == |released|
      modifies this`session, this`cleanup, this`released
      ensures session == None
      ensures released == old(released) + if old(session).Some? then [old(session).value.id] else []
      ensures cleanup == old(cleanup) + if old(session).Some? && old(session).value.closeFails then 1 else 0
    {
      if session.Some? {
        if session.value.closeFails { cleanup := cleanup + 1; }
        released := released + [session.value.id];
        session := None;
      }
    }

    /** openNextSession: false ends iteration; true with no session means the source replanned itself. */
    method OpenNextSession() returns (going: bool)
      requires Valid() && !Ended() && session.None? && pending == [] && consumed == 0 && pendingFatal.None?
      modifies this`next, this`sources, this`session, this`done, this`fatal, this`opens
      ensures Valid() && Rest() == old(Rest()) && pending == [] && consumed == 0 && pendingFatal.None?
      ensures going ==> !Ended() && Work() < old(Work())
      ensures !going ==> Ended()
    {
      hide Drained, DrainedSession, Finished, Weight, FollowersWeight;
      ghost var queue := sources[next..];
      QueueSteps(queue);
      if next >= |sources| {
        done := true;
        return false;
      }
      var source := sources[next];
      assert queue[0] == source && queue[1..] == sources[next + 1..];
      next := next + 1;
      match source
      case Replans(again) =>
        WeightConcat(again, queue[1..]);
        PrependSources(again);
        return true;
      case Refuses(error) =>
        fatal := Some(error);
        return false;
      case Opens(fetches, followers, closeFails) =>
        session := Some(OpenSession(opens, fetches, followers, closeFails));
        opens := opens + 1;
        return true;
    }

    /** prependSources: queues sources ahead of the ones still waiting. */
    method PrependSources(ahead: seq<Source>)
      requires next <= |sources|
      modifies this`sources, this`next
      ensures next == 0 && sources == ahead + old(sources[next..]) && sources[next..] == sources
    {
      sources := ahead + sources[next..];
      next := 0;
    }

    /** finishSession: drains the exhausted session; its followers go ahead of the queue. */
    method FinishSession() returns (going: bool)
      requires next <= |sources| && session.Some? && session.value.id == |released|
      modifies this`session, this`cleanup, this`released, this`fatal, this`sources, this`next
      ensures session == None && released == old(released) + [old(session).value.id] && next <= |sources|
      ensures cleanup == old(cleanup) + if old(session).value.closeFails then 1 else 0
      ensures going == old(session).value.followers.Follow?
      ensures !going ==> fatal == Some(old(session).value.followers.error) && sources == old(sources) && next == old(next)
      ensures going ==> fatal == old(fatal) && sources[next..] == old(session).value.followers.sources + old(sources[next..])
    {
      var followers := session.value.followers;
      RecordClose();
      match followers
      case FollowersFail(error) =>
        fatal := Some(error);
        return false;
      case Follow(ahead) =>
        if |ahead| > 0 {
          PrependSources(ahead);
        } else {
          assert ahead + sources[next..] == sources[next..];
        }
        return true;
    }

    /** Next: the context is found ended after `patience` more polls of the loop. */
    method Next(patience: nat) returns (advanced: bool)
      requires Valid()
      modifies this
      ensures Valid() && (old(Ended()) && old(pending[consumed..]) == [] ==> !advanced && Ended())
      ensures closed == old(closed) && old(released) <= released
      ensures cancelled == old(cancelled) || (!advanced && patience <= old(Work()) && fatal == Some([ContextEnded]))
      ensures advanced ==> Advances(old(Rest()), current, Rest())
      ensures !advanced ==> Ended() && pending == [] && |released| == opens
      ensures !advanced && !old(closed) && !cancelled ==> old(Rest()) == Outcome([], fatal)
    {
      hide Drained, DrainedSession, Finished, Weight, FollowersWeight, After, Advances;
      if consumed < |pending| {
        current := Some(pending[consumed]);
        AdvanceSteps(pending[consumed..], Later());
        assert pending[consumed..][1..] == pending[consumed + 1..];
        consumed := consumed + 1;
        return true;
      }
      assert pending[consumed..] == [];
      AfterNothing(Later());
      pending, consumed := [], 0;
      if pendingFatal.Some? {
        RecordClose();
        fatal := pendingFatal;
        pendingFatal := None;
        return false;
      }
      if closed {
        if fatal.None? && !done { fatal := Some([StreamClosed]); }
        return false;
      }
      if done || fatal.Some? {
        return false;
      }
      advanced := Advance(patience);
      if !advanced {
        assert pending[consumed..] == [];
        AfterNothing(Later());
      }
    }

    /** The loop of Next: fetches until there is an entry to deliver or iteration ends. */
    method Advance(patience: nat) returns (advanced: bool)
      requires Valid() && !Ended() && pending == [] && consumed == 0 && pendingFatal.None?
      modifies this
      ensures Valid() && closed == old(closed) && old(released) <= released
      ensures cancelled == old(cancelled) || (!advanced && patience <= old(Work()) && fatal == Some([ContextEnded]))
      ensures advanced ==> Advances(old(Rest()), current, Rest())
      ensures !advanced ==> Ended() && pending == [] && consumed == 0 && pendingFatal.None?
      ensures !advanced && !cancelled ==> Rest() == old(Rest())
    {
      hide Drained, DrainedSession, Finished, Weight, FollowersWeight, After, Advances, Rest, Work, Valid;
      var polls := 0;
      while true
        invariant Valid() && !Ended() && pending == [] && consumed == 0 && pendingFatal.None?
        invariant Rest() == old(Rest()) && closed == old(closed) && cancelled == old(cancelled)
        invariant old(released) <= released && polls + Work() <= old(Work())
        decreases Work()
      {
        if cancelled || polls >= patience {
          Expire();
          return false;
        }
        polls := polls + 1;
        if session.None? {
          var going := OpenNextSession();
          if !going { return false; }
          if session.None? { continue; }
        }
        advanced := Pull();
        if advanced || Ended() { return; }
      }
    }

    /** The context was found ended. */
    method Expire()
      requires Valid() && !Ended() && pending == [] && consumed == 0 && pendingFatal.None?
      modifies this
      ensures Valid() && Ended() && cancelled && pending == [] && consumed == 0 && pendingFatal.None?
      ensures closed == old(closed) && fatal == Some([ContextEnded]) && old(released) <= released
    {
      cancelled := true;
      RecordClose();
      fatal := Some([ContextEnded]);
    }

    /** One fetch of the open session. */
    method Pull() returns (advanced: bool)
      requires Valid() && !Ended() && session.Some? && pending == [] && consumed == 0 && pendingFatal.None?
      modifies this
      ensures Valid() && closed == old(closed) && cancelled == old(cancelled) && old(released) <= released
      ensures advanced ==> Advances(old(Rest()), current, Rest())
      ensures !advanced ==> Rest() == old(Rest()) && pending == [] && consumed == 0 && pendingFatal.None?
      ensures !advanced ==> (Ended() || Work() < old(Work()))
    {
      hide Drained, DrainedSession, Finished, Weight, FollowersWeight, After, Advances;
      var open := session.value;
      ghost var queue := sources[next..];
      FinishSteps(open.followers, queue);
      var fetch := FirstFetch(open.fetches);
      FetchSteps(open.fetches, open.followers, queue);
      AfterNothing(Later());
      assert pending[consumed..] == [];
      session := Some(open.(fetches := LaterFetches(open.fetches)));
      if |fetch.entries| > 0 {
        pending, consumed, current := fetch.entries, 1, Some(fetch.entries[0]);
        if fetch.Failure().Some? {
          pendingFatal := fetch.Failure();
        } else if !fetch.more {
          var going := FinishSession();
          if !going {
            pendingFatal := fatal;
            fatal := None;
          }
        }
        AdvanceSteps(fetch.entries, Later());
        return true;
      }
      if fetch.Failure().Some? {
        RecordClose();
        fatal := fetch.Failure();
        return false;
      }
      if !fetch.more {
        var going := FinishSession();
      }
      return false;
    }

    /** Close: idempotent; drops what was fetched and releases the session. */
    method Close()
      requires Valid()
      modifies this
      ensures Valid() && closed && cancelled && Ended()
      ensures old(released) <= released && opens == old(opens) && |released| == opens
      ensures old(closed) ==> fatal == old(fatal) && released == old(released) && cleanup == old(cleanup)
      ensures cleanup == old(cleanup) + if !old(closed) && old(session).Some? && old(session).value.closeFails then 1 else 0
      ensures !old(closed) ==> fatal == if old(pendingFatal).Some? then old(pendingFatal)
                                        else if old(Ended()) then old(fatal) else Some([StreamClosed])
    {
      hide Drained, DrainedSession, Finished, Weight, After;
      cancelled := true;
      if closed { return; }
      closed := true;
      RecordClose();
      pending, consumed := [], 0;
      if pendingFatal.Some? {
        fatal := pendingFatal;
        pendingFatal := None;
      }
      if fatal.None? && !done {
        fatal := Some([StreamClosed]);
      }
    }
  }

  /** What opening the next source leaves of a queue. */
  lemma QueueSteps(queue: seq<Source>)
    ensures queue == [] ==> Drained(queue) == Outcome([], None)
    ensures queue != [] ==>
              && Weight(queue) == SourceWeight(queue[0]) + Weight(queue[1..])
              && Drained(queue)
                 == match queue[0]
                    case Replans(again) => Drained(again + queue[1..])
                    case Refuses(error) => Outcome([], Some(error))
                    case Opens(fetches, followers, _) => DrainedSession(fetches, followers, queue[1..])
  {
  }

  lemma FinishSteps(followers: Followers, queue: seq<Source>)
    ensures followers.FollowersFail? ==> Finished(followers, queue) == Outcome([], Some(followers.error))
    ensures followers.Follow? ==> Finished(followers, queue) == Drained(followers.sources + queue)
    ensures followers.Follow? ==> Weight(followers.sources + queue) == FollowersWeight(followers) + Weight(queue)
  {
    if followers.Follow? { WeightConcat(followers.sources, queue); }
  }

  function FirstFetch(fetches: seq<Fetch>): Fetch {
    if fetches == [] then Fetch([], false, None, false, false) else fetches[0]
  }

  function LaterFetches(fetches: seq<Fetch>): seq<Fetch> {
    if fetches == [] then [] else fetches[1..]
  }

  /** What one answer leaves of a session. */
  lemma FetchSteps(fetches: seq<Fetch>, followers: Followers, queue: seq<Source>)
    ensures var fetch := FirstFetch(fetches);
            DrainedSession(fetches, followers, queue)
            == After(fetch.entries, if fetch.Failure().Some? then Outcome([], fetch.Failure())
                                    else if fetch.more then DrainedSession(LaterFetches(fetches), followers, queue)
                                    else Finished(followers, queue))
  {
  }

  /** Iterates a stream nobody closes or cancels to its end. */
  method Collect(stream: ResultStream, patience: nat -> nat) returns (entries: seq<Entry>, failure: Option<Report>)
    requires stream.Valid() && !stream.closed
    modifies stream
    ensures stream.Valid() && stream.Ended() && |stream.released| == stream.opens
    ensures !stream.cancelled ==> Outcome(entries, failure) == old(stream.Rest())
    ensures stream.cancelled ==> old(stream.cancelled) || failure == Some([ContextEnded])
    ensures entries <= old(stream.Rest().entries)
  {
    hide Drained, DrainedSession, Finished, Weight, FollowersWeight, After, Advances, stream.Rest, stream.Valid;
    entries := [];
    ghost var all := stream.Rest();
    var calls := 0;
    while true
      invariant stream.Valid() && !stream.closed && stream.cancelled == old(stream.cancelled)
      invariant entries + stream.Rest().entries == all.entries && stream.Rest().failure == all.failure
      decreases |stream.Rest().entries|
    {
      ghost var rest := stream.Rest();
      var advanced := stream.Next(patience(calls));
      calls := calls + 1;
      if !advanced { break; }
      AdvancesSteps(entries, rest, stream.current, stream.Rest());
      entries := entries + [stream.current.value];
    }
    failure := stream.fatal;
  }

  // ---- Queues one after the other ----

  /** One failure ends the whole stream; otherwise queues drain one after the other. */
  function Then(first: Outcome, second: Outcome): Outcome {
    if first.failure.Some? then first else After(first.entries, second)
  }

  lemma AfterThen(entries: seq<Entry>, first: Outcome, second: Outcome)
    ensures After(entries, Then(first, second)) == Then(After(entries, first), second)
  {
    assert entries + (first.entries + second.entries) == entries + first.entries + second.entries;
  }

  /** Sources drain independently of what is queued behind them. */
  lemma {:induction false} DrainedConcat(a: seq<Source>, b: seq<Source>)
    ensures Drained(a + b) == Then(Drained(a), Drained(b))
    decreases Weight(a), 0
  {
    hide Drained, DrainedSession, Then, Weight;
    QueueSteps(a);
    QueueSteps(a + b);
    if a == [] {
      assert a + b == b;
      ThenNothing(Drained(b));
    } else {
      assert (a + b)[0] == a[0] && (a + b)[1..] == a[1..] + b;
      match a[0]
      case Replans(sources) =>
        WeightConcat(sources, a[1..]);
        DrainedConcat(sources + a[1..], b);
        assert sources + (a[1..] + b) == sources + a[1..] + b;
      case Refuses(error) =>
        FailedThen(Outcome([], Some(error)), Drained(b));
      case Opens(fetches, followers, _) =>
        SessionConcat(fetches, followers, a[1..], b);
    }
  }

  lemma {:induction false} SessionConcat(fetches: seq<Fetch>, followers: Followers, a: seq<Source>, b: seq<Source>)
    ensures DrainedSession(fetches, followers, a + b) == Then(DrainedSession(fetches, followers, a), Drained(b))
    decreases 1 + |fetches| + FollowersWeight(followers) + Weight(a), 0
  {
    hide Drained, After, Then;
    FetchSteps(fetches, followers, a + b);
    FetchSteps(fetches, followers, a);
    var fetch := FirstFetch(fetches);
    if fetch.Failure().Some? {
      FailedThen(Outcome(fetch.entries, fetch.Failure()), Drained(b));
      AfterFailed(fetch.entries, fetch.Failure());
    } else if fetch.more {
      SessionConcat(fetches[1..], followers, a, b);
      AfterThen(fetch.entries, DrainedSession(fetches[1..], followers, a), Drained(b));
    } else {
      FinishedConcat(followers, a, b);
      AfterThen(fetch.entries, Finished(followers, a), Drained(b));
    }
  }

  lemma FailedThen(first: Outcome, second: Outcome)
    requires first.failure.Some?
    ensures Then(first, second) == first
  {
  }

  lemma ThenNothing(a: Outcome)
    ensures Then(a, Outcome([], None)) == a && Then(Outcome([], None), a) == a
  {
  }

  lemma AfterFailed(entries: seq<Entry>, failure: Option<Report>)
    ensures After(entries, Outcome([], failure)) == Outcome(entries, failure)
  {
  }

  lemma {:induction false} FinishedConcat(followers: Followers, a: seq<Source>, b: seq<Source>)
    ensures Finished(followers, a + b) == Then(Finished(followers, a), Drained(b))
    decreases FollowersWeight(followers) + Weight(a), 1
  {
    match followers
    case FollowersFail(error) =>
    case Follow(sources) =>
      WeightConcat(sources, a);
      DrainedConcat(sources + a, b);
      assert sources + (a + b) == sources + a + b;
  }

  // ---- Sessions without failure ----

  /** Nothing is wrong with any answer up to the last: no call fails, every entry can be decoded, and more is
      announced only with a scan to continue. */
  predicate Sound(fetches: seq<Fetch>) {
    fetches == []
    || (fetches[0].rpcError.None? && !fetches[0].undecoded
        && (fetches[0].more ==> !fetches[0].noScan && Sound(fetches[1..])))
  }

  /** The batches up to the last. */
  function Batches(fetches: seq<Fetch>): seq<Entry> {
    if fetches == [] then [] else fetches[0].entries + if fetches[0].more then Batches(fetches[1..]) else []
  }

  /** A session drains without failure exactly when its answers are sound, and then to their batches. */
  lemma {:induction false} SoundSessionsDeliver(fetches: seq<Fetch>)
    ensures var drained := DrainedSession(fetches, Follow([]), []);
            (drained.failure.None? <==> Sound(fetches)) && (Sound(fetches) ==> drained.entries == Batches(fetches))
  {
    hide DrainedSession, Finished;
    NothingFollows();
    FetchSteps(fetches, Follow([]), []);
    if fetches != [] { SoundSessionsDeliver(fetches[1..]); }
  }

  /** The entries of the first n answers. */
  function FirstBatches(fetches: seq<Fetch>, n: nat): seq<Entry>
    requires n <= |fetches|
  {
    if n == 0 then [] else fetches[0].entries + FirstBatches(fetches[1..], n - 1)
  }

  /** Nothing is wrong with the answer. */
  predicate IsSound(fetch: Fetch) {
    fetch.rpcError.None? && !fetch.undecoded && !(fetch.more && fetch.noScan)
  }

  /** The first answer with something wrong ends the stream: its own entries are delivered first, then what is
      wrong with it - the failed call, the entry that could not be decoded, or the missing scan. */
  lemma {:induction false} FailedSessionDelivers(fetches: seq<Fetch>, n: nat, followers: Followers, queue: seq<Source>)
    requires n < |fetches| && !IsSound(fetches[n])
    requires forall k :: 0 <= k < n ==> IsSound(fetches[k]) && fetches[k].more
    ensures var drained, last := DrainedSession(fetches, followers, queue), fetches[n];
            && drained.entries == FirstBatches(fetches, n + 1)
            && drained.failure
               == Some(match last.rpcError
                       case Some(error) => if last.undecoded then [error, Undecodable] else [error]
                       case None => if last.undecoded then [Undecodable] else [NoScan])
  {
    hide DrainedSession, Finished;
    FetchSteps(fetches, followers, queue);
    if n > 0 {
      FailedSessionDelivers(fetches[1..], n - 1, followers, queue);
    } else {
      assert fetches[0].entries + [] == fetches[0].entries;
      WhatIsWrong(fetches[0]);
    }
  }

  lemma WhatIsWrong(fetch: Fetch)
    requires !IsSound(fetch)
    ensures fetch.Failure()
            == Some(match fetch.rpcError
                    case Some(error) => if fetch.undecoded then [error, Undecodable] else [error]
                    case None => if fetch.undecoded then [Undecodable] else [NoScan])
  {
    assert [] + [Undecodable] == [Undecodable];
    if fetch.rpcError.Some? { assert [fetch.rpcError.value] + [Undecodable] == [fetch.rpcError.value, Undecodable]; }
  }

  lemma NothingFollows()
    ensures Finished(Follow([]), []) == Outcome([], None)
  {
    assert Follow([]).sources + [] == [];
  }

  // ---- scanTablet: the paging loop that collects one tablet ----

  /** The entries paged, and every failure on the way. */
  datatype Pages = Pages(entries: seq<Entry>, failures: Report)

  /** The answer to starting the scan announces more that can be read. */
  predicate Continues(first: Fetch) {
    first.more && !first.undecoded && !first.noScan
  }

  /** What the answer to starting the scan reports. */
  function StartFailures(first: Fetch): Report {
    if first.more && !first.undecoded && first.noScan then first.Faults() + [NoScan] else first.Faults()
  }

  /** The answer to starting the scan is kept even when the call failed, and is continued all the same; the
      answer to a failed continue is dropped. */
  function Paged(fetches: seq<Fetch>): Pages {
    var first := FirstFetch(fetches);
    var rest := if Continues(first) then Continued(LaterFetches(fetches)) else Pages([], []);
    Pages(first.entries + rest.entries, StartFailures(first) + rest.failures)
  }

  function Continued(fetches: seq<Fetch>): Pages {
    if fetches == [] then Pages([], [])
    else if fetches[0].rpcError.Some? then Pages([], [fetches[0].rpcError.value])
    else if fetches[0].Failure().Some? then Pages(fetches[0].entries, fetches[0].Failure().value)
    else if fetches[0].more then
      var rest := Continued(fetches[1..]);
      Pages(fetches[0].entries + rest.entries, rest.failures)
    else Pages(fetches[0].entries, [])
  }

  /** What comes of scanning one tablet: nothing but an error, or a session's answers and the failure of
      releasing it. */
  datatype TabletAnswers = NoResult(error: StreamError) | Result(fetches: seq<Fetch>, closing: Option<StreamError>)

  /** The entries, the failures of the scan itself, and that of releasing the session. */
  datatype TabletScan = TabletScan(entries: seq<Entry>, failures: Report, cleanup: Option<StreamError>) {
    /** isStaleScanError looks through the joined failures, and through the one of releasing. */
    predicate IsStale() {
      Stale in failures || cleanup == Some(Stale)
    }
  }

  function Scanning(answers: TabletAnswers): TabletScan {
    match answers
    case NoResult(error) => TabletScan([], [error], None)
    case Result(fetches, closing) => TabletScan(Paged(fetches).entries, Paged(fetches).failures, closing)
  }

  method ScanTablet(answers: TabletAnswers) returns (scan: TabletScan)
    ensures scan == Scanning(answers)
  {
    if answers.NoResult? { return TabletScan([], [answers.error], None); }
    var fetches := answers.fetches;
    var first := FirstFetch(fetches);
    var values, failures := first.entries, first.Faults();
    var more, next := first.more, LaterFetches(fetches);
    if first.undecoded { more := false; }
    if more && first.noScan {
      failures := failures + [NoScan];
      more := false;
    }
    ghost var all := Paged(fetches);
    while more
      invariant var rest := if more then Continued(next) else Pages([], []);
                values + rest.entries == all.entries && failures + rest.failures == all.failures
      decreases more, |next|
    {
      var answer := FirstFetch(next);
      if answer.rpcError.Some? {
        failures := failures + [answer.rpcError.value];
        break;
      }
      values := values + answer.entries;
      if answer.Failure().Some? {
        failures := failures + answer.Failure().value;
        break;
      }
      more, next := answer.more, LaterFetches(next);
    }
    return TabletScan(values, failures, answers.closing);
  }

  // ---- Which scans are stale ----

  /** The answers before k are sound and announce more, and the call for answer k fails as stale. */
  ghost predicate StaleAt(fetches: seq<Fetch>, k: nat) {
    k < |fetches| && fetches[k].rpcError == Some(Stale) && forall i :: 0 <= i < k ==> IsSound(fetches[i]) && fetches[i].more
  }

  /** The server turns the scan away as stale: at its start, at a continue that is made - one follows a failed
      start that announces more - or when the session is released. */
  ghost predicate TurnedAway(answers: TabletAnswers) {
    match answers
    case NoResult(error) => error == Stale
    case Result(fetches, closing) =>
      var first := FirstFetch(fetches);
      || closing == Some(Stale)
      || first.rpcError == Some(Stale)
      || (first.more && !first.undecoded && !first.noScan && exists k: nat :: StaleAt(LaterFetches(fetches), k))
  }

  /** Exactly those scans count as stale. */
  lemma StaleExactly(answers: TabletAnswers)
    ensures Scanning(answers).IsStale() <==> TurnedAway(answers)
  {
    hide Continued, StaleAt;
    if answers.Result? { ContinuedStale(LaterFetches(answers.fetches)); }
  }

  lemma {:induction false} ContinuedStale(fetches: seq<Fetch>)
    ensures Stale in Continued(fetches).failures <==> exists k: nat :: StaleAt(fetches, k)
  {
    if fetches != [] {
      if IsSound(fetches[0]) && fetches[0].more {
        ContinuedStale(fetches[1..]);
        if k: nat :| StaleAt(fetches[1..], k) { StaleLater(fetches, k); }
        if k: nat :| StaleAt(fetches, k) {
          assert k > 0 && fetches[1..][k - 1] == fetches[k];
          forall i | 0 <= i < k - 1 ensures IsSound(fetches[1..][i]) && fetches[1..][i].more {
            assert fetches[1..][i] == fetches[i + 1];
          }
          assert StaleAt(fetches[1..], k - 1);
        }
      } else {
        assert fetches[0].rpcError == Some(Stale) ==> StaleAt(fetches, 0);
        if k: nat :| StaleAt(fetches, k) { assert k == 0; }
      }
    }
  }

  lemma StaleLater(fetches: seq<Fetch>, k: nat)
    requires fetches != [] && IsSound(fetches[0]) && fetches[0].more && StaleAt(fetches[1..], k)
    ensures StaleAt(fetches, k + 1)
  {
    forall i | 0 <= i < k + 1 ensures IsSound(fetches[i]) && fetches[i].more {
      assert i > 0 ==> fetches[i] == fetches[1..][i - 1];
    }
  }

  // ---- Paging against streaming ----

  /** No failed continue comes with entries before the scan ends. */
  predicate ContinuesAlike(fetches: seq<Fetch>) {
    fetches == []
    || if fetches[0].rpcError.Some? then fetches[0].entries == []
       else fetches[0].Failure().Some? || !fetches[0].more || ContinuesAlike(fetches[1..])
  }

  /** Before the scan ends, every continue that does not fail comes without entries. */
  predicate Silent(fetches: seq<Fetch>) {
    fetches == []
    || fetches[0].rpcError.Some?
    || (fetches[0].entries == [] && (fetches[0].Failure().Some? || !fetches[0].more || Silent(fetches[1..])))
  }

  /** A failed start is not followed by entries, and after a good one no failed continue comes with any. */
  predicate PagesAlike(fetches: seq<Fetch>) {
    var first, later := FirstFetch(fetches), LaterFetches(fetches);
    !Continues(first) || if first.rpcError.Some? then Silent(later) else ContinuesAlike(later)
  }

  /** No failed continue comes with a batch that cannot be decoded. */
  predicate ContinuesReportAlike(fetches: seq<Fetch>) {
    fetches == []
    || if fetches[0].rpcError.Some? then !fetches[0].undecoded
       else fetches[0].Failure().Some? || !fetches[0].more || ContinuesReportAlike(fetches[1..])
  }

  /** A failed start is followed by no other failure, and after a good one no continue fails twice over. */
  predicate ReportsAlike(fetches: seq<Fetch>) {
    var first, later := FirstFetch(fetches), LaterFetches(fetches);
    if first.rpcError.Some? then !first.more || first.undecoded || (!first.noScan && Sound(later))
    else !Continues(first) || ContinuesReportAlike(later)
  }

  /** What a stream would report for the failures. */
  function ReportOf(failures: Report): Option<Report> {
    if failures == [] then None else Some(failures)
  }

  /** The first failure, if there is one. */
  function FirstOf(failure: Option<Report>): Option<StreamError> {
    if failure.None? || failure.value == [] then None else Some(failure.value[0])
  }

  /** The paging loop and a drained session fail on the same answers and report the same failure first. They
      report the same failures if and only if `ReportsAlike`, and deliver the same entries if and only if
      `PagesAlike`, of the answers. */
  lemma {:induction false} PagingEqualsStream(fetches: seq<Fetch>, closeFails: bool)
    ensures var drained, paged := Drained([Opens(fetches, Follow([]), closeFails)]), Paged(fetches);
            && (drained.failure.None? <==> paged.failures == [])
            && FirstOf(drained.failure) == FirstOf(ReportOf(paged.failures))
            && (drained.failure == ReportOf(paged.failures) <==> ReportsAlike(fetches))
            && (drained.entries == paged.entries <==> PagesAlike(fetches))
            && (drained.failure.None? ==> PagesAlike(fetches) && ReportsAlike(fetches))
  {
    hide Drained, DrainedSession, Finished, Continued, ContinuesAlike, ContinuesReportAlike, Silent, Sound;
    var queue := [Opens(fetches, Follow([]), closeFails)];
    QueueSteps(queue);
    assert queue[1..] == [];
    FetchSteps(fetches, Follow([]), []);
    NothingFollows();
    var first, later := FirstFetch(fetches), LaterFetches(fetches);
    PagingContinues(later);
    SilentIsEmpty(later);
    SoundIsUnfailing(later);
    assert StartFailures(first) + [] == StartFailures(first);
    assert [] + Continued(later).failures == Continued(later).failures && [] + [NoScan] == [NoScan];
    if Continues(first) {
      SameAfter(first.entries, DrainedSession(later, Follow([]), []).entries, Continued(later).entries);
      SameAfter(first.entries, [], Continued(later).entries);
    }
  }

  /** Two lists are the same when they are the same after a common start. */
  lemma SameAfter(start: seq<Entry>, a: seq<Entry>, b: seq<Entry>)
    ensures start + a == start + b <==> a == b
  {
    assert (start + a)[|start|..] == a && (start + b)[|start|..] == b;
  }

  lemma {:induction false} SilentIsEmpty(fetches: seq<Fetch>)
    ensures Silent(fetches) <==> Continued(fetches).entries == []
  {
    if fetches != [] {
      SilentIsEmpty(fetches[1..]);
      SameAfter(fetches[0].entries, Continued(fetches[1..]).entries, []);
    }
  }

  lemma {:induction false} SoundIsUnfailing(fetches: seq<Fetch>)
    ensures Sound(fetches) <==> Continued(fetches).failures == []
    ensures Sound(fetches) ==> Continued(fetches).entries == Batches(fetches)
  {
    if fetches != [] { SoundIsUnfailing(fetches[1..]); }
  }

  /** The paging loop reports no failure exactly when the answers are sound, and then collects their batches. */
  lemma SoundPagesCollect(fetches: seq<Fetch>)
    ensures Paged(fetches).failures == [] <==> Sound(fetches)
    ensures Sound(fetches) ==> Paged(fetches).entries == Batches(fetches)
  {
    SoundIsUnfailing(LaterFetches(fetches));
    if fetches != [] { assert fetches[0].entries + [] == fetches[0].entries; }
  }

  lemma {:induction false} PagingContinues(fetches: seq<Fetch>)
    ensures var drained, paged := DrainedSession(fetches, Follow([]), []), Continued(fetches);
            && (drained.failure.None? <==> paged.failures == [])
            && FirstOf(drained.failure) == FirstOf(ReportOf(paged.failures))
            && (drained.failure == ReportOf(paged.failures) <==> ContinuesReportAlike(fetches))
            && (drained.entries == paged.entries <==> ContinuesAlike(fetches))
            && (drained.failure.None? ==> ContinuesAlike(fetches) && ContinuesReportAlike(fetches))
  {
    hide DrainedSession, Finished;
    NothingFollows();
    FetchSteps(fetches, Follow([]), []);
    if fetches != [] {
      PagingContinues(fetches[1..]);
      SameAfter(fetches[0].entries, DrainedSession(fetches[1..], Follow([]), []).entries, Continued(fetches[1..]).entries);
    }
  }

  /** A continue that fails but brings a batch: the stream delivers it, the paging loop drops it. */
  lemma FailedContinueDiffers(k: Key, error: StreamError)
    ensures var fetches := [Fetch([], true, None, false, false), Fetch([k], false, Some(error), false, false)];
            && Drained([Opens(fetches, Follow([]), false)]).entries == [k]
            && Paged(fetches).entries == []
  {
    var fetches := [Fetch([], true, None, false, false), Fetch([k], false, Some(error), false, false)];
    QueueSteps([Opens(fetches, Follow([]), false)]);
    FetchSteps(fetches, Follow([]), []);
    FetchSteps(fetches[1..], Follow([]), []);
    assert [] + ([k] + []) == [k];
  }

  /** A start that fails but announces more: the paging loop reads on, the stream stops. What the loop then
      reads is lost to the stream, and what then fails is not in its report. */
  lemma FailedStartDiffers(k: Key, error: StreamError, later: StreamError)
    ensures var fetches := [Fetch([], true, Some(error), false, false), Fetch([k], true, None, false, false),
                            Fetch([], false, Some(later), false, false)];
            && Drained([Opens(fetches, Follow([]), false)]) == Outcome([], Some([error]))
            && Paged(fetches) == Pages([k], [error, later])
  {
    var fetches := [Fetch([], true, Some(error), false, false), Fetch([k], true, None, false, false),
                    Fetch([], false, Some(later), false, false)];
    QueueSteps([Opens(fetches, Follow([]), false)]);
    FetchSteps(fetches, Follow([]), []);
    assert fetches[1..][0] == fetches[1] && fetches[1..][1..] == [fetches[2]];
    assert Continued([fetches[2]]) == Pages([], [later]);
    assert [k] + [] == [k] && [] + [k] == [k] && [error] + [later] == [error, later];
  }
}
