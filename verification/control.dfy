/** The supervisor's reload requests: a bounded cache that makes a request
    idempotent under its ID, and the client that retries with one ID. */
module Control {
  import opened Collections
  import opened Wrappers

  const CACHE_LIMIT: nat := 64
  /** Ten minutes, in seconds. */
  const CACHE_TTL: nat := 600

  datatype Request = Request(id: string, operation: string, rollbackOf: string, digest: string)

  predicate SameIdentity(a: Request, b: Request) {
    a.digest == b.digest && a.operation == b.operation && a.rollbackOf == b.rollbackOf
  }

  datatype Final = Succeeded(digest: string) | Failed(error: string)

  /** final is None while the handler runs. */
  datatype Record = Record(request: Request, started: nat, final: Option<Final>, completedAt: nat)

  type Cache = map<string, Record>

  datatype Answer = Reply(final: Final) | StillRunning | Conflict | Full | Execute

  predicate Done(r: Record) {
    r.final.Some?
  }

  predicate Stale(r: Record, now: nat) {
    Done(r) && r.completedAt + CACHE_TTL <= now
  }

  function Unexpired(cache: Cache, now: nat): Cache {
    map id | id in cache && !Stale(cache[id], now) :: cache[id]
  }

  function InFlight(cache: Cache): set<string> {
    set id | id in cache && !Done(cache[id])
  }

  /** Room is made, if it must be, by dropping the oldest completed records and
      nothing more than necessary. */
  ghost predicate Trimmed(before: Cache, after: Cache) {
    && after.Keys <= before.Keys && (forall id :: id in after ==> after[id] == before[id])
    && (|before| < CACHE_LIMIT ==> after == before)
    && (forall id :: id in before && id !in after ==> Done(before[id]))
    && (forall id, kept :: id in before && id !in after && kept in after && Done(after[kept]) ==>
          before[id].completedAt <= after[kept].completedAt)
    && (|after| < CACHE_LIMIT || forall id :: id in after ==> !Done(after[id]))
    && (after != before ==> |after| + 1 >= CACHE_LIMIT)
  }

  /** One pass through the first section of processReload. */
  ghost predicate Arrival(before: Cache, request: Request, now: nat, answer: Answer, after: Cache) {
    var live := Unexpired(before, now);
    if request.id in live then
      && after == live
      && answer == var r := live[request.id];
                   if !SameIdentity(r.request, request) then Conflict
                   else if Done(r) then Reply(r.final.value)
                   else StillRunning
    else
      exists room :: Trimmed(live, room) &&
        if |room| >= CACHE_LIMIT then answer == Full && after == room
        else answer == Execute && after == room[request.id := Record(request, now, None, 0)]
  }

  predicate ValidDigest(digest: string) {
    && |digest| == 71 && digest[..7] == "sha256:"
    && forall c :: c in digest[7..] ==> '0' <= c <= '9' || 'a' <= c <= 'f'
  }

  /** What is cached of the handler's result. */
  function Finalize(result: Result<string, string>): Final {
    match result
    case Err(error) => Failed(error)
    case Ok(digest) => if ValidDigest(digest) then Succeeded(digest) else Failed("reload handler returned an invalid digest")
  }

  // ---------------------------------------------------------------------
  // The cache

  lemma UnexpiredTwice(cache: Cache, now: nat)
    ensures Unexpired(Unexpired(cache, now), now) == Unexpired(cache, now)
  {
  }

  lemma {:induction false} OldestExists(cache: Cache, ids: set<string>)
    requires ids != {} && ids <= cache.Keys
    ensures exists id :: id in ids && forall other :: other in ids ==> cache[id].completedAt <= cache[other].completedAt
    decreases ids
  {
    var x :| x in ids;
    if ids - {x} != {} {
      OldestExists(cache, ids - {x});
      var y :| y in ids - {x} && forall other :: other in ids - {x} ==> cache[y].completedAt <= cache[other].completedAt;
      var oldest := if cache[x].completedAt < cache[y].completedAt then x else y;
      assert forall other :: other in ids ==> other == x || other in ids - {x};
      assert oldest in ids && forall other :: other in ids ==> cache[oldest].completedAt <= cache[other].completedAt;
    } else {
      assert ids == {x};
    }
  }

  class Server {
    var requests: Cache

    constructor ()
      ensures requests == map[]
    {
      requests := map[];
    }

    method PruneExpired(now: nat)
      modifies this
      ensures requests == Unexpired(old(requests), now)
    {
      var todo := requests.Keys;
      ghost var before := requests;
      while todo != {}
        invariant todo <= before.Keys
        invariant requests == map id | id in before && (id in todo || !Stale(before[id], now)) :: before[id]
        decreases todo
      {
        var id :| id in todo;
        if Stale(requests[id], now) {
          requests := requests - {id};
        }
        todo := todo - {id};
      }
    }

    /** One round of the eviction loop. */
    method DropOldest(ghost before: Cache)
      requires Trimming(before, requests) && |requests| >= CACHE_LIMIT
      requires exists id :: id in requests && Done(requests[id])
      modifies this
      ensures Trimming(before, requests) && |requests| == |old(requests)| - 1
    {
      var completed := set id | id in requests && Done(requests[id]);
      ghost var some :| some in requests && Done(requests[some]);
      assert some in completed;
      OldestExists(requests, completed);
      var oldest :| oldest in completed && forall other :: other in completed ==> requests[oldest].completedAt <= requests[other].completedAt;
      RemovalOfOne(requests, oldest);
      requests := requests - {oldest};
    }

    /** pruneRequestsLocked, after the expired records are gone. */
    method Trim()
      modifies this
      ensures Trimmed(old(requests), requests)
    {
      ghost var before := requests;
      while |requests| >= CACHE_LIMIT && exists id :: id in requests && Done(requests[id])
        invariant Trimming(before, requests)
        decreases |requests|
      {
        DropOldest(before);
      }
    }

    /** The first section of processReload. */
    method Begin(request: Request, now: nat) returns (answer: Answer)
      modifies this
      ensures Arrival(old(requests), request, now, answer, requests)
    {
      hide Trimmed, Stale, Unexpired;
      ghost var before := requests;
      PruneExpired(now);
      if request.id in requests {
        var r := requests[request.id];
        answer := if !SameIdentity(r.request, request) then Conflict
                  else if r.final.Some? then Reply(r.final.value)
                  else StillRunning;
      } else {
        PruneExpired(now);
        UnexpiredTwice(before, now);
        Trim();
        if |requests| >= CACHE_LIMIT {
          answer := Full;
        } else {
          requests := requests[request.id := Record(request, now, None, 0)];
          answer := Execute;
        }
      }
    }

    /** The last section of executeReload. */
    method Complete(id: string, result: Result<string, string>, now: nat)
      requires id in requests && !Done(requests[id])
      modifies this
      ensures requests == old(requests)[id := old(requests)[id].(final := Some(Finalize(result)), completedAt := now)]
    {
      requests := requests[id := requests[id].(final := Some(Finalize(result)), completedAt := now)];
    }
  }

  /** What holds between two rounds of eviction. */
  ghost predicate Trimming(before: Cache, now: Cache) {
    && now.Keys <= before.Keys && (forall id :: id in now ==> now[id] == before[id])
    && (forall id :: id in before && id !in now ==> Done(before[id]))
    && (forall id, kept :: id in before && id !in now && kept in now && Done(now[kept]) ==>
          before[id].completedAt <= now[kept].completedAt)
    && (now != before ==> |now| + 1 >= CACHE_LIMIT)
    && (|before| < CACHE_LIMIT ==> now == before)
  }

  /** Exactly when an arrival runs the handler: its ID is not cached any more and
      fewer than 64 reloads are in flight. */
  lemma ExecutesIff(before: Cache, request: Request, now: nat, answer: Answer, after: Cache)
    requires Arrival(before, request, now, answer, after)
    ensures answer.Execute? <==>
            (request.id !in before || Stale(before[request.id], now)) && |InFlight(before)| < CACHE_LIMIT
  {
    var live := Unexpired(before, now);
    FlightSurvives(before, now);
    if request.id !in live {
      var room :| Trimmed(live, room) &&
        if |room| >= CACHE_LIMIT then answer == Full && after == room
        else answer == Execute && after == room[request.id := Record(request, now, None, 0)];
      FlightFits(live, room);
    } else if |InFlight(before)| < CACHE_LIMIT {
      assert !Stale(before[request.id], now);
    }
  }

  lemma FlightSurvives(before: Cache, now: nat)
    ensures InFlight(Unexpired(before, now)) == InFlight(before)
  {
  }

  lemma FlightFits(live: Cache, room: Cache)
    requires Trimmed(live, room)
    ensures InFlight(room) == InFlight(live)
    ensures |room| < CACHE_LIMIT <==> |InFlight(live)| < CACHE_LIMIT
  {
    assert InFlight(room) <= InFlight(live);
    assert forall id :: id in InFlight(live) ==> id in room && !Done(room[id]);
    assert InFlight(room) == InFlight(live);
    assert InFlight(room) <= room.Keys;
    SubsetSize(InFlight(room), room.Keys);
    assert |room| == |room.Keys|;
    if |room| >= CACHE_LIMIT {
      assert InFlight(room) == room.Keys;
    }
  }

  // ---------------------------------------------------------------------
  // All clients together

  /** One response that reached a client. serial is the execution it reports. */
  datatype Response = Response(request: Request, serial: nat, final: Final)

  /** starts lists the handler's executions; serials says which of them a cached
      record belongs to. */
  datatype World = World(cache: Cache, starts: seq<Request>, serials: map<string, nat>, finished: map<nat, Final>,
                         log: seq<Response>)

  datatype Event =
    | Arrive(request: Request, now: nat, answer: Answer, after: Cache)
    | Finish(id: string, result: Result<string, string>, now: nat)

  ghost predicate Enabled(w: World, e: Event) {
    match e
    case Arrive(request, now, answer, after) => Arrival(w.cache, request, now, answer, after)
    case Finish(id, _, _) => id in w.cache && !Done(w.cache[id]) && id in w.serials
  }

  ghost function Next(w: World, e: Event): World
    requires Enabled(w, e)
  {
    match e
    case Arrive(request, now, answer, after) =>
      if answer.Execute? then
        w.(cache := after, starts := w.starts + [request], serials := w.serials[request.id := |w.starts|])
      else if answer.Reply? && request.id in w.serials then
        w.(cache := after, log := w.log + [Response(request, w.serials[request.id], answer.final)])
      else w.(cache := after)
    case Finish(id, result, now) =>
      var final := Finalize(result);
      w.(cache := w.cache[id := w.cache[id].(final := Some(final), completedAt := now)],
         finished := w.finished[w.serials[id] := final],
         log := w.log + [Response(w.cache[id].request, w.serials[id], final)])
  }

  ghost predicate Backed(w: World, id: string)
    requires id in w.cache
  {
    && id in w.serials && w.serials[id] < |w.starts|
    && w.starts[w.serials[id]] == w.cache[id].request && w.cache[id].request.id == id
    && (Done(w.cache[id]) <==> w.serials[id] in w.finished)
    && (Done(w.cache[id]) ==> w.finished[w.serials[id]] == w.cache[id].final.value)
  }

  ghost predicate Honest(w: World, r: Response) {
    && r.serial < |w.starts| && r.serial in w.finished
    && w.starts[r.serial].id == r.request.id && SameIdentity(w.starts[r.serial], r.request)
    && r.final == w.finished[r.serial]
  }

  /** An execution that has started and not finished is the record in flight
      under its ID. */
  ghost predicate Tracked(w: World, s: nat)
    requires s < |w.starts|
  {
    var id := w.starts[s].id;
    s !in w.finished ==> id in w.cache && !Done(w.cache[id]) && id in w.serials && w.serials[id] == s
  }

  ghost predicate Invariant(w: World) {
    && |w.cache| <= CACHE_LIMIT
    && (forall s :: 0 <= s < |w.starts| ==> Tracked(w, s))
    && (forall id :: id in w.cache ==> Backed(w, id))
    && (forall s :: s in w.finished ==> s < |w.starts|)
    && (forall i :: 0 <= i < |w.log| ==> Honest(w, w.log[i]))
  }

  lemma LiveKeeps(before: Cache, now: nat)
    ensures var live := Unexpired(before, now);
            && |live| <= |before|
            && (forall id :: id in live ==> id in before && live[id] == before[id])
            && (forall id :: id in before && !Done(before[id]) ==> id in live)
  {
    SmallerMap(Unexpired(before, now), before);
  }

  lemma RoomKeeps(live: Cache, room: Cache)
    requires Trimmed(live, room)
    ensures |room| <= |live|
    ensures forall id :: id in room ==> id in live && room[id] == live[id]
    ensures forall id :: id in live && !Done(live[id]) ==> id in room
  {
    SmallerMap(room, live);
  }

  lemma ArrivalSurvivors(before: Cache, request: Request, now: nat, answer: Answer, after: Cache)
    requires Arrival(before, request, now, answer, after) && |before| <= CACHE_LIMIT
    ensures |after| <= CACHE_LIMIT
    ensures forall id :: id in after && !(answer.Execute? && id == request.id) ==> id in before && after[id] == before[id]
    ensures forall id :: id in before && !Done(before[id]) ==> id in after && after[id] == before[id]
    ensures answer.Execute? ==>
              request.id !in Unexpired(before, now) && request.id in after && after[request.id] == Record(request, now, None, 0)
    ensures answer.Execute? && request.id in before ==> Done(before[request.id])
    ensures answer.Reply? ==>
              && request.id in before && before[request.id].final == Some(answer.final)
              && SameIdentity(before[request.id].request, request)
  {
    hide Trimmed, Unexpired, SameIdentity;
    var live := Unexpired(before, now);
    LiveKeeps(before, now);
    if request.id !in live {
      var room :| Trimmed(live, room) &&
        if |room| >= CACHE_LIMIT then answer == Full && after == room
        else answer == Execute && after == room[request.id := Record(request, now, None, 0)];
      RoomKeeps(live, room);
      UpdateKeepsSize(room, request.id, Record(request, now, None, 0));
    }
  }

  lemma ArriveBacks(w: World, request: Request, now: nat, answer: Answer, after: Cache, id: string)
    requires Invariant(w) && Arrival(w.cache, request, now, answer, after)
    requires id in Next(w, Arrive(request, now, answer, after)).cache
    ensures Backed(Next(w, Arrive(request, now, answer, after)), id)
  {
    hide Arrival, Unexpired, Tracked, Honest;
    ArrivalSurvivors(w.cache, request, now, answer, after);
    if !(answer.Execute? && id == request.id) {
      assert Backed(w, id);
    }
  }

  lemma ArriveTracks(w: World, request: Request, now: nat, answer: Answer, after: Cache, s: nat)
    requires Invariant(w) && Arrival(w.cache, request, now, answer, after)
    requires s < |Next(w, Arrive(request, now, answer, after)).starts|
    ensures Tracked(Next(w, Arrive(request, now, answer, after)), s)
  {
    hide Arrival, Unexpired, Backed, Honest;
    ArrivalSurvivors(w.cache, request, now, answer, after);
    if s < |w.starts| {
      assert Tracked(w, s);
    }
  }

  lemma ArriveLogs(w: World, request: Request, now: nat, answer: Answer, after: Cache, i: nat)
    requires Invariant(w) && Arrival(w.cache, request, now, answer, after)
    requires i < |Next(w, Arrive(request, now, answer, after)).log|
    ensures Honest(Next(w, Arrive(request, now, answer, after)), Next(w, Arrive(request, now, answer, after)).log[i])
  {
    hide Arrival, Unexpired, Tracked;
    ArrivalSurvivors(w.cache, request, now, answer, after);
    if i < |w.log| {
      assert Honest(w, w.log[i]);
    } else {
      assert Backed(w, request.id);
    }
  }

  lemma ArriveKeeps(w: World, request: Request, now: nat, answer: Answer, after: Cache)
    requires Invariant(w) && Arrival(w.cache, request, now, answer, after)
    ensures Invariant(Next(w, Arrive(request, now, answer, after)))
  {
    hide Arrival, Unexpired, Backed, Tracked, Honest;
    ArrivalSurvivors(w.cache, request, now, answer, after);
    var next := Next(w, Arrive(request, now, answer, after));
    forall id | id in next.cache
      ensures Backed(next, id)
    {
      ArriveBacks(w, request, now, answer, after, id);
    }
    forall s | 0 <= s < |next.starts|
      ensures Tracked(next, s)
    {
      ArriveTracks(w, request, now, answer, after, s);
    }
    forall i | 0 <= i < |next.log|
      ensures Honest(next, next.log[i])
    {
      ArriveLogs(w, request, now, answer, after, i);
    }
  }

  lemma FinishKeeps(w: World, id: string, result: Result<string, string>, now: nat)
    requires Invariant(w) && Enabled(w, Finish(id, result, now))
    requires forall other :: other in w.cache && other != id ==> w.serials[other] != w.serials[id]
    ensures Invariant(Next(w, Finish(id, result, now)))
  {
    hide Finalize;
    var next := Next(w, Finish(id, result, now));
    assert Backed(w, id);
    SameSize(next.cache, w.cache);
    forall s | 0 <= s < |next.starts|
      ensures Tracked(next, s)
    {
      assert Tracked(w, s);
    }
    forall other | other in next.cache
      ensures Backed(next, other)
    {
      assert Backed(w, other);
    }
    forall i | 0 <= i < |next.log|
      ensures Honest(next, next.log[i])
    {
      if i < |w.log| {
        assert Honest(w, w.log[i]);
      }
    }
  }

  /** Records have different executions, because an execution knows its ID. */
  lemma SerialsDiffer(w: World, id: string)
    requires Invariant(w) && id in w.cache
    ensures forall other :: other in w.cache && other != id ==> w.serials[other] != w.serials[id]
  {
    assert Backed(w, id);
    forall other | other in w.cache && other != id
      ensures w.serials[other] != w.serials[id]
    {
      assert Backed(w, other);
    }
  }

  lemma StepKeeps(w: World, e: Event)
    requires Invariant(w) && Enabled(w, e)
    ensures Invariant(Next(w, e))
  {
    hide Invariant, Arrival;
    match e
    case Arrive(request, now, answer, after) => ArriveKeeps(w, request, now, answer, after);
    case Finish(id, result, now) =>
      SerialsDiffer(w, id);
      FinishKeeps(w, id, result, now);
  }

  ghost function Run(start: World, events: seq<Event>): Option<World> {
    if events == [] then Some(start)
    else match Run(start, events[..|events| - 1])
      case None => None
      case Some(w) => if Enabled(w, events[|events| - 1]) then Some(Next(w, events[|events| - 1])) else None
  }

  const EMPTY: World := World(map[], [], map[], map[], [])

  lemma {:induction false} RunKeeps(events: seq<Event>)
    requires Run(EMPTY, events).Some?
    ensures Invariant(Run(EMPTY, events).value)
  {
    hide Enabled, Next;
    if events != [] {
      hide Invariant;
      RunKeeps(events[..|events| - 1]);
      StepKeeps(Run(EMPTY, events[..|events| - 1]).value, events[|events| - 1]);
    }
  }

  /** In every interleaving of retries and completions: at most 64 records; each
      cached record belongs to one execution, of its own request, and is done
      exactly when that execution is; every final response ever sent reports one
      finished execution of the same ID and identity, so any two responses for
      one execution are the same. */
  lemma ResponsesAreIdempotent(events: seq<Event>, i: nat, j: nat)
    requires Run(EMPTY, events).Some?
    ensures var w := Run(EMPTY, events).value;
            && |w.cache| <= CACHE_LIMIT
            && (forall id :: id in w.cache ==> Backed(w, id))
            && (i < |w.log| ==> Honest(w, w.log[i]))
            && (i < |w.log| && j < |w.log| && w.log[i].serial == w.log[j].serial ==> w.log[i].final == w.log[j].final)
  {
    hide Run, Backed;
    RunKeeps(events);
  }

  /** In every interleaving two executions under one ID never overlap, and at
      most 64 executions are unfinished. */
  lemma ExecutionsNeverOverlap(events: seq<Event>, s: nat, t: nat)
    requires Run(EMPTY, events).Some?
    requires var w := Run(EMPTY, events).value; s < t < |w.starts| && s !in w.finished && t !in w.finished
    ensures var w := Run(EMPTY, events).value;
            && w.starts[s].id != w.starts[t].id
            && w.starts[s].id in InFlight(w.cache) && w.starts[t].id in InFlight(w.cache)
            && |InFlight(w.cache)| <= CACHE_LIMIT
  {
    hide Run, Backed, Honest;
    RunKeeps(events);
    var w := Run(EMPTY, events).value;
    assert Tracked(w, s) && Tracked(w, t);
    SubsetSize(InFlight(w.cache), w.cache.Keys);
    assert |w.cache| == |w.cache.Keys|;
  }

  /** A step never evicts a reload that is in flight, starts at most the request
      that arrived, and starts nothing on a conflicting or a repeated ID. */
  lemma InFlightStays(w: World, e: Event)
    requires Invariant(w) && Enabled(w, e)
    ensures forall id :: id in InFlight(w.cache) ==> id in Next(w, e).cache && Next(w, e).cache[id].request == w.cache[id].request
    ensures forall id :: id in InFlight(w.cache) ==> Next(w, e).serials[id] == w.serials[id]
    ensures Next(w, e).starts == w.starts || (e.Arrive? && e.answer.Execute? && Next(w, e).starts == w.starts + [e.request])
    ensures e.Arrive? && e.request.id in InFlight(w.cache) ==>
              && Next(w, e).starts == w.starts
              && e.answer == if SameIdentity(w.cache[e.request.id].request, e.request) then StillRunning else Conflict
  {
    if e.Arrive? {
      hide Trimmed;
      assert forall id :: id in InFlight(w.cache) ==> Backed(w, id);
      ArrivalSurvivors(w.cache, e.request, e.now, e.answer, e.after);
    } else {
      assert Backed(w, e.id);
    }
  }

  // ---------------------------------------------------------------------
  // The retrying client

  datatype Attempt =
    | Answered(result: Final)
    | InProgress
    | TransportError
    | OtherError(error: string)

  datatype ClientOutcome = Applied | WrongDigest | Rejected(error: string) | TimedOut

  /** Whether an attempt makes the client try again. */
  predicate Inconclusive(a: Attempt) {
    a.InProgress? || a.TransportError?
  }

  function Conclude(a: Attempt, expected: string): ClientOutcome {
    match a
    case Answered(Succeeded(digest)) => if digest == expected then Applied else WrongDigest
    case Answered(Failed(error)) => Rejected(error)
    case OtherError(error) => Rejected(error)
    case _ => TimedOut
  }

  /** requestServiceReload: attempts are what the calls return until the deadline. */
  method RequestServiceReload(attempts: seq<Attempt>, expected: string) returns (outcome: ClientOutcome, tries: nat)
    ensures tries <= |attempts|
    ensures forall i :: 0 <= i < tries - 1 ==> Inconclusive(attempts[i])
    ensures if tries > 0 && !Inconclusive(attempts[tries - 1]) then outcome == Conclude(attempts[tries - 1], expected)
            else tries == |attempts| && outcome.TimedOut?
    ensures outcome.Applied? <==> tries > 0 && attempts[tries - 1] == Answered(Succeeded(expected))
  {
    tries, outcome := 0, TimedOut;
    while tries < |attempts|
      invariant 0 <= tries <= |attempts| && outcome.TimedOut?
      invariant forall i :: 0 <= i < tries ==> Inconclusive(attempts[i])
    {
      var attempt := attempts[tries];
      tries := tries + 1;
      if attempt.Answered? && attempt.result.Succeeded? {
        outcome := if attempt.result.digest != expected then WrongDigest else Applied;
        return;
      }
      if attempt.Answered? {
        outcome := Rejected(attempt.result.error);
        return;
      }
      if attempt.OtherError? {
        outcome := Rejected(attempt.error);
        return;
      }
    }
  }

  /** If the attempts are what a server run sent for this request, the client
      reports success only when the handler ran for it and returned exactly the
      expected digest. */
  lemma SuccessMeansExecuted(events: seq<Event>, request: Request, i: nat)
    requires Run(EMPTY, events).Some?
    requires var w := Run(EMPTY, events).value;
             i < |w.log| && w.log[i].request == request && Conclude(Answered(w.log[i].final), request.digest).Applied?
    ensures var w := Run(EMPTY, events).value;
            exists s :: 0 <= s < |w.starts| && w.starts[s].id == request.id && SameIdentity(w.starts[s], request)
                        && s in w.finished && w.finished[s] == Succeeded(request.digest)
  {
    hide Run, Backed;
    RunKeeps(events);
    var w := Run(EMPTY, events).value;
    assert Honest(w, w.log[i]);
  }

  /** Once a completed record has expired, a retry under the same ID runs the
      handler a second time. */
  lemma ExpiredRetryRunsAgain(request: Request, result: Result<string, string>)
    ensures var first := EMPTY.cache[request.id := Record(request, 1, None, 0)];
            var done := first[request.id := Record(request, 1, Some(Finalize(result)), 2)];
            var events := [Arrive(request, 1, Execute, first), Finish(request.id, result, 2),
                           Arrive(request, 2 + CACHE_TTL, Execute, map[request.id := Record(request, 2 + CACHE_TTL, None, 0)])];
            Run(EMPTY, events).Some? && Run(EMPTY, events).value.starts == [request, request]
  {
    hide Finalize;
    var first := EMPTY.cache[request.id := Record(request, 1, None, 0)];
    var e1 := Arrive(request, 1, Execute, first);
    var e2 := Finish(request.id, result, 2);
    var last := map[request.id := Record(request, 2 + CACHE_TTL, None, 0)];
    var e3 := Arrive(request, 2 + CACHE_TTL, Execute, last);
    var none: Cache := map[];
    assert Trimmed(none, none) && Unexpired(none, 1) == none;
    assert Enabled(EMPTY, e1);
    var w1 := Next(EMPTY, e1);
    assert Enabled(w1, e2);
    var w2 := Next(w1, e2);
    assert Unexpired(w2.cache, 2 + CACHE_TTL) == none;
    assert Enabled(w2, e3);
    assert [e1, e2, e3][..2] == [e1, e2] && [e1, e2][..1] == [e1] && [e1][..0] == [];
    assert Run(EMPTY, [e1]) == Some(w1);
    assert Run(EMPTY, [e1, e2]) == Some(w2);
  }
}
