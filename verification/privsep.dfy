/** The private protocol between the privileged supervisor and its worker:
    requests under increasing IDs over two FIFO channels, waits that may be
    abandoned, and replies that arrive late. */
module PrivSep {
  import opened Wrappers

  const MAX_ID: nat := 0x1_0000_0000_0000_0000

  datatype Payload = Payload(reloadRequestID: string, digest: string)

  datatype Identity = Identity(pid: nat, uid: nat, gid: nat)

  datatype Command = Bootstrap | Commit(digest: string) | Reload(id: nat, payload: Payload) | Shutdown(id: nat)

  datatype Message =
    | Prepared(identity: Identity)
    | Running(digest: string)
    | ReloadResult(id: nat, reloadRequestID: string, digest: string, error: Option<string>)
    | Stopped(id: nat, failure: string)
    | Fatal(failure: string)

  datatype Want = WantPrepared | WantRunning | WantReloadResult | WantStopped

  predicate HasKind(m: Message, want: Want) {
    match want
    case WantPrepared => m.Prepared?
    case WantRunning => m.Running?
    case WantReloadResult => m.ReloadResult?
    case WantStopped => m.Stopped?
  }

  function MessageID(m: Message): nat {
    if m.ReloadResult? || m.Stopped? then m.id else 0
  }

  /** A reply to a reload that the supervisor no longer waits for. */
  predicate StaleReloadResult(m: Message, requestID: nat) {
    m.ReloadResult? && m.id != 0 && m.id < requestID
  }

  datatype Verdict = Skip | WorkerFailed | WrongKind | WrongID | Accept

  function Judge(m: Message, want: Want, requestID: nat): Verdict {
    if m.Fatal? then WorkerFailed
    else if StaleReloadResult(m, requestID) then Skip
    else if !HasKind(m, want) then WrongKind
    else if MessageID(m) != requestID then WrongID
    else Accept
  }

  datatype Outcome =
    | Done
    | Rejected(error: string)
    | Mismatch
    | Failure
    | TimedOut
    | Unavailable
    | Exhausted

  /** What Reload makes of the reply it accepted. */
  function ReloadOutcome(m: Message, payload: Payload): Outcome
    requires m.ReloadResult?
  {
    if m.reloadRequestID != payload.reloadRequestID then Mismatch
    else if m.error.Some? then Rejected(m.error.value)
    else if m.digest != payload.digest then Mismatch
    else Done
  }

  datatype Call = ReloadCall(payload: Payload) | ShutdownCall

  function WantFor(call: Call): Want {
    if call.ReloadCall? then WantReloadResult else WantStopped
  }

  /** The verdict on a reply, as the waiting call sees it. */
  function CallOutcome(call: Call, m: Message, verdict: Verdict): Outcome {
    match verdict
    case Accept =>
      if call.ReloadCall? then (if m.ReloadResult? then ReloadOutcome(m, call.payload) else Mismatch)
      else if m.Stopped? && m.failure != "" then Rejected(m.failure) else Done
    case WorkerFailed => Failure
    case _ => Mismatch
  }

  /** What ends a wait when no message decides it. */
  datatype End = GaveUp | ExitedCleanly | ExitedBadly | ChannelBroken

  /** A worker that exits cleanly has acknowledged a shutdown, and nothing else. */
  function Interrupted(call: Call, end: End): Outcome {
    match end
    case GaveUp => TimedOut
    case ExitedCleanly => if call.ShutdownCall? then Done else Failure
    case _ => Failure
  }

  // ---------------------------------------------------------------------
  // The supervisor session. incoming is what arrives, in order, before the
  // wait is ended by something else.

  /** The part of a queue that is left once the stale replies are skipped. */
  function Fresh(queue: seq<Message>, requestID: nat): seq<Message> {
    if queue != [] && StaleReloadResult(queue[0], requestID) then Fresh(queue[1..], requestID) else queue
  }

  lemma {:induction false} FreshIsSuffix(queue: seq<Message>, requestID: nat)
    ensures exists k :: 0 <= k <= |queue| && Fresh(queue, requestID) == queue[k..]
                        && forall i :: 0 <= i < k ==> StaleReloadResult(queue[i], requestID)
  {
    if queue != [] && StaleReloadResult(queue[0], requestID) {
      FreshIsSuffix(queue[1..], requestID);
      var k :| 0 <= k <= |queue[1..]| && Fresh(queue[1..], requestID) == queue[1..][k..]
               && forall i :: 0 <= i < k ==> StaleReloadResult(queue[1..][i], requestID);
      assert queue[1..][k..] == queue[k + 1..];
      assert forall i :: 0 <= i < k + 1 ==> StaleReloadResult(queue[i], requestID) by {
        forall i | 0 <= i < k + 1
          ensures StaleReloadResult(queue[i], requestID)
        {
          if i > 0 {
            assert queue[1..][i - 1] == queue[i];
          }
        }
      }
    } else {
      assert queue[0..] == queue;
    }
  }

  /** How a call ends that was sent as id and then sees queue and end. */
  function AwaitOutcome(call: Call, queue: seq<Message>, id: nat, end: End): Outcome {
    var left := Fresh(queue, id);
    if left == [] then Interrupted(call, end) else CallOutcome(call, left[0], Judge(left[0], WantFor(call), id))
  }

  class SupervisorSession {
    const expected: Identity
    var requestID: nat
    var bootstrapped: bool
    var prepared: bool
    var running: bool
    var closed: bool
    var incoming: seq<Message>
    var sent: seq<Command>

    constructor (expected: Identity)
      ensures this.expected == expected && requestID == 0 && incoming == [] && sent == []
      ensures !bootstrapped && !prepared && !running && !closed
    {
      this.expected := expected;
      requestID, bootstrapped, prepared, running, closed := 0, false, false, false, false;
      incoming, sent := [], [];
    }

    /** uint64 wraps to zero once; that request is refused, and the next one
        starts over at one. */
    method NextRequest() returns (id: Option<nat>)
      requires requestID < MAX_ID
      modifies this`requestID
      ensures requestID < MAX_ID
      ensures running && !closed ==> requestID == if old(requestID) + 1 == MAX_ID then 0 else old(requestID) + 1
      ensures !running || closed ==> requestID == old(requestID)
      ensures id == if running && !closed && old(requestID) + 1 < MAX_ID then Some(old(requestID) + 1) else None
    {
      if !running || closed {
        return None;
      }
      requestID := (requestID + 1) % MAX_ID;
      id := if requestID == 0 then None else Some(requestID);
    }

    /** await: skips stale reload results, then judges one message. */
    method Await(want: Want, id: nat) returns (m: Option<Message>, verdict: Verdict)
      modifies this`incoming
      ensures var left := Fresh(old(incoming), id);
              if left == [] then m.None? && incoming == []
              else m == Some(left[0]) && verdict == Judge(left[0], want, id) && !verdict.Skip? && incoming == left[1..]
    {
      m, verdict := None, Skip;
      while incoming != [] && verdict.Skip?
        invariant verdict.Skip? ==> m.None? && Fresh(incoming, id) == Fresh(old(incoming), id)
        invariant !verdict.Skip? ==>
                    var left := Fresh(old(incoming), id);
                    left != [] && m == Some(left[0]) && verdict == Judge(left[0], want, id) && incoming == left[1..]
        decreases |incoming|
      {
        var first := incoming[0];
        verdict := Judge(first, want, id);
        if !verdict.Skip? {
          m := Some(first);
        }
        incoming := incoming[1..];
      }
    }

    /** Reload: the outcome is decided by the first reply that is not stale. */
    method Reload(payload: Payload, delivered: bool, end: End) returns (outcome: Outcome)
      requires requestID < MAX_ID
      modifies this`requestID, this`incoming, this`sent
      ensures requestID < MAX_ID
      ensures outcome == if !running || closed then Unavailable
                         else if old(requestID) + 1 == MAX_ID then Exhausted
                         else if !delivered then Failure
                         else AwaitOutcome(ReloadCall(payload), old(incoming), old(requestID) + 1, end)
      ensures if running && !closed && old(requestID) + 1 < MAX_ID && delivered then
                sent == old(sent) + [Command.Reload(old(requestID) + 1, payload)]
              else sent == old(sent) && incoming == old(incoming)
    {
      if !running || closed {
        return Unavailable;
      }
      var id := NextRequest();
      if id.None? {
        return Exhausted;
      }
      if !delivered {
        return Failure;
      }
      sent := sent + [Command.Reload(id.value, payload)];
      var m, verdict := Await(WantReloadResult, id.value);
      if m.None? {
        return if end.GaveUp? then TimedOut else Failure;
      }
      outcome := match verdict
        case Accept => ReloadOutcome(m.value, payload)
        case WorkerFailed => Failure
        case _ => Mismatch;
    }

    /** Shutdown: a clean exit of the worker counts as its reply. */
    method Shutdown(delivered: bool, end: End) returns (outcome: Outcome)
      requires requestID < MAX_ID
      modifies this
      ensures requestID < MAX_ID
      ensures outcome == if old(closed) then Done
                         else if !old(running) then Unavailable
                         else if old(requestID) + 1 == MAX_ID then Exhausted
                         else if !delivered then Failure
                         else AwaitOutcome(ShutdownCall, old(incoming), old(requestID) + 1, end)
      ensures if !old(closed) && old(running) && old(requestID) + 1 < MAX_ID && delivered then
                sent == old(sent) + [Command.Shutdown(old(requestID) + 1)]
              else sent == old(sent) && incoming == old(incoming)
      ensures closed <==> old(closed) || (sent != old(sent) && (outcome.Done? || outcome.Rejected?))
      ensures running <==> old(running) && (closed <==> old(closed))
    {
      if closed {
        return Done;
      }
      if !running {
        return Unavailable;
      }
      var id := NextRequest();
      if id.None? {
        return Exhausted;
      }
      if !delivered {
        return Failure;
      }
      sent := sent + [Command.Shutdown(id.value)];
      var m, verdict := Await(WantStopped, id.value);
      var acknowledged := if m.None? then end.ExitedCleanly? else verdict.Accept?;
      if acknowledged {
        closed, running := true, false;
        outcome := if m.None? || m.value.failure == "" then Done else Rejected(m.value.failure);
      } else if m.None? {
        outcome := if end.GaveUp? then TimedOut else Failure;
      } else {
        outcome := if verdict.WorkerFailed? then Failure else Mismatch;
      }
    }

    /** Bootstrap can be sent once, and prepares only for the expected worker. */
    method Bootstrap(delivered: bool, end: End) returns (outcome: Outcome)
      modifies this`bootstrapped, this`prepared, this`incoming, this`sent
      ensures old(bootstrapped) || closed ==> outcome.Unavailable? && sent == old(sent) && bootstrapped == old(bootstrapped)
      ensures !old(bootstrapped) && !closed ==> bootstrapped && !outcome.Unavailable?
      ensures prepared <==> old(prepared) || outcome.Done?
      ensures outcome.Done? <==>
                && !old(bootstrapped) && !closed && delivered
                && Fresh(old(incoming), 0) != [] && Fresh(old(incoming), 0)[0] == Prepared(expected)
    {
      if bootstrapped || closed {
        return Unavailable;
      }
      bootstrapped := true;
      if !delivered {
        return Failure;
      }
      sent := sent + [Command.Bootstrap];
      var m, verdict := Await(WantPrepared, 0);
      if m.None? {
        outcome := if end.GaveUp? then TimedOut else Failure;
      } else if !verdict.Accept? {
        outcome := if verdict.WorkerFailed? then Failure else Mismatch;
      } else if m.value.identity != expected {
        outcome := Mismatch;
      } else {
        prepared := true;
        outcome := Done;
      }
    }

    /** Commit is possible again after a wait that was abandoned. */
    method Commit(digest: string, delivered: bool, end: End) returns (outcome: Outcome)
      modifies this`running, this`incoming, this`sent
      ensures !old(prepared) || old(running) || old(closed) ==> outcome.Unavailable? && sent == old(sent)
      ensures running <==> old(running) || outcome.Done?
      ensures outcome.Done? ==> sent == old(sent) + [Command.Commit(digest)]
      ensures outcome.Done? <==>
                && prepared && !old(running) && !closed && delivered
                && Fresh(old(incoming), 0) != [] && Fresh(old(incoming), 0)[0] == Running(digest)
    {
      if !prepared || running || closed {
        return Unavailable;
      }
      if !delivered {
        return Failure;
      }
      sent := sent + [Command.Commit(digest)];
      var m, verdict := Await(WantRunning, 0);
      if m.None? {
        return if end.GaveUp? then TimedOut else Failure;
      }
      if !verdict.Accept? {
        return if verdict.WorkerFailed? then Failure else Mismatch;
      }
      if m.value.digest != digest {
        return Mismatch;
      }
      running := true;
      outcome := Done;
    }
  }

  // ---------------------------------------------------------------------
  // The worker

  datatype Worker = Committing | Serving | Gone

  datatype WorkerState = WorkerState(worker: Worker, replies: seq<Message>, applied: map<nat, Payload>)

  /** One command. error is what the runtime returns for it. */
  function Handle(s: WorkerState, command: Command, error: Option<string>): WorkerState {
    match (s.worker, command)
    case (Committing, Commit(digest)) =>
      if error.Some? then WorkerState(Gone, s.replies + [Fatal(error.value)], s.applied)
      else WorkerState(Serving, s.replies + [Running(digest)], s.applied)
    case (Serving, Reload(id, payload)) =>
      if id == 0 then WorkerState(Gone, s.replies + [Fatal("reload request ID must be non-zero")], s.applied)
      else if error.Some? then s.(replies := s.replies + [ReloadResult(id, payload.reloadRequestID, "", error)])
      else s.(replies := s.replies + [ReloadResult(id, payload.reloadRequestID, payload.digest, None)],
              applied := s.applied[id := payload])
    case (Serving, Shutdown(id)) =>
      WorkerState(Gone, s.replies + [Stopped(id, if error.Some? then error.value else "")], s.applied)
    case (Gone, _) => s
    case _ => WorkerState(Gone, s.replies + [Fatal("unsupported worker command")], s.applied)
  }

  function HandleAll(s: WorkerState, commands: seq<Command>, errors: nat -> Option<string>): WorkerState {
    if commands == [] then s
    else Handle(HandleAll(s, commands[..|commands| - 1], errors), commands[|commands| - 1], errors(|commands| - 1))
  }

  lemma {:induction false} GoneStays(s: WorkerState, commands: seq<Command>, errors: nat -> Option<string>, n: nat)
    requires n <= |commands| && HandleAll(s, commands[..n], errors).worker.Gone?
    ensures HandleAll(s, commands, errors) == HandleAll(s, commands[..n], errors)
    decreases |commands| - n
  {
    if n == |commands| {
      assert commands[..n] == commands;
    } else {
      assert commands[..n + 1][..n] == commands[..n];
      GoneStays(s, commands, errors, n + 1);
    }
  }

  /** The command loop of ServeWorker: it ends after a shutdown, and after a
      command that it does not accept. */
  method ServeWorker(commands: seq<Command>, errors: nat -> Option<string>) returns (state: WorkerState)
    ensures state == HandleAll(WorkerState(Serving, [], map[]), commands, errors)
  {
    ghost var first := WorkerState(Serving, [], map[]);
    var serving, replies: seq<Message>, applied: map<nat, Payload> := true, [], map[];
    var i := 0;
    while i < |commands| && serving
      invariant 0 <= i <= |commands|
      invariant HandleAll(first, commands[..i], errors) == WorkerState(if serving then Serving else Gone, replies, applied)
    {
      assert commands[..i + 1][..i] == commands[..i];
      var error := errors(i);
      match commands[i] {
        case Reload(id, payload) =>
          if id == 0 {
            replies, serving := replies + [Fatal("reload request ID must be non-zero")], false;
          } else if error.Some? {
            replies := replies + [ReloadResult(id, payload.reloadRequestID, "", error)];
          } else {
            replies := replies + [ReloadResult(id, payload.reloadRequestID, payload.digest, None)];
            applied := applied[id := payload];
          }
        case Shutdown(id) =>
          replies, serving := replies + [Stopped(id, if error.Some? then error.value else "")], false;
        case _ =>
          replies, serving := replies + [Fatal("unsupported worker command")], false;
      }
      i := i + 1;
    }
    if !serving {
      GoneStays(first, commands, errors, i);
    } else {
      assert commands[..i] == commands;
    }
    state := WorkerState(if serving then Serving else Gone, replies, applied);
  }

  // ---------------------------------------------------------------------
  // Both sides together

  /** calls[i] was made under request ID i + 1. outcomes holds every call that
      has returned. */
  datatype World = World(calls: seq<Call>, waiting: bool, commands: seq<Command>, replies: seq<Message>,
                         worker: Worker, applied: map<nat, Payload>, outcomes: map<nat, Outcome>)

  datatype Event =
    | CallReload(payload: Payload, delivered: bool)
    | CallShutdown(delivered: bool)
    | Receive
    | Interrupt(end: End)
    | WorkerHandles(error: Option<string>)
    | WorkerFails(failure: string)

  /** Any number of reloads, then at most one shutdown. */
  predicate CanCall(w: World) {
    !w.waiting && ShutdownCall !in w.calls && |w.calls| + 1 < MAX_ID
  }

  predicate Enabled(w: World, e: Event) {
    match e
    case CallReload(_, _) => CanCall(w)
    case CallShutdown(_) => CanCall(w)
    case Receive => w.waiting && w.replies != []
    case Interrupt(end) => w.waiting && (end.ExitedCleanly? || end.ExitedBadly? ==> w.worker.Gone?)
    case WorkerHandles(_) => w.commands != [] && w.worker.Serving?
    case WorkerFails(_) => w.worker.Serving?
  }

  function WireCommand(call: Call, id: nat): Command {
    match call
    case ReloadCall(payload) => Command.Reload(id, payload)
    case ShutdownCall => Command.Shutdown(id)
  }

  function Place(w: World, call: Call, delivered: bool): World {
    var id := |w.calls| + 1;
    if delivered then w.(calls := w.calls + [call], waiting := true, commands := w.commands + [WireCommand(call, id)])
    else w.(calls := w.calls + [call], outcomes := w.outcomes[id := Failure])
  }

  function Returned(w: World, outcome: Outcome): World {
    w.(waiting := false, outcomes := w.outcomes[|w.calls| := outcome])
  }

  function Next(w: World, e: Event): World
    requires Enabled(w, e)
  {
    match e
    case CallReload(payload, delivered) => Place(w, ReloadCall(payload), delivered)
    case CallShutdown(delivered) => Place(w, ShutdownCall, delivered)
    case Receive =>
      if w.calls == [] then w
      else
        var call := w.calls[|w.calls| - 1];
        var verdict := Judge(w.replies[0], WantFor(call), |w.calls|);
        var rest := w.(replies := w.replies[1..]);
        if verdict.Skip? then rest else Returned(rest, CallOutcome(call, w.replies[0], verdict))
    case Interrupt(end) => if w.calls == [] then w else Returned(w, Interrupted(w.calls[|w.calls| - 1], end))
    case WorkerHandles(error) =>
      var s := Handle(WorkerState(w.worker, w.replies, w.applied), w.commands[0], error);
      w.(commands := w.commands[1..], worker := s.worker, replies := s.replies, applied := s.applied)
    case WorkerFails(error) => w.(worker := Gone, replies := w.replies + [Fatal(error)])
  }

  /** A reply belongs to the call whose ID it carries; a success was applied. */
  ghost predicate Belongs(w: World, m: Message) {
    match m
    case ReloadResult(id, reloadRequestID, digest, error) =>
      && 1 <= id <= |w.calls| && w.calls[id - 1].ReloadCall?
      && reloadRequestID == w.calls[id - 1].payload.reloadRequestID
      && (error.None? ==> digest == w.calls[id - 1].payload.digest && id in w.applied && w.applied[id] == w.calls[id - 1].payload)
    case Stopped(id, _) => 1 <= id <= |w.calls| && w.calls[id - 1].ShutdownCall?
    case Fatal(_) => true
    case _ => false
  }

  ghost predicate InOrder(w: World) {
    && (forall i, j :: 0 <= i < j < |w.commands| ==> CommandID(w.commands[i]) < CommandID(w.commands[j]))
    && (forall i :: 0 <= i < |w.commands| ==>
          && 1 <= CommandID(w.commands[i]) <= |w.calls|
          && w.commands[i] == WireCommand(w.calls[CommandID(w.commands[i]) - 1], CommandID(w.commands[i]))
          && CommandID(w.commands[i]) !in w.applied)
  }

  function CommandID(c: Command): nat {
    if c.Commit? || c.Bootstrap? then 0 else c.id
  }

  ghost predicate Invariant(w: World) {
    && (w.waiting ==> w.calls != [])
    && (forall i :: 0 <= i < |w.calls| - 1 ==> w.calls[i].ReloadCall?)
    && InOrder(w)
    && (forall i :: 0 <= i < |w.replies| ==> Belongs(w, w.replies[i]) && (w.replies[i].Stopped? ==> w.worker.Gone?))
    && (forall id :: id in w.applied ==> 1 <= id <= |w.calls| && w.calls[id - 1] == ReloadCall(w.applied[id]))
    && (forall id :: id in w.outcomes ==>
          && 1 <= id <= |w.calls| && !w.outcomes[id].Mismatch?
          && (w.outcomes[id].Done? && w.calls[id - 1].ReloadCall? ==> id in w.applied)
          && (w.outcomes[id].Done? && w.calls[id - 1].ShutdownCall? ==> w.worker.Gone?))
  }

  /** A session whose worker has reported that it is running. */
  predicate Initial(w: World) {
    w == World([], false, [], [], Serving, map[], map[])
  }

  lemma CallKeeps(w: World, call: Call, delivered: bool)
    requires Invariant(w) && CanCall(w)
    ensures Invariant(Place(w, call, delivered))
  {
    var next := Place(w, call, delivered);
    assert forall i :: 0 <= i < |w.calls| ==> next.calls[i] == w.calls[i];
    assert forall i :: 0 <= i < |w.calls| ==> w.calls[i] in w.calls;
    forall i | 0 <= i < |w.replies|
      ensures Belongs(next, w.replies[i])
    {
      assert Belongs(w, w.replies[i]);
    }
  }

  /** The waiting call is the last one, so whatever arrives for an older call is
      a stale reload result, and anything else is what the call waits for. */
  lemma ReceiveKeeps(w: World)
    requires Invariant(w) && w.waiting && w.replies != []
    ensures Invariant(Next(w, Receive))
  {
    hide InOrder;
    var m := w.replies[0];
    assert Belongs(w, m);
    var next := Next(w, Receive);
    assert InOrder(next) by {
      assert InOrder(w);
      OrderIgnoresReplies(w, next);
    }
    forall i | 0 <= i < |next.replies|
      ensures Belongs(next, next.replies[i])
    {
      assert Belongs(w, w.replies[i + 1]);
    }
  }

  lemma OrderIgnoresReplies(w: World, v: World)
    requires InOrder(w) && v.commands == w.commands && v.calls == w.calls && v.applied == w.applied
    ensures InOrder(v)
  {
  }

  lemma CommandIsForItsCall(w: World)
    requires InOrder(w) && w.commands != []
    ensures var id := CommandID(w.commands[0]);
            && 1 <= id <= |w.calls| && id !in w.applied && w.commands[0] == WireCommand(w.calls[id - 1], id)
    ensures forall c: Command :: c in w.commands[1..] ==> CommandID(c) > CommandID(w.commands[0])
  {
  }

  lemma TailInOrder(w: World, v: World)
    requires InOrder(w) && w.commands != [] && v.calls == w.calls && v.commands == w.commands[1..]
    requires forall id :: id in v.applied ==> id in w.applied || id == CommandID(w.commands[0])
    ensures InOrder(v)
  {
  }

  lemma RepliesBelong(w: World, v: World)
    requires forall i :: 0 <= i < |w.replies| ==> Belongs(w, w.replies[i])
    requires v.calls == w.calls && w.replies <= v.replies
    requires forall id :: id in w.applied ==> id in v.applied && v.applied[id] == w.applied[id]
    requires forall i :: |w.replies| <= i < |v.replies| ==> Belongs(v, v.replies[i])
    ensures forall i :: 0 <= i < |v.replies| ==> Belongs(v, v.replies[i])
  {
    forall i | 0 <= i < |w.replies|
      ensures Belongs(v, v.replies[i])
    {
      assert Belongs(w, w.replies[i]);
    }
  }

  lemma WorkerKeeps(w: World, error: Option<string>)
    requires Invariant(w) && w.commands != [] && w.worker.Serving?
    ensures Invariant(Next(w, WorkerHandles(error)))
  {
    CommandIsForItsCall(w);
    hide InOrder;
    var next := Next(w, WorkerHandles(error));
    TailInOrder(w, next);
    RepliesBelong(w, next);
  }

  lemma InterruptKeeps(w: World, end: End)
    requires Invariant(w) && Enabled(w, Interrupt(end))
    ensures Invariant(Next(w, Interrupt(end)))
  {
    var next := Next(w, Interrupt(end));
    OrderIgnoresReplies(w, next);
    hide InOrder;
    RepliesBelong(w, next);
  }

  lemma FailureKeeps(w: World, failure: string)
    requires Invariant(w) && w.worker.Serving?
    ensures Invariant(Next(w, WorkerFails(failure)))
  {
    var next := Next(w, WorkerFails(failure));
    OrderIgnoresReplies(w, next);
    hide InOrder;
    RepliesBelong(w, next);
  }

  lemma StepKeeps(w: World, e: Event)
    requires Invariant(w) && Enabled(w, e)
    ensures Invariant(Next(w, e))
  {
    hide Invariant;
    match e
    case CallReload(payload, delivered) => CallKeeps(w, ReloadCall(payload), delivered);
    case CallShutdown(delivered) => CallKeeps(w, ShutdownCall, delivered);
    case Receive => ReceiveKeeps(w);
    case Interrupt(end) => InterruptKeeps(w, end);
    case WorkerHandles(error) => WorkerKeeps(w, error);
    case WorkerFails(failure) => FailureKeeps(w, failure);
  }

  function Run(start: World, events: seq<Event>): Option<World> {
    if events == [] then Some(start)
    else match Run(start, events[..|events| - 1])
      case None => None
      case Some(w) => if Enabled(w, events[|events| - 1]) then Some(Next(w, events[|events| - 1])) else None
  }

  /** Over any number of reloads and then at most one shutdown, with any wait
      abandoned and any reply late: a reload succeeds only if the worker applied
      that very payload under that request, a shutdown succeeds only if the
      worker is gone, and no call ever fails because a reply has the wrong kind,
      ID or digest. */
  lemma {:induction false} RepliesAreNotConfused(start: World, events: seq<Event>)
    requires Initial(start) && Run(start, events).Some?
    ensures var w := Run(start, events).value;
            && Invariant(w)
            && (forall id :: id in w.outcomes ==> 1 <= id <= |w.calls| && !w.outcomes[id].Mismatch?)
            && (forall id :: id in w.outcomes && w.outcomes[id].Done? && w.calls[id - 1].ReloadCall? ==>
                  id in w.applied && w.applied[id] == w.calls[id - 1].payload)
            && (forall id :: id in w.outcomes && w.outcomes[id].Done? && w.calls[id - 1].ShutdownCall? ==> w.worker.Gone?)
  {
    hide Next, Enabled, InOrder;
    if events != [] {
      RepliesAreNotConfused(start, events[..|events| - 1]);
      StepKeeps(Run(start, events[..|events| - 1]).value, events[|events| - 1]);
    } else {
      hide *;
      InitialHolds(start);
    }
  }

  lemma InitialHolds(w: World)
    requires Initial(w)
    ensures Invariant(w)
  {
  }

  /** The waiting call has returned with what its session returns for the
      replies and the end that it sees. */
  ghost predicate Answered(w: World, v: World, end: End)
    requires w.calls != []
  {
    && !v.waiting && v.calls == w.calls && |w.calls| in v.outcomes
    && v.outcomes[|w.calls|] == AwaitOutcome(w.calls[|w.calls| - 1], w.replies, |w.calls|, end)
  }

  lemma WaitStep(w: World, end: End)
    requires w.waiting && w.calls != [] && (end.ExitedCleanly? || end.ExitedBadly? ==> w.worker.Gone?)
    ensures w.replies == [] ==> Enabled(w, Interrupt(end)) && Answered(w, Next(w, Interrupt(end)), end)
    ensures w.replies != [] ==> Enabled(w, Receive)
    ensures w.replies != [] && !StaleReloadResult(w.replies[0], |w.calls|) ==> Answered(w, Next(w, Receive), end)
  {
  }

  lemma SkipStep(w: World, v: World, end: End)
    requires w.waiting && w.calls != [] && w.replies != [] && StaleReloadResult(w.replies[0], |w.calls|)
    ensures Next(w, Receive) == w.(replies := w.replies[1..])
    ensures Answered(w.(replies := w.replies[1..]), v, end) ==> Answered(w, v, end)
  {
  }

  /** What the session returns for a wait is what the protocol gives the call. */
  lemma {:induction false} AwaitIsARun(start: World, begun: seq<Event>, w: World, end: End) returns (events: seq<Event>)
    requires Run(start, begun) == Some(w) && w.waiting && w.calls != []
    requires end.ExitedCleanly? || end.ExitedBadly? ==> w.worker.Gone?
    ensures Run(start, events).Some? && Answered(w, Run(start, events).value, end)
    decreases |w.replies|
  {
    hide Run, Enabled, Next, Answered, StaleReloadResult;
    WaitStep(w, end);
    var e := if w.replies == [] then Interrupt(end) else Receive;
    RunThen(start, begun, w, e);
    events := begun + [e];
    if w.replies != [] && StaleReloadResult(w.replies[0], |w.calls|) {
      var rest := w.(replies := w.replies[1..]);
      SkipStep(w, rest, end);
      events := AwaitIsARun(start, events, rest, end);
      SkipStep(w, Run(start, events).value, end);
    }
  }

  lemma RunThen(start: World, events: seq<Event>, w: World, e: Event)
    requires Run(start, events) == Some(w) && Enabled(w, e)
    ensures Run(start, events + [e]) == Some(Next(w, e))
  {
    hide Enabled, Next;
    assert (events + [e])[..|events + [e]| - 1] == events;
  }

  // ---------------------------------------------------------------------
  // Which commands a worker survives

  ghost predicate Survivable(commands: seq<Command>, errors: nat -> Option<string>) {
    commands != [] ==>
      && commands[0].Commit? && errors(0).None?
      && forall i :: 0 < i < |commands| ==> commands[i].Reload? && commands[i].id != 0
  }

  /** A prepared worker is still there after a sequence of commands if and only
      if the first is a commit that succeeds and all later ones are reloads with
      an ID, whether or not they succeed. In particular the session must not
      send a second commit after a wait that it abandoned. */
  lemma {:induction false} WorkerSurvivesIff(commands: seq<Command>, errors: nat -> Option<string>)
    ensures var s := HandleAll(WorkerState(Committing, [], map[]), commands, errors);
            && (!s.worker.Gone? <==> Survivable(commands, errors))
            && (Survivable(commands, errors) ==> s.worker == if commands == [] then Committing else Serving)
  {
    if commands != [] {
      var front := commands[..|commands| - 1];
      WorkerSurvivesIff(front, errors);
      assert forall i :: 0 <= i < |front| ==> commands[i] == front[i];
    }
  }
}
