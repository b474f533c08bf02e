/** One endpoint of the 1:1 call service, cut at its `await`s.

    Each function is one stretch of the program that runs without interruption. What a handler still
    has to do after an `await` is a `Task`; `Resume` continues it when the awaited operation succeeds
    and `Fail` when it rejects, so a run is any interleaving of the two with user actions, timers,
    connection events and incoming signals. */
module CallClient {
  import opened Prelude

  type Party = nat
  type Room = nat
  type PcId = nat
  type TaskId = nat
  type SignalId = nat

  datatype CallState = Ringing | Connecting | Active

  /** `key` is the room that the call's secret derives; `room` is empty until an accepted call has
      derived it. */
  datatype Call = Call(partner: Party, key: Room, room: Option<Room>, state: CallState, sfu: bool)

  datatype Outcome = Completed | Missed | Failed

  datatype Ending = Ending(call: Call, outcome: Outcome)

  /** `present` and the option say whether the signal carries the data its type calls for. */
  datatype Body =
    | Connect
    | Offer(present: bool)
    | Answer(present: bool, to: SignalId)
    | Candidates(list: Option<seq<string>>)
    | Disconnect

  datatype Signal = Signal(body: Body, room: Room, from: Party, to: Party)

  /** A candidate that passed the guard, numbered in order of receipt, with the room it came in. */
  datatype Candidate = Candidate(serial: nat, room: Room, line: string)

  datatype Applied = Applied(pc: PcId, candidate: Candidate)

  /** A peer connection, the call it was created for and the description it was last given. */
  datatype Pc = Pc(room: Room, peer: Party, remote: Option<SignalId>, closed: bool)

  /** Where an answer is owed. */
  datatype Reply = Reply(room: Room, partner: Party)

  datatype Task =
    | Done
    | ArmRing(room: Room)
    | AnswerImport(peer: Party, room: Room)
    | AnswerMedia(peer: Party, room: Room)
    | CallerMedia(peer: Party, room: Room)
    | CallerOffer(peer: Party, room: Room)
    | Publish(signal: Signal)
    | SetRemote(pc: PcId, description: SignalId, reply: Option<Reply>)
    | FlushOwed(pc: PcId, reply: Option<Reply>)
    | Flushing(pc: PcId, rest: seq<Candidate>, reply: Option<Reply>)
    | Answering(pc: PcId, owed: Reply)
    | Adding(pc: PcId, rest: seq<Candidate>)
    | HangupNotify(call: Call)
    | HangupSent(call: Call)
    | HangupSfu(call: Call)
    | Fallback(room: Room)
    | FallbackMedia(room: Room)

  /** The module's variables, the call slice of the store, the suspended handlers, and what has
      happened so far: `initiated` and `handled` are the rooms this party opened and those whose
      `connect` it acted on; `received`, `applied` and `discarded` follow every candidate. */
  datatype Client = Client(
    me: Party,
    call: Option<Call>,
    history: seq<Ending>,
    ring: Option<Room>,
    pending: seq<Candidate>,
    active: Option<PcId>,
    pcs: seq<Pc>,
    tasks: seq<Task>,
    initiated: set<Room>,
    handled: set<Room>,
    received: seq<Candidate>,
    applied: seq<Applied>,
    discarded: seq<Candidate>)

  datatype Step =
    | Initiate(partner: Party, room: Room)
    | Accept(caller: Party, room: Room)
    | Hangup
    | RingTimeout
    | Deliver(id: SignalId, signal: Signal)
    | Gathered(pc: PcId, line: string)
    | IceConnected
    | IceFailed(room: Room)
    | Resume(task: TaskId)
    | Fail(task: TaskId)

  function Idle(me: Party): Client {
    Client(me, None, [], None, [], None, [], [], {}, {}, [], [], [])
  }

  // ---------------------------------------------------------------- store and connection helpers

  function SetState(c: Client, state: CallState): Client {
    if c.call.None? then c else c.(call := Some(c.call.value.(state := state)))
  }

  function EndCall(c: Client, outcome: Outcome): Client {
    if c.call.None? then c
    else c.(history := [Ending(c.call.value, outcome)] + c.history, call := None)
  }

  function Spawn(c: Client, t: Task): Client {
    c.(tasks := c.tasks + [t])
  }

  function Goto(c: Client, i: TaskId, t: Task): Client {
    if i < |c.tasks| then c.(tasks := c.tasks[i := t]) else c
  }

  function ClosePc(c: Client): Client {
    if c.active.Some? && c.active.value < |c.pcs| then
      c.(pcs := c.pcs[c.active.value := c.pcs[c.active.value].(closed := true)], active := None)
    else c.(active := None)
  }

  function CreatePc(c: Client, room: Room, peer: Party): Client {
    var c := ClosePc(c);
    c.(pcs := c.pcs + [Pc(room, peer, None, false)], active := Some(|c.pcs|))
  }

  function Remote(c: Client, pc: PcId): Option<SignalId> {
    if pc < |c.pcs| then c.pcs[pc].remote else None
  }

  function Discard(c: Client): Client {
    c.(pending := [], discarded := c.discarded + c.pending)
  }

  // ---------------------------------------------------------------- user actions and timers

  function InitiateCall(c: Client, partner: Party, room: Room): Client {
    Spawn(c.(call := Some(Call(partner, room, Some(room), Ringing, false)), initiated := c.initiated + {room}),
          ArmRing(room))
  }

  function AcceptCall(c: Client, caller: Party, room: Room): Client {
    Spawn(c.(call := Some(Call(caller, room, None, Connecting, false))), AnswerImport(caller, room))
  }

  function HangupCall(c: Client, notify: bool): Client {
    if c.call.None? then c else
    var c' := c.(ring := None);
    if notify then Spawn(c', HangupNotify(c.call.value))
    else Teardown(Spawn(c', Done), |c.tasks|, c.call.value)
  }

  /** The part of a hangup after the peer was notified; `i` is the slot of the hanging-up handler. */
  function Teardown(c: Client, i: TaskId, call: Call): Client {
    var c' := ClosePc(Discard(c));
    if call.sfu then Goto(c', i, HangupSfu(call)) else Goto(EndCall(c', Completed), i, Done)
  }

  function TimeOut(c: Client): Client {
    if c.ring.None? then c else
    var c' := c.(ring := None);
    if c.call.Some? && c.call.value.room == c.ring && c.call.value.state.Ringing?
    then EndCall(c', Missed) else c'
  }

  function P2pFailure(c: Client, room: Room): Client {
    if c.call.None? || c.call.value.sfu then c
    else Spawn(Discard(ClosePc(c)), Fallback(room))
  }

  // ---------------------------------------------------------------- incoming signals

  /** Only the partner of the active call is heard, and only in that call's room. */
  predicate PassesGuard(c: Client, s: Signal) {
    c.call.Some? && c.call.value.room == Some(s.room) && c.call.value.partner == s.from
  }

  function Handle(c: Client, id: SignalId, s: Signal): Client {
    if !PassesGuard(c, s) then c else
    match s.body
    case Connect =>
      if c.call.value.state != Ringing || c.active.Some? then c
      else
        Spawn(SetState(c.(ring := None, handled := c.handled + {s.room}), Connecting),
              CallerMedia(s.from, s.room))
    case Offer(present) =>
      if c.active.None? || !present then c
      else Spawn(c, SetRemote(c.active.value, id, Some(Reply(s.room, s.from))))
    case Answer(present, _) =>
      if c.active.None? || !present then c
      else Spawn(c, SetRemote(c.active.value, id, None))
    case Candidates(list) =>
      if list.None? then c else
      var batch := Number(|c.received|, s.room, list.value);
      AddLoop(Spawn(c.(received := c.received + batch), Done), |c.tasks|, c.active, batch)
    case Disconnect => HangupCall(c, false)
  }

  function Number(base: nat, room: Room, lines: seq<string>): (batch: seq<Candidate>)
    ensures |batch| == |lines|
    ensures forall k | 0 <= k < |batch| :: batch[k] == Candidate(base + k, room, lines[k])
  {
    seq(|lines|, k requires 0 <= k < |lines| => Candidate(base + k, room, lines[k]))
  }

  /** The candidate loop from its next element up to its next `await`; `pc` was read once, before
      the loop. */
  function AddLoop(c: Client, i: TaskId, pc: Option<PcId>, rest: seq<Candidate>): Client
    decreases |rest|
  {
    if rest == [] then Goto(c, i, Done)
    else if pc.None? || Remote(c, pc.value).None? then
      AddLoop(c.(pending := c.pending + [rest[0]]), i, pc, rest[1..])
    else
      Goto(c.(applied := c.applied + [Applied(pc.value, rest[0])]), i, Adding(pc.value, rest[1..]))
  }

  /** The flush loop from its next element up to its next `await`, or what follows the flush. */
  function Flush(c: Client, i: TaskId, pc: PcId, rest: seq<Candidate>, reply: Option<Reply>): Client {
    if rest != [] then
      Goto(c.(applied := c.applied + [Applied(pc, rest[0])]), i, Flushing(pc, rest[1..], reply))
    else if reply.Some? then Goto(c, i, Answering(pc, reply.value))
    else Goto(c, i, Done)
  }

  // ---------------------------------------------------------------- continuations

  function Continue(c: Client, i: TaskId): Client {
    if i >= |c.tasks| then c else
    match c.tasks[i]
    case Done => c
    case ArmRing(room) => Goto(c.(ring := Some(room)), i, Done)
    case AnswerImport(peer, room) =>
      var c' := if c.call.None? then c else c.(call := Some(c.call.value.(room := Some(room))));
      Goto(SetState(c', Connecting), i, AnswerMedia(peer, room))
    case AnswerMedia(peer, room) =>
      Goto(CreatePc(c, room, peer), i, Publish(Signal(Connect, room, c.me, peer)))
    case CallerMedia(peer, room) => Goto(CreatePc(c, room, peer), i, CallerOffer(peer, room))
    case CallerOffer(peer, room) => Goto(c, i, Publish(Signal(Offer(true), room, c.me, peer)))
    case Publish(_) => Goto(c, i, Done)
    case SetRemote(pc, description, reply) =>
      if pc >= |c.pcs| || c.pcs[pc].closed then c
      else Goto(c.(pcs := c.pcs[pc := c.pcs[pc].(remote := Some(description))]), i, FlushOwed(pc, reply))
    case FlushOwed(pc, reply) => Flush(c.(pending := []), i, pc, c.pending, reply)
    case Flushing(pc, rest, reply) => Flush(c, i, pc, rest, reply)
    case Answering(pc, owed) =>
      if Remote(c, pc).None? then c
      else Goto(c, i, Publish(Signal(Answer(true, Remote(c, pc).value), owed.room, c.me, owed.partner)))
    case Adding(pc, rest) => AddLoop(c, i, Some(pc), rest)
    case HangupNotify(call) => Goto(c, i, HangupSent(call))
    case HangupSent(call) => Teardown(c, i, call)
    case HangupSfu(_) => Goto(EndCall(c, Completed), i, Done)
    case Fallback(room) =>
      if c.call.None? || c.call.value.room != Some(room) then Goto(c, i, Done)
      else Goto(c, i, FallbackMedia(room))
    case FallbackMedia(_) =>
      var c' := if c.call.None? then c else c.(call := Some(c.call.value.(sfu := true)));
      Goto(SetState(c', Active), i, Done)
  }

  /** A rejected operation ends its handler; those whose rejections are caught are not affected,
      except that a failed fallback ends its own call. */
  function Abort(c: Client, i: TaskId): Client {
    if i >= |c.tasks| then c else
    match c.tasks[i]
    case Done => c
    case FlushOwed(_, _) => c
    case Flushing(_, _, _) => c
    case Adding(_, _) => c
    case HangupNotify(_) => c
    case HangupSent(_) => c
    case Fallback(room) => Goto(FailIn(c, room), i, Done)
    case FallbackMedia(room) => Goto(FailIn(c, room), i, Done)
    case _ => Goto(c, i, Done)
  }

  function FailIn(c: Client, room: Room): Client {
    if c.call.Some? && c.call.value.room == Some(room) then EndCall(c, Failed) else c
  }

  /** What a step puts on the network: a resumed publication, the notice of a hangup, or a candidate
      that an open connection has gathered. The notice of a call whose room is not derived yet names no
      room, and is dropped by whoever parses it. */
  function Sent(c: Client, s: Step): seq<Signal> {
    match s
    case Resume(i) =>
      if i >= |c.tasks| then [] else
      (match c.tasks[i]
       case Publish(signal) => [signal]
       case HangupNotify(call) =>
         if call.room.None? then [] else [Signal(Disconnect, call.room.value, c.me, call.partner)]
       case _ => [])
    case Gathered(p, line) =>
      if p >= |c.pcs| || c.pcs[p].closed then []
      else [Signal(Candidates(Some([line])), c.pcs[p].room, c.me, c.pcs[p].peer)]
    case _ => []
  }

  function Next(c: Client, s: Step): Client {
    match s
    case Initiate(partner, room) => InitiateCall(c, partner, room)
    case Accept(caller, room) => AcceptCall(c, caller, room)
    case Hangup => HangupCall(c, true)
    case RingTimeout => TimeOut(c)
    case Deliver(id, signal) => Handle(c, id, signal)
    case Gathered(_, _) => c
    case IceConnected => SetState(c, Active)
    case IceFailed(room) => P2pFailure(c, room)
    case Resume(i) => Continue(c, i)
    case Fail(i) => Abort(c, i)
  }

  function Run(c: Client, steps: seq<Step>): Client
    decreases |steps|
  {
    if steps == [] then c else Next(Run(c, steps[..|steps| - 1]), steps[|steps| - 1])
  }

  lemma RunPrefix(c: Client, steps: seq<Step>, k: nat)
    requires k < |steps|
    ensures Run(c, steps[..k + 1]) == Next(Run(c, steps[..k]), steps[k])
  {
    assert steps[..k + 1][..k] == steps[..k];
  }

  /** Every room opened in the run is new. */
  predicate FreshRooms(c: Client, steps: seq<Step>)
    decreases |steps|
  {
    steps == []
    || (FreshRooms(c, steps[..|steps| - 1])
        && (var s := steps[|steps| - 1];
            s.Initiate? ==> s.room !in Run(c, steps[..|steps| - 1]).initiated))
  }
}
