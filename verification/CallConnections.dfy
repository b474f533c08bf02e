/** Whose signals the open connection is given. The handlers give a signal of the active call to
    whichever connection is open, so everything rests on that connection being the active call's. */
module CallConnections {
  import opened Prelude
  import opened CallClient
  import opened CallRinging

  /** The signal is an offer or an answer that the handler passes on to the open connection. */
  predicate Described(c: Client, s: Signal) {
    PassesGuard(c, s) && c.active.Some? && (s.body.Offer? || s.body.Answer?) && s.body.present
  }

  predicate OpenFor(c: Client, room: Room, peer: Party) {
    c.active.Some? && c.active.value < |c.pcs|
    && c.pcs[c.active.value].room == room && c.pcs[c.active.value].peer == peer
  }

  /** What is passed on by the step goes to a connection that was created for the same room and sender. */
  predicate Aligned(c: Client, s: Step) {
    s.Deliver? && Described(c, s.signal) ==> OpenFor(c, s.signal.room, s.signal.from)
  }

  /** Whatever arrives next is aligned. */
  ghost predicate AllAligned(c: Client) {
    forall s: Step :: Aligned(c, s)
  }

  /** The open connection is the active call's own, once that call has a room. */
  predicate OwnConnection(c: Client) {
    c.call.Some? && c.call.value.room.Some? && c.active.Some?
    ==> OpenFor(c, c.call.value.room.value, c.call.value.partner)
  }

  lemma AllAlignedExactly(c: Client)
    ensures AllAligned(c) <==> OwnConnection(c)
  {
    if c.call.Some? && c.call.value.room.Some? {
      assert Aligned(c, Deliver(0, Signal(Offer(true), c.call.value.room.value, c.call.value.partner, c.me)))
             ==> OwnConnection(c);
    }
  }

  /** When a step may be taken: a call is opened only if an open connection is already its own; an
      accepted call gets its room, and a set-up creates its connection, only if the active call is the
      one they were started for. All of it is known before the step. */
  predicate KeepsApart(c: Client, s: Step) {
    match s
    case Initiate(partner, room) => c.active.Some? ==> OpenFor(c, room, partner)
    case Resume(i) =>
      i < |c.tasks| ==>
        (match c.tasks[i]
         case AnswerImport(_, room) => c.call.Some? && c.active.Some? ==> OpenFor(c, room, c.call.value.partner)
         case AnswerMedia(peer, room) => NoOtherCall(c, room, peer)
         case CallerMedia(peer, room) => NoOtherCall(c, room, peer)
         case _ => true)
    case _ => true
  }

  predicate NoOtherCall(c: Client, room: Room, peer: Party) {
    c.call.Some? && c.call.value.room.Some? ==> c.call.value.room == Some(room) && c.call.value.partner == peer
  }

  // ---------------------------------------------------------------- exactly

  /** Each step keeps the connection the call's own if and only if it may be taken. */
  lemma StepKeepsOwnExactly(c: Client, s: Step)
    requires OwnConnection(c)
    ensures OwnConnection(Next(c, s)) <==> KeepsApart(c, s)
  {
    hide Continue, AddLoop;
    match s
    case Deliver(id, signal) =>
      if PassesGuard(c, signal) && signal.body.Candidates? && signal.body.list.Some? {
        var batch := Number(|c.received|, signal.room, signal.body.list.value);
        AddLoopFrame(Spawn(c.(received := c.received + batch), Done), |c.tasks|, c.active, batch);
      }
    case Resume(i) => ContinueKeepsOwnExactly(c, i);
    case _ =>
  }

  lemma ContinueKeepsOwnExactly(c: Client, i: TaskId)
    requires OwnConnection(c)
    ensures OwnConnection(Continue(c, i)) <==> KeepsApart(c, Resume(i))
  {
    hide AddLoop, Flush, Teardown, CreatePc;
    if i < |c.tasks| {
      match c.tasks[i]
      case Adding(pc, rest) => AddLoopFrame(c, i, Some(pc), rest);
      case FlushOwed(pc, reply) => FlushKeepsOwn(c.(pending := []), i, pc, c.pending, reply);
      case Flushing(pc, rest, reply) => FlushKeepsOwn(c, i, pc, rest, reply);
      case HangupSent(call) => TeardownKeepsOwn(c, i, call);
      case AnswerMedia(peer, room) => CreateKeepsOwnExactly(c, room, peer);
      case CallerMedia(peer, room) => CreateKeepsOwnExactly(c, room, peer);
      case _ =>
    }
  }

  lemma FlushKeepsOwn(c: Client, i: TaskId, pc: PcId, rest: seq<Candidate>, reply: Option<Reply>)
    requires OwnConnection(c)
    ensures OwnConnection(Flush(c, i, pc, rest, reply))
  {
  }

  lemma TeardownKeepsOwn(c: Client, i: TaskId, call: Call)
    ensures OwnConnection(Teardown(c, i, call))
  {
  }

  lemma CreateKeepsOwnExactly(c: Client, room: Room, peer: Party)
    ensures CreatePc(c, room, peer).call == c.call
    ensures OwnConnection(CreatePc(c, room, peer)) <==> NoOtherCall(c, room, peer)
  {
  }

  /** Once it is not, every offer or answer that the handler passes on ends up as the description of a
      connection of another room or peer. */
  lemma OtherwiseAllMisdirected(c: Client, id: SignalId, s: Signal)
    requires !OwnConnection(c) && c.active.Some? && c.active.value < |c.pcs| && !c.pcs[c.active.value].closed
    requires Described(c, s)
    ensures var pc := Next(Next(c, Deliver(id, s)), Resume(|c.tasks|)).pcs[c.active.value];
            pc.remote == Some(id) && !(pc.room == s.room && pc.peer == s.from)
  {
  }
}
