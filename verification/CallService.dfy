/** The call service as the program has it: module variables that handlers update between `await`s.
    Every method is one uninterrupted stretch and is proved to take exactly the step that
    `CallClient` describes; the results about runs are therefore results about these methods. */
module CallService {
  import opened Prelude
  import opened CallClient

  class Service {
    const me: Party
    var call: Option<Call>
    var history: seq<Ending>
    var ringTimer: Option<Room>
    var pendingCandidates: seq<Candidate>
    var activePeerConnection: Option<PcId>
    var peerConnections: seq<Pc>
    /** The handlers suspended at an `await`, which the language runtime keeps. */
    var tasks: seq<Task>
    ghost var initiated: set<Room>
    ghost var handled: set<Room>
    ghost var received: seq<Candidate>
    ghost var applied: seq<Applied>
    ghost var discarded: seq<Candidate>
    var receivedCount: nat

    ghost predicate Valid()
      reads this
    {
      receivedCount == |received|
    }

    ghost function View(): Client
      reads this
    {
      Client(me, call, history, ringTimer, pendingCandidates, activePeerConnection, peerConnections, tasks,
             initiated, handled, received, applied, discarded)
    }

    constructor (me: Party)
      ensures Valid() && View() == Idle(me)
    {
      this.me := me;
      call, history, ringTimer := None, [], None;
      pendingCandidates, activePeerConnection, peerConnections, tasks := [], None, [], [];
      initiated, handled, received, applied, discarded := {}, {}, [], [], [];
      receivedCount := 0;
    }

    method SetCallState(state: CallState)
      requires Valid()
      modifies this`call
      ensures View() == SetState(old(View()), state)
    {
      if call.Some? { call := Some(call.value.(state := state)); }
    }

    method End(outcome: Outcome)
      requires Valid()
      modifies this`call, this`history
      ensures View() == EndCall(old(View()), outcome)
    {
      if call.Some? {
        history := [Ending(call.value, outcome)] + history;
        call := None;
      }
    }

    /** Hands control back to the runtime, to be resumed with `task`; returns the slot. */
    method Suspend(task: Task) returns (slot: TaskId)
      requires Valid()
      modifies this`tasks
      ensures View() == Spawn(old(View()), task) && slot == |old(tasks)|
    {
      slot := |tasks|;
      tasks := tasks + [task];
    }

    method Proceed(slot: TaskId, task: Task)
      requires Valid()
      modifies this`tasks
      ensures View() == Goto(old(View()), slot, task)
    {
      if slot < |tasks| { tasks := tasks[slot := task]; }
    }

    method ClosePeerConnection()
      requires Valid()
      modifies this`activePeerConnection, this`peerConnections
      ensures View() == ClosePc(old(View()))
    {
      if activePeerConnection.Some? {
        var p := activePeerConnection.value;
        if p < |peerConnections| { peerConnections := peerConnections[p := peerConnections[p].(closed := true)]; }
        activePeerConnection := None;
      }
    }

    method CreatePeerConnection(room: Room, peer: Party)
      requires Valid()
      modifies this`activePeerConnection, this`peerConnections
      ensures View() == CreatePc(old(View()), room, peer)
    {
      ClosePeerConnection();
      activePeerConnection := Some(|peerConnections|);
      peerConnections := peerConnections + [Pc(room, peer, None, false)];
    }

    method DropPendingCandidates()
      requires Valid()
      modifies this`pendingCandidates, this`discarded
      ensures View() == Discard(old(View()))
    {
      discarded := discarded + pendingCandidates;
      pendingCandidates := [];
    }

    // -------------------------------------------------------------- user actions and timers

    method Initiate(partner: Party, room: Room)
      requires Valid()
      modifies this
      ensures Valid() && View() == Next(old(View()), Step.Initiate(partner, room))
    {
      call := Some(Call(partner, room, Some(room), Ringing, false));
      initiated := initiated + {room};
      var _ := Suspend(ArmRing(room));
    }

    method Accept(caller: Party, room: Room)
      requires Valid()
      modifies this
      ensures Valid() && View() == Next(old(View()), Step.Accept(caller, room))
    {
      call := Some(Call(caller, room, None, Connecting, false));
      var _ := Suspend(AnswerImport(caller, room));
    }

    method Hangup(notifyPeer: bool)
      requires Valid()
      modifies this
      ensures Valid() && View() == HangupCall(old(View()), notifyPeer)
    {
      if call.None? { return; }
      var ending := call.value;
      ringTimer := None;
      if notifyPeer {
        var _ := Suspend(HangupNotify(ending));
      } else {
        var slot := Suspend(Done);
        FinishHangup(slot, ending);
      }
    }

    method FinishHangup(slot: TaskId, ending: Call)
      requires Valid()
      modifies this
      ensures Valid() && View() == Teardown(old(View()), slot, ending)
    {
      DropPendingCandidates();
      ClosePeerConnection();
      if ending.sfu {
        Proceed(slot, HangupSfu(ending));
      } else {
        End(Completed);
        Proceed(slot, Done);
      }
    }

    method RingTimeout()
      requires Valid()
      modifies this
      ensures Valid() && View() == Next(old(View()), Step.RingTimeout)
    {
      if ringTimer.None? { return; }
      var ringRoom := ringTimer.value;
      ringTimer := None;
      if call.Some? && call.value.room == Some(ringRoom) && call.value.state == Ringing { End(Missed); }
    }

    method P2PFailure(room: Room)
      requires Valid()
      modifies this
      ensures Valid() && View() == Next(old(View()), IceFailed(room))
    {
      if call.None? || call.value.sfu { return; }
      ClosePeerConnection();
      DropPendingCandidates();
      var _ := Suspend(Fallback(room));
    }

    /** A connection has gathered a candidate, which goes to its own peer in its own room. */
    method OnIceCandidate(pc: PcId, line: string) returns (sent: seq<Signal>)
      requires Valid()
      ensures sent == Sent(View(), Gathered(pc, line))
    {
      if pc >= |peerConnections| || peerConnections[pc].closed { return []; }
      return [Signal(Candidates(Some([line])), peerConnections[pc].room, me, peerConnections[pc].peer)];
    }

    // -------------------------------------------------------------- incoming signals

    method HandleRTCSignal(id: SignalId, signal: Signal)
      requires Valid()
      modifies this
      ensures Valid() && View() == Next(old(View()), Deliver(id, signal))
    {
      hide AddLoop, HangupCall, Spawn, SetState;
      if call.None? || call.value.room != Some(signal.room) || signal.from != call.value.partner { return; }
      match signal.body
      case Connect =>
        if call.value.state != Ringing || activePeerConnection.Some? { return; }
        ringTimer := None;
        handled := handled + {signal.room};
        SetCallState(Connecting);
        var _ := Suspend(CallerMedia(signal.from, signal.room));
      case Offer(present) =>
        if activePeerConnection.None? || !present { return; }
        var _ := Suspend(SetRemote(activePeerConnection.value, id, Some(Reply(signal.room, signal.from))));
      case Answer(present, _) =>
        if activePeerConnection.None? || !present { return; }
        var _ := Suspend(SetRemote(activePeerConnection.value, id, None));
      case Candidates(list) =>
        if list.None? { return; }
        var batch := Number(receivedCount, signal.room, list.value);
        received := received + batch;
        receivedCount := receivedCount + |batch|;
        var slot := Suspend(Done);
        AddCandidates(slot, activePeerConnection, batch);
      case Disconnect => Hangup(false);
    }

    /** The candidate loop, up to the first candidate that is handed to the connection. */
    method AddCandidates(slot: TaskId, pc: Option<PcId>, candidates: seq<Candidate>)
      requires Valid()
      modifies this`pendingCandidates, this`applied, this`tasks
      ensures Valid() && View() == AddLoop(old(View()), slot, pc, candidates)
    {
      var k := 0;
      while k < |candidates|
        invariant 0 <= k <= |candidates| && Valid()
        invariant AddLoop(View(), slot, pc, candidates[k..]) == AddLoop(old(View()), slot, pc, candidates)
      {
        assert candidates[k..][0] == candidates[k] && candidates[k..][1..] == candidates[k + 1..];
        if pc.None? || pc.value >= |peerConnections| || peerConnections[pc.value].remote.None? {
          pendingCandidates := pendingCandidates + [candidates[k]];
        } else {
          applied := applied + [Applied(pc.value, candidates[k])];
          Proceed(slot, Adding(pc.value, candidates[k + 1..]));
          return;
        }
        k := k + 1;
      }
      Proceed(slot, Done);
    }

    // -------------------------------------------------------------- continuations

    method FlushFrom(slot: TaskId, pc: PcId, rest: seq<Candidate>, reply: Option<Reply>)
      requires Valid()
      modifies this`applied, this`tasks
      ensures Valid() && View() == Flush(old(View()), slot, pc, rest, reply)
    {
      if rest != [] {
        applied := applied + [Applied(pc, rest[0])];
        Proceed(slot, Flushing(pc, rest[1..], reply));
      } else if reply.Some? {
        Proceed(slot, Answering(pc, reply.value));
      } else {
        Proceed(slot, Done);
      }
    }

    /** What the handler in `slot` publishes when it goes on. */
    method PublishOnResume(slot: TaskId) returns (sent: seq<Signal>)
      requires Valid()
      ensures sent == Sent(View(), Resume(slot))
    {
      sent := [];
      if slot < |tasks| && tasks[slot].Publish? {
        sent := [tasks[slot].signal];
      } else if slot < |tasks| && tasks[slot].HangupNotify? && tasks[slot].call.room.Some? {
        var ending := tasks[slot].call;
        sent := [Signal(Disconnect, ending.room.value, me, ending.partner)];
      }
    }

    /** Continues the handler in `slot` after its awaited operation succeeded; what it publishes, if
        anything, is returned. */
    method ResumeTask(slot: TaskId) returns (sent: seq<Signal>)
      requires Valid()
      modifies this
      ensures Valid() && View() == Next(old(View()), Resume(slot))
      ensures sent == Sent(old(View()), Resume(slot))
    {
      hide Flush, AddLoop, Teardown, CreatePc, Goto, SetState, EndCall, Sent;
      sent := PublishOnResume(slot);
      if slot >= |tasks| { return; }
      match tasks[slot]
      case Done =>
      case Publish(_) => Proceed(slot, Done);
      case CallerOffer(peer, room) => Proceed(slot, Publish(Signal(Offer(true), room, me, peer)));
      case AnswerMedia(peer, room) =>
        CreatePeerConnection(room, peer);
        Proceed(slot, Publish(Signal(Connect, room, me, peer)));
      case CallerMedia(peer, room) =>
        CreatePeerConnection(room, peer);
        Proceed(slot, CallerOffer(peer, room));
      case SetRemote(pc, description, reply) => ResumeSetRemote(slot, pc, description, reply);
      case FlushOwed(pc, reply) =>
        var buffered := pendingCandidates;
        pendingCandidates := [];
        FlushFrom(slot, pc, buffered, reply);
      case Flushing(pc, rest, reply) => FlushFrom(slot, pc, rest, reply);
      case Answering(pc, owed) =>
        if pc < |peerConnections| && peerConnections[pc].remote.Some? {
          Proceed(slot, Publish(Signal(Answer(true, peerConnections[pc].remote.value), owed.room, me, owed.partner)));
        }
      case Adding(pc, rest) => AddCandidates(slot, Some(pc), rest);
      case HangupNotify(ending) => Proceed(slot, HangupSent(ending));
      case HangupSent(ending) => FinishHangup(slot, ending);
      case Fallback(room) => ResumeFallback(slot, room);
      case FallbackMedia(_) => ResumeFallbackMedia(slot);
      case _ => ResumeCall(slot);
    }

    /** The continuations that change the call itself or its timer. */
    method ResumeCall(slot: TaskId)
      requires Valid() && slot < |tasks|
      requires tasks[slot].ArmRing? || tasks[slot].AnswerImport? || tasks[slot].HangupSfu?
      modifies this`ringTimer, this`call, this`history, this`tasks
      ensures Valid() && View() == Next(old(View()), Resume(slot))
    {
      hide Flush, AddLoop, Teardown, CreatePc, Goto, SetState, EndCall;
      match tasks[slot]
      case ArmRing(room) =>
        ringTimer := Some(room);
        Proceed(slot, Done);
      case AnswerImport(peer, room) =>
        if call.Some? { call := Some(call.value.(room := Some(room))); }
        SetCallState(Connecting);
        Proceed(slot, AnswerMedia(peer, room));
      case HangupSfu(_) =>
        End(Completed);
        Proceed(slot, Done);
    }

    /** The room of the fallback is joined; the call may have ended meanwhile. */
    method ResumeFallback(slot: TaskId, room: Room)
      requires Valid() && slot < |tasks| && tasks[slot] == Fallback(room)
      modifies this`tasks
      ensures Valid() && View() == Next(old(View()), Resume(slot))
    {
      hide Flush, AddLoop, Teardown, CreatePc, Goto, SetState, EndCall;
      Proceed(slot, if call.None? || call.value.room != Some(room) then Done else FallbackMedia(room));
    }

    method ResumeFallbackMedia(slot: TaskId)
      requires Valid() && slot < |tasks| && tasks[slot].FallbackMedia?
      modifies this`call, this`tasks
      ensures Valid() && View() == Next(old(View()), Resume(slot))
    {
      hide Flush, AddLoop, Teardown, CreatePc, Goto, SetState, EndCall;
      if call.Some? { call := Some(call.value.(sfu := true)); }
      SetCallState(Active);
      Proceed(slot, Done);
    }

    method ResumeSetRemote(slot: TaskId, pc: PcId, description: SignalId, reply: Option<Reply>)
      requires Valid() && slot < |tasks| && tasks[slot] == SetRemote(pc, description, reply)
      modifies this`peerConnections, this`tasks
      ensures Valid() && View() == Next(old(View()), Resume(slot))
    {
      if pc < |peerConnections| && !peerConnections[pc].closed {
        peerConnections := peerConnections[pc := peerConnections[pc].(remote := Some(description))];
        Proceed(slot, FlushOwed(pc, reply));
      }
    }

    /** The awaited operation of the handler in `slot` was rejected. */
    method FailTask(slot: TaskId)
      requires Valid()
      modifies this
      ensures Valid() && View() == Next(old(View()), Fail(slot))
    {
      if slot >= |tasks| { return; }
      var t := tasks[slot];
      if t.FlushOwed? || t.Flushing? || t.Adding? || t.HangupNotify? || t.HangupSent? { return; }
      if t.Fallback? || t.FallbackMedia? {
        if call.Some? && call.value.room == Some(t.room) { End(Failed); }
      }
      Proceed(slot, Done);
    }
  }
}
