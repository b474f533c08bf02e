/** The ring timer: it ends only the call it was armed for, and only while that call is unanswered. */
module CallRinging {
  import opened Prelude
  import opened CallClient

  predicate Unanswered(c: Client) {
    c.call.Some? && c.call.value.state.Ringing?
  }

  /** A ringing call is one this party opened, in its own room, whose `connect` was not yet handled;
      no call that was ended as missed had its `connect` handled, nor ever will. */
  ghost predicate RingInv(c: Client) {
    && c.handled <= c.initiated
    && ArmedForOwnRooms(c)
    && (Unanswered(c) ==>
          && c.call.value.room == Some(c.call.value.key)
          && c.call.value.key in c.initiated - c.handled)
    && (forall k | 0 <= k < |c.history| :: c.history[k].outcome.Missed? ==> MissedUnconnected(c, c.history[k].call))
  }

  ghost predicate ArmedForOwnRooms(c: Client) {
    && (c.ring.Some? ==> c.ring.value in c.initiated)
    && (forall k | 0 <= k < |c.tasks| :: c.tasks[k].ArmRing? ==> c.tasks[k].room in c.initiated)
  }

  predicate MissedUnconnected(c: Client, call: Call) {
    && call.state.Ringing? && call.room == Some(call.key)
    && call.key in c.initiated - c.handled
    && !(Unanswered(c) && c.call.value.key == call.key)
  }

  /** The candidate loop touches nothing but the buffer, the applied candidates and its own slot. */
  lemma {:induction false} AddLoopFrame(c: Client, i: TaskId, pc: Option<PcId>, rest: seq<Candidate>)
    ensures var c' := AddLoop(c, i, pc, rest);
            && c' == c.(pending := c'.pending, applied := c'.applied, tasks := c'.tasks)
            && |c'.tasks| == |c.tasks|
            && (i < |c.tasks| ==> c'.tasks == c.tasks[i := c'.tasks[i]]
                                  && (c'.tasks[i].Done? || c'.tasks[i].Adding?))
            && (i >= |c.tasks| ==> c'.tasks == c.tasks)
    decreases |rest|
  {
    if rest != [] && (pc.None? || Remote(c, pc.value).None?) {
      AddLoopFrame(c.(pending := c.pending + [rest[0]]), i, pc, rest[1..]);
    }
  }

  /** The step opens no call, handles no `connect`, records no missed call and arms no new timer. */
  ghost predicate Quiet(c: Client, c': Client) {
    && c'.handled == c.handled && c'.initiated == c.initiated
    && (c'.ring == c.ring || c'.ring.None? || c'.ring.value in c.initiated)
    && (forall k | 0 <= k < |c'.tasks| :: c'.tasks[k].ArmRing? ==> c'.tasks[k].room in c.initiated)
    && (Unanswered(c') ==> c'.call == c.call)
    && (c'.history == c.history
        || (|c'.history| > 0 && !c'.history[0].outcome.Missed? && c'.history[1..] == c.history))
  }

  lemma QuietKeepsRingInv(c: Client, c': Client)
    requires RingInv(c) && Quiet(c, c')
    ensures RingInv(c')
  {
    forall k | 0 <= k < |c'.history| && c'.history[k].outcome.Missed?
      ensures MissedUnconnected(c', c'.history[k].call)
    {
      if c'.history == c.history {
        assert MissedUnconnected(c, c.history[k].call);
      } else {
        assert c'.history[k] == c.history[k - 1];
        assert MissedUnconnected(c, c.history[k - 1].call);
      }
    }
  }

  /** Every step is quiet but the opening of a call, the timeout and the handling of `connect`. */
  lemma StepIsQuiet(c: Client, s: Step)
    requires RingInv(c) && !s.Initiate? && !s.RingTimeout? && !(s.Deliver? && s.signal.body.Connect?)
    ensures Quiet(c, Next(c, s))
  {
    match s
    case Deliver(id, signal) => HandleIsQuiet(c, id, signal);
    case Resume(i) => ContinueIsQuiet(c, i);
    case Fail(i) => AbortIsQuiet(c, i);
    case _ =>
  }

  lemma HandleIsQuiet(c: Client, id: SignalId, s: Signal)
    requires RingInv(c) && !s.body.Connect?
    ensures Quiet(c, Handle(c, id, s))
  {
    if PassesGuard(c, s) && s.body.Candidates? && s.body.list.Some? {
      var batch := Number(|c.received|, s.room, s.body.list.value);
      AddLoopFrame(Spawn(c.(received := c.received + batch), Done), |c.tasks|, c.active, batch);
    } else if PassesGuard(c, s) && s.body.Disconnect? {
      TeardownIsQuiet(Spawn(c.(ring := None), Done), |c.tasks|, c.call.value);
    }
  }

  lemma TeardownIsQuiet(c: Client, i: TaskId, call: Call)
    requires ArmedForOwnRooms(c)
    ensures Quiet(c, Teardown(c, i, call))
  {
  }

  lemma FlushIsQuiet(c: Client, i: TaskId, pc: PcId, rest: seq<Candidate>, reply: Option<Reply>)
    requires ArmedForOwnRooms(c)
    ensures Quiet(c, Flush(c, i, pc, rest, reply))
  {
  }

  lemma MediaIsQuiet(c: Client, i: TaskId, room: Room, peer: Party, t: Task)
    requires ArmedForOwnRooms(c) && !t.ArmRing?
    ensures Quiet(c, Goto(CreatePc(c, room, peer), i, t))
  {
  }

  lemma ContinueIsQuiet(c: Client, i: TaskId)
    requires RingInv(c)
    ensures Quiet(c, Continue(c, i))
  {
    hide Flush, AddLoop, Teardown, CreatePc, Unanswered;
    if i < |c.tasks| {
      match c.tasks[i]
      case Adding(pc, rest) => AddLoopFrame(c, i, Some(pc), rest);
      case HangupSent(call) => TeardownIsQuiet(c, i, call);
      case FlushOwed(pc, reply) => FlushIsQuiet(c.(pending := []), i, pc, c.pending, reply);
      case Flushing(pc, rest, reply) => FlushIsQuiet(c, i, pc, rest, reply);
      case CallerMedia(peer, room) => MediaIsQuiet(c, i, room, peer, CallerOffer(peer, room));
      case AnswerMedia(peer, room) =>
        MediaIsQuiet(c, i, room, peer, Publish(Signal(Connect, room, c.me, peer)));
      case _ => OtherTaskIsQuiet(c, i);
    }
  }

  predicate Simple(t: Task) {
    !t.Adding? && !t.HangupSent? && !t.FlushOwed? && !t.Flushing? && !t.CallerMedia? && !t.AnswerMedia?
  }

  /** The other continuations change only the call, its ending, the timer and their own slot, or give
      a connection its remote description. */
  lemma SimpleTaskFrame(c: Client, i: TaskId)
    requires i < |c.tasks| && Simple(c.tasks[i])
    ensures var c' := Continue(c, i);
            && c' == c.(call := c'.call, ring := c'.ring, history := c'.history, pcs := c'.pcs, tasks := c'.tasks)
            && |c'.tasks| == |c.tasks| && c'.tasks == c.tasks[i := c'.tasks[i]]
            && (c'.tasks != c.tasks ==> !c'.tasks[i].Flushing? && !c'.tasks[i].Adding? && !c'.tasks[i].ArmRing?)
            && (!c.tasks[i].SetRemote? ==> c'.pcs == c.pcs && (c'.tasks != c.tasks ==> !c'.tasks[i].FlushOwed?))
  {
    hide Flush, AddLoop, Teardown, CreatePc;
  }

  lemma NoTaskNoStep(c: Client, i: TaskId)
    requires i >= |c.tasks|
    ensures Continue(c, i) == c
  {
  }

  lemma OtherTaskIsQuiet(c: Client, i: TaskId)
    requires RingInv(c) && i < |c.tasks| && Simple(c.tasks[i])
    ensures Quiet(c, Continue(c, i))
  {
    hide Flush, AddLoop, Teardown, CreatePc;
  }

  lemma AbortIsQuiet(c: Client, i: TaskId)
    requires RingInv(c)
    ensures Quiet(c, Abort(c, i))
  {
  }

  /** No step but the opening of a call makes a call ring. */
  lemma NoReturnToRinging(c: Client, s: Step)
    requires RingInv(c) && !s.Initiate? && Unanswered(Next(c, s))
    ensures Next(c, s).call == c.call
  {
    if !s.RingTimeout? && !(s.Deliver? && s.signal.body.Connect?) { StepIsQuiet(c, s); }
  }

  lemma StepKeepsRingInv(c: Client, s: Step)
    requires RingInv(c) && (s.Initiate? ==> s.room !in c.initiated)
    ensures RingInv(Next(c, s))
  {
    if s.Initiate? {
      OpeningKeepsRingInv(c, s.partner, s.room);
    } else if s.RingTimeout? {
      TimeoutKeepsRingInv(c);
    } else if s.Deliver? && s.signal.body.Connect? {
      ConnectKeepsRingInv(c, s.id, s.signal);
    } else {
      StepIsQuiet(c, s);
      QuietKeepsRingInv(c, Next(c, s));
    }
  }

  lemma OpeningKeepsRingInv(c: Client, partner: Party, room: Room)
    requires RingInv(c) && room !in c.initiated
    ensures RingInv(InitiateCall(c, partner, room))
  {
    var c' := InitiateCall(c, partner, room);
    forall k | 0 <= k < |c'.history| && c'.history[k].outcome.Missed?
      ensures MissedUnconnected(c', c'.history[k].call)
    {
      assert MissedUnconnected(c, c.history[k].call);
    }
  }

  lemma TimeoutKeepsRingInv(c: Client)
    requires RingInv(c)
    ensures RingInv(TimeOut(c))
  {
    var c' := TimeOut(c);
    forall k | 0 <= k < |c'.history| && c'.history[k].outcome.Missed?
      ensures MissedUnconnected(c', c'.history[k].call)
    {
      if c'.history != c.history && k > 0 {
        assert c'.history[k] == c.history[k - 1];
        assert MissedUnconnected(c, c.history[k - 1].call);
      } else if c'.history == c.history {
        assert MissedUnconnected(c, c.history[k].call);
      }
    }
  }

  lemma ConnectKeepsRingInv(c: Client, id: SignalId, s: Signal)
    requires RingInv(c) && s.body.Connect?
    ensures RingInv(Handle(c, id, s))
  {
    var c' := Handle(c, id, s);
    forall k | 0 <= k < |c'.history| && c'.history[k].outcome.Missed?
      ensures MissedUnconnected(c', c'.history[k].call)
    {
      assert MissedUnconnected(c, c.history[k].call);
    }
  }

  /** Over every run of successive calls in fresh rooms the invariant holds. */
  lemma {:induction false} RunKeepsRingInv(me: Party, steps: seq<Step>)
    requires FreshRooms(Idle(me), steps)
    ensures RingInv(Run(Idle(me), steps))
    decreases |steps|
  {
    if steps != [] {
      RunKeepsRingInv(me, steps[..|steps| - 1]);
      StepKeepsRingInv(Run(Idle(me), steps[..|steps| - 1]), steps[|steps| - 1]);
    }
  }

  /** In every reachable state a timeout ends a call exactly when the timer was armed for that very
      call and it still rings; it then ends it as missed, and otherwise changes only the timer. */
  lemma TimeoutEndsOnlyItsOwnCall(me: Party, steps: seq<Step>)
    requires FreshRooms(Idle(me), steps)
    ensures var c := Run(Idle(me), steps);
            var c' := Next(c, RingTimeout);
            if Unanswered(c) && c.ring == Some(c.call.value.key)
            then c' == c.(ring := None, call := None, history := [Ending(c.call.value, Missed)] + c.history)
            else c' == c.(ring := None)
  {
    RunKeepsRingInv(me, steps);
  }

  /** A call whose `connect` was handled is never ended as missed, before or after that. */
  lemma ConnectedIsNeverMissed(me: Party, steps: seq<Step>, e: Ending)
    requires FreshRooms(Idle(me), steps)
    requires e in Run(Idle(me), steps).history && e.outcome.Missed?
    ensures e.call.key !in Run(Idle(me), steps).handled
    ensures e.call.key in Run(Idle(me), steps).initiated
  {
    RunKeepsRingInv(me, steps);
    var c := Run(Idle(me), steps);
    var k :| 0 <= k < |c.history| && c.history[k] == e;
    assert MissedUnconnected(c, c.history[k].call);
  }

  /** `connect` is acted on at most once in a room, and only by the party that opened it. */
  lemma ConnectHandledOnce(me: Party, steps: seq<Step>, id: SignalId, s: Signal)
    requires FreshRooms(Idle(me), steps) && s.body.Connect?
    ensures var c := Run(Idle(me), steps);
            Handle(c, id, s) != c ==>
              && s.room in c.initiated && s.room !in c.handled
              && Handle(c, id, s).handled == c.handled + {s.room}
              && !Unanswered(Handle(c, id, s))
  {
    RunKeepsRingInv(me, steps);
  }
}
