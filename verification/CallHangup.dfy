/** A hangup suspends twice or three times before it ends "the active call"; by then another call may be
    active. */
module CallHangup {
  import opened Prelude
  import opened CallClient
  import opened CallRinging

  /** The call that a suspended hangup was begun for. */
  function HangingUp(t: Task): Option<Call> {
    match t
    case HangupNotify(call) => Some(call)
    case HangupSent(call) => Some(call)
    case HangupSfu(call) => Some(call)
    case _ => None
  }

  /** The task is no hangup, or one of the call with that key. */
  predicate HangsUp(t: Task, key: Room) {
    HangingUp(t).Some? ==> HangingUp(t).value.key == key
  }

  /** Every hangup under way is one of the call that is active, if any is. */
  ghost predicate HangupsOwn(c: Client) {
    c.call.Some? ==> forall k | 0 <= k < |c.tasks| :: HangsUp(c.tasks[k], c.call.value.key)
  }

  /** The step ends a call as completed: the last stretch of a hangup, or a peer's hangup. */
  predicate Completes(c: Client, s: Step) {
    |Next(c, s).history| > |c.history| && Next(c, s).history[0].outcome == Completed
  }

  /** What a hangup's last stretch does is exactly this: it ends whichever call is active, so its own if
      and only if no other call became active meanwhile. */
  lemma HangupEndsExactly(c: Client, i: TaskId)
    requires i < |c.tasks| && HangingUp(c.tasks[i]).Some? && c.call.Some?
    requires Completes(c, Resume(i))
    ensures var own := HangingUp(c.tasks[i]).value;
            && Next(c, Resume(i)).call == None
            && Next(c, Resume(i)).history == [Ending(c.call.value, Completed)] + c.history
            && (Next(c, Resume(i)).history[0].call.key == own.key <==> HangsUp(c.tasks[i], c.call.value.key))
  {
  }

  /** When a call may be opened or accepted: no hangup of another call is under way. */
  predicate OpensAfterHangups(c: Client, s: Step) {
    match s
    case Initiate(_, room) => forall k | 0 <= k < |c.tasks| :: HangsUp(c.tasks[k], room)
    case Accept(_, room) => forall k | 0 <= k < |c.tasks| :: HangsUp(c.tasks[k], room)
    case _ => true
  }

  /** Apart from a new call and a new hangup, tasks stay hangups of the same call or stop being any. */
  ghost predicate SameHangups(c: Client, c': Client) {
    && (c'.call.Some? ==> c.call.Some? && c'.call.value.key == c.call.value.key)
    && forall k | 0 <= k < |c'.tasks| && HangingUp(c'.tasks[k]).Some? ::
         if k < |c.tasks| then HangingUp(c.tasks[k]) == HangingUp(c'.tasks[k]) else c.call == HangingUp(c'.tasks[k])
  }

  lemma SameHangupsKeepsOwn(c: Client, c': Client)
    requires HangupsOwn(c) && SameHangups(c, c')
    ensures HangupsOwn(c')
  {
  }

  lemma StepSameHangups(c: Client, s: Step)
    requires !s.Initiate? && !s.Accept?
    ensures SameHangups(c, Next(c, s))
  {
    hide Continue, Handle, Abort;
    match s
    case Deliver(id, signal) => HandleSameHangups(c, id, signal);
    case Resume(i) => ContinueSameHangups(c, i);
    case Fail(i) => AbortSameHangups(c, i);
    case _ =>
  }

  lemma AbortSameHangups(c: Client, i: TaskId)
    ensures SameHangups(c, Abort(c, i))
  {
  }

  lemma HandleSameHangups(c: Client, id: SignalId, s: Signal)
    ensures SameHangups(c, Handle(c, id, s))
  {
    hide AddLoop;
    if PassesGuard(c, s) && s.body.Candidates? && s.body.list.Some? {
      var batch := Number(|c.received|, s.room, s.body.list.value);
      AddLoopFrame(Spawn(c.(received := c.received + batch), Done), |c.tasks|, c.active, batch);
    }
  }

  lemma ContinueSameHangups(c: Client, i: TaskId)
    ensures SameHangups(c, Continue(c, i))
  {
    hide AddLoop, Flush, Teardown, CreatePc, SameHangups;
    if i < |c.tasks| {
      match c.tasks[i]
      case Adding(pc, rest) =>
        AddLoopFrame(c, i, Some(pc), rest);
        MovedOn(c, Continue(c, i), i);
      case FlushOwed(pc, reply) => FlushSameHangups(c, i, pc, c.pending, reply);
      case Flushing(pc, rest, reply) => FlushSameHangups(c, i, pc, rest, reply);
      case HangupSent(call) => TeardownSameHangups(c, i, call);
      case AnswerMedia(peer, room) => MediaSameHangups(c, i, room, peer, Publish(Signal(Connect, room, c.me, peer)));
      case CallerMedia(peer, room) => MediaSameHangups(c, i, room, peer, CallerOffer(peer, room));
      case _ => OtherSameHangups(c, i);
    } else {
      NoTaskNoStep(c, i);
      MovedOn(c, c, i);
    }
  }

  lemma MovedOn(c: Client, c': Client, i: TaskId)
    requires c'.call == c.call && |c'.tasks| == |c.tasks|
    requires forall k | 0 <= k < |c.tasks| && k != i :: c'.tasks[k] == c.tasks[k]
    requires i < |c.tasks| && HangingUp(c'.tasks[i]).Some? ==> HangingUp(c'.tasks[i]) == HangingUp(c.tasks[i])
    ensures SameHangups(c, c')
  {
  }

  lemma FlushSameHangups(c: Client, i: TaskId, pc: PcId, rest: seq<Candidate>, reply: Option<Reply>)
    requires i < |c.tasks|
    ensures SameHangups(c, Flush(c, i, pc, rest, reply)) && SameHangups(c, Flush(c.(pending := []), i, pc, rest, reply))
  {
  }

  lemma TeardownSameHangups(c: Client, i: TaskId, call: Call)
    requires i < |c.tasks| && c.tasks[i] == HangupSent(call)
    ensures SameHangups(c, Teardown(c, i, call))
  {
  }

  lemma MediaSameHangups(c: Client, i: TaskId, room: Room, peer: Party, t: Task)
    requires i < |c.tasks| && HangingUp(t).None?
    ensures SameHangups(c, Goto(CreatePc(c, room, peer), i, t))
  {
  }

  lemma OtherSameHangups(c: Client, i: TaskId)
    requires i < |c.tasks| && Simple(c.tasks[i])
    ensures SameHangups(c, Continue(c, i))
  {
    hide AddLoop, Flush, Teardown, CreatePc;
  }

  /** Each step keeps hangups to their own call if and only if calls are opened after hangups. */
  lemma StepKeepsHangupsOwnExactly(c: Client, s: Step)
    requires HangupsOwn(c)
    ensures HangupsOwn(Next(c, s)) <==> OpensAfterHangups(c, s)
  {
    hide Continue, Handle, Abort;
    if s.Initiate? || s.Accept? {
      var c' := Next(c, s);
      assert c'.tasks[..|c.tasks|] == c.tasks;
      forall k | 0 <= k < |c.tasks| ensures c'.tasks[k] == c.tasks[k] { }
    } else {
      StepSameHangups(c, s);
      SameHangupsKeepsOwn(c, Next(c, s));
    }
  }

  lemma {:induction false} HangupsOwnSoFar(me: Party, steps: seq<Step>, k: nat)
    requires k <= |steps| && forall j | 0 <= j < k :: OpensAfterHangups(Run(Idle(me), steps[..j]), steps[j])
    ensures HangupsOwn(Run(Idle(me), steps[..k]))
  {
    hide Next, OpensAfterHangups, Run;
    if k == 0 {
      assert steps[..0] == [] && HangupsOwn(Idle(me));
      EmptyRun(Idle(me));
    } else {
      HangupsOwnSoFar(me, steps, k - 1);
      RunPrefix(Idle(me), steps, k - 1);
      StepKeepsHangupsOwnExactly(Run(Idle(me), steps[..k - 1]), steps[k - 1]);
    }
  }

  lemma EmptyRun(c: Client)
    ensures Run(c, []) == c
  {
  }

  /** At every moment of a run every hangup under way is the active call's own if and only if each call
      was opened after the hangups of other calls. */
  lemma HangupsOwnThroughoutExactly(me: Party, steps: seq<Step>)
    ensures (forall k | 0 <= k <= |steps| :: HangupsOwn(Run(Idle(me), steps[..k])))
            <==> (forall k | 0 <= k < |steps| :: OpensAfterHangups(Run(Idle(me), steps[..k]), steps[k]))
  {
    hide HangupsOwn, OpensAfterHangups, Next, Run;
    if forall k | 0 <= k < |steps| :: OpensAfterHangups(Run(Idle(me), steps[..k]), steps[k]) {
      forall k | 0 <= k <= |steps| ensures HangupsOwn(Run(Idle(me), steps[..k])) { HangupsOwnSoFar(me, steps, k); }
    }
    if forall k | 0 <= k <= |steps| :: HangupsOwn(Run(Idle(me), steps[..k])) {
      forall k | 0 <= k < |steps| ensures OpensAfterHangups(Run(Idle(me), steps[..k]), steps[k]) {
        RunPrefix(Idle(me), steps, k);
        var m := k + 1;
        assert HangupsOwn(Run(Idle(me), steps[..k])) && HangupsOwn(Run(Idle(me), steps[..m]));
        StepKeepsHangupsOwnExactly(Run(Idle(me), steps[..k]), steps[k]);
      }
    }
  }

  /** Then a hangup ends no call but its own. */
  lemma HangupEndsOnlyItsOwnCall(me: Party, steps: seq<Step>, i: TaskId)
    requires forall k | 0 <= k < |steps| :: OpensAfterHangups(Run(Idle(me), steps[..k]), steps[k])
    ensures var c := Run(Idle(me), steps);
            i < |c.tasks| && HangingUp(c.tasks[i]).Some? && c.call.Some? && Completes(c, Resume(i))
            ==> Next(c, Resume(i)).history[0].call.key == HangingUp(c.tasks[i]).value.key
  {
    hide OpensAfterHangups, Next, Run, Completes;
    HangupsOwnSoFar(me, steps, |steps|);
    assert steps[..|steps|] == steps;
    var c := Run(Idle(me), steps);
    if i < |c.tasks| && HangingUp(c.tasks[i]).Some? && c.call.Some? && Completes(c, Resume(i)) {
      HangupEndsExactly(c, i);
    }
  }

  /** Without it the code does end the wrong call: a hangup of the first call, begun before the second
      was opened, ends the second while it rings. */
  lemma LateHangupEndsTheNextCall(me: Party, a: Party, b: Party, r: Room, s: Room)
    requires r != s
    ensures var steps := [Initiate(a, r), Hangup, Initiate(b, s), Resume(1)];
            var c := Run(Idle(me), steps);
            && FreshRooms(Idle(me), steps)
            && |c.tasks| == 3 && HangingUp(c.tasks[1]) == Some(Call(a, r, Some(r), Ringing, false))
            && c.call == Some(Call(b, s, Some(s), Ringing, false))
            && Next(c, Resume(1)).call == None
            && Next(c, Resume(1)).history == [Ending(Call(b, s, Some(s), Ringing, false), Completed)]
  {
    hide Run, FreshRooms, Next, Idle;
    var c0 := Idle(me);
    EmptyRun(c0);
    assert FreshRooms(c0, []) by { NoRooms(c0); }
    RunOn(c0, [], Initiate(a, r));
    RunOn(c0, [Initiate(a, r)], Hangup);
    RunOn(c0, [Initiate(a, r), Hangup], Initiate(b, s));
    RunOn(c0, [Initiate(a, r), Hangup, Initiate(b, s)], Resume(1));
    assert [] + [Initiate(a, r)] == [Initiate(a, r)];
    assert [Initiate(a, r)] + [Hangup] == [Initiate(a, r), Hangup];
    assert [Initiate(a, r), Hangup] + [Initiate(b, s)] == [Initiate(a, r), Hangup, Initiate(b, s)];
    assert [Initiate(a, r), Hangup, Initiate(b, s)] + [Resume(1)]
        == [Initiate(a, r), Hangup, Initiate(b, s), Resume(1)];
    LateHangupRun(me, a, b, r, s);
  }

  lemma LateHangupRun(me: Party, a: Party, b: Party, r: Room, s: Room)
    ensures var c1 := Next(Idle(me), Initiate(a, r));
            var c3 := Next(Next(c1, Hangup), Initiate(b, s));
            var c := Next(c3, Resume(1));
            && Idle(me).initiated == {} && c1.initiated == {r} && Next(c1, Hangup).initiated == {r}
            && c.tasks == [ArmRing(r), HangupSent(Call(a, r, Some(r), Ringing, false)), ArmRing(s)]
            && c.call == Some(Call(b, s, Some(s), Ringing, false)) && c.history == []
            && Next(c, Resume(1)).call == None
            && Next(c, Resume(1)).history == [Ending(Call(b, s, Some(s), Ringing, false), Completed)]
  {
    hide AddLoop, Flush;
    var own := Call(a, r, Some(r), Ringing, false);
    var c1 := Next(Idle(me), Initiate(a, r));
    var c2 := Next(c1, Hangup);
    assert c2.tasks == [ArmRing(r), HangupNotify(own)];
    var c3 := Next(c2, Initiate(b, s));
    assert c3.tasks == [ArmRing(r), HangupNotify(own), ArmRing(s)];
  }

  lemma NoRooms(c: Client)
    ensures FreshRooms(c, [])
  {
  }

  lemma RunOn(c: Client, steps: seq<Step>, s: Step)
    ensures Run(c, steps + [s]) == Next(Run(c, steps), s)
    ensures FreshRooms(c, steps + [s])
            <==> FreshRooms(c, steps) && (s.Initiate? ==> s.room !in Run(c, steps).initiated)
  {
    assert (steps + [s])[..|steps|] == steps;
  }
}
