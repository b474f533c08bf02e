/** The candidate buffer outlives the call it was filled for: a timeout, a failure or a new call does not
    empty it. Whether a candidate reaches a connection of its own room rests on what is in the buffer
    when the next call gets its room, and when a flush begins. */
module CallBuffer {
  import opened Prelude
  import opened CallClient
  import opened CallRinging
  import opened CallCandidates
  import opened CallConnections

  predicate AllIn(xs: seq<Candidate>, room: Room) {
    forall k | 0 <= k < |xs| :: xs[k].room == room
  }

  /** Every candidate that was given to a connection came in that connection's room. */
  ghost predicate AppliedOwn(c: Client) {
    forall k | 0 <= k < |c.applied| ::
      c.applied[k].pc < |c.pcs| && c.pcs[c.applied[k].pc].room == c.applied[k].candidate.room
  }

  predicate TaskOwn(pcs: seq<Pc>, t: Task) {
    t.Flushing? || t.Adding? ==> t.pc < |pcs| && AllIn(t.rest, pcs[t.pc].room)
  }

  /** The buffer is the active call's, once that has a room. */
  predicate BufferOwn(c: Client) {
    c.call.Some? && c.call.value.room.Some? ==> AllIn(c.pending, c.call.value.room.value)
  }

  ghost predicate CandidatesOwn(c: Client) {
    AppliedOwn(c) && BufferOwn(c) && forall k | 0 <= k < |c.tasks| :: TaskOwn(c.pcs, c.tasks[k])
  }

  /** When a step may be taken: a call gets its room only while the buffer holds nothing of another one,
      and a flush begins only for a connection of the buffered candidates' room. */
  predicate BufferFits(c: Client, s: Step) {
    match s
    case Initiate(_, room) => AllIn(c.pending, room)
    case Resume(i) =>
      i < |c.tasks| ==>
        (match c.tasks[i]
         case AnswerImport(_, room) => c.call.Some? ==> AllIn(c.pending, room)
         case FlushOwed(pc, _) => pc < |c.pcs| ==> AllIn(c.pending, c.pcs[pc].room)
         case _ => true)
    case _ => true
  }

  // ---------------------------------------------------------------- one step

  lemma {:induction false} AddLoopOwn(c: Client, i: TaskId, pc: Option<PcId>, room: Room, rest: seq<Candidate>)
    requires CandidatesOwn(c) && i < |c.tasks| && AllIn(rest, room)
    requires pc.Some? && Remote(c, pc.value).Some? ==> pc.value < |c.pcs| && c.pcs[pc.value].room == room
    requires pc.None? || Remote(c, pc.value).None? ==> c.call.Some? && c.call.value.room == Some(room)
    ensures CandidatesOwn(AddLoop(c, i, pc, rest))
    decreases |rest|
  {
    hide TaskOwn, CandidatesOwn;
    if rest == [] {
      NothingInHand(c.pcs, Done);
      GotoOwn(c, i, Done);
    } else if pc.None? || Remote(c, pc.value).None? {
      Buffered(c, rest[0], room);
      AddLoopOwn(c.(pending := c.pending + [rest[0]]), i, pc, room, rest[1..]);
    } else {
      HandedOver(c, i, pc.value, rest, Adding(pc.value, rest[1..]));
    }
  }

  lemma Buffered(c: Client, x: Candidate, room: Room)
    requires CandidatesOwn(c) && x.room == room && c.call.Some? && c.call.value.room == Some(room)
    ensures CandidatesOwn(c.(pending := c.pending + [x]))
  {
  }

  lemma HandedOver(c: Client, i: TaskId, pc: PcId, rest: seq<Candidate>, t: Task)
    requires CandidatesOwn(c) && i < |c.tasks| && pc < |c.pcs| && rest != [] && AllIn(rest, c.pcs[pc].room)
    requires (t.Adding? || t.Flushing?) && t.pc == pc && t.rest == rest[1..]
    ensures CandidatesOwn(Goto(c.(applied := c.applied + [Applied(pc, rest[0])]), i, t))
  {
    var d := c.(applied := c.applied + [Applied(pc, rest[0])]);
    assert CandidatesOwn(d);
    GotoOwn(d, i, t);
  }

  lemma GotoOwn(c: Client, i: TaskId, t: Task)
    requires CandidatesOwn(c) && TaskOwn(c.pcs, t)
    ensures CandidatesOwn(Goto(c, i, t))
  {
    hide TaskOwn;
  }

  /** Nothing was applied or buffered and no candidate taken in hand; the buffer may have been emptied,
      connections added, the call ended or replaced by one that has no room yet. */
  ghost predicate Alike(c: Client, c': Client) {
    && c'.applied == c.applied && (c'.pending == c.pending || c'.pending == [])
    && (c'.call.Some? && c'.call.value.room.Some? ==> c.call.Some? && c.call.value.room == c'.call.value.room)
    && |c.pcs| <= |c'.pcs| && (forall p | 0 <= p < |c.pcs| :: c'.pcs[p].room == c.pcs[p].room)
    && |c.tasks| <= |c'.tasks| <= |c.tasks| + 1
    && forall k | 0 <= k < |c'.tasks| ::
         (k < |c.tasks| && c'.tasks[k] == c.tasks[k]) || (!c'.tasks[k].Adding? && !c'.tasks[k].Flushing?)
  }

  lemma AlikeKeepsOwn(c: Client, c': Client)
    requires CandidatesOwn(c) && Alike(c, c')
    ensures CandidatesOwn(c')
  {
    forall k | 0 <= k < |c'.tasks| ensures TaskOwn(c'.pcs, c'.tasks[k]) {
      if k < |c.tasks| && c'.tasks[k] == c.tasks[k] { assert TaskOwn(c.pcs, c.tasks[k]); }
    }
  }

  /** Each step keeps candidates to their own room if and only if it may be taken. */
  lemma StepKeepsCandidatesOwnExactly(c: Client, s: Step)
    requires CandidatesOwn(c) && OwnConnection(c) && Timely(c)
    ensures CandidatesOwn(Next(c, s)) <==> BufferFits(c, s)
  {
    hide Continue, Handle, Timely, CandidatesOwn, Alike, Abort, HangupCall, TimeOut, P2pFailure;
    match s
    case Initiate(partner, room) => OpeningOwnExactly(c, partner, room);
    case Deliver(id, signal) => HandleOwn(c, id, signal);
    case Resume(i) => ContinueOwnExactly(c, i);
    case _ =>
      OtherStepsAlike(c, s);
      AlikeKeepsOwn(c, Next(c, s));
  }

  lemma OtherStepsAlike(c: Client, s: Step)
    requires !s.Initiate? && !s.Deliver? && !s.Resume?
    ensures Alike(c, Next(c, s))
  {
    hide Continue, Handle, AddLoop, Flush, Teardown;
  }

  lemma OpeningOwnExactly(c: Client, partner: Party, room: Room)
    requires CandidatesOwn(c)
    ensures CandidatesOwn(InitiateCall(c, partner, room)) <==> AllIn(c.pending, room)
  {
    hide TaskOwn;
    var c' := InitiateCall(c, partner, room);
    forall k | 0 <= k < |c'.tasks| ensures TaskOwn(c'.pcs, c'.tasks[k]) {
      if k == |c.tasks| { NothingInHand(c.pcs, c'.tasks[k]); } else { assert c'.tasks[k] == c.tasks[k]; }
    }
  }

  lemma NothingInHand(pcs: seq<Pc>, t: Task)
    requires !t.Flushing? && !t.Adding?
    ensures TaskOwn(pcs, t)
  {
  }

  lemma HandleOwn(c: Client, id: SignalId, s: Signal)
    requires CandidatesOwn(c) && OwnConnection(c)
    ensures CandidatesOwn(Handle(c, id, s))
  {
    hide AddLoop, CandidatesOwn;
    if PassesGuard(c, s) && s.body.Candidates? && s.body.list.Some? {
      var batch := Number(|c.received|, s.room, s.body.list.value);
      var d := Spawn(c.(received := c.received + batch), Done);
      AlikeKeepsOwn(c, d);
      AddLoopOwn(d, |c.tasks|, c.active, s.room, batch);
    } else {
      OtherSignalsAlike(c, id, s);
      AlikeKeepsOwn(c, Handle(c, id, s));
    }
  }

  lemma OtherSignalsAlike(c: Client, id: SignalId, s: Signal)
    requires !(PassesGuard(c, s) && s.body.Candidates? && s.body.list.Some?)
    ensures Alike(c, Handle(c, id, s))
  {
    hide AddLoop, Teardown, Alike;
    if PassesGuard(c, s) && s.body.Disconnect? {
      TeardownAlike(Spawn(c.(ring := None), Done), |c.tasks|, c.call.value);
      AfterSpawnAlike(c, Teardown(Spawn(c.(ring := None), Done), |c.tasks|, c.call.value));
    } else {
      PassedOnAlike(c, id, s);
    }
  }

  lemma AfterSpawnAlike(c: Client, c': Client)
    requires Alike(Spawn(c.(ring := None), Done), c') && |c'.tasks| == |c.tasks| + 1
    ensures Alike(c, c')
  {
    var d := Spawn(c.(ring := None), Done);
    assert d.tasks[|c.tasks|] == Done;
    forall k | 0 <= k < |c'.tasks|
      ensures (k < |c.tasks| && c'.tasks[k] == c.tasks[k]) || (!c'.tasks[k].Adding? && !c'.tasks[k].Flushing?)
    {
      var t := c'.tasks[k];
      if k < |c.tasks| { assert d.tasks[k] == c.tasks[k]; }
    }
  }

  lemma PassedOnAlike(c: Client, id: SignalId, s: Signal)
    requires !(PassesGuard(c, s) && (s.body.Disconnect? || (s.body.Candidates? && s.body.list.Some?)))
    ensures Alike(c, Handle(c, id, s))
  {
    hide AddLoop, Teardown;
  }

  lemma ContinueOwnExactly(c: Client, i: TaskId)
    requires CandidatesOwn(c) && OwnConnection(c) && Timely(c)
    ensures CandidatesOwn(Continue(c, i)) <==> BufferFits(c, Resume(i))
  {
    hide AddLoop, Flush, Teardown, CreatePc, CandidatesOwn, Timely, OwnConnection, TaskOwn;
    if i < |c.tasks| {
      RemoteOfTask(c, i);
      match c.tasks[i]
      case Adding(pc, rest) =>
        InHandOwn(c, i);
        AddLoopOwn(c, i, Some(pc), c.pcs[pc].room, rest);
      case Flushing(pc, rest, reply) =>
        InHandOwn(c, i);
        FlushOwn(c, i, pc, rest, reply);
      case FlushOwed(pc, reply) => BeginFlushOwnExactly(c, i, pc, reply);
      case AnswerImport(peer, room) => ImportOwnExactly(c, i, peer, room);
      case _ =>
        OthersAlike(c, i);
        AlikeKeepsOwn(c, Continue(c, i));
    } else {
      NoTaskNoStep(c, i);
    }
  }

  lemma InHandOwn(c: Client, i: TaskId)
    requires CandidatesOwn(c) && i < |c.tasks| && (c.tasks[i].Flushing? || c.tasks[i].Adding?)
    ensures c.tasks[i].pc < |c.pcs| && AllIn(c.tasks[i].rest, c.pcs[c.tasks[i].pc].room)
  {
    assert TaskOwn(c.pcs, c.tasks[i]);
  }

  lemma FlushOwn(c: Client, i: TaskId, pc: PcId, rest: seq<Candidate>, reply: Option<Reply>)
    requires CandidatesOwn(c) && i < |c.tasks| && pc < |c.pcs| && AllIn(rest, c.pcs[pc].room)
    ensures CandidatesOwn(Flush(c, i, pc, rest, reply))
  {
    hide CandidatesOwn;
    if rest != [] {
      HandedOver(c, i, pc, rest, Flushing(pc, rest[1..], reply));
    } else {
      GotoOwn(c, i, if reply.Some? then Answering(pc, reply.value) else Done);
    }
  }

  lemma BeginFlushOwnExactly(c: Client, i: TaskId, pc: PcId, reply: Option<Reply>)
    requires CandidatesOwn(c) && i < |c.tasks| && c.tasks[i] == FlushOwed(pc, reply) && pc < |c.pcs|
    ensures CandidatesOwn(Flush(c.(pending := []), i, pc, c.pending, reply)) <==> AllIn(c.pending, c.pcs[pc].room)
  {
    hide CandidatesOwn;
    AlikeKeepsOwn(c, c.(pending := []));
    var c' := Flush(c.(pending := []), i, pc, c.pending, reply);
    if AllIn(c.pending, c.pcs[pc].room) {
      FlushOwn(c.(pending := []), i, pc, c.pending, reply);
    } else {
      ForeignInFlush(c, c', i, pc, reply);
    }
  }

  lemma ForeignInFlush(c: Client, c': Client, i: TaskId, pc: PcId, reply: Option<Reply>)
    requires i < |c.tasks| && pc < |c.pcs| && !AllIn(c.pending, c.pcs[pc].room)
    requires c' == Flush(c.(pending := []), i, pc, c.pending, reply)
    ensures !CandidatesOwn(c')
  {
    var k :| 0 <= k < |c.pending| && c.pending[k].room != c.pcs[pc].room;
    if k == 0 {
      assert c'.applied[|c.applied|] == Applied(pc, c.pending[0]);
    } else {
      assert c'.tasks[i] == Flushing(pc, c.pending[1..], reply) && c.pending[1..][k - 1] == c.pending[k];
      assert !TaskOwn(c'.pcs, c'.tasks[i]);
    }
  }

  lemma ImportOwnExactly(c: Client, i: TaskId, peer: Party, room: Room)
    requires CandidatesOwn(c) && i < |c.tasks| && c.tasks[i] == AnswerImport(peer, room)
    ensures CandidatesOwn(Continue(c, i)) <==> (c.call.Some? ==> AllIn(c.pending, room))
  {
    hide AddLoop, Flush, Teardown, CreatePc, TaskOwn;
    var c' := Continue(c, i);
    forall k | 0 <= k < |c'.tasks| ensures TaskOwn(c'.pcs, c'.tasks[k]) {
      if k == i { NothingInHand(c.pcs, c'.tasks[k]); } else { assert c'.tasks[k] == c.tasks[k]; }
    }
  }

  lemma OthersAlike(c: Client, i: TaskId)
    requires i < |c.tasks|
    requires var t := c.tasks[i]; !t.Adding? && !t.Flushing? && !t.FlushOwed? && !t.AnswerImport?
    ensures Alike(c, Continue(c, i))
  {
    hide AddLoop, Flush, Alike, Teardown, CreatePc;
    match c.tasks[i]
    case HangupSent(call) => TeardownAlike(c, i, call);
    case AnswerMedia(peer, room) => MediaAlike(c, i, room, peer, Publish(Signal(Connect, room, c.me, peer)));
    case CallerMedia(peer, room) => MediaAlike(c, i, room, peer, CallerOffer(peer, room));
    case _ => CallTaskAlike(c, i);
  }

  lemma TeardownAlike(c: Client, i: TaskId, call: Call)
    requires i < |c.tasks|
    ensures Alike(c, Teardown(c, i, call)) && |Teardown(c, i, call).tasks| == |c.tasks|
  {
  }

  lemma MediaAlike(c: Client, i: TaskId, room: Room, peer: Party, t: Task)
    requires i < |c.tasks| && !t.Adding? && !t.Flushing?
    ensures Alike(c, Goto(CreatePc(c, room, peer), i, t))
  {
  }

  lemma CallTaskAlike(c: Client, i: TaskId)
    requires i < |c.tasks| && Simple(c.tasks[i]) && !c.tasks[i].AnswerImport?
    ensures Alike(c, Continue(c, i))
  {
    hide AddLoop, Flush, Teardown, CreatePc;
  }

  // ---------------------------------------------------------------- runs

  lemma IdleOwn(me: Party)
    ensures CandidatesOwn(Idle(me)) && OwnConnection(Idle(me))
  {
  }

  ghost predicate Both(c: Client) {
    OwnConnection(c) && CandidatesOwn(c)
  }

  ghost predicate BothFit(c: Client, s: Step) {
    KeepsApart(c, s) && BufferFits(c, s)
  }

  lemma StepKeepsBothExactly(c: Client, s: Step)
    requires Both(c) && Timely(c)
    ensures Both(Next(c, s)) <==> BothFit(c, s)
  {
    hide OwnConnection, CandidatesOwn, KeepsApart, BufferFits, Timely, Next;
    StepKeepsOwnExactly(c, s);
    StepKeepsCandidatesOwnExactly(c, s);
  }

  lemma {:induction false} FitSoFar(me: Party, steps: seq<Step>, k: nat)
    requires k <= |steps| && forall j | 0 <= j < k :: BothFit(Run(Idle(me), steps[..j]), steps[j])
    ensures Both(Run(Idle(me), steps[..k]))
  {
    hide Both, BothFit, Next, Timely, Conserved, Run;
    if k == 0 {
      assert steps[..0] == [];
      NoSteps(me);
    } else {
      FitSoFar(me, steps, k - 1);
      RunPrefix(Idle(me), steps, k - 1);
      RunConserves(me, steps[..k - 1]);
      StepKeepsBothExactly(Run(Idle(me), steps[..k - 1]), steps[k - 1]);
    }
  }

  lemma NoSteps(me: Party)
    ensures Both(Run(Idle(me), []))
  {
    IdleOwn(me);
  }

  /** At every moment of a run the open connection and every buffered or applied candidate are those of
      their own call if and only if each step was taken when it may be. */
  lemma CandidatesOwnThroughoutExactly(me: Party, steps: seq<Step>)
    ensures (forall k | 0 <= k <= |steps| :: Both(Run(Idle(me), steps[..k])))
            <==> (forall k | 0 <= k < |steps| :: BothFit(Run(Idle(me), steps[..k]), steps[k]))
  {
    hide Both, BothFit, Next, Timely, Conserved, Run;
    if forall k | 0 <= k < |steps| :: BothFit(Run(Idle(me), steps[..k]), steps[k]) {
      forall k | 0 <= k <= |steps| ensures Both(Run(Idle(me), steps[..k])) { FitSoFar(me, steps, k); }
    }
    if forall k | 0 <= k <= |steps| :: Both(Run(Idle(me), steps[..k])) {
      forall k | 0 <= k < |steps| ensures BothFit(Run(Idle(me), steps[..k]), steps[k]) {
        RunPrefix(Idle(me), steps, k);
        RunConserves(me, steps[..k]);
        var m := k + 1;
        assert Both(Run(Idle(me), steps[..k])) && Both(Run(Idle(me), steps[..m]));
        StepKeepsBothExactly(Run(Idle(me), steps[..k]), steps[k]);
      }
    }
  }

  /** Then a candidate is applied only to a connection of the room it came in. */
  lemma AppliedOnlyToItsOwnRoom(me: Party, steps: seq<Step>)
    requires forall k | 0 <= k < |steps| :: BothFit(Run(Idle(me), steps[..k]), steps[k])
    ensures AppliedOwn(Run(Idle(me), steps))
  {
    hide BothFit, Next, Run;
    FitSoFar(me, steps, |steps|);
    assert steps[..|steps|] == steps;
  }

  function Resumed(i: TaskId, times: nat): seq<Step> {
    seq(times, _ => Resume(i))
  }

  function To(pc: PcId, xs: seq<Candidate>): (r: seq<Applied>)
    ensures |r| == |xs| && forall k | 0 <= k < |r| :: r[k] == Applied(pc, xs[k])
  {
    seq(|xs|, k requires 0 <= k < |xs| => Applied(pc, xs[k]))
  }

  /** The flush guard is needed: a flush once begun hands every buffered candidate to its connection,
      those of another room too, one each time it is resumed. */
  lemma {:induction false} FlushHandsOverAll(c: Client, i: TaskId, pc: PcId, reply: Option<Reply>, k: nat)
    requires i < |c.tasks| && c.tasks[i] == FlushOwed(pc, reply) && k < |c.pending|
    ensures var d := Run(c, Resumed(i, k + 1));
            && d.applied == c.applied + To(pc, c.pending[..k + 1])
            && |d.tasks| == |c.tasks| && d.tasks[i] == Flushing(pc, c.pending[k + 1..], reply)
  {
    hide Run, Next, To;
    assert Resumed(i, k + 1)[..k + 1] == Resumed(i, k + 1) && Resumed(i, k + 1)[..k] == Resumed(i, k);
    RunPrefix(c, Resumed(i, k + 1), k);
    if k > 0 {
      FlushHandsOverAll(c, i, pc, reply, k - 1);
      FlushOne(Run(c, Resumed(i, k)), i, pc, c.pending[k..], reply);
      assert c.pending[k..][0] == c.pending[k] && c.pending[k..][1..] == c.pending[k + 1..];
    } else {
      NothingRun(c);
      FlushFirst(c, i, pc, reply);
    }
    OneMore(c.applied, pc, c.pending, k);
  }

  lemma OneMore(applied: seq<Applied>, pc: PcId, xs: seq<Candidate>, k: nat)
    requires k < |xs|
    ensures applied + To(pc, xs[..k]) + [Applied(pc, xs[k])] == applied + To(pc, xs[..k + 1])
    ensures To(pc, xs[..0]) == [] && applied + [] == applied
  {
    assert To(pc, xs[..k]) + [Applied(pc, xs[k])] == To(pc, xs[..k + 1]);
  }

  lemma NothingRun(c: Client)
    ensures Run(c, []) == c && forall i :: Resumed(i, 0) == []
  {
  }

  lemma FlushFirst(c: Client, i: TaskId, pc: PcId, reply: Option<Reply>)
    requires i < |c.tasks| && c.tasks[i] == FlushOwed(pc, reply) && c.pending != []
    ensures var d := Next(c, Resume(i));
            && d.applied == c.applied + [Applied(pc, c.pending[0])]
            && |d.tasks| == |c.tasks| && d.tasks[i] == Flushing(pc, c.pending[1..], reply)
  {
  }

  lemma FlushOne(c: Client, i: TaskId, pc: PcId, rest: seq<Candidate>, reply: Option<Reply>)
    requires i < |c.tasks| && c.tasks[i] == Flushing(pc, rest, reply) && rest != []
    ensures var d := Next(c, Resume(i));
            && d.applied == c.applied + [Applied(pc, rest[0])]
            && |d.tasks| == |c.tasks| && d.tasks[i] == Flushing(pc, rest[1..], reply)
  {
  }
}
