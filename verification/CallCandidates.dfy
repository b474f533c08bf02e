/** ICE candidates: none is lost or applied twice, none is applied early, none is left behind. */
module CallCandidates {
  import opened Prelude
  import opened CallClient
  import CallRinging

  /** The candidates a suspended handler has taken but not yet applied. */
  function InHand(t: Task): seq<Candidate> {
    if t.Flushing? || t.Adding? then t.rest else []
  }

  /** How often `x` occurs in `s`. */
  function Times(s: seq<Candidate>, x: Candidate): nat {
    multiset(s)[x]
  }

  function TimesInHand(tasks: seq<Task>, x: Candidate): nat {
    if tasks == [] then 0 else TimesInHand(tasks[..|tasks| - 1], x) + Times(InHand(tasks[|tasks| - 1]), x)
  }

  function Lines(applied: seq<Applied>): (r: seq<Candidate>)
    ensures |r| == |applied| && forall k | 0 <= k < |r| :: r[k] == applied[k].candidate
  {
    seq(|applied|, k requires 0 <= k < |applied| => applied[k].candidate)
  }

  /** How often `x` is buffered, in a handler's hands, applied or thrown away. */
  function Placed(c: Client, x: Candidate): nat {
    Times(c.pending, x) + TimesInHand(c.tasks, x) + Times(Lines(c.applied), x) + Times(c.discarded, x)
  }

  ghost predicate Conserved(c: Client) {
    && (forall x :: Placed(c, x) == Times(c.received, x))
    && Numbered(c.received)
  }

  ghost predicate Numbered(received: seq<Candidate>) {
    forall k | 0 <= k < |received| :: received[k].serial == k
  }

  lemma TimesAppend(s: seq<Candidate>, t: seq<Candidate>, x: Candidate)
    ensures Times(s + t, x) == Times(s, x) + Times(t, x)
  {
  }

  lemma TimesFirst(s: seq<Candidate>, x: Candidate)
    requires s != []
    ensures Times(s, x) == Times([s[0]], x) + Times(s[1..], x)
  {
    assert s == [s[0]] + s[1..];
  }

  lemma {:induction false} HandsGoto(tasks: seq<Task>, i: TaskId, t: Task, x: Candidate)
    requires i < |tasks|
    ensures TimesInHand(tasks[i := t], x) + Times(InHand(tasks[i]), x)
            == TimesInHand(tasks, x) + Times(InHand(t), x)
  {
    hide Times, InHand;
    var n := |tasks| - 1;
    if i < n {
      HandsGoto(tasks[..n], i, t, x);
      assert tasks[i := t][..n] == tasks[..n][i := t];
    } else {
      assert tasks[i := t][..n] == tasks[..n];
    }
  }

  lemma HandsSpawn(tasks: seq<Task>, t: Task, x: Candidate)
    ensures TimesInHand(tasks + [t], x) == TimesInHand(tasks, x) + Times(InHand(t), x)
  {
    hide Times, InHand;
    assert (tasks + [t])[..|tasks|] == tasks;
  }

  lemma TimesApplied(applied: seq<Applied>, a: Applied, x: Candidate)
    ensures Times(Lines(applied + [a]), x) == Times(Lines(applied), x) + Times([a.candidate], x)
  {
    assert Lines(applied + [a]) == Lines(applied) + [a.candidate];
  }

  /** What the step adds to the places is what it adds to the received. */
  ghost predicate Moves(c: Client, c': Client, x: Candidate) {
    Placed(c', x) + Times(c.received, x) == Placed(c, x) + Times(c'.received, x)
  }

  /** Where the candidates that a handler's slot held, and those it was just given, end up. */
  lemma {:induction false} AddLoopMoves(c: Client, i: TaskId, pc: Option<PcId>, rest: seq<Candidate>, x: Candidate)
    requires i < |c.tasks|
    ensures Placed(AddLoop(c, i, pc, rest), x) + Times(InHand(c.tasks[i]), x) == Placed(c, x) + Times(rest, x)
    ensures AddLoop(c, i, pc, rest).received == c.received
    decreases |rest|
  {
    hide Times, TimesInHand, Lines;
    if rest == [] {
      HandsGoto(c.tasks, i, Done, x);
    } else {
      TimesFirst(rest, x);
      if pc.None? || Remote(c, pc.value).None? {
        TimesAppend(c.pending, [rest[0]], x);
        AddLoopMoves(c.(pending := c.pending + [rest[0]]), i, pc, rest[1..], x);
      } else {
        HandsGoto(c.tasks, i, Adding(pc.value, rest[1..]), x);
        TimesApplied(c.applied, Applied(pc.value, rest[0]), x);
      }
    }
  }

  lemma FlushMoves(c: Client, i: TaskId, pc: PcId, rest: seq<Candidate>, reply: Option<Reply>, x: Candidate)
    requires i < |c.tasks|
    ensures Placed(Flush(c, i, pc, rest, reply), x) + Times(InHand(c.tasks[i]), x) == Placed(c, x) + Times(rest, x)
    ensures Flush(c, i, pc, rest, reply).received == c.received
  {
    hide Times, TimesInHand, Lines;
    if rest != [] {
      TimesFirst(rest, x);
      HandsGoto(c.tasks, i, Flushing(pc, rest[1..], reply), x);
      TimesApplied(c.applied, Applied(pc, rest[0]), x);
    } else if reply.Some? {
      HandsGoto(c.tasks, i, Answering(pc, reply.value), x);
      assert Times(InHand(Answering(pc, reply.value)), x) == Times(rest, x);
    } else {
      HandsGoto(c.tasks, i, Done, x);
    }
  }

  lemma GotoKeepsPlaces(c: Client, i: TaskId, t: Task, x: Candidate)
    requires InHand(t) == [] && (i < |c.tasks| ==> InHand(c.tasks[i]) == [])
    ensures Placed(Goto(c, i, t), x) == Placed(c, x)
  {
    hide Times, TimesInHand, Lines, InHand;
    if i < |c.tasks| { HandsGoto(c.tasks, i, t, x); }
  }

  lemma SpawnMoves(c: Client, t: Task, x: Candidate)
    ensures Placed(Spawn(c, t), x) == Placed(c, x) + Times(InHand(t), x)
  {
    hide Times, TimesInHand, Lines, InHand;
    HandsSpawn(c.tasks, t, x);
  }

  lemma NoneInHand(t: Task, x: Candidate)
    requires InHand(t) == []
    ensures Times(InHand(t), x) == 0
  {
  }

  /** Steps that leave the candidates alone and give no task any. */
  lemma SpawnKeeps(c: Client, c': Client, t: Task, x: Candidate)
    requires c'.pending == c.pending && c'.applied == c.applied && c'.discarded == c.discarded
    requires c'.received == c.received && c'.tasks == c.tasks + [t] && InHand(t) == []
    ensures Moves(c, c', x)
  {
    hide Times, TimesInHand, Lines, InHand;
    HandsSpawn(c.tasks, t, x);
    NoneInHand(t, x);
  }

  lemma DiscardMoves(c: Client, x: Candidate)
    ensures Placed(Discard(c), x) == Placed(c, x)
  {
    hide TimesInHand, Lines;
    TimesAppend(c.discarded, c.pending, x);
  }

  lemma TeardownMoves(c: Client, i: TaskId, call: Call, x: Candidate)
    requires i < |c.tasks| ==> InHand(c.tasks[i]) == []
    ensures Placed(Teardown(c, i, call), x) == Placed(c, x)
    ensures Teardown(c, i, call).received == c.received
  {
    hide Times, TimesInHand, Lines;
    var d := ClosePc(Discard(c));
    DiscardMoves(c, x);
    if call.sfu {
      GotoKeepsPlaces(d, i, HangupSfu(call), x);
    } else {
      GotoKeepsPlaces(EndCall(d, Completed), i, Done, x);
    }
  }

  /** A step moves candidates between the four places; only an incoming signal adds any. */
  lemma StepMoves(c: Client, s: Step, x: Candidate)
    ensures Moves(c, Next(c, s), x)
  {
    hide Times, TimesInHand, Lines, InHand, Handle, Continue, Abort;
    match s
    case Initiate(_, room) => SpawnKeeps(c, Next(c, s), ArmRing(room), x) by { EmptyHands(); }
    case Accept(caller, room) => SpawnKeeps(c, Next(c, s), AnswerImport(caller, room), x) by { EmptyHands(); }
    case Hangup =>
      if c.call.Some? { SpawnKeeps(c, Next(c, s), HangupNotify(c.call.value), x) by { EmptyHands(); } }
    case RingTimeout =>
    case Gathered(_, _) =>
    case Deliver(id, signal) => HandleMoves(c, signal, id, x);
    case IceConnected =>
    case IceFailed(room) => FailureMoves(c, room, x);
    case Resume(i) => ContinueMoves(c, i, x);
    case Fail(i) => AbortMoves(c, i, x);
  }

  lemma EmptyHands()
    ensures forall t: Task :: !t.Flushing? && !t.Adding? ==> InHand(t) == []
  {
  }

  lemma FailureMoves(c: Client, room: Room, x: Candidate)
    ensures Moves(c, P2pFailure(c, room), x)
  {
    hide Times, TimesInHand, Lines;
    var d := Discard(ClosePc(c));
    DiscardMoves(ClosePc(c), x);
    SpawnKeeps(d, Spawn(d, Fallback(room)), Fallback(room), x);
  }

  lemma AbortMoves(c: Client, i: TaskId, x: Candidate)
    ensures Moves(c, Abort(c, i), x)
  {
    hide Times, TimesInHand, Lines;
    if i < |c.tasks| && InHand(c.tasks[i]) == [] {
      GotoKeepsPlaces(c, i, Done, x);
      if c.tasks[i].Fallback? || c.tasks[i].FallbackMedia? {
        GotoKeepsPlaces(FailIn(c, c.tasks[i].room), i, Done, x);
      }
    }
  }

  lemma HandleMoves(c: Client, s: Signal, id: SignalId, x: Candidate)
    ensures Moves(c, Handle(c, id, s), x)
  {
    hide Times, TimesInHand, Lines, AddLoop, Teardown;
    var c' := Handle(c, id, s);
    if PassesGuard(c, s) {
      match s.body
      case Connect => if c' != c { SpawnKeeps(c, c', CallerMedia(s.from, s.room), x); }
      case Offer(_) => if c' != c { SpawnKeeps(c, c', SetRemote(c.active.value, id, Some(Reply(s.room, s.from))), x); }
      case Answer(_, _) => if c' != c { SpawnKeeps(c, c', SetRemote(c.active.value, id, None), x); }
      case Candidates(list) => if list.Some? { ReceiveMoves(c, s.room, list.value, x); }
      case Disconnect =>
        SpawnKeeps(c, Spawn(c.(ring := None), Done), Done, x);
        TeardownMoves(Spawn(c.(ring := None), Done), |c.tasks|, c.call.value, x);
    }
  }

  lemma ReceiveMoves(c: Client, room: Room, lines: seq<string>, x: Candidate)
    ensures var batch := Number(|c.received|, room, lines);
            Moves(c, AddLoop(Spawn(c.(received := c.received + batch), Done), |c.tasks|, c.active, batch), x)
  {
    hide Times, TimesInHand, Lines;
    var batch := Number(|c.received|, room, lines);
    var d := c.(received := c.received + batch);
    TimesAppend(c.received, batch, x);
    SpawnMoves(d, Done, x);
    AddLoopMoves(Spawn(d, Done), |c.tasks|, c.active, batch, x);
  }

  lemma ContinueMoves(c: Client, i: TaskId, x: Candidate)
    ensures Moves(c, Continue(c, i), x)
  {
    hide Times, TimesInHand, Lines, Flush, AddLoop, Teardown;
    if i < |c.tasks| {
      match c.tasks[i]
      case Adding(pc, rest) => AddLoopMoves(c, i, Some(pc), rest, x);
      case HangupSent(call) => TeardownMoves(c, i, call, x);
      case FlushOwed(pc, reply) => BeginFlushMoves(c, i, pc, reply, x);
      case Flushing(pc, rest, reply) => FlushMoves(c, i, pc, rest, reply, x);
      case _ => OtherTaskMoves(c, i, x);
    }
  }

  lemma BeginFlushMoves(c: Client, i: TaskId, pc: PcId, reply: Option<Reply>, x: Candidate)
    requires i < |c.tasks| && c.tasks[i] == FlushOwed(pc, reply)
    ensures Moves(c, Flush(c.(pending := []), i, pc, c.pending, reply), x)
  {
    hide TimesInHand, Lines, Flush;
    FlushMoves(c.(pending := []), i, pc, c.pending, reply, x);
  }

  lemma OtherTaskMoves(c: Client, i: TaskId, x: Candidate)
    requires i < |c.tasks| && InHand(c.tasks[i]) == []
    requires !c.tasks[i].FlushOwed? && !c.tasks[i].HangupSent? && !c.tasks[i].Flushing? && !c.tasks[i].Adding?
    ensures Moves(c, Continue(c, i), x)
  {
    hide Times, TimesInHand, Lines, Continue;
    if CallRinging.Simple(c.tasks[i]) {
      CallRinging.SimpleTaskFrame(c, i);
      var c' := Continue(c, i);
      if c'.tasks != c.tasks { GotoKeepsPlaces(c, i, c'.tasks[i], x); }
    } else {
      MediaMoves(c, i, x);
    }
  }

  lemma MediaMoves(c: Client, i: TaskId, x: Candidate)
    requires i < |c.tasks| && (c.tasks[i].CallerMedia? || c.tasks[i].AnswerMedia?)
    ensures Moves(c, Continue(c, i), x)
  {
    hide Times, TimesInHand, Lines;
    var t := c.tasks[i];
    var d := CreatePc(c, t.room, t.peer);
    GotoKeepsPlaces(d, i, Continue(c, i).tasks[i], x);
  }

  lemma StepConserves(c: Client, s: Step)
    requires Conserved(c)
    ensures Conserved(Next(c, s))
  {
    forall x ensures Placed(Next(c, s), x) == Times(Next(c, s).received, x) {
      hide Placed, Times;
      StepMoves(c, s, x);
    }
    StepKeepsNumbers(c, s);
  }

  lemma StepKeepsNumbers(c: Client, s: Step)
    requires Numbered(c.received)
    ensures Numbered(Next(c, s).received)
  {
    hide Flush, AddLoop, Teardown;
    match s
    case Deliver(id, signal) =>
      if PassesGuard(c, signal) {
        TeardownReceived(Spawn(c.(ring := None), Done), |c.tasks|, c.call.value);
        if signal.body.Candidates? && signal.body.list.Some? {
          var batch := Number(|c.received|, signal.room, signal.body.list.value);
          CallRinging.AddLoopFrame(Spawn(c.(received := c.received + batch), Done), |c.tasks|, c.active, batch);
        }
      }
    case Resume(i) => ContinueReceived(c, i);
    case _ =>
  }

  lemma TeardownReceived(c: Client, i: TaskId, call: Call)
    ensures Teardown(c, i, call).received == c.received
  {
  }

  lemma ContinueReceived(c: Client, i: TaskId)
    ensures Continue(c, i).received == c.received
  {
    hide Continue;
    if i < |c.tasks| && CallRinging.Simple(c.tasks[i]) {
      CallRinging.SimpleTaskFrame(c, i);
    } else if i < |c.tasks| {
      OwnedTaskReceived(c, i);
    } else {
      CallRinging.NoTaskNoStep(c, i);
    }
  }

  lemma OwnedTaskReceived(c: Client, i: TaskId)
    requires i < |c.tasks| && !CallRinging.Simple(c.tasks[i])
    ensures Continue(c, i).received == c.received
  {
    hide AddLoop;
    if c.tasks[i].Adding? { CallRinging.AddLoopFrame(c, i, Some(c.tasks[i].pc), c.tasks[i].rest); }
  }

  // ---------------------------------------------------------------- not early, not left behind

  ghost predicate OwesFlush(c: Client, pc: PcId) {
    exists k | 0 <= k < |c.tasks| :: c.tasks[k].FlushOwed? && c.tasks[k].pc == pc
  }

  /** Candidates are handed only to connections whose remote description is set, and once the open
      connection has one and its flush has begun, nothing waits in the buffer. */
  ghost predicate Timely(c: Client) {
    && (c.active.Some? ==> c.active.value < |c.pcs|)
    && (forall k | 0 <= k < |c.applied| :: Remote(c, c.applied[k].pc).Some?)
    && (forall k | 0 <= k < |c.tasks| ::
          c.tasks[k].FlushOwed? || c.tasks[k].Flushing? || c.tasks[k].Adding? ==> Remote(c, c.tasks[k].pc).Some?)
    && (c.active.Some? && Remote(c, c.active.value).Some? && !OwesFlush(c, c.active.value) ==> c.pending == [])
  }

  /** Descriptions are set, never cleared. */
  ghost predicate Keeps(c: Client, c': Client) {
    |c.pcs| <= |c'.pcs| && forall p | 0 <= p < |c.pcs| :: c.pcs[p].remote.Some? ==> c'.pcs[p].remote.Some?
  }

  lemma {:induction false} AddLoopTimely(c: Client, i: TaskId, pc: Option<PcId>, rest: seq<Candidate>)
    requires Timely(c) && i < |c.tasks| && !c.tasks[i].FlushOwed?
    requires pc == c.active || (pc.Some? && Remote(c, pc.value).Some?)
    ensures Timely(AddLoop(c, i, pc, rest))
    decreases |rest|
  {
    if rest == [] {
      GotoTimely(c, i, Done);
    } else if pc.None? || Remote(c, pc.value).None? {
      AddLoopTimely(c.(pending := c.pending + [rest[0]]), i, pc, rest[1..]);
    } else {
      GotoTimely(c.(applied := c.applied + [Applied(pc.value, rest[0])]), i, Adding(pc.value, rest[1..]));
    }
  }

  /** Moving a slot on keeps `Timely`, unless it drops the last flush owed over a full buffer. */
  lemma GotoTimely(c: Client, i: TaskId, t: Task)
    requires Timely(c) && i < |c.tasks|
    requires !c.tasks[i].FlushOwed? || c.pending == []
    requires t.FlushOwed? || t.Flushing? || t.Adding? ==> Remote(c, t.pc).Some?
    ensures Timely(Goto(c, i, t))
  {
    var c' := Goto(c, i, t);
    forall p | OwesFlush(c, p) && !c.tasks[i].FlushOwed? ensures OwesFlush(c', p) {
      var k :| 0 <= k < |c.tasks| && c.tasks[k].FlushOwed? && c.tasks[k].pc == p;
      assert c'.tasks[k] == c.tasks[k];
    }
  }

  lemma FlushTimely(c: Client, i: TaskId, pc: PcId, rest: seq<Candidate>, reply: Option<Reply>)
    requires Timely(c) && i < |c.tasks| && Remote(c, pc).Some?
    requires !c.tasks[i].FlushOwed? || c.pending == []
    ensures Timely(Flush(c, i, pc, rest, reply))
  {
    if rest != [] {
      GotoTimely(c.(applied := c.applied + [Applied(pc, rest[0])]), i, Flushing(pc, rest[1..], reply));
    } else {
      GotoTimely(c, i, if reply.Some? then Answering(pc, reply.value) else Done);
    }
  }

  lemma SpawnTimely(c: Client, t: Task)
    requires Timely(c) && !t.FlushOwed? && !t.Flushing? && !t.Adding?
    ensures Timely(Spawn(c, t))
  {
    var c' := Spawn(c, t);
    forall p | OwesFlush(c, p) ensures OwesFlush(c', p) {
      var k :| 0 <= k < |c.tasks| && c.tasks[k].FlushOwed? && c.tasks[k].pc == p;
      assert c'.tasks[k] == c.tasks[k];
    }
  }

  lemma ClosedTimely(c: Client)
    requires Timely(c)
    ensures Timely(ClosePc(c)) && Timely(Discard(ClosePc(c))) && Timely(ClosePc(Discard(c)))
    ensures ClosePc(c).tasks == c.tasks && Keeps(c, ClosePc(c))
  {
    var c' := ClosePc(c);
    assert forall p: PcId :: Remote(c', p) == Remote(c, p);
  }

  lemma CreatedTimely(c: Client, room: Room, peer: Party)
    requires Timely(c)
    ensures Timely(CreatePc(c, room, peer)) && CreatePc(c, room, peer).tasks == c.tasks
  {
    ClosedTimely(c);
    var d, c' := ClosePc(c), CreatePc(c, room, peer);
    assert forall p: PcId :: p < |d.pcs| ==> Remote(c', p) == Remote(d, p);
  }

  lemma TeardownTimely(c: Client, i: TaskId, call: Call)
    requires Timely(c) && i < |c.tasks| && !c.tasks[i].FlushOwed?
    ensures Timely(Teardown(c, i, call))
  {
    ClosedTimely(c);
    var d := ClosePc(Discard(c));
    if call.sfu { GotoTimely(d, i, HangupSfu(call)); } else { GotoTimely(EndCall(d, Completed), i, Done); }
  }

  lemma DescriptionTimely(c: Client, i: TaskId, pc: PcId, id: SignalId, reply: Option<Reply>)
    requires Timely(c) && i < |c.tasks| && c.tasks[i].SetRemote? && pc < |c.pcs|
    ensures Timely(Goto(c.(pcs := c.pcs[pc := c.pcs[pc].(remote := Some(id))]), i, FlushOwed(pc, reply)))
  {
    var d := c.(pcs := c.pcs[pc := c.pcs[pc].(remote := Some(id))]);
    var c' := Goto(d, i, FlushOwed(pc, reply));
    assert c'.tasks[i] == FlushOwed(pc, reply);
    assert OwesFlush(c', pc);
    assert forall p: PcId :: Remote(c, p).Some? ==> Remote(c', p).Some?;
    forall p | OwesFlush(c, p) ensures OwesFlush(c', p) {
      var k :| 0 <= k < |c.tasks| && c.tasks[k].FlushOwed? && c.tasks[k].pc == p;
      assert c'.tasks[k] == c.tasks[k];
    }
  }

  lemma StepTimely(c: Client, s: Step)
    requires Timely(c)
    ensures Timely(Next(c, s))
  {
    hide Handle, Continue, Abort;
    match s
    case Initiate(partner, room) =>
      SpawnTimely(c.(call := Some(Call(partner, room, Some(room), Ringing, false)), initiated := c.initiated + {room}),
                  ArmRing(room));
    case Accept(caller, room) =>
      SpawnTimely(c.(call := Some(Call(caller, room, None, Connecting, false))), AnswerImport(caller, room));
    case Hangup => if c.call.Some? { SpawnTimely(c.(ring := None), HangupNotify(c.call.value)); }
    case RingTimeout =>
    case Gathered(_, _) =>
    case Deliver(id, signal) => HandleTimely(c, id, signal);
    case IceConnected =>
    case IceFailed(room) =>
      ClosedTimely(c);
      SpawnTimely(Discard(ClosePc(c)), Fallback(room));
    case Resume(i) => ContinueTimely(c, i);
    case Fail(i) => AbortTimely(c, i);
  }

  lemma AbortTimely(c: Client, i: TaskId)
    requires Timely(c)
    ensures Timely(Abort(c, i))
  {
    if i < |c.tasks| && !c.tasks[i].FlushOwed? {
      GotoTimely(c, i, Done);
      if c.tasks[i].Fallback? || c.tasks[i].FallbackMedia? { GotoTimely(FailIn(c, c.tasks[i].room), i, Done); }
    }
  }

  lemma HandleTimely(c: Client, id: SignalId, s: Signal)
    requires Timely(c)
    ensures Timely(Handle(c, id, s))
  {
    hide AddLoop, Teardown;
    if PassesGuard(c, s) {
      match s.body
      case Connect =>
        SpawnTimely(SetState(c.(ring := None, handled := c.handled + {s.room}), Connecting),
                    CallerMedia(s.from, s.room));
      case Offer(_) =>
        if c.active.Some? { SpawnTimely(c, SetRemote(c.active.value, id, Some(Reply(s.room, s.from)))); }
      case Answer(_, _) => if c.active.Some? { SpawnTimely(c, SetRemote(c.active.value, id, None)); }
      case Candidates(list) =>
        if list.Some? {
          var batch := Number(|c.received|, s.room, list.value);
          SpawnTimely(c.(received := c.received + batch), Done);
          AddLoopTimely(Spawn(c.(received := c.received + batch), Done), |c.tasks|, c.active, batch);
        }
      case Disconnect =>
        SpawnTimely(c.(ring := None), Done);
        TeardownTimely(Spawn(c.(ring := None), Done), |c.tasks|, c.call.value);
    }
  }

  lemma ContinueTimely(c: Client, i: TaskId)
    requires Timely(c)
    ensures Timely(Continue(c, i))
  {
    hide Timely;
    if i < |c.tasks| {
      match c.tasks[i]
      case FlushOwed(pc, reply) => BeginFlushTimely(c, i, pc, reply);
      case Flushing(pc, rest, reply) =>
        RemoteOfTask(c, i);
        FlushTimely(c, i, pc, rest, reply);
      case Adding(pc, rest) =>
        RemoteOfTask(c, i);
        AddLoopTimely(c, i, Some(pc), rest);
      case HangupSent(call) => TeardownTimely(c, i, call);
      case SetRemote(pc, description, reply) =>
        if pc < |c.pcs| { DescriptionTimely(c, i, pc, description, reply); }
      case AnswerMedia(peer, room) =>
        CreatedTimely(c, room, peer);
        GotoTimely(CreatePc(c, room, peer), i, Publish(Signal(Connect, room, c.me, peer)));
      case CallerMedia(peer, room) =>
        CreatedTimely(c, room, peer);
        GotoTimely(CreatePc(c, room, peer), i, CallerOffer(peer, room));
      case _ => CallTaskTimely(c, i);
    }
  }

  lemma RemoteOfTask(c: Client, i: TaskId)
    requires Timely(c) && i < |c.tasks|
    ensures c.tasks[i].FlushOwed? || c.tasks[i].Flushing? || c.tasks[i].Adding? ==> Remote(c, c.tasks[i].pc).Some?
  {
  }

  lemma BeginFlushTimely(c: Client, i: TaskId, pc: PcId, reply: Option<Reply>)
    requires Timely(c) && i < |c.tasks| && c.tasks[i] == FlushOwed(pc, reply)
    ensures Timely(Flush(c.(pending := []), i, pc, c.pending, reply))
  {
    FlushTimely(c.(pending := []), i, pc, c.pending, reply);
  }

  /** Continuations that touch neither the connections nor the buffer. */
  lemma CallTaskTimely(c: Client, i: TaskId)
    requires Timely(c) && i < |c.tasks|
    requires CallRinging.Simple(c.tasks[i]) && !c.tasks[i].SetRemote?
    ensures Timely(Continue(c, i))
  {
    hide Continue;
    CallRinging.SimpleTaskFrame(c, i);
    var c' := Continue(c, i);
    if c'.tasks != c.tasks {
      GotoTimely(c, i, c'.tasks[i]);
      assert forall p :: OwesFlush(c', p) <==> OwesFlush(Goto(c, i, c'.tasks[i]), p);
    }
  }

  // ---------------------------------------------------------------- every run

  lemma {:induction false} RunConserves(me: Party, steps: seq<Step>)
    ensures Conserved(Run(Idle(me), steps)) && Timely(Run(Idle(me), steps))
    decreases |steps|
  {
    if steps != [] {
      RunConserves(me, steps[..|steps| - 1]);
      StepConserves(Run(Idle(me), steps[..|steps| - 1]), steps[|steps| - 1]);
      StepTimely(Run(Idle(me), steps[..|steps| - 1]), steps[|steps| - 1]);
    }
  }

  /** At every moment of every run each received candidate is in exactly one place: the buffer, a
      handler's hands, the applied ones, or those thrown away by a teardown. */
  lemma EachCandidateInOnePlace(me: Party, steps: seq<Step>, x: Candidate)
    requires x in Run(Idle(me), steps).received
    ensures var c := Run(Idle(me), steps);
            Times(c.pending, x) + TimesInHand(c.tasks, x) + Times(Lines(c.applied), x) + Times(c.discarded, x) == 1
  {
    hide Run;
    RunConserves(me, steps);
    var c := Run(Idle(me), steps);
    SerialsDistinct(c.received, x);
    assert Placed(c, x) == 1;
  }

  lemma {:induction false} SerialsDistinct(received: seq<Candidate>, x: Candidate)
    requires Numbered(received)
    ensures Times(received, x) == if x in received then 1 else 0
  {
    if received != [] {
      var n := |received| - 1;
      assert received == received[..n] + [received[n]];
      SerialsDistinct(received[..n], x);
    }
  }

  /** A step applies at most one candidate, and only to a connection whose remote description is
      already set. */
  lemma NoneAppliedEarly(me: Party, steps: seq<Step>, s: Step)
    ensures AppliesInTime(Run(Idle(me), steps), Next(Run(Idle(me), steps), s))
  {
    hide Run, Next;
    RunConserves(me, steps);
    StepAppliesInTime(Run(Idle(me), steps), s);
  }

  ghost predicate AppliesInTime(c: Client, c': Client) {
    c'.applied == c.applied
    || (|c'.applied| == |c.applied| + 1 && c'.applied[..|c.applied|] == c.applied
        && Remote(c, c'.applied[|c.applied|].pc).Some?)
  }

  lemma StepAppliesInTime(c: Client, s: Step)
    requires Timely(c)
    ensures AppliesInTime(c, Next(c, s))
  {
    hide AddLoop, Flush;
    match s
    case Deliver(id, signal) =>
      if PassesGuard(c, signal) && signal.body.Candidates? && signal.body.list.Some? {
        var batch := Number(|c.received|, signal.room, signal.body.list.value);
        AddLoopApplies(Spawn(c.(received := c.received + batch), Done), |c.tasks|, c.active, batch);
      }
    case Resume(i) => ContinueAppliesInTime(c, i);
    case _ =>
  }

  lemma ContinueAppliesInTime(c: Client, i: TaskId)
    requires Timely(c)
    ensures AppliesInTime(c, Continue(c, i))
  {
    hide Timely, Continue;
    if i < |c.tasks| {
      if CallRinging.Simple(c.tasks[i]) { CallRinging.SimpleTaskFrame(c, i); } else { OwnedTaskApplies(c, i); }
    } else {
      CallRinging.NoTaskNoStep(c, i);
    }
  }

  lemma OwnedTaskApplies(c: Client, i: TaskId)
    requires Timely(c) && i < |c.tasks| && !CallRinging.Simple(c.tasks[i])
    ensures AppliesInTime(c, Continue(c, i))
  {
    hide Timely, AddLoop;
    RemoteOfTask(c, i);
    if c.tasks[i].Adding? { AddLoopApplies(c, i, Some(c.tasks[i].pc), c.tasks[i].rest); }
  }

  lemma {:induction false} AddLoopApplies(c: Client, i: TaskId, pc: Option<PcId>, rest: seq<Candidate>)
    ensures AppliesInTime(c, AddLoop(c, i, pc, rest))
    decreases |rest|
  {
    if rest != [] && (pc.None? || Remote(c, pc.value).None?) {
      AddLoopApplies(c.(pending := c.pending + [rest[0]]), i, pc, rest[1..]);
    }
  }

  /** Once the open connection's remote description is set and no flush is owed, nothing waits. */
  lemma BufferEmptyOnceDescribed(me: Party, steps: seq<Step>)
    ensures var c := Run(Idle(me), steps);
            c.active.Some? && Remote(c, c.active.value).Some? && !OwesFlush(c, c.active.value)
            ==> c.pending == []
  {
    RunConserves(me, steps);
  }
}
