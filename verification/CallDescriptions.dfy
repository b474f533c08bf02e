/** Which descriptions connections are given in runs of the whole network. */
module CallDescriptions {
  import opened Prelude
  import opened CallClient
  import opened CallRinging
  import opened CallNetwork
  import opened CallConnections

  predicate AlignedNet(n: Net, s: NetStep) {
    s.Local? && s.party in n.clients ==> Aligned(n.clients[s.party], s.step)
  }

  /** Signal `j` is an offer or an answer sent to `me` by the connection's own peer in its own room. */
  predicate Belongs(log: seq<Signal>, me: Party, pc: Pc, j: SignalId) {
    && j < |log| && log[j].room == pc.room && log[j].from == pc.peer && log[j].to == me && pc.peer != me
    && (log[j].body.Offer? || log[j].body.Answer?)
  }

  /** An answer that one party of the system sends another answers an offer the latter made to it in
      the same room. */
  predicate AnswersOffer(parties: set<Party>, log: seq<Signal>, s: Signal) {
    s.body.Answer? && s.to in parties ==>
      var j := s.body.to;
      j < |log| && log[j].body.Offer? && log[j].from == s.to && log[j].to == s.from && log[j].room == s.room
  }

  ghost predicate Owed(log: seq<Signal>, me: Party, pcs: seq<Pc>, pc: PcId, r: Reply) {
    && pc < |pcs| && r == Reply(pcs[pc].room, pcs[pc].peer) && pcs[pc].peer != me
    && exists k | 0 <= k < |log| :: log[k].body.Offer? && log[k].from == r.partner && log[k].room == r.room
  }

  ghost predicate TaskOk(parties: set<Party>, log: seq<Signal>, me: Party, pcs: seq<Pc>, t: Task) {
    match t
    case SetRemote(pc, j, reply) =>
      pc < |pcs| && Belongs(log, me, pcs[pc], j)
      && (if reply.Some? then log[j].body.Offer? && reply.value == Reply(pcs[pc].room, pcs[pc].peer)
          else log[j].body.Answer?)
    case FlushOwed(pc, reply) => reply.Some? ==> Owed(log, me, pcs, pc, reply.value)
    case Flushing(pc, _, reply) => reply.Some? ==> Owed(log, me, pcs, pc, reply.value)
    case Answering(pc, owed) => Owed(log, me, pcs, pc, owed)
    case Publish(s) => s.from == me && AnswersOffer(parties, log, s)
    case _ => true
  }

  ghost predicate ClientOk(parties: set<Party>, log: seq<Signal>, c: Client) {
    && (forall p | 0 <= p < |c.pcs| :: c.pcs[p].remote.Some? ==> Belongs(log, c.me, c.pcs[p], c.pcs[p].remote.value))
    && (forall i | 0 <= i < |c.tasks| :: TaskOk(parties, log, c.me, c.pcs, c.tasks[i]))
  }

  ghost predicate LogOk(parties: set<Party>, log: seq<Signal>, owner: map<Room, Party>) {
    && (forall k | 0 <= k < |log| :: log[k].from in parties ==> AnswersOffer(parties, log, log[k]))
    && (forall k | 0 <= k < |log| :: log[k].from in parties && log[k].body.Offer? ==>
          log[k].room in owner && owner[log[k].room] == log[k].from)
  }

  ghost predicate DescriptionInv(n: Net) {
    OfferInv(n) && LogOk(n.clients.Keys, n.log, n.owner)
    && forall p | p in n.clients :: ClientOk(n.clients.Keys, n.log, n.clients[p])
  }

  // ---------------------------------------------------------------- one client's step

  /** Connections keep the room and the peer they were created for. */
  ghost predicate SamePcs(pcs: seq<Pc>, pcs': seq<Pc>) {
    |pcs| <= |pcs'| && forall p | 0 <= p < |pcs| :: pcs'[p].room == pcs[p].room && pcs'[p].peer == pcs[p].peer
  }

  lemma TaskStaysOk(parties: set<Party>, log: seq<Signal>, me: Party, pcs: seq<Pc>, pcs': seq<Pc>, t: Task)
    requires TaskOk(parties, log, me, pcs, t) && SamePcs(pcs, pcs')
    ensures TaskOk(parties, log, me, pcs', t)
  {
  }

  /** The step touched only slot `i` (or appended one task there), and that task is in order. */
  lemma Reassemble(parties: set<Party>, log: seq<Signal>, c: Client, c': Client, i: TaskId)
    requires ClientOk(parties, log, c) && c'.me == c.me && SamePcs(c.pcs, c'.pcs)
    requires i <= |c.tasks| && i < |c'.tasks| && |c'.tasks| <= |c.tasks| + 1 && |c.tasks| <= |c'.tasks|
    requires forall k | 0 <= k < |c'.tasks| :: k != i ==> k < |c.tasks| && c'.tasks[k] == c.tasks[k]
    requires TaskOk(parties, log, c'.me, c'.pcs, c'.tasks[i])
    requires forall p | 0 <= p < |c'.pcs| ::
               c'.pcs[p].remote.Some? ==> Belongs(log, c.me, c'.pcs[p], c'.pcs[p].remote.value)
    ensures ClientOk(parties, log, c')
  {
    hide TaskOk;
    forall k | 0 <= k < |c'.tasks| ensures TaskOk(parties, log, c'.me, c'.pcs, c'.tasks[k]) {
      var t := c'.tasks[k];
      if k != i { TaskStaysOk(parties, log, c.me, c.pcs, c'.pcs, t); }
    }
  }

  lemma CloseKeeps(parties: set<Party>, log: seq<Signal>, c: Client)
    requires ClientOk(parties, log, c)
    ensures ClientOk(parties, log, ClosePc(c)) && SamePcs(c.pcs, ClosePc(c).pcs)
    ensures ClosePc(c) == c.(pcs := ClosePc(c).pcs, active := None)
  {
    hide TaskOk;
    var c' := ClosePc(c);
    forall k | 0 <= k < |c'.tasks| ensures TaskOk(parties, log, c'.me, c'.pcs, c'.tasks[k]) {
      TaskStaysOk(parties, log, c.me, c.pcs, c'.pcs, c.tasks[k]);
    }
  }

  lemma CreateKeeps(parties: set<Party>, log: seq<Signal>, c: Client, room: Room, peer: Party)
    requires ClientOk(parties, log, c)
    ensures ClientOk(parties, log, CreatePc(c, room, peer))
    ensures CreatePc(c, room, peer).tasks == c.tasks && CreatePc(c, room, peer).me == c.me
  {
    hide TaskOk;
    CloseKeeps(parties, log, c);
    var d, c' := ClosePc(c), CreatePc(c, room, peer);
    forall k | 0 <= k < |c'.tasks| ensures TaskOk(parties, log, c'.me, c'.pcs, c'.tasks[k]) {
      TaskStaysOk(parties, log, c.me, d.pcs, c'.pcs, c.tasks[k]);
    }
  }

  /** Slot `i` moves on to a task that owes nothing. */
  lemma GotoKeeps(parties: set<Party>, log: seq<Signal>, c: Client, i: TaskId, t: Task)
    requires ClientOk(parties, log, c) && TaskOk(parties, log, c.me, c.pcs, t)
    ensures ClientOk(parties, log, Goto(c, i, t))
  {
    hide TaskOk;
    if i < |c.tasks| { Reassemble(parties, log, c, Goto(c, i, t), i); }
  }

  lemma SpawnKeeps(parties: set<Party>, log: seq<Signal>, c: Client, t: Task)
    requires ClientOk(parties, log, c) && TaskOk(parties, log, c.me, c.pcs, t)
    ensures ClientOk(parties, log, Spawn(c, t))
  {
    hide TaskOk;
    Reassemble(parties, log, c, Spawn(c, t), |c.tasks|);
  }

  lemma TeardownKeeps(parties: set<Party>, log: seq<Signal>, c: Client, i: TaskId, call: Call)
    requires ClientOk(parties, log, c)
    ensures ClientOk(parties, log, Teardown(c, i, call))
  {
    CloseKeeps(parties, log, Discard(c));
    var d := ClosePc(Discard(c));
    GotoKeeps(parties, log, d, i, HangupSfu(call));
    GotoKeeps(parties, log, EndCall(d, Completed), i, Done);
  }

  lemma ClientStepKeeps(parties: set<Party>, log: seq<Signal>, owner: map<Room, Party>, c: Client, s: Step)
    requires ClientOk(parties, log, c) && LogOk(parties, log, owner) && c.me in parties && Aligned(c, s)
    requires s.Deliver? ==> s.id < |log| && log[s.id] == s.signal && s.signal.to == c.me && s.signal.from != c.me
    ensures ClientOk(parties, log, Next(c, s))
  {
    hide ClientOk, LogOk, Handle, Continue, Teardown;
    match s
    case Initiate(partner, room) =>
      SameConnections(parties, log, c,
        c.(call := Some(Call(partner, room, Some(room), Ringing, false)), initiated := c.initiated + {room}));
      SpawnKeeps(parties, log,
        c.(call := Some(Call(partner, room, Some(room), Ringing, false)), initiated := c.initiated + {room}),
        ArmRing(room));
    case Accept(caller, room) =>
      SameConnections(parties, log, c, c.(call := Some(Call(caller, room, None, Connecting, false))));
      SpawnKeeps(parties, log, c.(call := Some(Call(caller, room, None, Connecting, false))),
                 AnswerImport(caller, room));
    case Hangup =>
      if c.call.Some? {
        SameConnections(parties, log, c, c.(ring := None));
        SpawnKeeps(parties, log, c.(ring := None), HangupNotify(c.call.value));
      }
    case RingTimeout => SameConnections(parties, log, c, Next(c, s));
    case Deliver(id, signal) => HandleKeeps(parties, log, c, id, signal);
    case Gathered(_, _) =>
    case IceConnected => SameConnections(parties, log, c, Next(c, s));
    case IceFailed(room) =>
      CloseKeeps(parties, log, c);
      SameConnections(parties, log, ClosePc(c), Discard(ClosePc(c)));
      SpawnKeeps(parties, log, Discard(ClosePc(c)), Fallback(room));
    case Resume(i) => ContinueKeeps(parties, log, owner, c, i);
    case Fail(i) => AbortKeeps(parties, log, c, i);
  }

  lemma SameConnections(parties: set<Party>, log: seq<Signal>, c: Client, c': Client)
    requires ClientOk(parties, log, c) && c'.me == c.me && c'.pcs == c.pcs && c'.tasks == c.tasks
    ensures ClientOk(parties, log, c')
  {
  }

  lemma AbortKeeps(parties: set<Party>, log: seq<Signal>, c: Client, i: TaskId)
    requires ClientOk(parties, log, c)
    ensures ClientOk(parties, log, Abort(c, i))
  {
    hide ClientOk;
    if i < |c.tasks| {
      GotoKeeps(parties, log, c, i, Done);
      if c.tasks[i].Fallback? || c.tasks[i].FallbackMedia? {
        SameConnections(parties, log, c, FailIn(c, c.tasks[i].room));
        GotoKeeps(parties, log, FailIn(c, c.tasks[i].room), i, Done);
      }
    }
  }

  lemma HandleKeeps(parties: set<Party>, log: seq<Signal>, c: Client, id: SignalId, s: Signal)
    requires ClientOk(parties, log, c) && Aligned(c, Deliver(id, s))
    requires id < |log| && log[id] == s && s.to == c.me && s.from != c.me
    ensures ClientOk(parties, log, Handle(c, id, s))
  {
    hide ClientOk, AddLoop, Teardown;
    if PassesGuard(c, s) {
      match s.body
      case Connect =>
        var d := SetState(c.(ring := None, handled := c.handled + {s.room}), Connecting);
        SameConnections(parties, log, c, d);
        SpawnKeeps(parties, log, d, CallerMedia(s.from, s.room));
      case Offer(present) =>
        if c.active.Some? && present {
          SpawnKeeps(parties, log, c, SetRemote(c.active.value, id, Some(Reply(s.room, s.from))));
        }
      case Answer(present, _) =>
        if c.active.Some? && present { SpawnKeeps(parties, log, c, SetRemote(c.active.value, id, None)); }
      case Candidates(list) =>
        if list.Some? {
          var batch := Number(|c.received|, s.room, list.value);
          SameConnections(parties, log, c, c.(received := c.received + batch));
          SpawnKeeps(parties, log, c.(received := c.received + batch), Done);
          LoopKeeps(parties, log, Spawn(c.(received := c.received + batch), Done), |c.tasks|, c.active, batch);
        }
      case Disconnect =>
        SameConnections(parties, log, c, c.(ring := None));
        SpawnKeeps(parties, log, c.(ring := None), Done);
        TeardownKeeps(parties, log, Spawn(c.(ring := None), Done), |c.tasks|, c.call.value);
    }
  }

  lemma LoopKeeps(parties: set<Party>, log: seq<Signal>, c: Client, i: TaskId, pc: Option<PcId>, rest: seq<Candidate>)
    requires ClientOk(parties, log, c) && i < |c.tasks|
    ensures ClientOk(parties, log, AddLoop(c, i, pc, rest))
  {
    hide ClientOk, AddLoop;
    AddLoopFrame(c, i, pc, rest);
    var c' := AddLoop(c, i, pc, rest);
    GotoKeeps(parties, log, c, i, c'.tasks[i]);
    SameConnections(parties, log, Goto(c, i, c'.tasks[i]), c');
  }

  lemma FlushKeeps(parties: set<Party>, log: seq<Signal>, c: Client, i: TaskId, pc: PcId, rest: seq<Candidate>,
                   reply: Option<Reply>)
    requires ClientOk(parties, log, c) && (reply.Some? ==> Owed(log, c.me, c.pcs, pc, reply.value))
    ensures ClientOk(parties, log, Flush(c, i, pc, rest, reply))
  {
    hide ClientOk, Owed;
    if rest != [] {
      var d := c.(applied := c.applied + [Applied(pc, rest[0])]);
      SameConnections(parties, log, c, d);
      GotoKeeps(parties, log, d, i, Flushing(pc, rest[1..], reply));
    } else {
      GotoKeeps(parties, log, c, i, if reply.Some? then Answering(pc, reply.value) else Done);
    }
  }

  lemma ContinueKeeps(parties: set<Party>, log: seq<Signal>, owner: map<Room, Party>, c: Client, i: TaskId)
    requires ClientOk(parties, log, c) && LogOk(parties, log, owner) && c.me in parties
    ensures ClientOk(parties, log, Continue(c, i))
  {
    hide LogOk, Flush, AddLoop, Teardown, CreatePc, Belongs, Owed, AnswersOffer;
    if i < |c.tasks| {
      assert TaskOk(parties, log, c.me, c.pcs, c.tasks[i]);
      match c.tasks[i]
      case FlushOwed(pc, reply) =>
        SameConnections(parties, log, c, c.(pending := []));
        FlushKeeps(parties, log, c.(pending := []), i, pc, c.pending, reply);
      case Flushing(pc, rest, reply) => FlushKeeps(parties, log, c, i, pc, rest, reply);
      case Adding(pc, rest) => LoopKeeps(parties, log, c, i, Some(pc), rest);
      case HangupSent(call) => TeardownKeeps(parties, log, c, i, call);
      case SetRemote(pc, j, reply) => DescribeKeeps(parties, log, c, i);
      case Answering(pc, owed) => AnswerKeeps(parties, log, owner, c, i);
      case AnswerMedia(peer, room) =>
        CreateKeeps(parties, log, c, room, peer);
        GotoKeeps(parties, log, CreatePc(c, room, peer), i, Publish(Signal(Connect, room, c.me, peer))) by {
          PlainPublishOk(parties, log, CreatePc(c, room, peer), Signal(Connect, room, c.me, peer));
        }
      case CallerMedia(peer, room) =>
        CreateKeeps(parties, log, c, room, peer);
        GotoKeeps(parties, log, CreatePc(c, room, peer), i, CallerOffer(peer, room));
      case _ => OtherKeeps(parties, log, c, i);
    }
  }

  lemma PlainPublishOk(parties: set<Party>, log: seq<Signal>, c: Client, s: Signal)
    requires s.from == c.me && !s.body.Answer?
    ensures TaskOk(parties, log, c.me, c.pcs, Publish(s))
  {
  }

  lemma OtherKeeps(parties: set<Party>, log: seq<Signal>, c: Client, i: TaskId)
    requires ClientOk(parties, log, c) && i < |c.tasks|
    requires Simple(c.tasks[i]) && !c.tasks[i].SetRemote? && !c.tasks[i].Answering?
    ensures ClientOk(parties, log, Continue(c, i))
  {
    hide Continue, ClientOk, TaskOk;
    SimpleTaskFrame(c, i);
    var c' := Continue(c, i);
    OtherTaskOk(parties, log, c, i);
    if c'.tasks == c.tasks { SameConnections(parties, log, c, c'); } else {
      GotoKeeps(parties, log, c, i, c'.tasks[i]);
      SameConnections(parties, log, Goto(c, i, c'.tasks[i]), c');
    }
  }

  lemma OtherTaskOk(parties: set<Party>, log: seq<Signal>, c: Client, i: TaskId)
    requires i < |c.tasks| && Simple(c.tasks[i]) && !c.tasks[i].SetRemote? && !c.tasks[i].Answering?
    ensures Continue(c, i).me == c.me && i < |Continue(c, i).tasks|
    ensures Continue(c, i).tasks != c.tasks ==> TaskOk(parties, log, c.me, c.pcs, Continue(c, i).tasks[i])
  {
    hide Flush, AddLoop, Teardown, CreatePc, Belongs, Owed;
  }

  /** The description reaches the connection it was queued for. */
  lemma DescribeKeeps(parties: set<Party>, log: seq<Signal>, c: Client, i: TaskId)
    requires ClientOk(parties, log, c) && i < |c.tasks| && c.tasks[i].SetRemote?
    ensures ClientOk(parties, log, Continue(c, i))
  {
    hide Flush, AddLoop, Teardown, CreatePc;
    var t, c' := c.tasks[i], Continue(c, i);
    assert TaskOk(parties, log, c.me, c.pcs, t);
    if c' != c {
      assert SamePcs(c.pcs, c'.pcs);
      assert TaskOk(parties, log, c.me, c'.pcs, FlushOwed(t.pc, t.reply)) by {
        if t.reply.Some? { assert log[t.description].from == t.reply.value.partner; }
      }
      Reassemble(parties, log, c, c', i);
    }
  }

  /** The answer is an answer to the partner's own offer: were the connection's description itself an
      answer, its room would have been opened by both parties. */
  lemma AnswerKeeps(parties: set<Party>, log: seq<Signal>, owner: map<Room, Party>, c: Client, i: TaskId)
    requires ClientOk(parties, log, c) && LogOk(parties, log, owner)
    requires i < |c.tasks| && c.tasks[i].Answering? && c.me in parties
    ensures ClientOk(parties, log, Continue(c, i))
  {
    hide Flush, AddLoop, Teardown, CreatePc;
    var t, c' := c.tasks[i], Continue(c, i);
    assert TaskOk(parties, log, c.me, c.pcs, t);
    if c' != c {
      var j := Remote(c, t.pc).value;
      assert Belongs(log, c.me, c.pcs[t.pc], j);
      if t.owed.partner in parties {
        var k :| 0 <= k < |log| && log[k].body.Offer? && log[k].from == t.owed.partner && log[k].room == t.owed.room;
        assert log[j].from in parties ==> AnswersOffer(parties, log, log[j]);
      }
      GotoKeeps(parties, log, c, i, Publish(Signal(Answer(true, j), t.owed.room, c.me, t.owed.partner)));
    }
  }

  // ---------------------------------------------------------------- the whole network

  lemma LongerLog(parties: set<Party>, log: seq<Signal>, more: seq<Signal>, c: Client)
    requires ClientOk(parties, log, c)
    ensures ClientOk(parties, log + more, c)
  {
    hide TaskOk;
    forall i | 0 <= i < |c.tasks| ensures TaskOk(parties, log + more, c.me, c.pcs, c.tasks[i]) {
      LongerLogTask(parties, log, more, c.me, c.pcs, c.tasks[i]);
    }
  }

  lemma LongerLogTask(parties: set<Party>, log: seq<Signal>, more: seq<Signal>, me: Party, pcs: seq<Pc>, t: Task)
    requires TaskOk(parties, log, me, pcs, t)
    ensures TaskOk(parties, log + more, me, pcs, t)
  {
    match t
    case FlushOwed(pc, reply) => if reply.Some? { LongerLogOwed(log, more, me, pcs, pc, reply.value); }
    case Flushing(pc, _, reply) => if reply.Some? { LongerLogOwed(log, more, me, pcs, pc, reply.value); }
    case Answering(pc, owed) => LongerLogOwed(log, more, me, pcs, pc, owed);
    case _ =>
  }

  lemma LongerLogOwed(log: seq<Signal>, more: seq<Signal>, me: Party, pcs: seq<Pc>, pc: PcId, r: Reply)
    requires Owed(log, me, pcs, pc, r)
    ensures Owed(log + more, me, pcs, pc, r)
  {
    var k :| 0 <= k < |log| && log[k].body.Offer? && log[k].from == r.partner && log[k].room == r.room;
    assert (log + more)[k] == log[k];
  }

  lemma StepKeepsClients(n: Net, s: NetStep, p: Party)
    requires DescriptionInv(n) && Enabled(n, s) && AlignedNet(n, s) && p in n.clients
    ensures ClientOk(n.clients.Keys, Do(n, s).log, Do(n, s).clients[p])
  {
    hide ClientOk, LogOk, Next, Sent, Aligned, RingInv, OffersOwed;
    var parties := n.clients.Keys;
    assert OwnRooms(n, p);
    if s.Inject? {
      LongerLog(parties, n.log, [s.signal], n.clients[p]);
    } else {
      var sent := Sent(n.clients[s.party], s.step);
      if s.party == p {
        ClientStepKeeps(parties, n.log, n.owner, n.clients[p], s.step);
        LongerLog(parties, n.log, sent, Next(n.clients[p], s.step));
      } else {
        LongerLog(parties, n.log, sent, n.clients[p]);
      }
    }
  }

  lemma StepKeepsAnswers(n: Net, s: NetStep, k: nat)
    requires DescriptionInv(n) && Enabled(n, s) && k < |Do(n, s).log| && Do(n, s).log[k].from in n.clients
    ensures AnswersOffer(n.clients.Keys, Do(n, s).log, Do(n, s).log[k])
  {
    hide Next, OfferInv, Belongs, Owed;
    var parties, n' := n.clients.Keys, Do(n, s);
    if k < |n.log| {
      assert AnswersOffer(parties, n.log, n.log[k]);
      assert n'.log[k] == n.log[k];
    } else {
      var c := n.clients[s.party];
      assert ClientOk(parties, n.log, c);
      if s.step.Resume? { assert TaskOk(parties, n.log, c.me, c.pcs, c.tasks[s.step.task]); }
    }
  }

  lemma StepKeepsDescriptionInv(n: Net, s: NetStep)
    requires DescriptionInv(n) && Enabled(n, s) && AlignedNet(n, s)
    ensures DescriptionInv(Do(n, s))
  {
    hide ClientOk, AnswersOffer, OfferInv, AlignedNet;
    var n' := Do(n, s);
    StepKeepsOfferInv(n, s);
    assert n'.clients.Keys == n.clients.Keys;
    forall p | p in n'.clients ensures ClientOk(n'.clients.Keys, n'.log, n'.clients[p]) { StepKeepsClients(n, s, p); }
    forall k | 0 <= k < |n'.log| && n'.log[k].from in n'.clients.Keys
      ensures AnswersOffer(n'.clients.Keys, n'.log, n'.log[k])
      ensures n'.log[k].body.Offer? ==> n'.log[k].room in n'.owner && n'.owner[n'.log[k].room] == n'.log[k].from
    {
      StepKeepsAnswers(n, s, k);
      if n'.log[k].body.Offer? { OfferOwner(n', k); }
    }
  }

  lemma OfferOwner(n: Net, k: nat)
    requires OfferInv(n) && k < |n.log| && ByInsider(n, k)
    ensures n.log[k].room in n.owner && n.owner[n.log[k].room] == n.log[k].from
  {
    hide RingInv;
    assert OfferSettled(n, k);
    assert OwnRooms(n, n.log[k].from);
    HandledAreOwned(n, n.log[k].from);
  }

  ghost predicate AlignedTrace(trace: seq<Net>, steps: seq<NetStep>)
    requires |trace| == |steps| + 1
  {
    forall k | 0 <= k < |steps| :: AlignedNet(trace[k], steps[k])
  }

  lemma {:induction false} TraceKeepsDescriptionInv(trace: seq<Net>, steps: seq<NetStep>)
    requires Trace(trace, steps) && AlignedTrace(trace, steps)
    ensures forall k | 0 <= k < |trace| :: DescriptionInv(trace[k])
  {
    hide DescriptionInv, Enabled, Do, AlignedNet;
    if steps == [] {
      StartIsOk(trace[0]);
    } else {
      var m := |steps| - 1;
      assert forall k | 0 <= k < m :: trace[..m + 1][k] == trace[k] && steps[..m][k] == steps[k];
      TraceKeepsDescriptionInv(trace[..m + 1], steps[..m]);
      assert trace[m] == trace[..m + 1][m] && DescriptionInv(trace[..m + 1][m]);
      StepKeepsDescriptionInv(trace[m], steps[m]);
      forall k | 0 <= k < |trace| ensures DescriptionInv(trace[k]) {
        if k <= m { assert trace[k] == trace[..m + 1][k]; } else { assert trace[k] == trace[m + 1]; }
      }
    }
  }

  lemma StartIsOk(n: Net)
    requires Start(n)
    ensures DescriptionInv(n)
  {
    forall p | p in n.clients ensures OwnRooms(n, p) && ClientOk(n.clients.Keys, n.log, n.clients[p]) {
      assert n.clients[p] == Idle(p);
    }
  }

  /** What a connection holding description `j` must hold: the only offer of its room, made by its
      peer, or its peer's answer to the only offer of its room, made by this party. */
  ghost predicate Matches(n: Net, me: Party, pc: Pc, j: SignalId) {
    && j < |n.log| && n.log[j].room == pc.room && n.log[j].from == pc.peer
    && (n.log[j].body.Offer? || n.log[j].body.Answer?)
    && (n.log[j].body.Offer? ==> OnlyOffer(n, j))
    && (n.log[j].body.Answer? ==>
          var k := n.log[j].body.to;
          k < |n.log| && n.log[k].from == me && n.log[k].room == pc.room && OnlyOffer(n, k))
  }

  ghost predicate OnlyOffer(n: Net, j: SignalId) {
    j < |n.log| && ByInsider(n, j)
    && forall k | 0 <= k < |n.log| && ByInsider(n, k) && n.log[k].room == n.log[j].room :: k == j
  }

  /** In every state of an aligned run, the description of every connection to a party of the system
      is the offer of its room, or the peer's answer to this party's offer in that room. */
  lemma DescriptionsMatch(trace: seq<Net>, steps: seq<NetStep>, n: Net, p: Party, pc: PcId)
    requires Trace(trace, steps) && AlignedTrace(trace, steps) && n in trace
    requires p in n.clients && pc < |n.clients[p].pcs|
    requires n.clients[p].pcs[pc].remote.Some? && n.clients[p].pcs[pc].peer in n.clients
    ensures Matches(n, p, n.clients[p].pcs[pc], n.clients[p].pcs[pc].remote.value)
  {
    hide TaskOk, RingInv;
    TraceKeepsDescriptionInv(trace, steps);
    assert DescriptionInv(n);
    var c := n.clients[p];
    assert ClientOk(n.clients.Keys, n.log, c);
    assert OwnRooms(n, p);
    var j := c.pcs[pc].remote.value;
    assert Belongs(n.log, p, c.pcs[pc], j);
    if n.log[j].body.Offer? { OfferIsOnly(n, j); } else {
      assert AnswersOffer(n.clients.Keys, n.log, n.log[j]);
      OfferIsOnly(n, n.log[j].body.to);
    }
  }

  lemma OfferIsOnly(n: Net, j: SignalId)
    requires OfferInv(n) && j < |n.log| && ByInsider(n, j)
    ensures OnlyOffer(n, j)
  {
    hide OwnRooms, OfferSettled;
  }

  // ---------------------------------------------------------------- when runs are aligned

  ghost predicate OwnConnections(n: Net) {
    forall p | p in n.clients :: OwnConnection(n.clients[p])
  }

  predicate KeepsApartNet(n: Net, s: NetStep) {
    s.Local? && s.party in n.clients ==> KeepsApart(n.clients[s.party], s.step)
  }

  lemma NetStepKeepsOwnExactly(n: Net, s: NetStep)
    requires OwnConnections(n) && Enabled(n, s)
    ensures OwnConnections(Do(n, s)) <==> KeepsApartNet(n, s)
  {
    hide Next, KeepsApart, OwnConnection;
    var n' := Do(n, s);
    if s.Local? {
      StepKeepsOwnExactly(n.clients[s.party], s.step);
      assert n'.clients[s.party] == Next(n.clients[s.party], s.step);
    }
  }

  lemma IdleOwnsConnections(n: Net)
    requires Start(n)
    ensures OwnConnections(n)
  {
  }

  lemma {:induction false} ApartSoFar(trace: seq<Net>, steps: seq<NetStep>, k: nat)
    requires Trace(trace, steps) && k <= |steps|
    requires forall j | 0 <= j < k :: KeepsApartNet(trace[j], steps[j])
    ensures OwnConnections(trace[k])
  {
    hide OwnConnections, KeepsApartNet;
    if k == 0 {
      IdleOwnsConnections(trace[0]);
    } else {
      ApartSoFar(trace, steps, k - 1);
      StepOf(trace, steps, k - 1);
      NetStepKeepsOwnExactly(trace[k - 1], steps[k - 1]);
      assert KeepsApartNet(trace[k - 1], steps[k - 1]);
    }
  }

  lemma StepOf(trace: seq<Net>, steps: seq<NetStep>, k: nat)
    requires Trace(trace, steps) && k < |steps|
    ensures Enabled(trace[k], steps[k]) && trace[k + 1] == Do(trace[k], steps[k])
  {
  }

  /** In every state of a run every open connection is its call's own if and only if each step was taken
      when it may be. */
  lemma OwnThroughoutExactly(trace: seq<Net>, steps: seq<NetStep>)
    requires Trace(trace, steps)
    ensures (forall k | 0 <= k < |trace| :: OwnConnections(trace[k]))
            <==> (forall k | 0 <= k < |steps| :: KeepsApartNet(trace[k], steps[k]))
  {
    hide OwnConnections, KeepsApartNet;
    if forall k | 0 <= k < |steps| :: KeepsApartNet(trace[k], steps[k]) {
      forall k | 0 <= k < |trace| ensures OwnConnections(trace[k]) { ApartSoFar(trace, steps, k); }
    }
    if forall k | 0 <= k < |trace| :: OwnConnections(trace[k]) {
      forall k | 0 <= k < |steps| ensures KeepsApartNet(trace[k], steps[k]) {
        StepOf(trace, steps, k);
        assert OwnConnections(trace[k]);
        var next := trace[k + 1];
        assert OwnConnections(next);
        NetStepKeepsOwnExactly(trace[k], steps[k]);
      }
    }
  }

  /** Then every description matches. */
  lemma ApartRunsMatch(trace: seq<Net>, steps: seq<NetStep>, n: Net, p: Party, pc: PcId)
    requires Trace(trace, steps) && n in trace
    requires forall k | 0 <= k < |steps| :: KeepsApartNet(trace[k], steps[k])
    requires p in n.clients && pc < |n.clients[p].pcs|
    requires n.clients[p].pcs[pc].remote.Some? && n.clients[p].pcs[pc].peer in n.clients
    ensures Matches(n, p, n.clients[p].pcs[pc], n.clients[p].pcs[pc].remote.value)
  {
    hide OwnConnections, KeepsApartNet, AlignedNet, Matches, Enabled, Do;
    OwnThroughoutExactly(trace, steps);
    forall k | 0 <= k < |steps| ensures AlignedNet(trace[k], steps[k]) {
      assert OwnConnections(trace[k]);
      OwnIsAligned(trace[k], steps[k]);
    }
    DescriptionsMatch(trace, steps, n, p, pc);
  }

  lemma OwnIsAligned(n: Net, s: NetStep)
    requires OwnConnections(n)
    ensures AlignedNet(n, s)
  {
    if s.Local? && s.party in n.clients { AllAlignedExactly(n.clients[s.party]); }
  }
}
