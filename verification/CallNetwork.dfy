/** Any number of endpoints over relays that may drop, repeat and reorder: whatever was published
    stays available, and delivering takes any of it, any number of times or never. Parties outside
    the system may publish anything in their own name. */
module CallNetwork {
  import opened Prelude
  import opened CallClient
  import opened CallRinging

  /** `owner` tells which party opened a room; rooms are fresh, so each is opened once. */
  datatype Net = Net(clients: map<Party, Client>, log: seq<Signal>, owner: map<Room, Party>)

  datatype NetStep = Local(party: Party, step: Step) | Inject(signal: Signal)

  predicate Enabled(n: Net, s: NetStep) {
    match s
    case Inject(signal) => signal.from !in n.clients
    case Local(p, step) =>
      p in n.clients
      && (step.Deliver? ==> && step.id < |n.log| && n.log[step.id] == step.signal
                            && step.signal.to == p && step.signal.from != p)
      && (step.Initiate? ==> step.room !in n.owner)
  }

  function Do(n: Net, s: NetStep): Net
    requires Enabled(n, s)
  {
    match s
    case Inject(signal) => n.(log := n.log + [signal])
    case Local(p, step) =>
      Net(n.clients[p := Next(n.clients[p], step)],
          n.log + Sent(n.clients[p], step),
          if step.Initiate? then n.owner[step.room := p] else n.owner)
  }

  ghost predicate Start(n: Net) {
    n.log == [] && n.owner == map[] && forall p | p in n.clients :: n.clients[p] == Idle(p)
  }

  /** `trace` is a run: it starts idle and each state is a step after the one before. */
  ghost predicate Trace(trace: seq<Net>, steps: seq<NetStep>) {
    && |trace| == |steps| + 1
    && Start(trace[0])
    && forall k | 0 <= k < |steps| :: Enabled(trace[k], steps[k]) && trace[k + 1] == Do(trace[k], steps[k])
  }

  // ---------------------------------------------------------------- one offer per room

  /** The room in which a task will publish an offer. */
  function OfferRoom(t: Task): Option<Room> {
    match t
    case CallerMedia(_, room) => Some(room)
    case CallerOffer(_, room) => Some(room)
    case Publish(s) => if s.body.Offer? then Some(s.room) else None
    case _ => None
  }

  /** Tasks owe offers only in rooms whose `connect` was handled, at most one task per room, and
      publish only in this party's name. */
  ghost predicate OffersOwed(c: Client) {
    && (forall i | 0 <= i < |c.tasks| :: OfferRoom(c.tasks[i]).Some? ==> OfferRoom(c.tasks[i]).value in c.handled)
    && (forall i, j | 0 <= i < j < |c.tasks| ::
          OfferRoom(c.tasks[i]).Some? ==> OfferRoom(c.tasks[i]) != OfferRoom(c.tasks[j]))
    && (forall i | 0 <= i < |c.tasks| :: c.tasks[i].Publish? ==> c.tasks[i].signal.from == c.me)
  }

  /** A step turns no task into one that owes a different offer, and starts at most one task; that one
      owes an offer only in a room whose `connect` is handled by this very step. */
  ghost predicate Progress(c: Client, c': Client) {
    && c'.me == c.me && c.handled <= c'.handled
    && |c.tasks| <= |c'.tasks| <= |c.tasks| + 1
    && (forall i | 0 <= i < |c.tasks| :: MovesOn(c.me, c.tasks[i], c'.tasks[i]))
    && (|c'.tasks| > |c.tasks| ==>
          var t := c'.tasks[|c.tasks|];
          !t.Publish? && (OfferRoom(t).Some? ==> OfferRoom(t).value in c'.handled - c.handled))
  }

  predicate MovesOn(me: Party, t: Task, t': Task) {
    && (OfferRoom(t').Some? ==> OfferRoom(t') == OfferRoom(t))
    && (t'.Publish? ==> t == t' || t'.signal.from == me)
  }

  lemma StepProgress(c: Client, s: Step)
    requires RingInv(c)
    ensures Progress(c, Next(c, s))
  {
    hide Handle, Continue, Abort, RingInv;
    match s
    case Deliver(id, signal) => HandleProgress(c, id, signal);
    case Resume(i) => ContinueProgress(c, i);
    case Fail(i) => AbortProgress(c, i);
    case _ =>
  }

  lemma AbortProgress(c: Client, i: TaskId)
    ensures Progress(c, Abort(c, i))
  {
  }

  lemma HandleProgress(c: Client, id: SignalId, s: Signal)
    requires RingInv(c)
    ensures Progress(c, Handle(c, id, s))
  {
    hide AddLoop, Teardown;
    if PassesGuard(c, s) {
      match s.body
      case Candidates(list) =>
        if list.Some? {
          var batch := Number(|c.received|, s.room, list.value);
          AddLoopFrame(Spawn(c.(received := c.received + batch), Done), |c.tasks|, c.active, batch);
        }
      case Disconnect => TeardownFrame(Spawn(c.(ring := None), Done), |c.tasks|, c.call.value);
      case _ =>
    }
  }

  lemma TeardownFrame(c: Client, i: TaskId, call: Call)
    requires i < |c.tasks|
    ensures var c' := Teardown(c, i, call);
            c'.me == c.me && c'.handled == c.handled
            && c'.tasks == c.tasks[i := if call.sfu then HangupSfu(call) else Done]
  {
  }

  lemma ContinueProgress(c: Client, i: TaskId)
    ensures Progress(c, Continue(c, i))
  {
    hide Continue;
    if i >= |c.tasks| {
      NoTaskNoStep(c, i);
    } else if Simple(c.tasks[i]) {
      SimpleTaskFrame(c, i);
      SimpleProgress(c, i);
    } else {
      OwnedProgress(c, i);
    }
  }

  lemma SimpleProgress(c: Client, i: TaskId)
    requires i < |c.tasks| && Simple(c.tasks[i])
    ensures MovesOn(c.me, c.tasks[i], Continue(c, i).tasks[i])
  {
    SimpleTaskFrame(c, i);
  }

  lemma OwnedProgress(c: Client, i: TaskId)
    requires i < |c.tasks| && !Simple(c.tasks[i])
    ensures Progress(c, Continue(c, i))
  {
    hide AddLoop, Teardown;
    match c.tasks[i]
    case Adding(pc, rest) => AddLoopFrame(c, i, Some(pc), rest);
    case HangupSent(call) => TeardownFrame(c, i, call);
    case _ =>
  }

  lemma ProgressKeepsOffersOwed(c: Client, c': Client)
    requires OffersOwed(c) && Progress(c, c')
    ensures OffersOwed(c')
  {
  }

  /** The invariant behind "one offer per room". */
  ghost predicate OfferInv(n: Net) {
    && (forall p | p in n.clients :: OwnRooms(n, p))
    && (forall k | 0 <= k < |n.log| :: n.log[k].body.Offer? && n.log[k].from in n.clients ==> OfferSettled(n, k))
    && (forall k, l | 0 <= k < l < |n.log| :: ByInsider(n, k) && ByInsider(n, l) ==> n.log[k].room != n.log[l].room)
  }

  ghost predicate OwnRooms(n: Net, p: Party)
    requires p in n.clients
  {
    var c := n.clients[p];
    c.me == p && RingInv(c) && OffersOwed(c)
    && forall r :: r in c.initiated <==> r in n.owner && n.owner[r] == p
  }

  predicate ByInsider(n: Net, k: nat)
    requires k < |n.log|
  {
    n.log[k].body.Offer? && n.log[k].from in n.clients
  }

  /** A published offer's room was handled by its sender, who owes no further offer there. */
  ghost predicate OfferSettled(n: Net, k: nat)
    requires k < |n.log| && n.log[k].from in n.clients
  {
    var c := n.clients[n.log[k].from];
    n.log[k].room in c.handled
    && forall i | 0 <= i < |c.tasks| :: OfferRoom(c.tasks[i]) != Some(n.log[k].room)
  }

  lemma StepKeepsOwnRooms(n: Net, s: NetStep, p: Party)
    requires OfferInv(n) && Enabled(n, s) && p in n.clients
    ensures OwnRooms(Do(n, s), p)
  {
    assert OwnRooms(n, p);
    if s.Local? && s.party == p {
      StepProgress(n.clients[p], s.step);
      ProgressKeepsOffersOwed(n.clients[p], Next(n.clients[p], s.step));
      StepKeepsRingInv(n.clients[p], s.step);
      StepInitiates(n.clients[p], s.step);
    }
  }

  lemma StepInitiates(c: Client, s: Step)
    requires RingInv(c)
    ensures Next(c, s).initiated == if s.Initiate? then c.initiated + {s.room} else c.initiated
  {
    hide Next, RingInv;
    if s.Initiate? || s.RingTimeout? || (s.Deliver? && s.signal.body.Connect?) {
      PlainStepInitiates(c, s);
    } else {
      StepIsQuiet(c, s);
    }
  }

  lemma PlainStepInitiates(c: Client, s: Step)
    requires s.Initiate? || s.RingTimeout? || (s.Deliver? && s.signal.body.Connect?)
    ensures Next(c, s).initiated == if s.Initiate? then c.initiated + {s.room} else c.initiated
  {
  }

  lemma StepKeepsOffersSettled(n: Net, s: NetStep, k: nat)
    requires OfferInv(n) && Enabled(n, s)
    requires k < |Do(n, s).log| && Do(n, s).log[k].body.Offer? && Do(n, s).log[k].from in n.clients
    ensures OfferSettled(Do(n, s), k)
    ensures k >= |n.log| ==> forall l | 0 <= l < |n.log| && ByInsider(n, l) :: n.log[l].room != Do(n, s).log[k].room
  {
    hide Next, RingInv;
    if s.Local? {
      assert OwnRooms(n, s.party);
      var c := n.clients[s.party];
      StepProgress(c, s.step);
      if k < |n.log| {
        assert OfferSettled(n, k);
      } else {
        var i := s.step.task;
        assert OfferRoom(c.tasks[i]) == Some(Do(n, s).log[k].room);
        PublishedIsDone(c, i);
        forall l | 0 <= l < |n.log| && ByInsider(n, l) ensures n.log[l].room != Do(n, s).log[k].room {
          assert OfferSettled(n, l);
          assert OwnRooms(n, n.log[l].from);
          HandledAreOwned(n, n.log[l].from);
          HandledAreOwned(n, s.party);
        }
      }
    } else if k < |n.log| {
      assert OfferSettled(n, k);
    }
  }

  lemma HandledAreOwned(n: Net, p: Party)
    requires p in n.clients && OwnRooms(n, p)
    ensures forall r | r in n.clients[p].handled :: r in n.owner && n.owner[r] == p
  {
  }

  lemma PublishedIsDone(c: Client, i: TaskId)
    requires i < |c.tasks| && c.tasks[i].Publish?
    ensures Next(c, Resume(i)) == Goto(c, i, Done)
  {
  }

  lemma StepKeepsOfferInv(n: Net, s: NetStep)
    requires OfferInv(n) && Enabled(n, s)
    ensures OfferInv(Do(n, s))
  {
    hide OwnRooms, OfferSettled, Next;
    var n' := Do(n, s);
    forall p | p in n'.clients ensures OwnRooms(n', p) { StepKeepsOwnRooms(n, s, p); }
    forall k | 0 <= k < |n'.log| && ByInsider(n', k)
      ensures OfferSettled(n', k)
    {
      StepKeepsOffersSettled(n, s, k);
    }
    forall k, l | 0 <= k < l < |n'.log| && ByInsider(n', k) && ByInsider(n', l)
      ensures n'.log[k].room != n'.log[l].room
    {
      StepKeepsOffersSettled(n, s, l);
      assert n'.log[k] == n.log[k];
      if l < |n.log| { assert n'.log[l] == n.log[l]; }
      assert ByInsider(n, k);
    }
  }

  lemma {:induction false} TraceKeepsOfferInv(trace: seq<Net>, steps: seq<NetStep>)
    requires Trace(trace, steps)
    ensures forall k | 0 <= k < |trace| :: OfferInv(trace[k])
  {
    if steps != [] {
      var m := |steps| - 1;
      TraceKeepsOfferInv(trace[..m + 1], steps[..m]);
      assert trace[m] == trace[..m + 1][m] && OfferInv(trace[..m + 1][m]);
      assert Enabled(trace[m], steps[m]) && trace[m + 1] == Do(trace[m], steps[m]);
      StepKeepsOfferInv(trace[m], steps[m]);
      forall k | 0 <= k < |trace| ensures OfferInv(trace[k]) {
        if k <= m { assert trace[k] == trace[..m + 1][k]; } else { assert trace[k] == trace[m + 1]; }
      }
    }
  }

  /** However signals are dropped, repeated, reordered or forged by outsiders, the parties of the
      system publish at most one offer per room, and it comes from the party that opened it. */
  lemma AtMostOneOfferPerRoom(trace: seq<Net>, steps: seq<NetStep>, n: Net, k: nat, l: nat)
    requires Trace(trace, steps) && n in trace
    requires k < |n.log| && l < |n.log| && ByInsider(n, k) && ByInsider(n, l) && n.log[k].room == n.log[l].room
    ensures k == l && n.log[k].room in n.owner && n.owner[n.log[k].room] == n.log[k].from
  {
    TraceKeepsOfferInv(trace, steps);
    assert OfferInv(n);
    assert OfferSettled(n, k);
    assert OwnRooms(n, n.log[k].from);
    HandledAreOwned(n, n.log[k].from);
  }
}
