/** Runs of the whole network, with nobody but honest parties, in which two successive calls are mixed
    up. */
module CallScenarios {
  import opened Prelude
  import opened CallClient
  import opened CallNetwork
  import opened CallDescriptions
  import opened CallBuffer

  ghost predicate Reachable(n: Net) {
    exists trace, steps | Trace(trace, steps) :: trace[|steps|] == n
  }

  lemma StartIsReachable(n: Net)
    requires Start(n)
    ensures Reachable(n)
  {
    assert Trace([n], []);
  }

  lemma StepIsReachable(n: Net, s: NetStep)
    requires Reachable(n) && Enabled(n, s)
    ensures Reachable(Do(n, s))
  {
    hide Enabled, Do;
    var trace, steps :| Trace(trace, steps) && trace[|steps|] == n;
    var trace', steps' := trace + [Do(n, s)], steps + [s];
    forall k | 0 <= k < |steps'|
      ensures Enabled(trace'[k], steps'[k]) && trace'[k + 1] == Do(trace'[k], steps'[k])
    {
      if k < |steps| { StepOf(trace, steps, k); }
    }
    assert Trace(trace', steps');
  }

  /** The party `p`, in state `c`, takes a step; the others are as in `rest`. */
  lemma Take(rest: map<Party, Client>, log: seq<Signal>, owner: map<Room, Party>, p: Party, c: Client, s: Step)
    requires Reachable(Net(rest[p := c], log, owner))
    requires s.Deliver? ==> s.id < |log| && log[s.id] == s.signal && s.signal.to == p && s.signal.from != p
    requires s.Initiate? ==> s.room !in owner
    ensures Reachable(Net(rest[p := Next(c, s)], log + Sent(c, s), if s.Initiate? then owner[s.room := p] else owner))
  {
    hide Next, Sent, Reachable;
    var n := Net(rest[p := c], log, owner);
    StepIsReachable(n, Local(p, s));
    assert n.clients[p := Next(c, s)] == rest[p := Next(c, s)];
  }

  // ---------------------------------------------------------------- stretches of a call

  function Called(partner: Party, room: Room, state: CallState): Option<Call> {
    Some(Call(partner, room, Some(room), state, false))
  }

  /** The callee after accepting, with its connection open and its `connect` published. */
  function Accepted(me: Party, caller: Party, room: Room): Client {
    Idle(me).(call := Called(caller, room, Connecting), pcs := [Pc(room, caller, None, false)], active := Some(0),
              tasks := [Done])
  }

  lemma AcceptSteps(me: Party, caller: Party, room: Room)
    ensures var c := Next(Next(Next(Idle(me), Accept(caller, room)), Resume(0)), Resume(0));
            && Sent(Idle(me), Accept(caller, room)) == []
            && Sent(Next(Idle(me), Accept(caller, room)), Resume(0)) == []
            && Sent(Next(Next(Idle(me), Accept(caller, room)), Resume(0)), Resume(0)) == []
            && Sent(c, Resume(0)) == [Signal(Connect, room, me, caller)]
            && Next(c, Resume(0)) == Accepted(me, caller, room)
  {
    hide AddLoop, Flush, Teardown;
    var c1 := Next(Idle(me), Accept(caller, room));
    assert c1.tasks == [AnswerImport(caller, room)];
    var c2 := Next(c1, Resume(0));
    assert c2.tasks == [AnswerMedia(caller, room)];
    var c3 := Next(c2, Resume(0));
    assert c3.tasks == [Publish(Signal(Connect, room, me, caller))] && c3.pcs == [Pc(room, caller, None, false)];
    assert Next(c3, Resume(0)).tasks == [Done];
  }

  lemma Accepts(rest: map<Party, Client>, log: seq<Signal>, owner: map<Room, Party>, me: Party, caller: Party,
                room: Room)
    requires Reachable(Net(rest[me := Idle(me)], log, owner))
    ensures Reachable(Net(rest[me := Accepted(me, caller, room)], log + [Signal(Connect, room, me, caller)], owner))
  {
    hide Next, Sent, Reachable, Idle, Accepted;
    AcceptSteps(me, caller, room);
    assert log + [] == log;
    var c1 := Next(Idle(me), Accept(caller, room));
    var c2 := Next(c1, Resume(0));
    Take(rest, log, owner, me, Idle(me), Accept(caller, room));
    Take(rest, log, owner, me, c1, Resume(0));
    Take(rest, log, owner, me, c2, Resume(0));
    Take(rest, log, owner, me, Next(c2, Resume(0)), Resume(0));
  }

  /** The caller `c` after the `connect`, with its connection open and its offer published. */
  function Offered(c: Client, partner: Party, room: Room): Client {
    c.(call := Called(partner, room, Connecting), ring := None, handled := c.handled + {room},
       pcs := c.pcs + [Pc(room, partner, None, false)], active := Some(|c.pcs|), tasks := c.tasks + [Done])
  }

  predicate Rings(c: Client, partner: Party, room: Room) {
    c.call == Called(partner, room, Ringing) && c.active == None
  }

  lemma OfferSteps(c: Client, partner: Party, room: Room, id: SignalId)
    requires Rings(c, partner, room)
    ensures var i := |c.tasks|;
            var connect := Deliver(id, Signal(Connect, room, partner, c.me));
            var c1 := Next(c, connect);
            var c2 := Next(c1, Resume(i));
            var c3 := Next(c2, Resume(i));
            && Sent(c, connect) == [] && Sent(c1, Resume(i)) == [] && Sent(c2, Resume(i)) == []
            && Sent(c3, Resume(i)) == [Signal(Offer(true), room, c.me, partner)]
            && Next(c3, Resume(i)) == Offered(c, partner, room)
  {
    hide AddLoop, Flush, Teardown;
    var i := |c.tasks|;
    var c1 := Next(c, Deliver(id, Signal(Connect, room, partner, c.me)));
    assert c1.tasks == c.tasks + [CallerMedia(partner, room)] && c1.call == Called(partner, room, Connecting);
    var c2 := Next(c1, Resume(i));
    assert c2.tasks == c.tasks + [CallerOffer(partner, room)] && c2.pcs == c.pcs + [Pc(room, partner, None, false)];
    var c3 := Next(c2, Resume(i));
    assert c3.tasks == c.tasks + [Publish(Signal(Offer(true), room, c.me, partner))];
    assert Next(c3, Resume(i)).tasks == c.tasks + [Done];
  }

  lemma Offers(rest: map<Party, Client>, log: seq<Signal>, owner: map<Room, Party>, c: Client, partner: Party,
               room: Room, id: SignalId)
    requires Reachable(Net(rest[c.me := c], log, owner)) && Rings(c, partner, room) && partner != c.me
    requires id < |log| && log[id] == Signal(Connect, room, partner, c.me)
    ensures Reachable(Net(rest[c.me := Offered(c, partner, room)],
                          log + [Signal(Offer(true), room, c.me, partner)], owner))
  {
    hide Next, Sent, Reachable, Rings, Offered;
    OfferSteps(c, partner, room, id);
    assert log + [] == log;
    var i := |c.tasks|;
    var c1 := Next(c, Deliver(id, log[id]));
    var c2 := Next(c1, Resume(i));
    Take(rest, log, owner, c.me, c, Deliver(id, log[id]));
    Take(rest, log, owner, c.me, c1, Resume(i));
    Take(rest, log, owner, c.me, c2, Resume(i));
    Take(rest, log, owner, c.me, Next(c2, Resume(i)), Resume(i));
  }

  /** The callee after it was given the offer and published its answer. */
  function Answered(me: Party, caller: Party, room: Room, offer: SignalId): Client {
    Accepted(me, caller, room).(pcs := [Pc(room, caller, Some(offer), false)], tasks := [Done, Done])
  }

  lemma AnswerSteps(me: Party, caller: Party, room: Room, id: SignalId)
    ensures var offer := Deliver(id, Signal(Offer(true), room, caller, me));
            var c0 := Accepted(me, caller, room);
            var c1 := Next(c0, offer);
            var c2 := Next(c1, Resume(1));
            var c3 := Next(c2, Resume(1));
            var c4 := Next(c3, Resume(1));
            && Sent(c0, offer) == [] && Sent(c1, Resume(1)) == []
            && Sent(c2, Resume(1)) == [] && Sent(c3, Resume(1)) == []
            && Sent(c4, Resume(1)) == [Signal(Answer(true, id), room, me, caller)]
            && Next(c4, Resume(1)) == Answered(me, caller, room, id)
  {
    hide AddLoop, Teardown, CreatePc;
    var reply := Reply(room, caller);
    var c1 := Next(Accepted(me, caller, room), Deliver(id, Signal(Offer(true), room, caller, me)));
    assert c1.tasks == [Done, SetRemote(0, id, Some(reply))];
    var c2 := Next(c1, Resume(1));
    assert c2.tasks == [Done, FlushOwed(0, Some(reply))] && c2.pcs == [Pc(room, caller, Some(id), false)];
    var c3 := Next(c2, Resume(1));
    assert c3.tasks == [Done, Answering(0, reply)];
    var c4 := Next(c3, Resume(1));
    assert c4.tasks == [Done, Publish(Signal(Answer(true, id), room, me, caller))];
    assert Next(c4, Resume(1)).tasks == [Done, Done];
  }

  lemma Answers(rest: map<Party, Client>, log: seq<Signal>, owner: map<Room, Party>, me: Party, caller: Party,
                room: Room, id: SignalId)
    requires Reachable(Net(rest[me := Accepted(me, caller, room)], log, owner)) && me != caller
    requires id < |log| && log[id] == Signal(Offer(true), room, caller, me)
    ensures Reachable(Net(rest[me := Answered(me, caller, room, id)],
                          log + [Signal(Answer(true, id), room, me, caller)], owner))
  {
    hide Next, Sent, Reachable, Accepted, Answered;
    AnswerSteps(me, caller, room, id);
    assert log + [] == log;
    var c0 := Accepted(me, caller, room);
    var c1 := Next(c0, Deliver(id, log[id]));
    var c2 := Next(c1, Resume(1));
    var c3 := Next(c2, Resume(1));
    Take(rest, log, owner, me, c0, Deliver(id, log[id]));
    Take(rest, log, owner, me, c1, Resume(1));
    Take(rest, log, owner, me, c2, Resume(1));
    Take(rest, log, owner, me, c3, Resume(1));
    Take(rest, log, owner, me, Next(c3, Resume(1)), Resume(1));
  }

  /** The second call up to its answer: `c` rings `b`, who has not been called yet. */
  lemma SecondCallAnswered(rest: map<Party, Client>, log: seq<Signal>, owner: map<Room, Party>, c: Client, b: Party,
                           room: Room)
    requires b != c.me && Rings(c, b, room) && Reachable(Net(rest[c.me := c][b := Idle(b)], log, owner))
    ensures Reachable(Net(rest[c.me := Offered(c, b, room)][b := Answered(b, c.me, room, |log| + 1)],
                          log + [Signal(Connect, room, b, c.me), Signal(Offer(true), room, c.me, b),
                                 Signal(Answer(true, |log| + 1), room, b, c.me)], owner))
  {
    hide Reachable, Rings, Offered, Accepted, Answered, Idle;
    var connect, offer := Signal(Connect, room, b, c.me), Signal(Offer(true), room, c.me, b);
    Accepts(rest[c.me := c], log, owner, b, c.me, room);
    assert rest[c.me := c][b := Accepted(b, c.me, room)] == rest[b := Accepted(b, c.me, room)][c.me := c];
    Offers(rest[b := Accepted(b, c.me, room)], log + [connect], owner, c, b, room, |log|);
    var d := Offered(c, b, room);
    assert rest[b := Accepted(b, c.me, room)][c.me := d] == rest[c.me := d][b := Accepted(b, c.me, room)];
    Answers(rest[c.me := d], log + [connect] + [offer], owner, b, c.me, room, |log| + 1);
    assert log + [connect] + [offer] + [Signal(Answer(true, |log| + 1), room, b, c.me)]
        == log + [connect, offer, Signal(Answer(true, |log| + 1), room, b, c.me)];
  }

  // ---------------------------------------------------------------- a stale set-up

  function Three(me: Party, a: Party, b: Party): map<Party, Client> {
    map[me := Idle(me), a := Idle(a), b := Idle(b)]
  }

  function Calling(me: Party, partner: Party, room: Room): Client {
    Idle(me).(call := Called(partner, room, Ringing), initiated := {room}, tasks := [ArmRing(room)])
  }

  lemma FirstCallAccepted(me: Party, a: Party, b: Party, r: Room)
    requires me != a && me != b && a != b
    ensures Reachable(Net(map[b := Idle(b)][a := Accepted(a, me, r)][me := Calling(me, a, r)],
                          [Signal(Connect, r, a, me)], map[r := me]))
  {
    hide Reachable, Accepted, Idle, Next;
    StartIsReachable(Net(Three(me, a, b), [], map[]));
    assert Three(me, a, b) == map[a := Idle(a), b := Idle(b)][me := Idle(me)];
    CallingIs(me, a, r);
    Take(map[a := Idle(a), b := Idle(b)], [], map[], me, Idle(me), Initiate(a, r));
    assert map[a := Idle(a), b := Idle(b)][me := Calling(me, a, r)]
        == map[b := Idle(b), me := Calling(me, a, r)][a := Idle(a)];
    var empty: seq<Signal> := [];
    assert empty + [] == [] && map[][r := me] == map[r := me];
    Accepts(map[b := Idle(b), me := Calling(me, a, r)], [], map[r := me], a, me, r);
    assert map[b := Idle(b), me := Calling(me, a, r)][a := Accepted(a, me, r)]
        == map[b := Idle(b)][a := Accepted(a, me, r)][me := Calling(me, a, r)];
    assert [] + [Signal(Connect, r, a, me)] == [Signal(Connect, r, a, me)];
  }

  lemma CallingIs(me: Party, a: Party, r: Room)
    ensures Next(Idle(me), Initiate(a, r)) == Calling(me, a, r) && Sent(Idle(me), Initiate(a, r)) == []
    ensures Start(Net(map[], [], map[]))
  {
  }

  /** The caller whose media for the first call are still awaited when the callee hangs up, and who then
      calls somebody else. */
  function HungUpOn(me: Party, a: Party, r: Room): Client {
    Idle(me).(history := [Ending(Call(a, r, Some(r), Connecting, false), Completed)], initiated := {r}, handled := {r},
              tasks := [ArmRing(r), CallerMedia(a, r), Done])
  }

  function Connected(me: Party, a: Party, r: Room): Client {
    Idle(me).(call := Called(a, r, Connecting), initiated := {r}, handled := {r},
              tasks := [ArmRing(r), CallerMedia(a, r)])
  }

  lemma ConnectedIs(me: Party, a: Party, r: Room)
    ensures Next(Calling(me, a, r), Deliver(0, Signal(Connect, r, a, me))) == Connected(me, a, r)
  {
    hide AddLoop, Flush, CreatePc, Teardown;
    assert [ArmRing(r)] + [CallerMedia(a, r)] == [ArmRing(r), CallerMedia(a, r)];
  }

  lemma HungUpSteps(me: Party, a: Party, r: Room)
    ensures var c := Next(Calling(me, a, r), Deliver(0, Signal(Connect, r, a, me)));
            && Next(c, Deliver(1, Signal(Disconnect, r, a, me))) == HungUpOn(me, a, r)
  {
    hide AddLoop, Flush, CreatePc, Calling;
    ConnectedIs(me, a, r);
    assert Connected(me, a, r).tasks + [Done] == [ArmRing(r), CallerMedia(a, r), Done];
    assert ([ArmRing(r), CallerMedia(a, r), Done])[2 := Done] == [ArmRing(r), CallerMedia(a, r), Done];
  }

  function HangingUpOn(a: Party, me: Party, r: Room): Client {
    Accepted(a, me, r).(tasks := [Done, HangupSent(Call(me, r, Some(r), Connecting, false))])
  }

  lemma HangingUpSteps(a: Party, me: Party, r: Room)
    ensures var c := Next(Accepted(a, me, r), Hangup);
            && Sent(Accepted(a, me, r), Hangup) == []
            && Sent(c, Resume(1)) == [Signal(Disconnect, r, a, me)] && Next(c, Resume(1)) == HangingUpOn(a, me, r)
  {
    var c := Next(Accepted(a, me, r), Hangup);
    assert c.tasks == [Done, HangupNotify(Call(me, r, Some(r), Connecting, false))];
    assert Next(c, Resume(1)).tasks == [Done, HangupSent(Call(me, r, Some(r), Connecting, false))];
  }

  lemma FirstCallHungUp(me: Party, a: Party, b: Party, r: Room)
    requires me != a && me != b && a != b
    ensures Reachable(Net(map[b := Idle(b)][a := HangingUpOn(a, me, r)][me := HungUpOn(me, a, r)],
                          [Signal(Connect, r, a, me), Signal(Disconnect, r, a, me)], map[r := me]))
  {
    hide Reachable, Accepted, Idle, Next, Calling, HungUpOn, HangingUpOn, Sent;
    var log, owner := [Signal(Connect, r, a, me)], map[r := me];
    FirstCallAccepted(me, a, b, r);
    assert log + [] == log;
    Take(map[b := Idle(b)][a := Accepted(a, me, r)], log, owner, me, Calling(me, a, r), Deliver(0, log[0]));
    DeliveringSends(Calling(me, a, r), 0, log[0]);
    var c := Next(Calling(me, a, r), Deliver(0, log[0]));
    assert map[b := Idle(b)][a := Accepted(a, me, r)][me := c] == map[b := Idle(b), me := c][a := Accepted(a, me, r)];
    HangingUpSteps(a, me, r);
    Take(map[b := Idle(b), me := c], log, owner, a, Accepted(a, me, r), Hangup);
    Take(map[b := Idle(b), me := c], log, owner, a, Next(Accepted(a, me, r), Hangup), Resume(1));
    var log' := log + [Signal(Disconnect, r, a, me)];
    assert map[b := Idle(b), me := c][a := HangingUpOn(a, me, r)]
        == map[b := Idle(b)][a := HangingUpOn(a, me, r)][me := c];
    Take(map[b := Idle(b)][a := HangingUpOn(a, me, r)], log', owner, me, c, Deliver(1, log'[1]));
    DeliveringSends(c, 1, log'[1]);
    assert log' + [] == log' == [Signal(Connect, r, a, me), Signal(Disconnect, r, a, me)];
    HungUpSteps(me, a, r);
  }

  lemma DeliveringSends(c: Client, id: SignalId, s: Signal)
    ensures Sent(c, Deliver(id, s)) == []
  {
  }

  /** Then calls somebody else. */
  function CallingAnother(me: Party, a: Party, r: Room, b: Party, s: Room): Client {
    HungUpOn(me, a, r).(call := Called(b, s, Ringing), initiated := {r, s},
                        tasks := [ArmRing(r), CallerMedia(a, r), Done, ArmRing(s)])
  }

  lemma CallingAnotherIs(me: Party, a: Party, r: Room, b: Party, s: Room)
    ensures Next(HungUpOn(me, a, r), Initiate(b, s)) == CallingAnother(me, a, r, b, s)
    ensures Sent(HungUpOn(me, a, r), Initiate(b, s)) == [] && Rings(CallingAnother(me, a, r, b, s), b, s)
    ensures CallingAnother(me, a, r, b, s).me == me
  {
    assert HungUpOn(me, a, r).tasks + [ArmRing(s)] == [ArmRing(r), CallerMedia(a, r), Done, ArmRing(s)];
  }

  /** The set-up of the first call goes on, and the second call's answer arrives. */
  lemma StaleSetupSteps(me: Party, a: Party, r: Room, b: Party, s: Room)
    ensures var c := Offered(CallingAnother(me, a, r, b, s), b, s);
            var d := Next(c, Resume(1));
            var e := Next(d, Deliver(4, Signal(Answer(true, 3), s, b, me)));
            && Sent(c, Resume(1)) == [] && Sent(e, Resume(5)) == []
            && Next(e, Resume(5)).pcs == [Pc(s, b, None, true), Pc(r, a, Some(4), false)]
            && Next(e, Resume(5)).call == Called(b, s, Connecting) && Next(e, Resume(5)).active == Some(1)
  {
    hide AddLoop, Flush, Teardown;
    var c := Offered(CallingAnother(me, a, r, b, s), b, s);
    assert c.tasks == [ArmRing(r), CallerMedia(a, r), Done, ArmRing(s), Done] && c.pcs == [Pc(s, b, None, false)];
    var d := Next(c, Resume(1));
    assert d.tasks == [ArmRing(r), CallerOffer(a, r), Done, ArmRing(s), Done];
    assert d.pcs == [Pc(s, b, None, true), Pc(r, a, None, false)];
    var e := Next(d, Deliver(4, Signal(Answer(true, 3), s, b, me)));
    assert e.tasks == [ArmRing(r), CallerOffer(a, r), Done, ArmRing(s), Done, SetRemote(1, 4, None)];
  }

  /** The network comes into a state in which the connection of the first call is open in the second, and
      holds a description that does not match. */
  ghost predicate MixedUp(me: Party, a: Party, b: Party, r: Room, s: Room) {
    exists n | Reachable(n) ::
      && n.clients.Keys == {me, a, b}
      && n.clients[me].call == Called(b, s, Connecting) && n.clients[me].active == Some(1)
      && n.clients[me].pcs == [Pc(s, b, None, true), Pc(r, a, Some(4), false)]
      && !Matches(n, me, n.clients[me].pcs[1], 4)
  }

  lemma OtherRoom(n: Net, me: Party, pc: Pc, j: SignalId)
    requires j < |n.log| && n.log[j].room != pc.room
    ensures !Matches(n, me, pc, j)
  {
  }

  /** What the code does without the care that `KeepsApart` asks for: a callee hangs up while the caller
      waits for its media; the caller calls somebody else; the first call's set-up then goes on, replaces
      the second call's connection, and is given the second call's answer. */
  lemma StaleSetupMixesCalls(me: Party, a: Party, b: Party, r: Room, s: Room)
    requires me != a && me != b && a != b && r != s
    ensures MixedUp(me, a, b, r, s)
  {
    hide Reachable, Accepted, Idle, Next, HungUpOn, HangingUpOn, CallingAnother, Offered, Answered, Rings;
    var log, owner := [Signal(Connect, r, a, me), Signal(Disconnect, r, a, me)], map[r := me];
    FirstCallHungUp(me, a, b, r);
    CallingAnotherIs(me, a, r, b, s);
    Take(map[b := Idle(b)][a := HangingUpOn(a, me, r)], log, owner, me, HungUpOn(me, a, r), Initiate(b, s));
    assert log + [] == log;
    var c := CallingAnother(me, a, r, b, s);
    assert map[b := Idle(b)][a := HangingUpOn(a, me, r)][me := c]
        == map[a := HangingUpOn(a, me, r)][me := c][b := Idle(b)];
    SecondCallAnswered(map[a := HangingUpOn(a, me, r)], log, owner[s := me], c, b, s);
    StaleSetupAnswered(me, a, b, r, s);
  }

  lemma StaleSetupAnswered(me: Party, a: Party, b: Party, r: Room, s: Room)
    requires me != a && me != b && a != b && r != s
    requires var log := [Signal(Connect, r, a, me), Signal(Disconnect, r, a, me)];
             Reachable(Net(map[a := HangingUpOn(a, me, r)][me := Offered(CallingAnother(me, a, r, b, s), b, s)]
                              [b := Answered(b, me, s, 3)],
                           log + [Signal(Connect, s, b, me), Signal(Offer(true), s, me, b),
                                  Signal(Answer(true, 3), s, b, me)], map[r := me][s := me]))
    ensures MixedUp(me, a, b, r, s)
  {
    hide Reachable, Accepted, Idle, Next, HangingUpOn, CallingAnother, Offered, Answered, Matches;
    var log, owner := [Signal(Connect, r, a, me), Signal(Disconnect, r, a, me)], map[r := me][s := me];
    var d := Offered(CallingAnother(me, a, r, b, s), b, s);
    var log' := log + [Signal(Connect, s, b, me), Signal(Offer(true), s, me, b), Signal(Answer(true, 3), s, b, me)];
    StaleSetupSteps(me, a, r, b, s);
    var rest := map[a := HangingUpOn(a, me, r), b := Answered(b, me, s, 3)];
    assert map[a := HangingUpOn(a, me, r)][me := d][b := Answered(b, me, s, 3)] == rest[me := d];
    assert log' + [] == log';
    Take(rest, log', owner, me, d, Resume(1));
    var e := Next(d, Resume(1));
    Take(rest, log', owner, me, e, Deliver(4, log'[4]));
    DeliveringSends(e, 4, log'[4]);
    Take(rest, log', owner, me, Next(e, Deliver(4, log'[4])), Resume(5));
    var n := Net(rest[me := Next(Next(e, Deliver(4, log'[4])), Resume(5))], log', owner);
    OtherRoom(n, me, n.clients[me].pcs[1], 4);
    assert Reachable(n);
  }

  // ---------------------------------------------------------------- a buffer that was left behind

  /** The caller whose first call rang out with one of the callee's candidates buffered, and who then
      calls somebody else. */
  function CallingWithLeftover(me: Party, a: Party, r: Room, b: Party, s: Room, line: string): Client {
    var x := Candidate(0, r, line);
    Idle(me).(call := Called(b, s, Ringing), history := [Ending(Call(a, r, Some(r), Ringing, false), Missed)],
              pending := [x], received := [x], initiated := {r, s}, tasks := [Done, Done, ArmRing(s)])
  }

  lemma LeftoverSteps(me: Party, a: Party, r: Room, b: Party, s: Room, line: string)
    ensures var c0 := Calling(me, a, r);
            var c1 := Next(c0, Resume(0));
            var c2 := Next(c1, Deliver(1, Signal(Candidates(Some([line])), r, a, me)));
            var c3 := Next(c2, RingTimeout);
            && Sent(c0, Resume(0)) == [] && Sent(c2, RingTimeout) == [] && Sent(c3, Initiate(b, s)) == []
            && Next(c3, Initiate(b, s)) == CallingWithLeftover(me, a, r, b, s, line)
            && Rings(CallingWithLeftover(me, a, r, b, s, line), b, s)
            && CallingWithLeftover(me, a, r, b, s, line).me == me
  {
    hide Flush, Teardown, CreatePc;
    var c1 := Next(Calling(me, a, r), Resume(0));
    assert c1.tasks == [Done] && c1.ring == Some(r) && c1.call == Called(a, r, Ringing);
    var c2 := Next(c1, Deliver(1, Signal(Candidates(Some([line])), r, a, me)));
    OneBuffered(Spawn(c1.(received := [Candidate(0, r, line)]), Done), 1, None, Candidate(0, r, line));
    assert Number(0, r, [line]) == [Candidate(0, r, line)];
    assert c1.received + Number(0, r, [line]) == [Candidate(0, r, line)];
    assert c2.tasks == [Done, Done] && c2.pending == [Candidate(0, r, line)];
    var c4 := Next(Next(c2, RingTimeout), Initiate(b, s));
    assert c4.tasks == [Done, Done, ArmRing(s)];
    assert {r} + {s} == {r, s};
  }

  lemma OneBuffered(c: Client, i: TaskId, pc: Option<PcId>, x: Candidate)
    requires pc.None?
    ensures AddLoop(c, i, pc, [x]) == Goto(c.(pending := c.pending + [x]), i, Done)
  {
    assert [x][1..] == [];
  }

  /** The answer to the second call has arrived, and its flush is owed. */
  function OwingFlush(me: Party, a: Party, r: Room, b: Party, s: Room, line: string): Client {
    Offered(CallingWithLeftover(me, a, r, b, s, line), b, s).(
      pcs := [Pc(s, b, Some(4), false)], tasks := [Done, Done, ArmRing(s), Done, FlushOwed(0, None)])
  }

  lemma OwingFlushSteps(me: Party, a: Party, r: Room, b: Party, s: Room, line: string)
    ensures var c := Offered(CallingWithLeftover(me, a, r, b, s, line), b, s);
            var d := Next(c, Deliver(4, Signal(Answer(true, 3), s, b, me)));
            Sent(d, Resume(4)) == [] && Next(d, Resume(4)) == OwingFlush(me, a, r, b, s, line)
  {
    hide AddLoop, Teardown, CreatePc, Flush;
    var c := Offered(CallingWithLeftover(me, a, r, b, s, line), b, s);
    assert c.tasks == [Done, Done, ArmRing(s), Done] && c.pcs == [Pc(s, b, None, false)];
    var d := Next(c, Deliver(4, Signal(Answer(true, 3), s, b, me)));
    assert d.tasks == [Done, Done, ArmRing(s), Done, SetRemote(0, 4, None)];
    assert d.pcs == [Pc(s, b, None, false)];
    assert Next(d, Resume(4)).tasks == [Done, Done, ArmRing(s), Done, FlushOwed(0, None)];
    assert Next(d, Resume(4)).pcs == [Pc(s, b, Some(4), false)];
  }

  lemma LeftoverFlushSteps(me: Party, a: Party, r: Room, b: Party, s: Room, line: string)
    ensures var e := OwingFlush(me, a, r, b, s, line);
            && Sent(e, Resume(4)) == []
            && Next(e, Resume(4)).applied == [Applied(0, Candidate(0, r, line))]
            && Next(e, Resume(4)).pcs == [Pc(s, b, Some(4), false)]
  {
    hide AddLoop, Teardown, CreatePc;
  }

  /** The network comes into a state in which a candidate of the first call was given to the second's
      connection. */
  ghost predicate AppliedAstray(me: Party, a: Party, b: Party, r: Room, s: Room, line: string) {
    exists n | Reachable(n) ::
      && n.clients.Keys == {me, a, b}
      && n.clients[me].applied == [Applied(0, Candidate(0, r, line))]
      && n.clients[me].pcs == [Pc(s, b, Some(4), false)]
      && !AppliedOwn(n.clients[me])
  }

  /** What the code does without the care that `BufferFits` asks for: a candidate of the first call stays
      in the buffer when that call rings out, and is applied to the second call's connection. */
  lemma LeftoverCandidateIsApplied(me: Party, a: Party, b: Party, r: Room, s: Room, line: string)
    requires me != a && me != b && a != b && r != s
    ensures AppliedAstray(me, a, b, r, s, line)
  {
    hide Reachable, Accepted, Idle, Next, Calling, CallingWithLeftover, Offered, Answered, Rings;
    FirstCallAccepted(me, a, b, r);
    LeftoverSteps(me, a, r, b, s, line);
    var x := Signal(Candidates(Some([line])), r, a, me);
    var log, owner := [Signal(Connect, r, a, me), x], map[r := me];
    CandidatePublished(me, a, b, r, line);
    var rest := map[b := Idle(b)][a := Accepted(a, me, r)];
    assert log + [] == log;
    var c0 := Calling(me, a, r);
    Take(rest, log, owner, me, c0, Resume(0));
    var c1 := Next(c0, Resume(0));
    Take(rest, log, owner, me, c1, Deliver(1, x));
    DeliveringSends(c1, 1, x);
    var c2 := Next(c1, Deliver(1, x));
    Take(rest, log, owner, me, c2, RingTimeout);
    Take(rest, log, owner, me, Next(c2, RingTimeout), Initiate(b, s));
    var c := CallingWithLeftover(me, a, r, b, s, line);
    assert rest[me := c] == map[a := Accepted(a, me, r)][me := c][b := Idle(b)];
    SecondCallAnswered(map[a := Accepted(a, me, r)], log, owner[s := me], c, b, s);
    LeftoverApplied(me, a, b, r, s, line, log, owner[s := me]);
  }

  lemma CandidatePublished(me: Party, a: Party, b: Party, r: Room, line: string)
    requires me != a && me != b && a != b
    requires Reachable(Net(map[b := Idle(b)][a := Accepted(a, me, r)][me := Calling(me, a, r)],
                           [Signal(Connect, r, a, me)], map[r := me]))
    ensures Reachable(Net(map[b := Idle(b)][a := Accepted(a, me, r)][me := Calling(me, a, r)],
                          [Signal(Connect, r, a, me), Signal(Candidates(Some([line])), r, a, me)], map[r := me]))
  {
    hide Reachable, Idle, Calling, Accepted, Next, Sent;
    GatheredSends(a, me, r, line);
    var rest := map[b := Idle(b), me := Calling(me, a, r)];
    assert map[b := Idle(b)][a := Accepted(a, me, r)][me := Calling(me, a, r)] == rest[a := Accepted(a, me, r)];
    Take(rest, [Signal(Connect, r, a, me)], map[r := me], a, Accepted(a, me, r), Gathered(0, line));
    assert [Signal(Connect, r, a, me)] + [Signal(Candidates(Some([line])), r, a, me)]
        == [Signal(Connect, r, a, me), Signal(Candidates(Some([line])), r, a, me)];
  }

  lemma GatheredSends(a: Party, me: Party, r: Room, line: string)
    ensures Sent(Accepted(a, me, r), Gathered(0, line)) == [Signal(Candidates(Some([line])), r, a, me)]
    ensures Next(Accepted(a, me, r), Gathered(0, line)) == Accepted(a, me, r)
  {
  }

  lemma AppliedElsewhere(c: Client, s: Room)
    requires |c.applied| == 1 && c.applied[0].pc == 0 && c.applied[0].candidate.room != s
    requires |c.pcs| == 1 && c.pcs[0].room == s
    ensures !AppliedOwn(c)
  {
  }

  lemma LeftoverApplied(me: Party, a: Party, b: Party, r: Room, s: Room, line: string, log: seq<Signal>,
                        owner: map<Room, Party>)
    requires me != a && me != b && a != b && r != s && |log| == 2
    requires var c := Offered(CallingWithLeftover(me, a, r, b, s, line), b, s);
             Reachable(Net(map[a := Accepted(a, me, r)][me := c][b := Answered(b, me, s, 3)],
                           log + [Signal(Connect, s, b, me), Signal(Offer(true), s, me, b),
                                  Signal(Answer(true, 3), s, b, me)], owner))
    ensures AppliedAstray(me, a, b, r, s, line)
  {
    hide Reachable, Accepted, Idle, Next, CallingWithLeftover, Offered, Answered, OwingFlush;
    var c := Offered(CallingWithLeftover(me, a, r, b, s, line), b, s);
    var log' := log + [Signal(Connect, s, b, me), Signal(Offer(true), s, me, b), Signal(Answer(true, 3), s, b, me)];
    var rest := map[a := Accepted(a, me, r), b := Answered(b, me, s, 3)];
    assert map[a := Accepted(a, me, r)][me := c][b := Answered(b, me, s, 3)] == rest[me := c];
    assert log' + [] == log';
    OwingFlushSteps(me, a, r, b, s, line);
    LeftoverFlushSteps(me, a, r, b, s, line);
    Take(rest, log', owner, me, c, Deliver(4, log'[4]));
    DeliveringSends(c, 4, log'[4]);
    var d := Next(c, Deliver(4, log'[4]));
    Take(rest, log', owner, me, d, Resume(4));
    var e := Next(d, Resume(4));
    Take(rest, log', owner, me, e, Resume(4));
    var n := Net(rest[me := Next(e, Resume(4))], log', owner);
    AppliedElsewhere(n.clients[me], s);
    assert n.clients.Keys == {me, a, b};
    assert n.clients[me].applied == [Applied(0, Candidate(0, r, line))];
    assert n.clients[me].pcs == [Pc(s, b, Some(4), false)];
    assert !AppliedOwn(n.clients[me]);
    assert Reachable(n);
  }
}
