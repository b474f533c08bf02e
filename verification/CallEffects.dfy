/** What single steps of a call do, field by field, and that no connection is left open behind a call. */
module CallEffects {
  import opened Prelude
  import opened CallClient
  import opened CallRinging

  // ---------------------------------------------------------------- hanging up

  /** Without a call there is nothing to hang up; with one, the timer is stopped and the peer is to be told. */
  lemma HangupBegins(c: Client)
    ensures c.call.None? ==> Next(c, Hangup) == c
    ensures c.call.Some? ==>
              Next(c, Hangup) == c.(ring := None, tasks := c.tasks + [HangupNotify(c.call.value)])
  {
  }

  /** The peer is told in the call's room, and nothing else has happened yet. */
  lemma HangupTellsThePeer(c: Client, i: TaskId)
    requires i < |c.tasks| && c.tasks[i].HangupNotify?
    ensures var call := c.tasks[i].call;
            && Next(c, Resume(i)) == c.(tasks := c.tasks[i := HangupSent(call)])
            && Sent(c, Resume(i)) == (if call.room.None? then []
                                      else [Signal(Disconnect, call.room.value, c.me, call.partner)])
  {
  }

  /** The connection that was open is closed and none is open, the others are as they were, and what was
      buffered is thrown away. */
  ghost predicate TornDown(c: Client, c': Client) {
    && c'.active == None && c'.pending == [] && c'.discarded == c.discarded + c.pending
    && |c'.pcs| == |c.pcs|
    && (forall p: PcId | p < |c.pcs| ::
          c'.pcs[p] == if c.active == Some(p) then c.pcs[p].(closed := true) else c.pcs[p])
    && c'.me == c.me && c'.initiated == c.initiated && c'.handled == c.handled
    && c'.received == c.received && c'.applied == c.applied
  }

  /** The active call has ended as `outcome` says, if there was one. */
  ghost predicate EndedAs(c: Client, c': Client, outcome: Outcome) {
    && c'.call == None
    && c'.history == (if c.call.None? then [] else [Ending(c.call.value, outcome)]) + c.history
  }

  /** Once the peer was told: the connection is closed and the call ended, or, if it had fallen back to the
      voice server, that is to be left first. */
  lemma HangupClosesTheConnection(c: Client, i: TaskId)
    requires i < |c.tasks| && c.tasks[i].HangupSent?
    ensures var call := c.tasks[i].call; var c' := Next(c, Resume(i));
            && TornDown(c, c') && c'.ring == c.ring
            && c'.tasks == c.tasks[i := if call.sfu then HangupSfu(call) else Done]
            && (if call.sfu then c'.call == c.call && c'.history == c.history else EndedAs(c, c', Completed))
  {
  }

  lemma VoiceServerLeft(c: Client, i: TaskId)
    requires i < |c.tasks| && c.tasks[i].HangupSfu?
    ensures var c' := Next(c, Resume(i));
            EndedAs(c, c', Completed) && c' == c.(call := None, history := c'.history, tasks := c.tasks[i := Done])
  {
  }

  /** The partner's own hangup does all of that at once, and tells nobody. */
  lemma PeerHangupClosesTheConnection(c: Client, id: SignalId, s: Signal)
    requires s.body.Disconnect? && c.call.Some? && c.call.value.room == Some(s.room) && c.call.value.partner == s.from
    ensures var call := c.call.value; var c' := Next(c, Deliver(id, s));
            && TornDown(c, c') && c'.ring == None && Sent(c, Deliver(id, s)) == []
            && c'.tasks == c.tasks + [if call.sfu then HangupSfu(call) else Done]
            && (if call.sfu then c'.call == c.call && c'.history == c.history else EndedAs(c, c', Completed))
  {
    assert (c.tasks + [Done])[|c.tasks| := Done] == c.tasks + [Done];
    assert (c.tasks + [Done])[|c.tasks| := HangupSfu(c.call.value)] == c.tasks + [HangupSfu(c.call.value)];
  }

  // ---------------------------------------------------------------- falling back to the voice server

  /** A failed connection is closed and the fallback begun, unless there is no call or it is already on
      the voice server. */
  lemma FailureStartsTheFallback(c: Client, room: Room)
    ensures c.call.None? || c.call.value.sfu ==> Next(c, IceFailed(room)) == c
    ensures c.call.Some? && !c.call.value.sfu ==>
              var c' := Next(c, IceFailed(room));
              && TornDown(c, c') && c'.call == c.call && c'.history == c.history && c'.ring == c.ring
              && c'.tasks == c.tasks + [Fallback(room)]
  {
  }

  /** With the server joined, local media are published only if the call is still that one; then the call is
      marked as on the server and active. */
  lemma FallbackGoesOn(c: Client, i: TaskId)
    requires i < |c.tasks|
    ensures c.tasks[i].Fallback? ==>
              var room := c.tasks[i].room;
              var still := c.call.Some? && c.call.value.room == Some(room);
              Next(c, Resume(i)) == c.(tasks := c.tasks[i := if still then FallbackMedia(room) else Done])
    ensures c.tasks[i].FallbackMedia? ==>
              var d := c.(tasks := c.tasks[i := Done]);
              Next(c, Resume(i)) ==
              if c.call.None? then d else d.(call := Some(c.call.value.(sfu := true, state := Active)))
  {
  }

  lemma ConnectedIsActive(c: Client)
    ensures Next(c, IceConnected) ==
            if c.call.None? then c else c.(call := Some(c.call.value.(state := Active)))
  {
  }

  // ---------------------------------------------------------------- rejected operations

  /** A rejection that the program catches changes nothing; a failed fallback ends the call it was for, if
      that is still active, as failed; any other rejection ends its handler and changes nothing else. */
  lemma RejectionEndsItsHandler(c: Client, i: TaskId)
    requires i < |c.tasks|
    ensures var t := c.tasks[i]; var c' := Next(c, Fail(i)); var d := c.(tasks := c.tasks[i := Done]);
            if t.FlushOwed? || t.Flushing? || t.Adding? || t.HangupNotify? || t.HangupSent? || t.Done? then c' == c
            else if (t.Fallback? || t.FallbackMedia?) && c.call.Some? && c.call.value.room == Some(t.room) then
              EndedAs(c, c', Failed) && c' == d.(call := None, history := c'.history)
            else c' == d
  {
  }

  // ---------------------------------------------------------------- incoming signals

  /** A signal from anyone but the partner, or for another room than the active call's, changes nothing. */
  lemma OthersAreNotHeard(c: Client, id: SignalId, s: Signal)
    requires c.call.None? || c.call.value.room != Some(s.room) || c.call.value.partner != s.from
    ensures Next(c, Deliver(id, s)) == c
  {
  }

  /** The partner's `connect` stops the timer and starts the caller's set-up, if the call rings and no
      connection is open; an offer or answer goes to the open connection, if there is one; what comes without
      its data changes nothing. */
  lemma PartnerIsHeard(c: Client, id: SignalId, s: Signal)
    requires c.call.Some? && c.call.value.room == Some(s.room) && c.call.value.partner == s.from
    ensures s.body.Connect? ==>
              Next(c, Deliver(id, s)) ==
              if c.call.value.state != Ringing || c.active.Some? then c
              else c.(ring := None, handled := c.handled + {s.room},
                      call := Some(c.call.value.(state := Connecting)),
                      tasks := c.tasks + [CallerMedia(s.from, s.room)])
    ensures s.body.Offer? ==>
              Next(c, Deliver(id, s)) ==
              if c.active.None? || !s.body.present then c
              else c.(tasks := c.tasks + [SetRemote(c.active.value, id, Some(Reply(s.room, s.from)))])
    ensures s.body.Answer? ==>
              Next(c, Deliver(id, s)) ==
              if c.active.None? || !s.body.present then c
              else c.(tasks := c.tasks + [SetRemote(c.active.value, id, None)])
    ensures s.body.Candidates? && s.body.list.None? ==> Next(c, Deliver(id, s)) == c
  {
  }

  /** An answered call gets its room and then waits for media; a timer is armed for the room it was started
      with. */
  lemma SetUpGoesOn(c: Client, i: TaskId)
    requires i < |c.tasks|
    ensures c.tasks[i].ArmRing? ==>
              Next(c, Resume(i)) == c.(ring := Some(c.tasks[i].room), tasks := c.tasks[i := Done])
    ensures c.tasks[i].AnswerImport? ==>
              var t := c.tasks[i];
              var d := c.(tasks := c.tasks[i := AnswerMedia(t.peer, t.room)]);
              Next(c, Resume(i)) ==
              if c.call.None? then d else d.(call := Some(c.call.value.(room := Some(t.room), state := Connecting)))
  {
  }

  /** With its media, either side closes what was open and opens a connection for the set-up's own room and
      peer; then the callee says `connect`, and the caller prepares its offer. */
  lemma SetUpOpensItsConnection(c: Client, i: TaskId)
    requires i < |c.tasks| && (c.tasks[i].CallerMedia? || c.tasks[i].AnswerMedia?)
    ensures var t := c.tasks[i]; var c' := Next(c, Resume(i));
            && c'.active == Some(|c.pcs|) && |c'.pcs| == |c.pcs| + 1
            && c'.pcs[|c.pcs|] == Pc(t.room, t.peer, None, false)
            && (forall p: PcId | p < |c.pcs| ::
                  c'.pcs[p] == if c.active == Some(p) then c.pcs[p].(closed := true) else c.pcs[p])
            && c' == c.(pcs := c'.pcs, active := c'.active, tasks := c.tasks[i :=
                        if t.CallerMedia? then CallerOffer(t.peer, t.room)
                        else Publish(Signal(Connect, t.room, c.me, t.peer))])
  {
  }

  /** The offer is published as the set-up's own; a published signal leaves the handler done; a description
      reaches its connection unless that was closed, and owes a flush; an answer names the description that
      its connection has. */
  lemma HandlersGoOn(c: Client, i: TaskId)
    requires i < |c.tasks|
    ensures c.tasks[i].CallerOffer? ==>
              Next(c, Resume(i)) == c.(tasks := c.tasks[i :=
                Publish(Signal(Offer(true), c.tasks[i].room, c.me, c.tasks[i].peer))])
    ensures c.tasks[i].Publish? ==>
              Next(c, Resume(i)) == c.(tasks := c.tasks[i := Done]) && Sent(c, Resume(i)) == [c.tasks[i].signal]
    ensures c.tasks[i].SetRemote? ==>
              var t := c.tasks[i];
              Next(c, Resume(i)) ==
              if t.pc >= |c.pcs| || c.pcs[t.pc].closed then c
              else c.(pcs := c.pcs[t.pc := c.pcs[t.pc].(remote := Some(t.description))],
                      tasks := c.tasks[i := FlushOwed(t.pc, t.reply)])
    ensures c.tasks[i].Answering? && c.tasks[i].pc < |c.pcs| && c.pcs[c.tasks[i].pc].remote.Some? ==>
              var t := c.tasks[i];
              Next(c, Resume(i)) == c.(tasks := c.tasks[i :=
                Publish(Signal(Answer(true, c.pcs[t.pc].remote.value), t.owed.room, c.me, t.owed.partner))])
  {
    hide Flush, AddLoop, Teardown, CreatePc;
  }

  /** An open connection sends what it gathers to its own peer in its own room; a closed one sends nothing. */
  lemma GatheredGoesToItsPeer(c: Client, pc: PcId, line: string)
    requires pc < |c.pcs|
    ensures Next(c, Gathered(pc, line)) == c
    ensures Sent(c, Gathered(pc, line)) ==
            if c.pcs[pc].closed then []
            else [Signal(Candidates(Some([line])), c.pcs[pc].room, c.me, c.pcs[pc].peer)]
  {
  }

  // ---------------------------------------------------------------- connections

  /** Every connection but the open one has been closed. */
  predicate OnlyActiveIsOpen(c: Client) {
    && (c.active.Some? ==> c.active.value < |c.pcs| && !c.pcs[c.active.value].closed)
    && forall p | 0 <= p < |c.pcs| :: !c.pcs[p].closed ==> c.active == Some(p)
  }

  /** A closed connection stays closed, undescribed or described as it was; no connection changes its room or
      its peer; at most one new one appears. */
  ghost predicate ClosedForGood(c: Client, c': Client) {
    && |c.pcs| <= |c'.pcs| <= |c.pcs| + 1
    && forall p | 0 <= p < |c.pcs| ::
         && c'.pcs[p].room == c.pcs[p].room && c'.pcs[p].peer == c.pcs[p].peer
         && (c.pcs[p].closed ==> c'.pcs[p] == c.pcs[p])
  }

  ghost predicate ConnectionsKept(c: Client, c': Client) {
    (OnlyActiveIsOpen(c) ==> OnlyActiveIsOpen(c')) && ClosedForGood(c, c')
  }

  lemma SameConnectionsKept(c: Client, c': Client)
    requires c'.pcs == c.pcs && c'.active == c.active
    ensures ConnectionsKept(c, c')
  {
  }

  lemma ClosingKept(c: Client, c': Client)
    requires c'.pcs == ClosePc(c).pcs && c'.active == None
    ensures ConnectionsKept(c, c')
  {
  }

  lemma CreatingKept(c: Client, room: Room, peer: Party, c': Client)
    requires c'.pcs == CreatePc(c, room, peer).pcs && c'.active == CreatePc(c, room, peer).active
    ensures ConnectionsKept(c, c')
  {
  }

  lemma StepKeepsConnections(c: Client, s: Step)
    ensures ConnectionsKept(c, Next(c, s))
  {
    hide ConnectionsKept, Continue, Handle, Abort;
    match s
    case Deliver(id, signal) => HandleKeepsConnections(c, id, signal);
    case Resume(i) => ContinueKeepsConnections(c, i);
    case Fail(i) => AbortKeepsConnections(c, i);
    case IceFailed(_) =>
      if Next(c, s) == c { SameConnectionsKept(c, c); } else { ClosingKept(c, Next(c, s)); }
    case _ => SameConnectionsKept(c, Next(c, s));
  }

  lemma AbortKeepsConnections(c: Client, i: TaskId)
    ensures ConnectionsKept(c, Abort(c, i))
  {
    hide ConnectionsKept;
    SameConnectionsKept(c, Abort(c, i));
  }

  lemma HandleKeepsConnections(c: Client, id: SignalId, s: Signal)
    ensures ConnectionsKept(c, Handle(c, id, s))
  {
    hide ConnectionsKept, AddLoop, ClosePc;
    var c' := Handle(c, id, s);
    if PassesGuard(c, s) && s.body.Disconnect? {
      CloseIgnoresTheRest(c, Discard(Spawn(c.(ring := None), Done)));
      ClosingKept(c, c');
    } else {
      if PassesGuard(c, s) && s.body.Candidates? && s.body.list.Some? {
        var batch := Number(|c.received|, s.room, s.body.list.value);
        AddLoopFrame(Spawn(c.(received := c.received + batch), Done), |c.tasks|, c.active, batch);
      }
      SameConnectionsKept(c, c');
    }
  }

  lemma CloseIgnoresTheRest(c: Client, d: Client)
    requires d.pcs == c.pcs && d.active == c.active
    ensures ClosePc(d).pcs == ClosePc(c).pcs && ClosePc(d).active == None
    ensures ClosePc(d) == d.(pcs := ClosePc(d).pcs, active := None)
  {
  }

  lemma ContinueKeepsConnections(c: Client, i: TaskId)
    ensures ConnectionsKept(c, Continue(c, i))
  {
    hide ConnectionsKept, AddLoop, Flush, CreatePc, ClosePc;
    var c' := Continue(c, i);
    if i >= |c.tasks| {
      SameConnectionsKept(c, c');
    } else {
      match c.tasks[i]
      case SetRemote(_, _, _) => DescribingKept(c, i);
      case HangupSent(call) =>
        CloseIgnoresTheRest(c, Discard(c));
        ClosingKept(c, c');
      case CallerMedia(peer, room) => CreatingKept(c, room, peer, c');
      case AnswerMedia(peer, room) => CreatingKept(c, room, peer, c');
      case Adding(pc, rest) =>
        AddLoopFrame(c, i, Some(pc), rest);
        SameConnectionsKept(c, c');
      case FlushOwed(pc, reply) =>
        FlushFrame(c.(pending := []), i, pc, c.pending, reply);
        SameConnectionsKept(c, c');
      case Flushing(pc, rest, reply) =>
        FlushFrame(c, i, pc, rest, reply);
        SameConnectionsKept(c, c');
      case _ => SameConnectionsKept(c, c');
    }
  }

  lemma FlushFrame(c: Client, i: TaskId, pc: PcId, rest: seq<Candidate>, reply: Option<Reply>)
    ensures Flush(c, i, pc, rest, reply).pcs == c.pcs && Flush(c, i, pc, rest, reply).active == c.active
  {
  }

  lemma DescribingKept(c: Client, i: TaskId)
    requires i < |c.tasks| && c.tasks[i].SetRemote?
    ensures ConnectionsKept(c, Continue(c, i))
  {
    hide AddLoop, Flush, CreatePc, ClosePc, Teardown;
  }

  /** At every moment of every run, every connection but the open one has been closed. */
  lemma {:induction false} NoneLeftOpen(me: Party, steps: seq<Step>)
    ensures OnlyActiveIsOpen(Run(Idle(me), steps))
  {
    hide Next, OnlyActiveIsOpen;
    if steps == [] {
      IdleHasNone(me);
    } else {
      NoneLeftOpen(me, steps[..|steps| - 1]);
      var c := Run(Idle(me), steps[..|steps| - 1]);
      StepKeepsConnections(c, steps[|steps| - 1]);
    }
  }

  lemma IdleHasNone(me: Party)
    ensures OnlyActiveIsOpen(Idle(me))
  {
  }

  /** So in every reachable state, the last stretch of a hangup leaves no connection open at all. */
  lemma NoneOutlivesAHangup(me: Party, steps: seq<Step>, i: TaskId)
    requires i < |Run(Idle(me), steps).tasks| && Run(Idle(me), steps).tasks[i].HangupSent?
    ensures var c' := Next(Run(Idle(me), steps), Resume(i));
            forall p | 0 <= p < |c'.pcs| :: c'.pcs[p].closed
  {
    hide Run, Next;
    NoneLeftOpen(me, steps);
    HangupClosesTheConnection(Run(Idle(me), steps), i);
  }
}
