/** One client's connection to the relay: the membership cache that decides which broadcasts it may see,
    and the message-rate window of a restricted relay. One handled message is one instant. */
module RelayConnection {
  import opened Prelude

  // Times are in nanoseconds.
  const SECOND := 1_000_000_000
  const MEMBERSHIP_TTL := 30 * SECOND
  const RATE_WINDOW := 10 * SECOND
  const RATE_MAX_MSGS := 300
  const MAX_MESSAGE_SIZE := 128 * 1024

  // ---------------------------------------------------------------- events and who sees them

  datatype Event = Event(pubkey: string, tags: seq<seq<string>>)

  /** The value of the first tag of that name; a first tag without a value hides any later one. */
  function TagValue(tags: seq<seq<string>>, name: string): Option<string> {
    if tags == [] then None
    else if |tags[0]| > 0 && tags[0][0] == name then
      if |tags[0]| > 1 then Some(tags[0][1]) else None
    else TagValue(tags[1..], name)
  }

  lemma {:induction false} FirstTagDecides(tags: seq<seq<string>>, name: string, i: nat)
    requires i <= |tags| && forall j | 0 <= j < i :: tags[j] == [] || tags[j][0] != name
    requires i < |tags| ==> tags[i] != [] && tags[i][0] == name
    ensures TagValue(tags, name) == if i < |tags| && |tags[i]| > 1 then Some(tags[i][1]) else None
  {
    if i > 0 {
      assert tags[0] == [] || tags[0][0] != name;
      assert forall j | 0 <= j < i - 1 :: tags[1..][j] == tags[j + 1];
      FirstTagDecides(tags[1..], name, i - 1);
    }
  }

  predicate IsProtected(e: Event) {
    TagValue(e.tags, "visibility").Some? || TagValue(e.tags, "h").Some?
  }

  predicate PTagged(e: Event, pk: string) {
    exists i | 0 <= i < |e.tags| :: |e.tags[i]| > 1 && e.tags[i][0] == "p" && e.tags[i][1] == pk
  }

  predicate IsEventVisibleTo(e: Event, authed: Option<string>, memberships: set<string>) {
    var h := TagValue(e.tags, "h");
    if TagValue(e.tags, "visibility").None? && h.None? then true
    else if authed.None? then false
    else if e.pubkey == authed.value then true
    else if PTagged(e, authed.value) then true
    else h.Some? && h.value in memberships
  }

  /** Who sees an event, said of its tags: everyone a public one; and of others, those authenticated who wrote
      it, whom a `p` tag names, or who are members of the space that its first `h` tag names. */
  lemma VisibleExactly(e: Event, authed: Option<string>, memberships: set<string>)
    ensures IsEventVisibleTo(e, authed, memberships) <==>
            || !(FirstTagHasValue(e.tags, "visibility") || FirstTagHasValue(e.tags, "h"))
            || (authed.Some? && e.pubkey == authed.value)
            || (authed.Some? && exists i | 0 <= i < |e.tags| ::
                  |e.tags[i]| >= 2 && e.tags[i][0] == "p" && e.tags[i][1] == authed.value)
            || (authed.Some? && exists i | 0 <= i < |e.tags| ::
                  IsFirst(e.tags, "h", i) && |e.tags[i]| >= 2 && e.tags[i][1] in memberships)
  {
    FirstTagExactly(e.tags, "visibility");
    FirstTagExactly(e.tags, "h");
  }

  /** Tag `i` is the first of its name. */
  predicate IsFirst(tags: seq<seq<string>>, name: string, i: nat) {
    i < |tags| && tags[i] != [] && tags[i][0] == name
    && forall j | 0 <= j < i :: tags[j] == [] || tags[j][0] != name
  }

  predicate FirstTagHasValue(tags: seq<seq<string>>, name: string) {
    exists i | 0 <= i < |tags| :: IsFirst(tags, name, i) && |tags[i]| >= 2
  }

  lemma FirstTagExactly(tags: seq<seq<string>>, name: string)
    ensures TagValue(tags, name).Some? <==> FirstTagHasValue(tags, name)
    ensures forall i: nat | i < |tags| && IsFirst(tags, name, i) && |tags[i]| >= 2 ::
              TagValue(tags, name) == Some(tags[i][1])
  {
    var i := 0;
    while i < |tags| && (tags[i] == [] || tags[i][0] != name)
      invariant i <= |tags| && forall j | 0 <= j < i :: tags[j] == [] || tags[j][0] != name
    {
      i := i + 1;
    }
    FirstTagDecides(tags, name, i);
    if i < |tags| { assert IsFirst(tags, name, i); }
  }

  // ---------------------------------------------------------------- the connection

  datatype Conn = Conn(authed: Option<string>, memberships: set<string>, refreshedAt: int,
                       windowStart: int, msgs: nat)

  /** A text message may carry an AUTH that verifies for a key. `Other` is anything the loop ignores. */
  datatype Input = Text(length: nat, auth: Option<string>) | Broadcast(event: Event) | Other

  /** An input with its instant and whether the database answers a membership query then. */
  datatype Timed = At(time: int, input: Input, answers: bool)

  /** A connection's circumstances; `members(t, pk)` is what the database lists for `pk` at `t`. */
  datatype Session = Session(hostedOnly: bool, members: (int, string) -> set<string>, openedAt: int)

  datatype Verdict = TooLarge | Limited(notice: bool) | Handed

  function Opened(s: Session): Conn {
    Conn(None, {}, s.openedAt, s.openedAt, 0)
  }

  /** The size gate and, on a restricted relay, the rate window. */
  function Admit(s: Session, c: Conn, length: nat, now: int): (Conn, Verdict) {
    if length > MAX_MESSAGE_SIZE then (c, TooLarge)
    else if !s.hostedOnly then (c, Handed)
    else
      var d := if now - c.windowStart >= RATE_WINDOW then c.(windowStart := now, msgs := 0) else c;
      (d.(msgs := d.msgs + 1),
       if d.msgs + 1 > RATE_MAX_MSGS then Limited(d.msgs + 1 == RATE_MAX_MSGS + 1) else Handed)
  }

  /** An AUTH that verifies: the key and, if the database answers, the memberships; only the first one
      stamps the refresh time. */
  function Authenticate(s: Session, c: Conn, pk: string, answers: bool, now: int): Conn {
    c.(authed := Some(pk),
       memberships := if answers then s.members(now, pk) else c.memberships,
       refreshedAt := if c.authed.None? then now else c.refreshedAt)
  }

  predicate RefreshDue(c: Conn, now: int) {
    c.authed.Some? && now - c.refreshedAt >= MEMBERSHIP_TTL
  }

  function Refreshed(s: Session, c: Conn, answers: bool, now: int): Conn {
    if RefreshDue(c, now) && answers
    then c.(memberships := s.members(now, c.authed.value), refreshedAt := now) else c
  }

  predicate HTagged(x: Timed) {
    x.input.Broadcast? && TagValue(x.input.event.tags, "h").Some?
  }

  function Step(s: Session, c: Conn, x: Timed): Conn {
    match x.input
    case Text(length, auth) =>
      var (d, verdict) := Admit(s, c, length, x.time);
      if verdict.Handed? && auth.Some? then Authenticate(s, d, auth.value, x.answers, x.time) else d
    case Broadcast(e) => if HTagged(x) then Refreshed(s, c, x.answers, x.time) else c
    case Other => c
  }

  /** A broadcast passes the visibility gate, judged after the lazy refresh. */
  predicate Delivers(s: Session, c: Conn, x: Timed) {
    && x.input.Broadcast?
    && IsEventVisibleTo(x.input.event, Step(s, c, x).authed, Step(s, c, x).memberships)
  }

  /** The refresh this input calls for fails. */
  predicate RefreshFails(c: Conn, x: Timed) {
    HTagged(x) && RefreshDue(c, x.time) && !x.answers
  }

  function AfterFrom(s: Session, c: Conn, run: seq<Timed>): Conn {
    if run == [] then c else Step(s, AfterFrom(s, c, run[..|run| - 1]), run[|run| - 1])
  }

  function After(s: Session, run: seq<Timed>): Conn {
    AfterFrom(s, Opened(s), run)
  }

  /** The run happens in time order from the opening. */
  ghost predicate InOrder(s: Session, run: seq<Timed>) {
    && (forall i | 0 <= i < |run| :: s.openedAt <= run[i].time)
    && (forall i, j | 0 <= i < j < |run| :: run[i].time <= run[j].time)
  }

  // ---------------------------------------------------------------- provenance of the cache

  /** The key an input loads the cache for, if it does. */
  function Loads(s: Session, c: Conn, x: Timed): Option<string> {
    match x.input
    case Text(length, auth) => if Admit(s, c, length, x.time).1.Handed? && x.answers then auth else None
    case Broadcast(e) => if HTagged(x) && RefreshDue(c, x.time) && x.answers then c.authed else None
    case Other => None
  }

  datatype Load = Load(owner: string, time: int)

  /** One step's load, or the one before. */
  function LoadAfter(s: Session, c: Conn, load: Option<Load>, x: Timed): Option<Load> {
    var owner := Loads(s, c, x);
    if owner.Some? then Some(Load(owner.value, x.time)) else load
  }

  function LastLoad(s: Session, run: seq<Timed>): Option<Load> {
    if run == [] then None else
    var m := |run| - 1;
    LoadAfter(s, After(s, run[..m]), LastLoad(s, run[..m]), run[m])
  }

  /** What the cache holds, in terms of the last load, and that the stamp is no later than that load. */
  ghost predicate CacheExplained(s: Session, c: Conn, load: Option<Load>) {
    match load
    case None => c.memberships == {}
    case Some(l) => c.authed.Some? && c.memberships == s.members(l.time, l.owner) && c.refreshedAt <= l.time
  }

  lemma StepKeepsExplained(s: Session, c: Conn, load: Option<Load>, x: Timed)
    requires CacheExplained(s, c, load) && c.refreshedAt <= x.time && (load.Some? ==> load.value.time <= x.time)
    ensures CacheExplained(s, Step(s, c, x), LoadAfter(s, c, load, x))
    ensures Step(s, c, x).refreshedAt <= x.time
    ensures LoadAfter(s, c, load, x).Some? ==> LoadAfter(s, c, load, x).value.time <= x.time
  {
  }

  lemma {:induction false} CacheIsTheLastLoad(s: Session, run: seq<Timed>)
    requires InOrder(s, run)
    ensures CacheExplained(s, After(s, run), LastLoad(s, run))
    ensures LastLoad(s, run).Some? ==> run != [] && LastLoad(s, run).value.time <= run[|run| - 1].time
    ensures After(s, run).refreshedAt <= if run == [] then s.openedAt else run[|run| - 1].time
  {
    hide CacheExplained, LoadAfter, Step;
    if run == [] {
      NothingLoadedYet(s);
    } else {
      var m := |run| - 1;
      var before := run[..m];
      CacheIsTheLastLoad(s, before);
      assert s.openedAt <= run[m].time;
      if m > 0 { assert before[m - 1].time <= run[m].time; }
      StepKeepsExplained(s, After(s, before), LastLoad(s, before), run[m]);
    }
  }

  lemma NothingLoadedYet(s: Session)
    ensures CacheExplained(s, Opened(s), None)
  {
  }

  // ---------------------------------------------------------------- staleness

  /** Whose memberships a delivery that rests on membership alone relied on, and how old they were. */
  lemma DeliveryRestsOnARecentLoad(s: Session, run: seq<Timed>, x: Timed)
    requires InOrder(s, run + [x])
    requires Delivers(s, After(s, run), x) && IsProtected(x.input.event)
    ensures var c := After(s, run); var e := x.input.event;
            && c.authed.Some?
            && (e.pubkey != c.authed.value && !RefreshFails(c, x)
                && (forall i | 0 <= i < |e.tags| && |e.tags[i]| >= 2 && e.tags[i][0] == "p" ::
                      e.tags[i][1] != c.authed.value) ==>
                  && TagValue(e.tags, "h").Some?
                  && var load := LastLoad(s, run + [x]);
                     && load.Some? && x.time - 30_000_000_000 < load.value.time <= x.time
                     && TagValue(e.tags, "h").value in s.members(load.value.time, load.value.owner))
  {
    var all := run + [x];
    assert all[..|all| - 1] == run && all[|all| - 1] == x;
    assert After(s, all) == Step(s, After(s, run), x);
    CacheIsTheLastLoad(s, all);
  }

  /** The cache was loaded for the key the client is authenticated as. */
  ghost predicate Owned(s: Session, run: seq<Timed>) {
    LastLoad(s, run).Some? ==> After(s, run).authed == Some(LastLoad(s, run).value.owner)
  }

  /** An AUTH reaches the handler and verifies for another key, while the database does not answer and
      the cache has been loaded: the cache then stays with the key before. */
  predicate StrandsTheCache(s: Session, run: seq<Timed>, x: Timed) {
    var c := After(s, run);
    && x.input.Text? && Admit(s, c, x.input.length, x.time).1.Handed?
    && x.input.auth.Some? && x.input.auth != c.authed && !x.answers && LastLoad(s, run).Some?
  }

  lemma StepKeepsOwnedExactly(s: Session, run: seq<Timed>, x: Timed)
    requires InOrder(s, run) && Owned(s, run)
    ensures Owned(s, run + [x]) <==> !StrandsTheCache(s, run, x)
  {
    var all := run + [x];
    assert all[..|all| - 1] == run && all[|all| - 1] == x;
    CacheIsTheLastLoad(s, run);
  }

  /** The cache belongs to the authenticated key at every moment of a run exactly when no step of it
      strands the cache. */
  lemma {:induction false} OwnedThroughoutExactly(s: Session, run: seq<Timed>)
    requires InOrder(s, run)
    ensures (forall k | 0 <= k <= |run| :: Owned(s, run[..k]))
            <==> (forall k | 0 <= k < |run| :: !StrandsTheCache(s, run[..k], run[k]))
  {
    hide Owned, StrandsTheCache;
    if run == [] {
      assert Owned(s, run[..0]) by { EmptyIsOwned(s); assert run[..0] == []; }
    } else {
      var m := |run| - 1;
      var before := run[..m];
      OwnedThroughoutExactly(s, before);
      assert forall k | 0 <= k <= m :: before[..k] == run[..k];
      assert forall k | 0 <= k < m :: before[k] == run[k];
      assert before[..m] == before == run[..m] && run[..m + 1] == before + [run[m]];
      if Owned(s, before) { StepKeepsOwnedExactly(s, before, run[m]); }
      if forall k | 0 <= k < |run| :: !StrandsTheCache(s, run[..k], run[k]) {
        assert forall k | 0 <= k < m :: !StrandsTheCache(s, run[..k], run[k]);
        assert forall k | 0 <= k < m :: !StrandsTheCache(s, before[..k], before[k]);
        assert Owned(s, before[..m]);
        assert Owned(s, run[..m + 1]);
        forall k | 0 <= k <= |run| ensures Owned(s, run[..k]) {
          if k <= m { assert Owned(s, before[..k]); }
        }
      }
      if forall k | 0 <= k <= |run| :: Owned(s, run[..k]) {
        forall k | 0 <= k < |run| ensures !StrandsTheCache(s, run[..k], run[k]) {
          assert Owned(s, run[..m]) && Owned(s, run[..m + 1]);
          assert forall j | 0 <= j <= m :: Owned(s, before[..j]);
          if k < m { assert !StrandsTheCache(s, before[..k], before[k]); }
        }
      }
    }
  }

  lemma EmptyIsOwned(s: Session)
    ensures Owned(s, [])
  {
  }

  ghost predicate ListedLately(s: Session, space: string, pk: string, now: int) {
    exists u | now - 30_000_000_000 < u <= now :: space in s.members(u, pk)
  }

  /** The staleness bound: while no step strands the cache, a protected event reaches a client who is
      neither its author nor p-tagged only if the database listed that client as a member of the event's
      space within the last 30 seconds, unless the refresh called for at that moment failed. */
  lemma StalenessBound(s: Session, run: seq<Timed>, x: Timed)
    requires InOrder(s, run + [x])
    requires forall k | 0 <= k < |run| :: !StrandsTheCache(s, run[..k], run[k])
    requires Delivers(s, After(s, run), x) && IsProtected(x.input.event)
    ensures var c := After(s, run); var e := x.input.event;
            && c.authed.Some?
            && (|| e.pubkey == c.authed.value || RefreshFails(c, x)
                || (exists i | 0 <= i < |e.tags| ::
                      |e.tags[i]| >= 2 && e.tags[i][0] == "p" && e.tags[i][1] == c.authed.value)
                || (TagValue(e.tags, "h").Some?
                    && ListedLately(s, TagValue(e.tags, "h").value, c.authed.value, x.time)))
  {
    hide StrandsTheCache, TagValue, RefreshFails, IsEventVisibleTo;
    assert InOrder(s, run) by { assert forall i | 0 <= i < |run| :: (run + [x])[i] == run[i]; }
    OwnedThroughoutExactly(s, run);
    assert run[..|run|] == run && Owned(s, run[..|run|]);
    DeliveryRestsOnARecentLoad(s, run, x);
    StepKeepsOwnedExactly(s, run, x);
    assert !StrandsTheCache(s, run, x) by { BroadcastStrandsNothing(s, run, x); }
    BroadcastKeepsKey(s, run, x);
  }

  lemma BroadcastStrandsNothing(s: Session, run: seq<Timed>, x: Timed)
    requires x.input.Broadcast?
    ensures !StrandsTheCache(s, run, x)
  {
  }

  lemma BroadcastKeepsKey(s: Session, run: seq<Timed>, x: Timed)
    requires x.input.Broadcast?
    ensures After(s, run + [x]).authed == After(s, run).authed
  {
    assert (run + [x])[..|run|] == run;
  }

  /** The other way round: a client listed in the space throughout the last 30 seconds sees the event, if
      its cache was ever loaded and belongs to it and the refresh does not fail. */
  lemma SteadyMemberIsServed(s: Session, run: seq<Timed>, x: Timed)
    requires InOrder(s, run + [x]) && HTagged(x)
    requires Owned(s, run) && LastLoad(s, run).Some? && !RefreshFails(After(s, run), x)
    requires forall u | x.time - 30_000_000_000 < u <= x.time ::
               TagValue(x.input.event.tags, "h").value in s.members(u, After(s, run).authed.value)
    ensures Delivers(s, After(s, run), x)
  {
    assert InOrder(s, run) by { assert forall i | 0 <= i < |run| :: (run + [x])[i] == run[i]; }
    CacheIsTheLastLoad(s, run);
    var l := LastLoad(s, run).value;
    assert l.time <= x.time by {
      assert (run + [x])[|run| - 1] == run[|run| - 1] && (run + [x])[|run|] == x;
    }
  }

  /** What needs no membership passes in any state: public events to everyone, protected ones to their
      author and to whom they p-tag; and nothing protected passes before authentication. */
  lemma ServedWithoutMembership(s: Session, c: Conn, x: Timed)
    requires x.input.Broadcast?
    ensures var e := x.input.event;
            && (!IsProtected(e) ==> Delivers(s, c, x))
            && (c.authed.None? && IsProtected(e) ==> !Delivers(s, c, x))
            && (c.authed.Some? && e.pubkey == c.authed.value ==> Delivers(s, c, x))
            && (c.authed.Some?
                && (exists i | 0 <= i < |e.tags| ::
                      |e.tags[i]| >= 2 && e.tags[i][0] == "p" && e.tags[i][1] == c.authed.value)
                ==> Delivers(s, c, x))
  {
  }

  lemma {:induction false} NothingElseStamps(s: Session, c: Conn, mid: seq<Timed>)
    requires c.authed.Some? && forall i | 0 <= i < |mid| :: !HTagged(mid[i])
    ensures AfterFrom(s, c, mid).authed.Some? && AfterFrom(s, c, mid).refreshedAt == c.refreshedAt
  {
    if mid != [] {
      NothingElseStamps(s, c, mid[..|mid| - 1]);
      assert !HTagged(mid[|mid| - 1]);
    }
  }

  /** A failed refresh leaves the cache and its stamp as they were, and, whatever else happens in between,
      the next h-tagged broadcast tries again. */
  lemma FailedRefreshIsRetried(s: Session, c: Conn, x: Timed, mid: seq<Timed>, y: Timed)
    requires RefreshFails(c, x) && (forall i | 0 <= i < |mid| :: !HTagged(mid[i])) && HTagged(y)
    requires x.time <= y.time
    ensures Step(s, c, x) == c
    ensures var d := AfterFrom(s, Step(s, c, x), mid);
            && RefreshDue(d, y.time)
            && (y.answers ==> Step(s, d, y).memberships == s.members(y.time, d.authed.value)
                              && Step(s, d, y).refreshedAt == y.time)
  {
    NothingElseStamps(s, c, mid);
  }

  /** The condition is exact: after a step that strands the cache, as long as no refresh is due, the new
      key is served every space that the database listed for the old key when the cache was loaded,
      whether it ever was a member of it or not. */
  lemma StrandedCacheServesTheOldKey(s: Session, run: seq<Timed>, x: Timed, e: Event, now: int, answers: bool)
    requires InOrder(s, run + [x]) && StrandsTheCache(s, run, x)
    requires x.time <= now && !RefreshDue(After(s, run + [x]), now)
    requires var l := LastLoad(s, run).value;
             TagValue(e.tags, "h").Some? && TagValue(e.tags, "h").value in s.members(l.time, l.owner)
    ensures After(s, run + [x]).authed == x.input.auth
    ensures Delivers(s, After(s, run + [x]), At(now, Broadcast(e), answers))
  {
    assert InOrder(s, run) by { assert forall i | 0 <= i < |run| :: (run + [x])[i] == run[i]; }
    CacheIsTheLastLoad(s, run);
    assert (run + [x])[..|run|] == run;
  }

  /** A first AUTH whose lookup fails hides h-tagged broadcasts for 30 seconds, not for the whole
      connection: the first such broadcast after that loads the memberships. */
  lemma FailedFirstLookupRecovers(s: Session, c: Conn, x: Timed, mid: seq<Timed>, y: Timed)
    requires c.authed.None? && c.memberships == {} && !x.answers && HTagged(y) && y.answers
    requires x.input.Text? && x.input.auth.Some? && Admit(s, c, x.input.length, x.time).1.Handed?
    requires forall i | 0 <= i < |mid| :: !HTagged(mid[i])
    ensures Step(s, c, x).memberships == {}
    ensures var d := AfterFrom(s, Step(s, c, x), mid);
            && d.authed.Some?
            && (y.time >= x.time + 30_000_000_000 ==> Step(s, d, y).memberships == s.members(y.time, d.authed.value))
            && (y.time < x.time + 30_000_000_000 ==> Step(s, d, y) == d)
  {
    NothingElseStamps(s, Step(s, c, x), mid);
  }

  /** Such runs exist: a client that authenticates again, as someone who was never a member, while the
      database does not answer, still receives the first key's space. */
  lemma NonMemberIsServed()
    ensures exists s, run, x ::
              && InOrder(s, run + [x]) && Delivers(s, After(s, run), x) && IsProtected(x.input.event)
              && !RefreshFails(After(s, run), x) && After(s, run).authed == Some("b")
              && x.input.event == Event("c", [["h", "g"]]) && (forall u :: "g" !in s.members(u, "b"))
  {
    var s := Session(false, (t: int, pk: string) => if pk == "a" then {"g"} else {}, 0);
    var x0, x1 := At(0, Text(10, Some("a")), true), At(1, Text(10, Some("b")), false);
    var x := At(2, Broadcast(Event("c", [["h", "g"]])), true);
    var run := [x0, x1];
    var c := Opened(s);
    assert run[..1] == [x0] && [x0][..0] == [] && AfterFrom(s, c, []) == c;
    assert AfterFrom(s, c, [x0]) == Step(s, c, x0);
    assert After(s, run) == Step(s, AfterFrom(s, c, [x0]), x1);
    assert TagValue([["h", "g"]], "h") == Some("g");
    assert forall u :: "g" !in s.members(u, "b");
  }

  // ---------------------------------------------------------------- rate

  predicate IsCounted(x: Timed) {
    x.input.Text? && x.input.length <= MAX_MESSAGE_SIZE
  }

  predicate IsHanded(s: Session, c: Conn, x: Timed) {
    x.input.Text? && Admit(s, c, x.input.length, x.time).1.Handed?
  }

  predicate IsWarned(s: Session, c: Conn, x: Timed) {
    x.input.Text? && Admit(s, c, x.input.length, x.time).1 == Limited(true)
  }

  /** How many messages of the run reach the handler, from state `c`. */
  function HandedOver(s: Session, c: Conn, run: seq<Timed>): nat {
    if run == [] then 0 else
    var m := |run| - 1;
    HandedOver(s, c, run[..m]) + if IsHanded(s, AfterFrom(s, c, run[..m]), run[m]) then 1 else 0
  }

  function Warnings(s: Session, c: Conn, run: seq<Timed>): nat {
    if run == [] then 0 else
    var m := |run| - 1;
    Warnings(s, c, run[..m]) + if IsWarned(s, AfterFrom(s, c, run[..m]), run[m]) then 1 else 0
  }

  function Counted(run: seq<Timed>): nat {
    if run == [] then 0 else Counted(run[..|run| - 1]) + if IsCounted(run[|run| - 1]) then 1 else 0
  }

  /** How many windows cover that many nanoseconds: the quotient, rounded up. */
  function WindowsIn(length: int): int {
    (length + RATE_WINDOW - 1) / RATE_WINDOW
  }

  function Max(a: int, b: int): int { if a >= b then a else b }

  function Min(a: int, b: int): int { if a <= b then a else b }

  /** Windows that can still open before `end`, if nothing arrives before `from`. */
  function WindowsLeft(start: int, from: int, end: int): (n: nat) {
    Max(0, WindowsIn(end - Max(start, from - RATE_WINDOW) - RATE_WINDOW))
  }

  function Budget(c: Conn, from: int, end: int): int {
    RATE_MAX_MSGS - Min(c.msgs, RATE_MAX_MSGS) + RATE_MAX_MSGS * WindowsLeft(c.windowStart, from, end)
  }

  lemma OneWindowFewer(start: int, from: int, now: int, end: int)
    requires from <= now < end && now - start >= RATE_WINDOW
    ensures WindowsLeft(now, from, end) <= WindowsLeft(start, from, end) - 1
  {
    var d := end - Max(start, from - RATE_WINDOW) - RATE_WINDOW;
    assert WindowsIn(d - RATE_WINDOW) == WindowsIn(d) - 1;
    assert end - now - RATE_WINDOW <= d - RATE_WINDOW;
    WindowsInMonotone(end - now - RATE_WINDOW, d - RATE_WINDOW);
  }

  lemma WindowsInMonotone(a: int, b: int)
    requires a <= b
    ensures WindowsIn(a) <= WindowsIn(b)
  {
  }

  lemma StepKeepsBudget(s: Session, c: Conn, x: Timed, from: int, end: int)
    requires s.hostedOnly && from <= x.time < end
    ensures (if IsHanded(s, c, x) then 1 else 0) + Budget(Step(s, c, x), from, end) <= Budget(c, from, end)
  {
    hide WindowsLeft;
    if IsCounted(x) && x.time - c.windowStart >= RATE_WINDOW {
      OneWindowFewer(c.windowStart, from, x.time, end);
    }
  }

  lemma {:induction false} HandedWithinBudget(s: Session, c: Conn, run: seq<Timed>, from: int, end: int)
    requires s.hostedOnly && forall i | 0 <= i < |run| :: from <= run[i].time < end
    ensures HandedOver(s, c, run) + Budget(AfterFrom(s, c, run), from, end) <= Budget(c, from, end)
  {
    hide Step, IsHanded, Budget;
    if run != [] {
      var m := |run| - 1;
      HandedWithinBudget(s, c, run[..m], from, end);
      StepKeepsBudget(s, AfterFrom(s, c, run[..m]), run[m], from, end);
    }
  }

  /** On a restricted relay, whatever state the connection is in, what arrives within any half-open
      interval of length `length` hands the handler at most 300 * (ceil(length / 10 s) + 1) messages. */
  lemma RateBound(s: Session, c: Conn, run: seq<Timed>, from: int, length: nat)
    requires s.hostedOnly && forall i | 0 <= i < |run| :: from <= run[i].time < from + length
    ensures HandedOver(s, c, run) <= 300 * ((length + 9_999_999_999) / 10_000_000_000 + 1)
  {
    HandedWithinBudget(s, c, run, from, from + length);
    WindowsInMonotone(from + length - Max(c.windowStart, from - RATE_WINDOW) - RATE_WINDOW, length);
  }

  /** Within one window, in which `c.msgs` messages were counted before: a message is handed over exactly
      if fewer than 300 of its window were counted before it, and the warning answers the 301st. */
  lemma {:induction false} PlaceInWindowDecides(s: Session, c: Conn, run: seq<Timed>, x: Timed)
    requires s.hostedOnly && x.time < c.windowStart + 10_000_000_000
    requires forall i | 0 <= i < |run| :: run[i].time < c.windowStart + 10_000_000_000
    ensures var d := AfterFrom(s, c, run);
            && d.msgs == c.msgs + Counted(run) && d.windowStart == c.windowStart
            && (IsHanded(s, d, x) <==> IsCounted(x) && c.msgs + Counted(run) < 300)
            && (IsWarned(s, d, x) <==> IsCounted(x) && c.msgs + Counted(run) == 300)
  {
    if run != [] {
      PlaceInWindowDecides(s, c, run[..|run| - 1], run[|run| - 1]);
    }
  }

  /** So exactly its first 300 counted messages reach the handler, and one warning goes out if there are
      more. */
  lemma {:induction false} WindowPassesTheFirst300(s: Session, c: Conn, run: seq<Timed>)
    requires s.hostedOnly && forall i | 0 <= i < |run| :: run[i].time < c.windowStart + 10_000_000_000
    ensures HandedOver(s, c, run) == Min(300 - Min(c.msgs, 300), Counted(run))
    ensures Warnings(s, c, run) == if c.msgs <= 300 < c.msgs + Counted(run) then 1 else 0
  {
    hide AfterFrom, IsHanded, IsWarned, IsCounted;
    if run != [] {
      var m := |run| - 1;
      WindowPassesTheFirst300(s, c, run[..m]);
      PlaceInWindowDecides(s, c, run[..m], run[m]);
    }
  }

  /** A counted message that arrives 10 seconds or more after the window opened opens the next one, in
      which it is the first. */
  lemma LateMessageOpensAWindow(s: Session, c: Conn, x: Timed)
    requires s.hostedOnly && IsCounted(x)
    ensures IsHanded(s, c, x) && Step(s, c, x).windowStart == x.time && Step(s, c, x).msgs == 1
            <==> x.time - c.windowStart >= RATE_WINDOW || (x.time == c.windowStart && c.msgs == 0)
  {
  }

  lemma {:induction false} HandedOverConcat(s: Session, c: Conn, a: seq<Timed>, b: seq<Timed>)
    ensures AfterFrom(s, c, a + b) == AfterFrom(s, AfterFrom(s, c, a), b)
    ensures HandedOver(s, c, a + b) == HandedOver(s, c, a) + HandedOver(s, AfterFrom(s, c, a), b)
  {
    hide Step, IsHanded;
    if b == [] {
      assert a + b == a;
    } else {
      var m := |b| - 1;
      HandedOverConcat(s, c, a, b[..m]);
      assert (a + b)[..|a + b| - 1] == a + b[..m] && (a + b)[|a + b| - 1] == b[m];
    }
  }

  function Burst(n: nat, now: int): seq<Timed> {
    seq(n, _ => At(now, Text(2, None), true))
  }

  lemma CountedBurst(n: nat, now: int)
    ensures Counted(Burst(n, now)) == n
  {
    if n > 0 {
      CountedBurst(n - 1, now);
      assert Burst(n, now)[..n - 1] == Burst(n - 1, now);
    }
  }

  /** What the gate does with a message, on any relay: one over 128 KiB is refused and not counted; on an
      unrestricted relay all others are handed over and none is counted. */
  lemma SizeAndRestriction(s: Session, c: Conn, length: nat, now: int)
    ensures Admit(s, c, length, now).1 == TooLarge <==> length > 131072
    ensures length > 131072 || !s.hostedOnly ==> Admit(s, c, length, now).0 == c
    ensures length <= 131072 && !s.hostedOnly ==> Admit(s, c, length, now).1 == Handed
  {
  }

  /** The bound cannot be improved: 600 messages pass within two nanoseconds around a window's end. */
  lemma RateBoundIsAttained(s: Session)
    requires s.hostedOnly
    ensures var late := s.openedAt + RATE_WINDOW - 1;
            var run := Burst(RATE_MAX_MSGS, late) + Burst(RATE_MAX_MSGS, late + 1);
            && InOrder(s, run) && (forall i | 0 <= i < |run| :: late <= run[i].time < late + 2)
            && HandedOver(s, Opened(s), run) == 2 * RATE_MAX_MSGS == RATE_MAX_MSGS * (WindowsIn(2) + 1)
  {
    hide HandedOver;
    var late := s.openedAt + RATE_WINDOW - 1;
    var a, x, rest := Burst(RATE_MAX_MSGS, late), At(late + 1, Text(2, None), true), Burst(RATE_MAX_MSGS - 1, late + 1);
    WindowPassesTheFirst300(s, Opened(s), a);
    CountedBurst(RATE_MAX_MSGS, late);
    PlaceInWindowDecides(s, Opened(s), a, a[0]);
    var c := AfterFrom(s, Opened(s), a);
    assert Burst(RATE_MAX_MSGS, late + 1) == [x] + rest;
    HandedOverConcat(s, Opened(s), a, [x] + rest);
    HandedOverConcat(s, c, [x], rest);
    OneHandedOver(s, c, x);
    WindowPassesTheFirst300(s, Step(s, c, x), rest);
    CountedBurst(RATE_MAX_MSGS - 1, late + 1);
  }

  lemma OneHandedOver(s: Session, c: Conn, x: Timed)
    ensures AfterFrom(s, c, [x]) == Step(s, c, x)
    ensures HandedOver(s, c, [x]) == if IsHanded(s, c, x) then 1 else 0
  {
    assert [x][..0] == [] && AfterFrom(s, c, []) == c;
  }

  // ---------------------------------------------------------------- the program

  class Connection {
    const session: Session
    var authedPubkey: Option<string>
    var spaceMemberships: set<string>
    var membershipsRefreshedAt: int
    var rateWindowStart: int
    var msgsInWindow: nat

    ghost function View(): Conn
      reads this
    {
      Conn(authedPubkey, spaceMemberships, membershipsRefreshedAt, rateWindowStart, msgsInWindow)
    }

    constructor (s: Session)
      ensures session == s && View() == Opened(s)
    {
      session := s;
      authedPubkey, spaceMemberships, membershipsRefreshedAt := None, {}, s.openedAt;
      rateWindowStart, msgsInWindow := s.openedAt, 0;
    }

    method MaybeRefreshMemberships(answers: bool, now: int) returns (refreshed: bool)
      modifies this
      ensures View() == Refreshed(session, old(View()), answers, now)
      ensures refreshed == (RefreshDue(old(View()), now) && answers)
    {
      if authedPubkey.None? { return false; }
      if now - membershipsRefreshedAt < MEMBERSHIP_TTL { return false; }
      if !answers { return false; }
      spaceMemberships := session.members(now, authedPubkey.value);
      membershipsRefreshedAt := now;
      return true;
    }

    method HandleAuth(pk: string, answers: bool, now: int)
      modifies this
      ensures View() == old(View()).(authed := Some(pk), memberships := spaceMemberships)
      ensures spaceMemberships == if answers then session.members(now, pk) else old(spaceMemberships)
    {
      authedPubkey := Some(pk);
      if answers { spaceMemberships := session.members(now, pk); }
    }

    method OnText(length: nat, auth: Option<string>, answers: bool, now: int) returns (verdict: Verdict)
      modifies this
      ensures View() == Step(session, old(View()), At(now, Text(length, auth), answers))
      ensures verdict == Admit(session, old(View()), length, now).1
    {
      if length > MAX_MESSAGE_SIZE { return TooLarge; }
      if session.hostedOnly {
        if now - rateWindowStart >= RATE_WINDOW {
          rateWindowStart := now;
          msgsInWindow := 0;
        }
        msgsInWindow := msgsInWindow + 1;
        if msgsInWindow > RATE_MAX_MSGS { return Limited(msgsInWindow == RATE_MAX_MSGS + 1); }
      }
      var wasAuthed := authedPubkey.Some?;
      if auth.Some? { HandleAuth(auth.value, answers, now); }
      if !wasAuthed && authedPubkey.Some? { membershipsRefreshedAt := now; }
      return Handed;
    }

    method OnBroadcast(e: Event, answers: bool, now: int) returns (delivered: bool)
      modifies this
      ensures View() == Step(session, old(View()), At(now, Broadcast(e), answers))
      ensures delivered == Delivers(session, old(View()), At(now, Broadcast(e), answers))
    {
      if TagValue(e.tags, "h").Some? {
        var _ := MaybeRefreshMemberships(answers, now);
      }
      return IsEventVisibleTo(e, authedPubkey, spaceMemberships);
    }
  }
}
