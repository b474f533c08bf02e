/** The back/forward history of the client's navigation: a stack of at most 100 entries with a cursor. */
module NavigationHistory {
  import opened Prelude

  datatype NavEntry = NavEntry(
    route: string, sidebarMode: string, spaceId: Option<string>, channelId: Option<string>,
    musicView: string, musicDetailId: Option<string>, dmPubkey: Option<string>)

  datatype History = History(stack: seq<NavEntry>, cursor: int)

  const MAX_HISTORY := 100
  const EMPTY := History([], -1)

  datatype Op = Visit(entry: NavEntry) | GoBack | GoForward

  predicate InRange(h: History) {
    -1 <= h.cursor < |h.stack| && (h.stack == [] <==> h.cursor == -1)
  }

  ghost predicate NoRepeats(h: History) {
    forall i | 0 < i < |h.stack| :: h.stack[i - 1] != h.stack[i]
  }

  function Current(h: History): Option<NavEntry> {
    if 0 <= h.cursor < |h.stack| then Some(h.stack[h.cursor]) else None
  }

  // ---------------------------------------------------------------- the unbounded history

  /** One step of a history that forgets nothing but what a new visit overwrites. */
  function Ideal(u: History, op: Op): History
    requires InRange(u)
  {
    match op
    case Visit(e) => if Current(u) == Some(e) then u else History(u.stack[..u.cursor + 1] + [e], u.cursor + 1)
    case GoBack => if u.cursor <= 0 then u else u.(cursor := u.cursor - 1)
    case GoForward => if u.cursor >= |u.stack| - 1 then u else u.(cursor := u.cursor + 1)
  }

  // ---------------------------------------------------------------- the bounded one

  predicate Drops(h: History, op: Op)
    requires InRange(h)
  {
    op.Visit? && Current(h) != Some(op.entry) && |Ideal(h, op).stack| > MAX_HISTORY
  }

  function Step(h: History, op: Op): History
    requires InRange(h)
  {
    var u := Ideal(h, op);
    if Drops(h, op) then History(u.stack[1..], u.cursor - 1) else u
  }

  lemma IdealStaysInRange(u: History, op: Op)
    requires InRange(u)
    ensures InRange(Ideal(u, op))
    ensures NoRepeats(u) ==> NoRepeats(Ideal(u, op))
  {
  }

  /** After some operations from the start; operations that found nothing to do are part of them. */
  function Run(ops: seq<Op>): (h: History)
    ensures InRange(h)
  {
    if ops == [] then EMPTY else Step(Run(ops[..|ops| - 1]), ops[|ops| - 1])
  }

  function IdealRun(ops: seq<Op>): (u: History)
    ensures InRange(u)
  {
    if ops == [] then EMPTY else Ideal(IdealRun(ops[..|ops| - 1]), ops[|ops| - 1])
  }

  /** How many of the oldest entries were dropped so far. */
  function Dropped(ops: seq<Op>): nat {
    if ops == [] then 0 else
    var m := |ops| - 1;
    Dropped(ops[..m]) + if Drops(Run(ops[..m]), ops[m]) then 1 else 0
  }

  /** Going back is refused at the oldest kept entry although older ones were dropped. */
  predicate RefusedBack(ops: seq<Op>, op: Op) {
    op.GoBack? && Run(ops).cursor == 0 && Dropped(ops) > 0
  }

  /** The operations without the refused ones. */
  function Effective(ops: seq<Op>): seq<Op> {
    if ops == [] then [] else
    var m := |ops| - 1;
    Effective(ops[..m]) + if RefusedBack(ops[..m], ops[m]) then [] else [ops[m]]
  }

  ghost predicate WindowOf(h: History, u: History, dropped: nat) {
    && InRange(h) && NoRepeats(h) && |h.stack| <= MAX_HISTORY
    && InRange(u) && NoRepeats(u)
    && (dropped == 0 || dropped < |u.stack|) && h.stack == u.stack[dropped..] && h.cursor == u.cursor - dropped
  }

  lemma StepStaysAWindow(h: History, u: History, dropped: nat, op: Op)
    requires WindowOf(h, u, dropped) && !(op.GoBack? && h.cursor == 0 && dropped > 0)
    ensures WindowOf(Step(h, op), Ideal(u, op), dropped + if Drops(h, op) then 1 else 0)
  {
    IdealStaysInRange(h, op);
    IdealStaysInRange(u, op);
    if op.Visit? && h.stack != [] {
      assert Current(h) == Current(u);
      assert h.stack[..h.cursor + 1] == u.stack[..u.cursor + 1][dropped..];
    }
  }

  /** At every moment of every run, the history is the most recent part, of at most 100 entries, of the
      unbounded history that saw the same operations except the refused ones; no two neighbours are
      equal. */
  lemma {:induction false} AlwaysTheRecentWindow(ops: seq<Op>)
    ensures WindowOf(Run(ops), IdealRun(Effective(ops)), Dropped(ops))
  {
    hide WindowOf, Step, Ideal;
    if ops == [] {
      EmptyIsAWindow();
    } else {
      var m := |ops| - 1;
      var before, op := ops[..m], ops[m];
      AlwaysTheRecentWindow(before);
      if RefusedBack(before, op) {
        RefusalChangesNothing(Run(before));
        assert op == GoBack && Effective(ops) == Effective(before) && Dropped(ops) == Dropped(before);
      } else {
        StepStaysAWindow(Run(before), IdealRun(Effective(before)), Dropped(before), op);
        assert Effective(ops)[..|Effective(ops)| - 1] == Effective(before);
      }
    }
  }

  lemma EmptyIsAWindow()
    ensures WindowOf(EMPTY, EMPTY, 0)
  {
  }

  lemma RefusalChangesNothing(h: History)
    requires InRange(h) && h.cursor == 0
    ensures Step(h, GoBack) == h && !Drops(h, GoBack)
  {
  }

  lemma {:induction false} EffectiveIsAll(ops: seq<Op>)
    requires forall k | 0 <= k < |ops| :: !RefusedBack(ops[..k], ops[k])
    ensures Effective(ops) == ops
  {
    hide RefusedBack, Run, Dropped;
    if ops != [] {
      var m := |ops| - 1;
      forall k | 0 <= k < m ensures !RefusedBack(ops[..m][..k], ops[..m][k]) {
        assert ops[..m][..k] == ops[..k] && !RefusedBack(ops[..k], ops[k]);
      }
      EffectiveIsAll(ops[..m]);
      assert ops == ops[..m] + [ops[m]];
      assert !RefusedBack(ops[..m], ops[m]);
    }
  }

  predicate Agree(ops: seq<Op>) {
    Current(Run(ops)) == Current(IdealRun(ops))
  }

  lemma WindowShowsTheSame(h: History, u: History, dropped: nat)
    requires WindowOf(h, u, dropped)
    ensures Current(h) == Current(u)
  {
  }

  lemma RefusalShows(ops: seq<Op>, op: Op)
    requires forall k | 0 <= k < |ops| :: !RefusedBack(ops[..k], ops[k])
    requires RefusedBack(ops, op)
    ensures !Agree(ops + [op])
  {
    EffectiveIsAll(ops);
    AlwaysTheRecentWindow(ops);
    var u, d := IdealRun(ops), Dropped(ops);
    assert u.stack[d - 1] != u.stack[d];
    assert (ops + [op])[..|ops|] == ops;
    assert Run(ops + [op]) == Step(Run(ops), op) && IdealRun(ops + [op]) == Ideal(u, op);
  }

  /** The bounded history shows what the unbounded one would, all along a run, exactly if going back was
      never refused at a dropped entry. */
  lemma {:induction false} ShowsTheSameExactly(ops: seq<Op>)
    ensures (forall k | 0 <= k <= |ops| :: Agree(ops[..k]))
            <==> (forall k | 0 <= k < |ops| :: !RefusedBack(ops[..k], ops[k]))
  {
    hide RefusedBack, Agree, WindowOf;
    if forall k | 0 <= k < |ops| :: !RefusedBack(ops[..k], ops[k]) {
      forall k | 0 <= k <= |ops| ensures Agree(ops[..k]) {
        UnrefusedPrefix(ops, k);
        AgreesUnlessRefused(ops[..k]);
      }
    } else {
      var k := FirstRefused(ops, 0);
      UnrefusedPrefix(ops[..k], k);
      RefusalShows(ops[..k], ops[k]);
      assert ops[..k] + [ops[k]] == ops[..k + 1];
    }
  }

  ghost function FirstRefused(ops: seq<Op>, from: nat): (k: nat)
    requires from <= |ops| && (exists k | from <= k < |ops| :: RefusedBack(ops[..k], ops[k]))
    requires forall j | 0 <= j < from :: !RefusedBack(ops[..j], ops[j])
    ensures k < |ops| && RefusedBack(ops[..k], ops[k])
    ensures forall j | 0 <= j < k :: !RefusedBack(ops[..k][..j], ops[..k][j])
    decreases |ops| - from
  {
    if RefusedBack(ops[..from], ops[from]) then
      assert forall j | 0 <= j < from :: ops[..from][..j] == ops[..j] && ops[..from][j] == ops[j];
      from
    else FirstRefused(ops, from + 1)
  }

  lemma UnrefusedPrefix(ops: seq<Op>, k: nat)
    requires k <= |ops| && forall j | 0 <= j < |ops| :: !RefusedBack(ops[..j], ops[j])
    ensures forall j | 0 <= j < k :: !RefusedBack(ops[..k][..j], ops[..k][j])
  {
    forall j | 0 <= j < k ensures !RefusedBack(ops[..k][..j], ops[..k][j]) {
      assert ops[..k][..j] == ops[..j] && !RefusedBack(ops[..j], ops[j]);
    }
  }

  lemma AgreesUnlessRefused(ops: seq<Op>)
    requires forall k | 0 <= k < |ops| :: !RefusedBack(ops[..k], ops[k])
    ensures Agree(ops)
  {
    EffectiveIsAll(ops);
    AlwaysTheRecentWindow(ops);
    WindowShowsTheSame(Run(ops), IdealRun(ops), Dropped(ops));
  }

  // ---------------------------------------------------------------- a refused going back

  /** The `n`-th of a series of distinct entries. */
  function Entry(n: nat): NavEntry {
    NavEntry(seq(n, _ => '/'), "", None, None, "", None, None)
  }

  function Series(first: nat, n: nat): (r: seq<NavEntry>)
    ensures |r| == n && forall k | 0 <= k < n :: r[k] == Entry(first + k)
  {
    seq(n, k requires 0 <= k < n => Entry(first + k))
  }

  function Visits(n: nat): seq<Op> {
    seq(n, k requires 0 <= k < n => Visit(Entry(k)))
  }

  lemma EntriesDiffer(m: nat, n: nat)
    ensures Entry(m) == Entry(n) <==> m == n
  {
    assert |Entry(m).route| == m && |Entry(n).route| == n;
  }

  lemma VisitNext(first: nat, n: nat)
    requires n <= MAX_HISTORY
    ensures var h := History(Series(first, n), n - 1);
            var op := Visit(Entry(first + n));
            && InRange(h) && (Drops(h, op) <==> n == MAX_HISTORY)
            && Step(h, op) == (if n < MAX_HISTORY then History(Series(first, n + 1), n)
                               else History(Series(first + 1, n), n - 1))
  {
    hide Entry;
    if n > 0 { EntriesDiffer(first + n - 1, first + n); }
    assert Series(first, n)[..n] + [Entry(first + n)] == Series(first, n + 1);
    assert Series(first, n + 1)[1..] == Series(first + 1, n);
  }

  lemma {:induction false} VisitsFill(n: nat)
    ensures var first := if n <= MAX_HISTORY then 0 else n - MAX_HISTORY;
            Run(Visits(n)) == History(Series(first, n - first), n - first - 1) && Dropped(Visits(n)) == first
  {
    hide Entry, Step, Drops, Series;
    if n == 0 {
      assert Run(Visits(0)) == EMPTY && Series(0, 0) == [];
    } else {
      var first := if n - 1 <= MAX_HISTORY then 0 else n - 1 - MAX_HISTORY;
      VisitsFill(n - 1);
      VisitNext(first, n - 1 - first);
      assert Visits(n)[..n - 1] == Visits(n - 1);
    }
  }

  function Backs(n: nat): seq<Op> {
    seq(n, _ => GoBack)
  }

  lemma OneMore(ops: seq<Op>, op: Op)
    ensures Run(ops + [op]) == Step(Run(ops), op)
    ensures Dropped(ops + [op]) == Dropped(ops) + if Drops(Run(ops), op) then 1 else 0
  {
    assert (ops + [op])[..|ops|] == ops;
  }

  lemma {:induction false} BacksMove(ops: seq<Op>, n: nat)
    requires n <= Run(ops).cursor
    ensures Run(ops + Backs(n)) == Run(ops).(cursor := Run(ops).cursor - n) && Dropped(ops + Backs(n)) == Dropped(ops)
  {
    hide Run, Dropped;
    if n == 0 {
      assert ops + Backs(0) == ops;
    } else {
      BacksMove(ops, n - 1);
      OneMore(ops + Backs(n - 1), GoBack);
      assert ops + Backs(n) == ops + Backs(n - 1) + [GoBack];
    }
  }

  /** Nothing is refused while the cursor is above the oldest entry. */
  lemma NotYetRefused(n: nat, m: nat, k: nat)
    requires m <= Run(Visits(n)).cursor && k < n + m
    ensures var ops := Visits(n) + Backs(m); !RefusedBack(ops[..k], ops[k])
  {
    hide Run, Dropped;
    var ops := Visits(n) + Backs(m);
    if k >= n {
      BacksMove(Visits(n), k - n);
      assert ops[..k] == Visits(n) + Backs(k - n);
    }
  }

  /** It happens: after 101 different entries the hundredth going back is refused, and shows something
      else than the unbounded history would. */
  lemma HundredthBackIsRefused()
    ensures var ops := Visits(101) + Backs(99); RefusedBack(ops, GoBack) && !Agree(ops + [GoBack])
  {
    hide Run, Dropped, Agree, Series;
    var ops := Visits(101) + Backs(99);
    VisitsFill(101);
    BacksMove(Visits(101), 99);
    forall k | 0 <= k < |ops| ensures !RefusedBack(ops[..k], ops[k]) { NotYetRefused(101, 99, k); }
    RefusalShows(ops, GoBack);
  }

  // ---------------------------------------------------------------- inverse moves

  function Times(h: History, op: Op, n: nat): (r: History)
    requires InRange(h)
    ensures InRange(r)
  {
    if n == 0 then h else Step(Times(h, op, n - 1), op)
  }

  lemma {:induction false} BackMoves(h: History, n: nat)
    requires InRange(h) && n <= h.cursor
    ensures Times(h, GoBack, n) == h.(cursor := h.cursor - n)
  {
    if n > 0 { BackMoves(h, n - 1); }
  }

  lemma {:induction false} ForwardMoves(h: History, n: nat)
    requires InRange(h) && h.cursor + n < |h.stack|
    ensures Times(h, GoForward, n) == h.(cursor := h.cursor + n)
  {
    if n > 0 { ForwardMoves(h, n - 1); }
  }

  /** Going back any number of entries, as far as there are any, and forward again restores the history,
      after any run; and the other way round. */
  lemma BackThenForward(ops: seq<Op>, n: nat)
    ensures n <= Run(ops).cursor ==> Times(Times(Run(ops), GoBack, n), GoForward, n) == Run(ops)
    ensures Run(ops).cursor + n < |Run(ops).stack| ==> Times(Times(Run(ops), GoForward, n), GoBack, n) == Run(ops)
  {
    var h := Run(ops);
    AlwaysTheRecentWindow(ops);
    if n <= h.cursor {
      BackMoves(h, n);
      ForwardMoves(h.(cursor := h.cursor - n), n);
    }
    if 0 < n && h.cursor + n < |h.stack| {
      ForwardMoves(h, n);
      BackMoves(h.(cursor := h.cursor + n), n);
    }
  }

  /** After any run, a visit shows its entry and leaves nothing to go forward to, even when it pushes the
      oldest entry out; going back from it shows what was shown before. */
  lemma VisitThenBack(ops: seq<Op>, e: NavEntry)
    ensures var h := Run(ops); var v := Step(h, Visit(e));
            && Current(v) == Some(e)
            && (Current(h) != Some(e) ==> v.cursor == |v.stack| - 1)
            && (h.stack != [] && Current(h) != Some(e) ==> Current(Step(v, GoBack)) == Current(h))
  {
    hide WindowOf, Step, Ideal, Run, Dropped, Effective;
    AlwaysTheRecentWindow(ops);
    WindowIsBounded(Run(ops), IdealRun(Effective(ops)), Dropped(ops));
    VisitThenBackFrom(Run(ops), e);
  }

  /** What a visit leaves, after any run: the same history if it is of the entry that is shown; else what led
      up to that entry and the new one, without the oldest if there are more than 100. */
  lemma VisitExactly(ops: seq<Op>, e: NavEntry)
    ensures var h := Run(ops); var v := Step(h, Visit(e));
            if Current(h) == Some(e) then v == h
            else
              var all := h.stack[..h.cursor + 1] + [e];
              && |v.stack| == (if |all| > 100 then 100 else |all|) && v.stack == all[|all| - |v.stack|..]
              && v.cursor == |v.stack| - 1
  {
    hide WindowOf, Run, Dropped, Effective;
    AlwaysTheRecentWindow(ops);
    WindowIsBounded(Run(ops), IdealRun(Effective(ops)), Dropped(ops));
  }

  /** Going back and forward move the cursor by one and change nothing else, and at either end do nothing. */
  lemma MovesExactly(h: History)
    requires InRange(h)
    ensures Step(h, GoBack) == if h.cursor > 0 then h.(cursor := h.cursor - 1) else h
    ensures Step(h, GoForward) == if h.cursor + 1 < |h.stack| then h.(cursor := h.cursor + 1) else h
  {
  }

  lemma WindowIsBounded(h: History, u: History, dropped: nat)
    requires WindowOf(h, u, dropped)
    ensures |h.stack| <= MAX_HISTORY
  {
  }

  lemma VisitThenBackFrom(h: History, e: NavEntry)
    requires InRange(h) && |h.stack| <= MAX_HISTORY
    ensures var v := Step(h, Visit(e));
            && InRange(v) && Current(v) == Some(e)
            && (Current(h) != Some(e) ==> v.cursor == |v.stack| - 1)
            && (h.stack != [] && Current(h) != Some(e) ==> Current(Step(v, GoBack)) == Current(h))
  {
  }

  // ---------------------------------------------------------------- the program

  class Navigator {
    var stack: seq<NavEntry>
    var cursor: int

    ghost function View(): History
      reads this
    {
      History(stack, cursor)
    }

    constructor ()
      ensures View() == EMPTY
    {
      stack, cursor := [], -1;
    }

    method Record(entry: NavEntry)
      requires InRange(View()) && |stack| <= MAX_HISTORY
      modifies this
      ensures View() == Step(old(View()), Visit(entry)) && InRange(View()) && |stack| <= MAX_HISTORY
    {
      if 0 <= cursor < |stack| && stack[cursor] == entry { return; }
      stack := stack[..cursor + 1];
      stack := stack + [entry];
      if |stack| > MAX_HISTORY {
        stack := stack[1..];
      }
      cursor := |stack| - 1;
    }

    /** The entry to restore, if there is one to go back to. */
    method Back() returns (restored: Option<NavEntry>)
      requires InRange(View())
      modifies this
      ensures View() == Step(old(View()), GoBack) && InRange(View())
      ensures restored == if View() == old(View()) then None else Current(View())
    {
      if cursor <= 0 { return None; }
      cursor := cursor - 1;
      return Some(stack[cursor]);
    }

    method Forward() returns (restored: Option<NavEntry>)
      requires InRange(View())
      modifies this
      ensures View() == Step(old(View()), GoForward) && InRange(View())
      ensures restored == if View() == old(View()) then None else Current(View())
    {
      if cursor >= |stack| - 1 { return None; }
      cursor := cursor + 1;
      return Some(stack[cursor]);
    }
  }
}
