/** Every interleaving of the forwarder accounts for its permits, its connections and their upstreams. */
module ForwarderProofs {
  import opened Common
  import opened Forwarder

  lemma {:induction false} RunKeepsInv(s: State, events: seq<Event>)
    requires Inv(s) && Possible(s, events)
    ensures Inv(Run(s, events))
    decreases |events|
  {
    if events != [] {
      StepKeepsInv(s, events[0]);
      RunKeepsInv(Step(s, events[0]), events[1..]);
    }
  }

  /**
   In every interleaving: free permits and active connections make sixteen, at
   most one accepted connection waits, each accepted connection is in exactly one
   place, and the waiting one is held up only while sixteen others are active.
   */
  lemma Accounting(initial: Addr, events: seq<Event>)
    requires Possible(Start(initial), events)
    ensures var s := Run(Start(initial), events);
            && s.free + |s.active| == MAX_INFLIGHT_CONNS
            && s.accepted == |Waiting(s)| + |s.active| + |s.finished| + |s.abandoned|
            && (forall c: Conn :: PlacesOf(s, c) == One(c < s.accepted))
            && |Waiting(s)| <= 1 && |s.abandoned| <= 1 && (s.loop != Aborted ==> s.abandoned == {})
            && (s.loop.Acquiring? ==> (Enabled(s, Grant) <==> |s.active| < MAX_INFLIGHT_CONNS))
  {
    RunKeepsInv(Start(initial), events);
  }

  lemma {:induction false} SplitRun(s: State, events: seq<Event>, k: nat)
    requires Possible(s, events) && k <= |events|
    ensures Possible(s, events[..k]) && Possible(Run(s, events[..k]), events[k..])
    ensures Run(Run(s, events[..k]), events[k..]) == Run(s, events)
    decreases k
  {
    if k == 0 {
      assert events[0..] == events;
    } else {
      assert events[..k][1..] == events[1..][..k - 1] && events[1..][k - 1..] == events[k..];
      SplitRun(Step(s, events[0]), events[1..], k - 1);
    }
  }

  // ── The accept loop ───────────────────────────────────────────────────────

  function Accepts(events: seq<Event>): nat {
    if events == [] then 0 else Accepts(events[..|events| - 1]) + One(events[|events| - 1] == Accept)
  }

  /** Where the events so far leave the accept loop: its last own one decides. */
  function LoopAfter(events: seq<Event>): Loop {
    if events == [] then Accepting
    else
      var before := events[..|events| - 1];
      match events[|events| - 1]
      case Accept => Acquiring(Accepts(before))
      case AcceptFails => BackingOff
      case BackoffEnds => Accepting
      case Grant => Accepting
      case Abort => Aborted
      case _ => LoopAfter(before)
  }

  /**
   In every interleaving the accept loop is where its own last event put it: a
   failed accept puts it to wait and nothing but the drop ends it.
   */
  lemma {:induction false} LoopFollows(initial: Addr, events: seq<Event>)
    requires Possible(Start(initial), events)
    ensures var s := Run(Start(initial), events);
            && s.loop == LoopAfter(events) && s.accepted == Accepts(events)
            && (s.loop == Aborted <==> Abort in events)
    decreases |events|
  {
    if events != [] {
      var n := |events| - 1;
      SplitRun(Start(initial), events, n);
      assert events[n..] == [events[n]] && events[n..][1..] == [];
      LoopFollows(initial, events[..n]);
      assert events == events[..n] + [events[n]];
    }
  }

  /** Neither the drop nor a swap nor a failing accept: nothing but waits that end. */
  predicate OnlyWaits(events: seq<Event>) {
    forall e <- events :: e == BackoffEnds || e == Grant || e.Dial? || e.Finish?
  }

  /** From here the loop gets back to accepting by these events, whatever else it was about to do. */
  ghost predicate LeadsBack(s: State, events: seq<Event>) {
    && |events| <= 3 && OnlyWaits(events) && Possible(s, events)
    && var after := Run(s, events);
       && after.loop == Accepting && Enabled(after, Accept) && Enabled(after, AcceptFails)
       && after.accepted == s.accepted && after.target == s.target
       && (s.loop.Acquiring? ==> s.loop.conn in after.active)
  }

  lemma WaitsEnd(s: State) returns (events: seq<Event>)
    requires Inv(s) && s.loop != Aborted
    ensures LeadsBack(s, events)
  {
    match s.loop
    case Accepting =>
      events := [];
    case BackingOff =>
      events := [BackoffEnds];
      assert events[1..] == [];
    case Acquiring(conn) =>
      events := PermitComes(s);
  }

  lemma RunOne(s: State, e: Event, rest: seq<Event>)
    requires Enabled(s, e) && Possible(Step(s, e), rest)
    ensures Possible(s, [e] + rest) && Run(s, [e] + rest) == Run(Step(s, e), rest)
  {
    assert ([e] + rest)[1..] == rest;
  }

  /** With all sixteen permits out, a connection task ends first. */
  lemma PermitComes(s: State) returns (events: seq<Event>)
    requires Inv(s) && s.loop.Acquiring?
    ensures LeadsBack(s, events)
  {
    if s.free > 0 {
      RunOne(s, Grant, []);
      events := [Grant] + [];
    } else {
      assert |s.active| == 16 && s.active != map[];
      var c :| c in s.active;
      assert PlacesOf(s, c) == One(c < s.accepted) && PlacesOf(s, s.loop.conn) == One(s.loop.conn < s.accepted);
      if s.active[c].Some? {
        var done := Step(s, Finish(c));
        RunOne(done, Grant, []);
        RunOne(s, Finish(c), [Grant] + []);
        events := [Finish(c)] + ([Grant] + []);
      } else {
        var dialed := Step(s, Dial(c));
        var done := Step(dialed, Finish(c));
        RunOne(done, Grant, []);
        RunOne(dialed, Finish(c), [Grant] + []);
        RunOne(s, Dial(c), [Finish(c)] + ([Grant] + []));
        events := [Dial(c)] + ([Finish(c)] + ([Grant] + []));
      }
    }
  }

  lemma OneWait(s: State)
    requires Inv(s)
    ensures s.loop == BackingOff ==> LeadsBack(s, [BackoffEnds])
    ensures s.loop.Acquiring? ==> (LeadsBack(s, [Grant]) <==> |s.active| < 16)
  {
    if s.loop == BackingOff {
      RunOne(s, BackoffEnds, []);
      assert [BackoffEnds] + [] == [BackoffEnds];
    } else if s.loop.Acquiring? && s.free > 0 {
      RunOne(s, Grant, []);
      assert [Grant] + [] == [Grant];
    } else if s.loop.Acquiring? {
      assert !Possible(s, [Grant]);
    }
  }

  /**
   So wherever a run without a drop has got to, the loop gets back to accepting
   without a further accept: from a failed one by waiting, and with a connection
   in hand - which then becomes active - as soon as fewer than sixteen are.
   */
  lemma LoopGoesOn(initial: Addr, events: seq<Event>)
    requires Possible(Start(initial), events) && Abort !in events
    ensures var s := Run(Start(initial), events);
            && (exists more :: LeadsBack(s, more)) && Enabled(s, Abort) && (forall a :: Enabled(s, Swap(a)))
            && (s.loop == BackingOff ==> LeadsBack(s, [BackoffEnds]))
            && (s.loop.Acquiring? ==> (LeadsBack(s, [Grant]) <==> |s.active| < 16))
  {
    var s := Run(Start(initial), events);
    LoopFollows(initial, events);
    RunKeepsInv(Start(initial), events);
    var more := WaitsEnd(s);
    OneWait(s);
  }

  // ── Upstreams ─────────────────────────────────────────────────────────────

  /** What the last swap of `events` stored, or `initial` when there is none. */
  function LastSwap(initial: Addr, events: seq<Event>): Addr {
    if events == [] then initial
    else if events[|events| - 1].Swap? then events[|events| - 1].addr
    else LastSwap(initial, events[..|events| - 1])
  }

  predicate NoSwap(events: seq<Event>) {
    forall e <- events :: !e.Swap?
  }

  lemma {:induction false} TargetIsLastSwap(s: State, events: seq<Event>)
    requires Possible(s, events)
    ensures Run(s, events).target == LastSwap(s.target, events)
    decreases |events|
  {
    if events != [] {
      var n := |events| - 1;
      SplitRun(s, events, n);
      assert events[n..] == [events[n]] && events[n..][1..] == [];
      TargetIsLastSwap(s, events[..n]);
    }
  }

  lemma StepKeepsUpstream(s: State, e: Event, c: Conn)
    requires Placed(s) && Enabled(s, e) && UpstreamOf(s, c).Some?
    ensures UpstreamOf(Step(s, e), c) == UpstreamOf(s, c)
  {
    assert PlacesOf(s, c) == One(c < s.accepted);
  }

  /** A connection that has an upstream keeps it, whatever happens next. */
  lemma {:induction false} UpstreamKept(s: State, events: seq<Event>, c: Conn)
    requires Inv(s) && Possible(s, events) && UpstreamOf(s, c).Some?
    ensures UpstreamOf(Run(s, events), c) == UpstreamOf(s, c)
    decreases |events|
  {
    if events != [] {
      StepKeepsInv(s, events[0]);
      StepKeepsUpstream(s, events[0], c);
      UpstreamKept(Step(s, events[0]), events[1..], c);
    }
  }

  /**
   A connection's upstream is the target of the last swap before its own dial:
   later swaps do not move it, earlier ones - even before it was accepted - count.
   */
  lemma UpstreamIsTargetAtDial(initial: Addr, events: seq<Event>, k: nat, c: Conn)
    requires Possible(Start(initial), events) && k < |events| && events[k] == Dial(c)
    ensures UpstreamOf(Run(Start(initial), events), c) == Some(LastSwap(initial, events[..k]))
  {
    var s := Start(initial);
    SplitRun(s, events, k);
    TargetIsLastSwap(s, events[..k]);
    RunKeepsInv(s, events[..k]);
    var at := Run(s, events[..k]);
    StepKeepsInv(at, events[k]);
    assert events[k..][1..] == events[k + 1..];
    UpstreamKept(Step(at, events[k]), events[k + 1..], c);
  }

  /** Conversely, an upstream is only ever the result of a dial, and a connection dials once. */
  lemma {:induction false} UpstreamComesFromDial(initial: Addr, events: seq<Event>, c: Conn)
    requires Possible(Start(initial), events) && UpstreamOf(Run(Start(initial), events), c).Some?
    ensures exists k :: 0 <= k < |events| && events[k] == Dial(c)
    decreases |events|
  {
    if events != [] {
      var n := |events| - 1;
      SplitRun(Start(initial), events, n);
      assert events[n..] == [events[n]] && events[n..][1..] == [];
      if events[n] != Dial(c) {
        assert UpstreamOf(Run(Start(initial), events[..n]), c).Some?;
        UpstreamComesFromDial(initial, events[..n], c);
        var k :| 0 <= k < n && events[..n][k] == Dial(c);
        assert events[k] == Dial(c);
      }
    }
  }

  lemma DialsOnce(initial: Addr, events: seq<Event>, j: nat, k: nat, c: Conn)
    requires Possible(Start(initial), events) && j < |events| && k < |events|
    requires events[j] == Dial(c) && events[k] == Dial(c)
    ensures j == k
  {
    SplitRun(Start(initial), events, j);
    SplitRun(Start(initial), events, k);
    if j < k {
      UpstreamIsTargetAtDial(initial, events[..k], j, c);
    } else if k < j {
      UpstreamIsTargetAtDial(initial, events[..j], k, c);
    }
  }

  lemma {:induction false} LastSwapBeforeQuiet(initial: Addr, events: seq<Event>, k: nat, j: nat)
    requires k <= j <= |events| && NoSwap(events[k..])
    ensures LastSwap(initial, events[..j]) == LastSwap(initial, events[..k])
    decreases j
  {
    if k < j {
      assert events[j - 1] == events[k..][j - 1 - k];
      assert events[..j][..j - 1] == events[..j - 1];
      LastSwapBeforeQuiet(initial, events, k, j - 1);
    }
  }

  /** Once the swapping stops, every dial goes to the last target stored. */
  lemma DialsFollowTheLastSwap(initial: Addr, events: seq<Event>, k: nat, j: nat, c: Conn)
    requires Possible(Start(initial), events) && k <= j < |events| && NoSwap(events[k..]) && events[j] == Dial(c)
    ensures UpstreamOf(Run(Start(initial), events), c) == Some(LastSwap(initial, events[..k]))
  {
    LastSwapBeforeQuiet(initial, events, k, j);
    UpstreamIsTargetAtDial(initial, events, j, c);
  }

  lemma DrainStep(s: State, e: Event)
    requires s.loop == Aborted && Enabled(s, e)
    ensures var after := Step(s, e);
            && after.loop == Aborted && after.accepted == s.accepted && after.abandoned == s.abandoned
            && after.active.Keys <= s.active.Keys && after.active.Keys + after.finished.Keys == s.active.Keys + s.finished.Keys
  {
    var after := Step(s, e);
    match e
    case Dial(c) =>
      assert after.active.Keys == s.active.Keys + {c} == s.active.Keys;
    case Finish(c) =>
      assert after.active.Keys == s.active.Keys - {c};
      assert after.finished.Keys == s.finished.Keys + {c};
    case Swap(_) =>
  }

  /** Active connections that have not dialed yet. */
  function Undialed(s: State): set<Conn> {
    set c <- s.active | s.active[c] == None
  }

  /** The steps left to the connection tasks: a dial and an end for each undialed one, an end for each other. */
  function WorkLeft(s: State): nat {
    |s.active| + |Undialed(s)|
  }

  function TaskSteps(events: seq<Event>): nat {
    if events == [] then 0 else (if events[0].Swap? then 0 else 1) + TaskSteps(events[1..])
  }

  lemma DrainSpends(s: State, e: Event)
    requires s.loop == Aborted && Enabled(s, e)
    ensures WorkLeft(Step(s, e)) == if e.Swap? then WorkLeft(s) else WorkLeft(s) - 1
  {
    var after := Step(s, e);
    match e
    case Dial(c) =>
      assert after.active.Keys == s.active.Keys && |after.active| == |after.active.Keys| && |s.active| == |s.active.Keys|;
      assert Undialed(after) == Undialed(s) - {c};
    case Finish(c) =>
      assert after.active.Keys == s.active.Keys - {c} && |after.active| == |after.active.Keys| && |s.active| == |s.active.Keys|;
      assert Undialed(after) == Undialed(s);
    case Swap(_) =>
      assert Undialed(after) == Undialed(s);
  }

  lemma UndialedAreActive(s: State)
    ensures |Undialed(s)| <= |s.active|
  {
    assert Undialed(s) <= s.active.Keys;
    Subset(Undialed(s), s.active.Keys);
  }

  lemma Subset(a: set<Conn>, b: set<Conn>)
    requires a <= b
    ensures |a| <= |b|
  {
    assert |b| == |a| + |b - a| by {
      assert b == a + (b - a);
    }
  }

  /** A connection task can always take its next step; only without one is there nothing left to do. */
  lemma TasksNeverStuck(s: State)
    ensures (exists e: Event :: !e.Swap? && !e.Abort? && s.loop == Aborted && Enabled(s, e)) <==> s.loop == Aborted && s.active != map[]
  {
    if s.loop == Aborted && s.active != map[] {
      var c :| c in s.active;
      var e := if s.active[c] == None then Dial(c) else Finish(c);
      assert Enabled(s, e) && !e.Swap? && !e.Abort?;
    }
  }

  /**
   After the drop nothing more is accepted or spawned, and the active connections
   drain: but for swaps there are exactly as many steps as work is left, at most
   two for each of them; as long as one is active some step is possible; and once
   the work is done none is active and all sixteen permits are back.
   */
  lemma {:induction false} DropOnlyDrains(s: State, events: seq<Event>)
    requires Inv(s) && s.loop == Aborted && Possible(s, events)
    ensures var end := Run(s, events);
            && end.loop == Aborted && end.accepted == s.accepted && end.abandoned == s.abandoned
            && end.active.Keys <= s.active.Keys && end.active.Keys + end.finished.Keys == s.active.Keys + s.finished.Keys
            && TaskSteps(events) + WorkLeft(end) == WorkLeft(s) <= 2 * |s.active|
            && (TaskSteps(events) == WorkLeft(s) <==> end.active == map[])
            && (end.active == map[] <==> end.free == MAX_INFLIGHT_CONNS)
            && (end.active != map[] <==> exists e: Event :: !e.Swap? && Enabled(end, e))
    decreases |events|
  {
    UndialedAreActive(s);
    if events != [] {
      StepKeepsInv(s, events[0]);
      DrainStep(s, events[0]);
      DrainSpends(s, events[0]);
      DropOnlyDrains(Step(s, events[0]), events[1..]);
    } else {
      Drained(s);
    }
  }

  lemma Drained(s: State)
    requires Inv(s) && s.loop == Aborted
    ensures WorkLeft(s) == 0 <==> s.active == map[]
    ensures s.active == map[] <==> s.free == MAX_INFLIGHT_CONNS
    ensures s.active != map[] <==> exists e: Event :: !e.Swap? && Enabled(s, e)
  {
    TasksNeverStuck(s);
    UndialedAreActive(s);
    assert |s.active| == 0 <==> s.active == map[];
    if e: Event :| !e.Swap? && Enabled(s, e) {
      assert !e.Abort?;
    }
  }
}
