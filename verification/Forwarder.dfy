/**
 The TCP forwarder: `src/tcp_forward.rs`.  The accept loop, the connection tasks
 and whoever swaps the target run concurrently; an interleaving is a sequence of
 the steps each of them takes between two awaits.  A connection is its number in
 accept order.
 */
module Forwarder {
  import opened Common

  type Addr = string
  type Conn = nat

  const MAX_INFLIGHT_CONNS: nat := 16

  /** Where the accept loop is awaiting. */
  datatype Loop = Accepting | Acquiring(conn: Conn) | BackingOff | Aborted

  datatype State = State(
    target: Addr,                          // the shared, swappable target
    free: nat,                             // permits left in the semaphore
    loop: Loop,
    accepted: nat,
    active: map<Conn, Option<Addr>>,       // connection tasks, and what each has dialed
    finished: map<Conn, Addr>,
    abandoned: set<Conn>)                  // accepted, but dropped with the accept loop

  datatype Event =
    | Accept
    | AcceptFails
    | BackoffEnds
    | Grant                                // a permit is acquired and the task spawned
    | Dial(conn: Conn)                     // the task reads the target and connects to it
    | Finish(conn: Conn)                   // the dial failed, or the copy ended or failed
    | Swap(addr: Addr)
    | Abort                                // the forwarder is dropped

  function Start(target: Addr): State {
    State(target, MAX_INFLIGHT_CONNS, Accepting, 0, map[], map[], {})
  }

  predicate Enabled(s: State, e: Event) {
    match e
    case Accept => s.loop == Accepting
    case AcceptFails => s.loop == Accepting
    case BackoffEnds => s.loop == BackingOff
    case Grant => s.loop.Acquiring? && s.free > 0
    case Dial(c) => c in s.active && s.active[c] == None
    case Finish(c) => c in s.active && s.active[c].Some?
    case Swap(_) => true
    case Abort => s.loop != Aborted
  }

  function Step(s: State, e: Event): State
    requires Enabled(s, e)
  {
    match e
    case Accept => s.(loop := Acquiring(s.accepted), accepted := s.accepted + 1)
    case AcceptFails => s.(loop := BackingOff)
    case BackoffEnds => s.(loop := Accepting)
    case Grant => s.(free := s.free - 1, active := s.active[s.loop.conn := None], loop := Accepting)
    case Dial(c) => s.(active := s.active[c := Some(s.target)])
    case Finish(c) => s.(free := s.free + 1, active := s.active - {c}, finished := s.finished[c := s.active[c].value])
    case Swap(a) => s.(target := a)
    case Abort => s.(loop := Aborted, abandoned := if s.loop.Acquiring? then s.abandoned + {s.loop.conn} else s.abandoned)
  }

  /** An interleaving that can happen from `s`. */
  predicate Possible(s: State, events: seq<Event>)
    decreases |events|
  {
    events == [] || (Enabled(s, events[0]) && Possible(Step(s, events[0]), events[1..]))
  }

  function Run(s: State, events: seq<Event>): State
    requires Possible(s, events)
    decreases |events|
  {
    if events == [] then s else Run(Step(s, events[0]), events[1..])
  }

  /** The upstream of a connection, once it has one. */
  function UpstreamOf(s: State, c: Conn): Option<Addr> {
    if c in s.active then s.active[c] else Get(s.finished, c)
  }

  // ── Accounting ────────────────────────────────────────────────────────────────

  function Waiting(s: State): set<Conn> {
    if s.loop.Acquiring? then {s.loop.conn} else {}
  }

  function One(b: bool): nat {
    if b then 1 else 0
  }

  /** In how many of the four places a connection is. */
  function PlacesOf(s: State, c: Conn): nat {
    One(c in Waiting(s)) + One(c in s.active) + One(c in s.finished) + One(c in s.abandoned)
  }

  /** Every accepted connection is waiting, active, finished or abandoned, and only one of them. */
  ghost predicate Placed(s: State) {
    && (forall c: Conn :: PlacesOf(s, c) == One(c < s.accepted))
    && (s.loop.Acquiring? ==> s.loop.conn + 1 == s.accepted)
  }

  /** Permits and connections are neither lost nor duplicated. */
  ghost predicate Counted(s: State) {
    && s.free + |s.active| == MAX_INFLIGHT_CONNS
    && s.accepted == |Waiting(s)| + |s.active| + |s.finished| + |s.abandoned|
    && (s.loop != Aborted ==> s.abandoned == {}) && |s.abandoned| <= 1
  }

  ghost predicate Inv(s: State) {
    Placed(s) && Counted(s)
  }

  lemma StepKeepsPlaced(s: State, e: Event)
    requires Placed(s) && Enabled(s, e)
    ensures Placed(Step(s, e))
  {
    var after := Step(s, e);
    forall c: Conn ensures PlacesOf(after, c) == One(c < after.accepted) {
      assert PlacesOf(s, c) == One(c < s.accepted);
    }
  }

  lemma StepKeepsCounted(s: State, e: Event)
    requires Placed(s) && Counted(s) && Enabled(s, e)
    ensures Counted(Step(s, e))
  {
    var after := Step(s, e);
    match e
    case Grant =>
      assert PlacesOf(s, s.loop.conn) == 1;
    case Finish(c) =>
      assert PlacesOf(s, c) == 1;
      assert after.active.Keys == s.active.Keys - {c} && |after.active| == |after.active.Keys| && |s.active| == |s.active.Keys|;
    case _ =>
  }

  lemma StepKeepsInv(s: State, e: Event)
    requires Inv(s) && Enabled(s, e)
    ensures Inv(Step(s, e))
  {
    StepKeepsPlaced(s, e);
    StepKeepsCounted(s, e);
  }

  // ── The same, in place ────────────────────────────────────────────────────

  class TcpForwarder {
    var target: Addr
    var free: nat
    var loop: Loop
    var accepted: nat
    var active: map<Conn, Option<Addr>>
    var finished: map<Conn, Addr>
    var abandoned: set<Conn>

    ghost function View(): State
      reads this
    {
      State(target, free, loop, accepted, active, finished, abandoned)
    }

    /** Permits and connections are all accounted for. */
    ghost predicate Valid()
      reads this
    {
      Inv(View())
    }

    constructor (initial: Addr)
      ensures Valid() && View() == Start(initial)
    {
      target, free, loop, accepted := initial, MAX_INFLIGHT_CONNS, Accepting, 0;
      active, finished, abandoned := map[], map[], {};
    }

    /** `listener.accept()` completes, with a connection or with an error. */
    method OnAccept(connected: bool)
      requires Valid() && loop == Accepting
      modifies this
      ensures Valid() && View() == Step(old(View()), if connected then Accept else AcceptFails)
    {
      StepKeepsInv(View(), if connected then Accept else AcceptFails);
      if connected {
        loop, accepted := Acquiring(accepted), accepted + 1;
      } else {
        loop := BackingOff;
      }
    }

    method OnBackoffEnd()
      requires Valid() && loop == BackingOff
      modifies this
      ensures Valid() && View() == Step(old(View()), BackoffEnds)
    {
      StepKeepsInv(View(), BackoffEnds);
      loop := Accepting;
    }

    /** `acquire_owned()` completes and the connection task is spawned. */
    method OnPermit()
      requires Valid() && Enabled(View(), Grant)
      modifies this
      ensures Valid() && View() == Step(old(View()), Grant)
    {
      StepKeepsInv(View(), Grant);
      ghost var next := Step(View(), Grant);
      free, active, loop := free - 1, active[loop.conn := None], Accepting;
      assert View() == next;
    }

    method OnDial(c: Conn) returns (upstream: Addr)
      requires Valid() && Enabled(View(), Dial(c))
      modifies this
      ensures Valid() && View() == Step(old(View()), Dial(c)) && upstream == old(target)
    {
      StepKeepsInv(View(), Dial(c));
      upstream := target;
      active := active[c := Some(upstream)];
    }

    /** The task returns, dropping its permit. */
    method OnFinish(c: Conn)
      requires Valid() && Enabled(View(), Finish(c))
      modifies this
      ensures Valid() && View() == Step(old(View()), Finish(c))
    {
      StepKeepsInv(View(), Finish(c));
      ghost var next := Step(View(), Finish(c));
      finished, active, free := finished[c := active[c].value], active - {c}, free + 1;
      assert View() == next;
    }

    method Store(addr: Addr)
      requires Valid()
      modifies this
      ensures Valid() && View() == Step(old(View()), Swap(addr))
    {
      StepKeepsInv(View(), Swap(addr));
      target := addr;
    }

    method Drop()
      requires Valid() && loop != Aborted
      modifies this
      ensures Valid() && View() == Step(old(View()), Abort)
    {
      StepKeepsInv(View(), Abort);
      if loop.Acquiring? {
        abandoned := abandoned + {loop.conn};
      }
      loop := Aborted;
    }
  }
}
