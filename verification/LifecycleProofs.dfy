/** Purge before forget: what holds at every point of every run, crashes included, and what breaks it. */
module LifecycleProofs {
  import opened Common
  import opened Lifecycle

  // ── The invariant ─────────────────────────────────────────────────────────

  /** A handle that agrees with the identity issued for its app uuid. */
  predicate Known(s: State, h: Handle) {
    h.appUuid in s.issued && s.issued[h.appUuid] == h
  }

  /** The session is listed, and its capability leads to its repository. */
  predicate Registered(s: State, h: Handle) {
    && h.sessionId in s.sessions && s.sessions[h.sessionId] == h
    && h.cap in s.caps && s.caps[h.cap] == h.repoUrl
  }

  ghost predicate IdentitiesDiffer(s: State) {
    forall a <- s.issued, b <- s.issued :: a != b ==>
      s.issued[a].sessionId != s.issued[b].sessionId && s.issued[a].cap != s.issued[b].cap
  }

  ghost predicate StoresKnown(s: State) {
    && (forall uuid <- s.issued :: s.issued[uuid].appUuid == uuid)
    && (forall uuid <- s.sidecars :: s.sidecars[uuid].appUuid == uuid && Known(s, s.sidecars[uuid]))
    && (forall sid <- s.sessions :: s.sessions[sid].sessionId == sid && Known(s, s.sessions[sid]))
  }

  /** Tasks born from a create call; at most one per app uuid. */
  predicate IsBorn(task: Task) {
    task.Creating? || task.Deploying? || task.DeployFailed? || task.Dropping?
  }

  ghost predicate BirthsDiffer(s: State) {
    forall a <- s.tasks, b <- s.tasks :: a != b && IsBorn(s.tasks[a]) && IsBorn(s.tasks[b]) ==>
      s.tasks[a].handle.appUuid != s.tasks[b].handle.appUuid
  }

  ghost predicate TaskOk(s: State, task: Task) {
    match task
    case Creating(h, stage) =>
      && Known(s, h)
      && (stage == ToInsert ==> h.cap in s.caps && s.caps[h.cap] == h.repoUrl)
      && (stage == ToSave ==> Registered(s, h))
    case Deploying(h) => Known(s, h) && h.appUuid in s.sidecars && Registered(s, h)
    case DeployFailed(h) => Known(s, h)
    case Dropping(h, _) => Known(s, h) && h.appUuid !in s.runners
    case Reaping(todo, stage) =>
      && (forall h <- todo :: Known(s, h) && !Pending(s, h.appUuid))
      && (stage != PurgeFirst && todo != [] ==> todo[0].appUuid !in s.runners)
    case Refreshing(_, loaded) => loaded.Some? ==> Known(s, loaded.value)
  }

  /** The property itself: a live marked runner has its sidecar on disk. */
  predicate NoStrandedRunner(s: State) {
    s.runners <= s.sidecars.Keys
  }

  ghost predicate PhaseOk(s: State) {
    match s.phase
    case Down => s.tasks == map[]
    case Adopting(listed, todo, complete) =>
      && s.tasks == map[] && s.runners <= listed
      && (complete ==> forall uuid <- s.runners :: uuid in todo || Reachable(s, uuid))
    case Serving(complete) =>
      complete ==> forall uuid <- s.runners :: Reachable(s, uuid)
  }

  predicate Reachable(s: State, uuid: string) {
    uuid in s.issued && Registered(s, s.issued[uuid])
  }

  ghost predicate Inv(s: State) {
    && NoStrandedRunner(s)
    && StoresKnown(s)
    && IdentitiesDiffer(s)
    && BirthsDiffer(s)
    && (forall id <- s.tasks :: TaskOk(s, s.tasks[id]))
    && PhaseOk(s)
  }

  // ── Effects ───────────────────────────────────────────────────────────────

  /** Nothing still needs what is dropped: no runner, and no deploy that may yet bring one. */
  ghost predicate Forgettable(s: State, h: Handle) {
    Known(s, h) && h.appUuid !in s.runners && !Pending(s, h.appUuid)
  }

  ghost predicate Safe(s: State, e: Effect) {
    match e
    case Nothing => true
    case DropRunner(_) => true
    case PutCap(h) => Known(s, h)
    case PutSession(h) => Known(s, h)
    case PutSidecar(h) => Known(s, h)
    case DropCap(h) => Forgettable(s, h)
    case DropSession(h) => Forgettable(s, h)
    case DropSidecar(h) => Forgettable(s, h)
  }

  /** A safe effect leaves every other session registered. */
  lemma EffectKeepsRegistered(s: State, e: Effect, g: Handle)
    requires StoresKnown(s) && IdentitiesDiffer(s) && Safe(s, e) && Known(s, g) && Registered(s, g)
    requires g.appUuid in s.runners || Pending(s, g.appUuid)
    ensures Registered(Do(s, e), g)
  {
    if e.PutCap? || e.PutSession? || e.DropCap? || e.DropSession? {
      if e.handle.appUuid == g.appUuid {
        assert e.handle == g;
      } else {
        assert e.handle.appUuid in s.issued && g.appUuid in s.issued;
      }
    }
  }

  lemma EffectKeepsStores(s: State, e: Effect)
    requires NoStrandedRunner(s) && StoresKnown(s) && Safe(s, e)
    ensures NoStrandedRunner(Do(s, e)) && StoresKnown(Do(s, e))
  {
  }

  lemma EffectKeepsPending(s: State, e: Effect)
    ensures forall uuid :: Pending(Do(s, e), uuid) <==> Pending(s, uuid)
  {
    assert Do(s, e).tasks == s.tasks;
  }

  lemma EffectKeepsTask(s: State, e: Effect, id: nat)
    requires StoresKnown(s) && IdentitiesDiffer(s) && Safe(s, e)
    requires id in s.tasks && TaskOk(s, s.tasks[id])
    ensures TaskOk(Do(s, e), s.tasks[id])
  {
    EffectKeepsPending(s, e);
    match s.tasks[id]
    case Creating(h, stage) =>
      assert Pending(s, h.appUuid);
      if stage == ToSave {
        EffectKeepsRegistered(s, e, h);
      } else if stage == ToInsert {
        CapKept(s, e, h);
      }
    case Deploying(h) =>
      assert Pending(s, h.appUuid);
      EffectKeepsRegistered(s, e, h);
    case _ =>
  }

  lemma CapKept(s: State, e: Effect, h: Handle)
    requires IdentitiesDiffer(s) && Safe(s, e) && Known(s, h) && Pending(s, h.appUuid)
    requires h.cap in s.caps && s.caps[h.cap] == h.repoUrl
    ensures h.cap in Do(s, e).caps && Do(s, e).caps[h.cap] == h.repoUrl
  {
    if (e.PutCap? || e.DropCap?) && e.handle.appUuid != h.appUuid {
      assert e.handle.appUuid in s.issued && h.appUuid in s.issued;
    }
  }

  lemma EffectKeepsInv(s: State, e: Effect)
    requires Inv(s) && s.phase.Serving? && Safe(s, e)
    ensures Inv(Do(s, e))
  {
    EffectKeepsStores(s, e);
    forall id <- s.tasks ensures TaskOk(Do(s, e), s.tasks[id]) {
      EffectKeepsTask(s, e, id);
    }
    if s.phase.complete {
      forall uuid <- Do(s, e).runners ensures Reachable(Do(s, e), uuid) {
        assert Reachable(s, uuid);
        EffectKeepsRegistered(s, e, s.issued[uuid]);
      }
    }
  }

  // ── Task changes ──────────────────────────────────────────────────────────

  /** The successor is fine, keeps the create-born identity and makes no deploy pending that was not. */
  ghost predicate Succeeds(s: State, id: nat, next: Option<Task>)
    requires id in s.tasks
  {
    next.Some? ==>
      && TaskOk(s, next.value)
      && (IsBorn(next.value) ==> IsBorn(s.tasks[id]) && next.value.handle == s.tasks[id].handle)
      && (IsPending(next.value) ==> IsPending(s.tasks[id]))
  }

  lemma SuccessorPending(s: State, id: nat, next: Option<Task>)
    requires id in s.tasks && Succeeds(s, id, next)
    ensures forall uuid :: Pending(WithTask(s, id, next), uuid) ==> Pending(s, uuid)
  {
    var t := WithTask(s, id, next);
    forall uuid | Pending(t, uuid) ensures Pending(s, uuid) {
      var w :| w in t.tasks && IsPending(t.tasks[w]) && t.tasks[w].handle.appUuid == uuid;
      assert w in s.tasks && IsPending(s.tasks[w]) && s.tasks[w].handle.appUuid == uuid;
    }
  }

  /** A task is judged by the stores and by which deploys are pending, and only fewer of those. */
  lemma TaskOkMonotone(s: State, t: State, task: Task)
    requires TaskOk(s, task) && t == s.(tasks := t.tasks)
    requires forall uuid :: Pending(t, uuid) ==> Pending(s, uuid)
    ensures TaskOk(t, task)
  {
  }

  lemma SuccessorKeepsInv(s: State, id: nat, next: Option<Task>)
    requires Inv(s) && s.phase.Serving? && id in s.tasks && Succeeds(s, id, next)
    ensures Inv(WithTask(s, id, next))
  {
    var t := WithTask(s, id, next);
    SuccessorPending(s, id, next);
    forall i <- t.tasks ensures TaskOk(t, t.tasks[i]) {
      TaskOkMonotone(s, t, t.tasks[i]);
    }
    forall a <- t.tasks | IsBorn(t.tasks[a]) ensures a in s.tasks && IsBorn(s.tasks[a]) && s.tasks[a].handle == t.tasks[a].handle {
    }
  }

  // ── Advancing ─────────────────────────────────────────────────────────────

  /** The owner of a create-born task past its deploy has no other deploy pending. */
  lemma BornAlone(s: State, id: nat)
    requires BirthsDiffer(s) && id in s.tasks && IsBorn(s.tasks[id]) && !IsPending(s.tasks[id])
    ensures !Pending(s, s.tasks[id].handle.appUuid)
  {
    if Pending(s, s.tasks[id].handle.appUuid) {
      var w :| w in s.tasks && IsPending(s.tasks[w]) && s.tasks[w].handle.appUuid == s.tasks[id].handle.appUuid;
      assert w != id && IsBorn(s.tasks[w]);
    }
  }

  lemma EffectIsSafe(s: State, id: nat, ok: bool)
    requires Inv(s) && id in s.tasks
    ensures Safe(s, EffectOf(s.tasks[id], ok))
  {
    assert TaskOk(s, s.tasks[id]);
    match s.tasks[id]
    case Dropping(_, _) => BornAlone(s, id);
    case _ =>
  }

  lemma BornSuccessorIsFine(s: State, id: nat, ok: bool)
    requires Inv(s) && s.phase.Serving? && id in s.tasks && SidecarSaved(s, Advance(id, ok)) && IsBorn(s.tasks[id])
    ensures var t := Do(s, EffectOf(s.tasks[id], ok));
            id in t.tasks && Succeeds(t, id, Successor(s.sidecars, s.tasks[id], ok))
  {
    var task := s.tasks[id];
    EffectIsSafe(s, id, ok);
    EffectKeepsTask(s, EffectOf(task, ok), id);
  }

  lemma OtherSuccessorIsFine(s: State, id: nat, ok: bool)
    requires Inv(s) && s.phase.Serving? && id in s.tasks && !IsBorn(s.tasks[id])
    ensures var t := Do(s, EffectOf(s.tasks[id], ok));
            id in t.tasks && Succeeds(t, id, Successor(s.sidecars, s.tasks[id], ok))
  {
    var task := s.tasks[id];
    assert TaskOk(s, task);
    EffectKeepsPending(s, EffectOf(task, ok));
    EffectIsSafe(s, id, ok);
    EffectKeepsTask(s, EffectOf(task, ok), id);
  }

  lemma SuccessorIsFine(s: State, id: nat, ok: bool)
    requires Inv(s) && s.phase.Serving? && id in s.tasks && SidecarSaved(s, Advance(id, ok))
    ensures var t := Do(s, EffectOf(s.tasks[id], ok));
            id in t.tasks && Succeeds(t, id, Successor(s.sidecars, s.tasks[id], ok))
  {
    if IsBorn(s.tasks[id]) {
      BornSuccessorIsFine(s, id, ok);
    } else {
      OtherSuccessorIsFine(s, id, ok);
    }
  }

  lemma AdvanceKeepsInv(s: State, id: nat, ok: bool)
    requires Inv(s) && s.phase.Serving? && id in s.tasks && SidecarSaved(s, Advance(id, ok))
    ensures Inv(AdvanceTask(s, id, ok))
  {
    var e := EffectOf(s.tasks[id], ok);
    EffectIsSafe(s, id, ok);
    EffectKeepsInv(s, e);
    SuccessorIsFine(s, id, ok);
    SuccessorKeepsInv(Do(s, e), id, Successor(s.sidecars, s.tasks[id], ok));
  }

  // ── The other steps ───────────────────────────────────────────────────────

  /** Adding a task that is fine and born of no pending deploy. */
  lemma NewTaskKeepsInv(s: State, id: nat, task: Task)
    requires Inv(s) && s.phase.Serving? && id !in s.tasks && !IsBorn(task) && TaskOk(s, task)
    ensures Inv(WithTask(s, id, Some(task)))
  {
    var t := WithTask(s, id, Some(task));
    forall uuid | Pending(t, uuid) ensures Pending(s, uuid) {
      var w :| w in t.tasks && IsPending(t.tasks[w]) && t.tasks[w].handle.appUuid == uuid;
      assert w in s.tasks && IsPending(s.tasks[w]) && s.tasks[w].handle.appUuid == uuid;
    }
    forall i <- t.tasks ensures TaskOk(t, t.tasks[i]) {
      TaskOkMonotone(s, t, t.tasks[i]);
    }
  }

  lemma {:induction false} SelectedKnown(s: State, ids: seq<string>)
    requires StoresKnown(s)
    ensures forall h <- Selected(s, ids) :: Known(s, h)
  {
    if ids != [] {
      SelectedKnown(s, ids[1..]);
    }
  }

  lemma CreateKeepsStores(s: State, id: nat, h: Handle)
    requires Inv(s) && Enabled(s, BeginCreate(id, h)) && FreshMints(s, BeginCreate(id, h)) && FreshUuid(s, BeginCreate(id, h))
    ensures var t := Apply(s, BeginCreate(id, h));
            NoStrandedRunner(t) && StoresKnown(t) && IdentitiesDiffer(t) && PhaseOk(t)
  {
    var t := Apply(s, BeginCreate(id, h));
    if s.phase.complete {
      forall uuid <- t.runners ensures Reachable(t, uuid) {
        assert Reachable(s, uuid);
      }
    }
  }

  lemma CreateKeepsInv(s: State, id: nat, h: Handle)
    requires Inv(s) && Enabled(s, BeginCreate(id, h)) && FreshMints(s, BeginCreate(id, h)) && FreshUuid(s, BeginCreate(id, h))
    ensures Inv(Apply(s, BeginCreate(id, h)))
  {
    var t := Apply(s, BeginCreate(id, h));
    assert forall g :: Known(s, g) ==> Known(t, g);
    assert forall uuid :: uuid != h.appUuid && Pending(t, uuid) ==> Pending(s, uuid) by {
      forall uuid | uuid != h.appUuid && Pending(t, uuid) ensures Pending(s, uuid) {
        var w :| w in t.tasks && IsPending(t.tasks[w]) && t.tasks[w].handle.appUuid == uuid;
        assert w in s.tasks && IsPending(s.tasks[w]) && s.tasks[w].handle.appUuid == uuid;
      }
    }
    forall i <- t.tasks ensures TaskOk(t, t.tasks[i]) {
      if i != id {
        assert TaskOk(s, s.tasks[i]);
        CreateKeepsTask(s, t, h, s.tasks[i]);
      }
    }
    forall a <- s.tasks | IsBorn(s.tasks[a]) ensures s.tasks[a].handle.appUuid != h.appUuid {
      assert TaskOk(s, s.tasks[a]);
    }
    CreateKeepsStores(s, id, h);
  }

  lemma CreateKeepsTask(s: State, t: State, h: Handle, task: Task)
    requires TaskOk(s, task) && h.appUuid !in s.issued
    requires t == s.(tasks := t.tasks, issued := s.issued[h.appUuid := h])
    requires forall uuid :: uuid != h.appUuid && Pending(t, uuid) ==> Pending(s, uuid)
    ensures TaskOk(t, task)
  {
  }

  lemma SpawnKeepsInv(s: State, id: nat)
    requires Inv(s) && Enabled(s, Spawn(id))
    ensures Inv(Apply(s, Spawn(id)))
  {
    var t, h := Apply(s, Spawn(id)), s.tasks[id].handle;
    assert TaskOk(s, s.tasks[id]);
    assert Pending(s, h.appUuid);
    assert forall uuid :: Pending(t, uuid) <==> Pending(s, uuid) by { assert t.tasks == s.tasks; }
    forall i <- t.tasks ensures TaskOk(t, t.tasks[i]) {
      assert TaskOk(s, s.tasks[i]);
      if s.tasks[i].Dropping? {
        assert i != id && IsBorn(s.tasks[i]) && IsBorn(s.tasks[id]);
      }
    }
  }

  lemma VanishKeepsInv(s: State, uuid: string)
    requires Inv(s)
    ensures Inv(Apply(s, Vanish(uuid)))
  {
    var t := Apply(s, Vanish(uuid));
    assert forall u :: Pending(t, u) <==> Pending(s, u) by { assert t.tasks == s.tasks; }
    forall i <- t.tasks ensures TaskOk(t, t.tasks[i]) {
      assert TaskOk(s, s.tasks[i]);
    }
    if (s.phase.Serving? || s.phase.Adopting?) && s.phase.complete {
      forall u <- t.runners ensures Reachable(t, u) || (s.phase.Adopting? && u in s.phase.todo) {
        assert u in s.runners;
        assert Reachable(s, u) ==> Reachable(t, u);
      }
    }
  }

  lemma AdoptKeepsStores(s: State, uuid: string, ok: bool)
    requires Inv(s) && Enabled(s, Adopt(uuid, ok))
    ensures var t := Apply(s, Adopt(uuid, ok)); NoStrandedRunner(t) && StoresKnown(t)
  {
    assert Known(s, s.sidecars[uuid]) && s.sidecars[uuid].appUuid == uuid;
  }

  lemma AdoptKeepsReachable(s: State, uuid: string, ok: bool, u: string)
    requires Inv(s) && Enabled(s, Adopt(uuid, ok)) && u in s.runners
    requires u == uuid || Reachable(s, u)
    ensures Reachable(Apply(s, Adopt(uuid, ok)), u)
  {
    assert Known(s, s.sidecars[uuid]) && s.sidecars[uuid].appUuid == uuid;
    if u != uuid {
      assert u in s.issued && uuid in s.issued;
      assert Known(s, s.issued[u]);
    }
  }

  /** Adopting or collecting one sidecar. */
  lemma AdoptKeepsInv(s: State, uuid: string, ok: bool)
    requires Inv(s) && Enabled(s, Adopt(uuid, ok))
    ensures Inv(Apply(s, Adopt(uuid, ok)))
  {
    var t := Apply(s, Adopt(uuid, ok));
    AdoptKeepsStores(s, uuid, ok);
    if s.phase.complete {
      forall u <- t.runners ensures u in t.phase.todo || Reachable(t, u) {
        assert u in s.phase.todo || Reachable(s, u);
        if u == uuid || Reachable(s, u) {
          AdoptKeepsReachable(s, uuid, ok, u);
        }
      }
    }
  }

  lemma BootKeepsInv(s: State, step: Step)
    requires Inv(s) && Enabled(s, step) && ListingComplete(s, step)
    requires step.Crash? || step.ListRunners? || step.Serve?
    ensures Inv(Apply(s, step))
  {
  }

  lemma StepKeepsInv(s: State, step: Step)
    requires Inv(s) && Enabled(s, step) && Assumed(s, step, {})
    ensures Inv(Apply(s, step))
  {
    match step
    case BeginCreate(id, h) => CreateKeepsInv(s, id, h);
    case BeginReap(id, ids) =>
      SelectedKnown(s, ids);
      NewTaskKeepsInv(s, id, Reaping(Selected(s, ids), PurgeFirst));
    case BeginRefresh(id, sid) => NewTaskKeepsInv(s, id, Refreshing(s.sessions[sid].appUuid, None));
    case Advance(id, ok) => AdvanceKeepsInv(s, id, ok);
    case Spawn(id) => SpawnKeepsInv(s, id);
    case Vanish(uuid) => VanishKeepsInv(s, uuid);
    case Adopt(uuid, ok) => AdoptKeepsInv(s, uuid, ok);
    case _ => BootKeepsInv(s, step);
  }

  // ── Every run ─────────────────────────────────────────────────────────────

  /** A supervisor about to start over any disk that strands no runner. */
  ghost predicate Boot(s: State) {
    && NoStrandedRunner(s) && StoresKnown(s) && IdentitiesDiffer(s)
    && s.tasks == map[] && s.sessions == map[] && s.caps == map[] && s.phase == Down
  }

  lemma {:induction false} RunKeepsInv(s: State, steps: seq<Step>)
    requires Inv(s) && Legal(s, steps) && AssumedRun(s, steps, {})
    ensures Inv(Exec(s, steps))
    decreases |steps|
  {
    if steps != [] {
      StepKeepsInv(s, steps[0]);
      RunKeepsInv(Apply(s, steps[0]), steps[1..]);
    }
  }

  /**
   Purge before forget: at every point of every run from any good disk - crashes
   anywhere, handlers, deploys, sweeps and refreshes interleaved in any way - a
   live marked runner has its sidecar; and while serving after a complete
   re-adoption it is also listed, and its capability leads to its repository.
   */
  lemma PurgeBeforeForget(s: State, steps: seq<Step>)
    requires Boot(s) && Legal(s, steps) && AssumedRun(s, steps, {})
    ensures var end := Exec(s, steps);
            && end.runners <= end.sidecars.Keys
            && (end.phase.Serving? && end.phase.complete ==>
                  forall uuid <- end.runners ::
                    var h := end.sidecars[uuid];
                    h.appUuid == uuid && Get(end.sessions, h.sessionId) == Some(h) && Get(end.caps, h.cap) == Some(h.repoUrl))
  {
    RunKeepsInv(s, steps);
    var end := Exec(s, steps);
    if end.phase.Serving? && end.phase.complete {
      forall uuid <- end.runners ensures Reachable(end, uuid) && end.issued[uuid] == end.sidecars[uuid] {
        assert Known(end, end.sidecars[uuid]);
      }
    }
  }

  // ── Each assumption is needed ─────────────────────────────────────────────

  /** A run of two or more steps, taken one at a time. */
  lemma FirstStep(s: State, steps: seq<Step>, dropped: set<Assumption>)
    requires steps != [] && Enabled(s, steps[0]) && Assumed(s, steps[0], dropped)
    requires Legal(Apply(s, steps[0]), steps[1..]) && AssumedRun(Apply(s, steps[0]), steps[1..], dropped)
    ensures Legal(s, steps) && AssumedRun(s, steps, dropped)
    ensures Exec(s, steps) == Exec(Apply(s, steps[0]), steps[1..])
  {
  }

  /** Five steps at a time. */
  lemma FiveSteps(s: State, steps: seq<Step>, dropped: set<Assumption>, t: seq<State>)
    requires |steps| == 5 && |t| == 6 && t[0] == s
    requires forall i :: 0 <= i < 5 ==> Enabled(t[i], steps[i]) && Assumed(t[i], steps[i], dropped) && t[i + 1] == Apply(t[i], steps[i])
    ensures Legal(s, steps) && AssumedRun(s, steps, dropped) && Exec(s, steps) == t[5]
  {
    assert steps[5..] == [] && Legal(t[5], steps[5..]);
    FirstStep(t[4], steps[4..], dropped) by { assert steps[4..][1..] == steps[5..]; }
    FirstStep(t[3], steps[3..], dropped) by { assert steps[3..][1..] == steps[4..]; }
    FirstStep(t[2], steps[2..], dropped) by { assert steps[2..][1..] == steps[3..]; }
    FirstStep(t[1], steps[1..], dropped) by { assert steps[1..][1..] == steps[2..]; }
    FirstStep(t[0], steps, dropped);
  }

  lemma {:induction false} RunConcat(s: State, a: seq<Step>, b: seq<Step>, dropped: set<Assumption>)
    requires Legal(s, a) && AssumedRun(s, a, dropped)
    requires Legal(Exec(s, a), b) && AssumedRun(Exec(s, a), b, dropped)
    ensures Legal(s, a + b) && AssumedRun(s, a + b, dropped) && Exec(s, a + b) == Exec(Exec(s, a), b)
    decreases |a|
  {
    if a == [] {
      assert a + b == b;
    } else {
      assert (a + b)[1..] == a[1..] + b;
      RunConcat(Apply(s, a[0]), a[1..], b, dropped);
    }
  }

  /** A supervisor with nothing on disk, already serving. */
  const IDLE := State({}, map[], map[], map[], map[], map[], Serving(true))

  /** A create call up to the point where its background deploy has brought up the runner. */
  function CreateAndSpawn(h: Handle, saved: bool): seq<Step> {
    [BeginCreate(0, h), Advance(0, true), Advance(0, true), Advance(0, saved), Spawn(0)]
  }

  /** Without the save assumption: a sidecar save that fails leaves the runner without one. */
  lemma UnsavedSidecarStrands(h: Handle)
    ensures var steps := CreateAndSpawn(h, false);
            && Legal(IDLE, steps) && AssumedRun(IDLE, steps, {SidecarsSaved})
            && Exec(IDLE, steps).runners == {h.appUuid} && Exec(IDLE, steps).sidecars == map[]
  {
    var s1 := Apply(IDLE, BeginCreate(0, h));
    var s2 := Apply(s1, Advance(0, true));
    var s3 := Apply(s2, Advance(0, true));
    var s4 := Apply(s3, Advance(0, false));
    var s5 := Apply(s4, Spawn(0));
    FiveSteps(IDLE, CreateAndSpawn(h, false), {SidecarsSaved}, [IDLE, s1, s2, s3, s4, s5]);
  }

  /** A create whose deploy is pending, and a delete of that session begun meanwhile. */
  function CreateThenDelete(h: Handle): seq<Step> {
    [BeginCreate(0, h), Advance(0, true), Advance(0, true), Advance(0, true), BeginReap(1, [h.sessionId])]
  }

  /** The delete runs through; then the deploy brings up its runner. */
  const DELETE_THEN_SPAWN := [Advance(1, true), Advance(1, true), Advance(1, true), Advance(1, true), Spawn(0)]

  /** One created session, its deploy pending, a delete of it about to purge. */
  function DeleteBegun(h: Handle): State {
    State({}, map[h.appUuid := h], map[h.sessionId := h], map[h.cap := h.repoUrl],
          map[0 := Deploying(h), 1 := Reaping([h], PurgeFirst)], map[h.appUuid := h], Serving(true))
  }

  /** A create call under way, its first effects done. */
  function Created(h: Handle, stage: Task, sessions: map<string, Handle>, caps: map<string, string>, sidecars: map<string, Handle>): State {
    State({}, sidecars, sessions, caps, map[0 := stage], map[h.appUuid := h], Serving(true))
  }

  lemma CreateAdvances(h: Handle)
    ensures var sessions, caps, sidecars := map[h.sessionId := h], map[h.cap := h.repoUrl], map[h.appUuid := h];
            && Apply(IDLE, BeginCreate(0, h)) == Created(h, Creating(h, ToRegister), map[], map[], map[])
            && AdvanceTask(Created(h, Creating(h, ToRegister), map[], map[], map[]), 0, true) == Created(h, Creating(h, ToInsert), map[], caps, map[])
            && AdvanceTask(Created(h, Creating(h, ToInsert), map[], caps, map[]), 0, true) == Created(h, Creating(h, ToSave), sessions, caps, map[])
            && AdvanceTask(Created(h, Creating(h, ToSave), sessions, caps, map[]), 0, true) == Created(h, Deploying(h), sessions, caps, sidecars)
  {
  }

  lemma DeleteBegins(h: Handle)
    ensures var steps := CreateThenDelete(h);
            Legal(IDLE, steps) && AssumedRun(IDLE, steps, {NoOverlap}) && Exec(IDLE, steps) == DeleteBegun(h)
  {
    CreateAdvances(h);
    var s1 := Apply(IDLE, BeginCreate(0, h));
    var s2 := Apply(s1, Advance(0, true));
    var s3 := Apply(s2, Advance(0, true));
    var s4 := Apply(s3, Advance(0, true));
    assert [h.sessionId][1..] == [] && Selected(s4, [h.sessionId]) == [h] + Selected(s4, []) == [h];
    var s5 := Apply(s4, BeginReap(1, [h.sessionId]));
    assert s5 == DeleteBegun(h);
    FiveSteps(IDLE, CreateThenDelete(h), {NoOverlap}, [IDLE, s1, s2, s3, s4, s5]);
  }

  /** The delete after its purge: what is left of the session, with its deploy still pending. */
  function Deleting(h: Handle, todo: seq<Handle>, reap: ReapStage, sessions: map<string, Handle>, caps: map<string, string>,
                    sidecars: map<string, Handle>): State {
    State({}, sidecars, sessions, caps, map[0 := Deploying(h), 1 := Reaping(todo, reap)], map[h.appUuid := h], Serving(true))
  }

  lemma DeleteForgets(h: Handle)
    ensures var sessions, caps, sidecars := map[h.sessionId := h], map[h.cap := h.repoUrl], map[h.appUuid := h];
            && AdvanceTask(DeleteBegun(h), 1, true) == Deleting(h, [h], ThenRemove, sessions, caps, sidecars)
            && AdvanceTask(Deleting(h, [h], ThenRemove, sessions, caps, sidecars), 1, true) == Deleting(h, [h], ThenRevoke, map[], caps, sidecars)
            && AdvanceTask(Deleting(h, [h], ThenRevoke, map[], caps, sidecars), 1, true) == Deleting(h, [h], ThenUnlink, map[], map[], sidecars)
            && AdvanceTask(Deleting(h, [h], ThenUnlink, map[], map[], sidecars), 1, true) == Deleting(h, [], PurgeFirst, map[], map[], map[])
  {
    assert map[h.sessionId := h] - {h.sessionId} == map[] && map[h.cap := h.repoUrl] - {h.cap} == map[];
    assert map[h.appUuid := h] - {h.appUuid} == map[];
    assert [h][1..] == [];
  }

  lemma DeleteRunsThrough(h: Handle)
    ensures var s := DeleteBegun(h);
            && Legal(s, DELETE_THEN_SPAWN) && AssumedRun(s, DELETE_THEN_SPAWN, {NoOverlap})
            && Exec(s, DELETE_THEN_SPAWN).runners == {h.appUuid} && Exec(s, DELETE_THEN_SPAWN).sidecars == map[]
  {
    DeleteForgets(h);
    var s5 := DeleteBegun(h);
    var s6 := Apply(s5, Advance(1, true));
    var s7 := Apply(s6, Advance(1, true));
    var s8 := Apply(s7, Advance(1, true));
    var s9 := Apply(s8, Advance(1, true));
    assert s9 == Deleting(h, [], PurgeFirst, map[], map[], map[]);
    var s10 := Apply(s9, Spawn(0));
    FiveSteps(s5, DELETE_THEN_SPAWN, {NoOverlap}, [s5, s6, s7, s8, s9, s10]);
  }

  /** Without the overlap assumption: a delete finishing inside the deploy leaves the runner without a sidecar. */
  lemma DeleteDuringDeployStrands(h: Handle)
    ensures var steps := CreateThenDelete(h) + DELETE_THEN_SPAWN;
            && Legal(IDLE, steps) && AssumedRun(IDLE, steps, {NoOverlap})
            && Exec(IDLE, steps).runners == {h.appUuid} && Exec(IDLE, steps).sidecars == map[]
  {
    DeleteBegins(h);
    DeleteRunsThrough(h);
    RunConcat(IDLE, CreateThenDelete(h), DELETE_THEN_SPAWN, {NoOverlap});
  }

  // ── Two creates of one app uuid ───────────────────────────────────────────

  /** Two creates naming the same app uuid, under different session ids and capabilities. */
  predicate Repeats(h1: Handle, h2: Handle) {
    h1.appUuid == h2.appUuid && h1.sessionId != h2.sessionId && h1.cap != h2.cap
  }

  /** The first create returns, its deploy pending, and the second begins. */
  function CreateTwice(h1: Handle, h2: Handle): seq<Step> {
    [BeginCreate(0, h1), Advance(0, true), Advance(0, true), Advance(0, true), BeginCreate(1, h2)]
  }

  /** The second returns, its deploy pending; then the first deploy fails and its purge succeeds. */
  const SECOND_RETURNS := [Advance(1, true), Advance(1, true), Advance(1, true), Advance(0, false), Advance(0, true)]

  /** The cleanup of the first forgets it; meanwhile the second deploy brings up the runner. */
  const CLEANUP_UNLINKS := [Advance(0, true), Advance(0, true), Spawn(1), Advance(0, true), Advance(1, true)]

  /** Both creates known, the second one's identity the last issued. */
  function Both(h: Handle, tasks: map<nat, Task>, runners: set<string>, sidecars: map<string, Handle>,
                sessions: map<string, Handle>, caps: map<string, string>): State {
    State(runners, sidecars, sessions, caps, tasks, map[h.appUuid := h], Serving(true))
  }

  lemma FirstCreated(h1: Handle, h2: Handle)
    requires Repeats(h1, h2)
    ensures var end := Creating2(h1, h2, ToRegister, map[h1.sessionId := h1], map[h1.cap := h1.repoUrl]);
            && Legal(IDLE, CreateTwice(h1, h2)) && AssumedRun(IDLE, CreateTwice(h1, h2), {UuidsFresh})
            && Exec(IDLE, CreateTwice(h1, h2)) == end
  {
    CreateAdvances(h1);
    var s1 := Apply(IDLE, BeginCreate(0, h1));
    var s2 := Apply(s1, Advance(0, true));
    var s3 := Apply(s2, Advance(0, true));
    var s4 := Apply(s3, Advance(0, true));
    var s5 := Apply(s4, BeginCreate(1, h2));
    assert s5.tasks == map[0 := Deploying(h1), 1 := Creating(h2, ToRegister)];
    assert s5.issued == map[h2.appUuid := h2];
    FiveSteps(IDLE, CreateTwice(h1, h2), {UuidsFresh}, [IDLE, s1, s2, s3, s4, s5]);
  }

  /** The step leads from the one state to the other, with no assumption violated but the freshness of app uuids. */
  ghost predicate Leads(s: State, step: Step, t: State) {
    Enabled(s, step) && Assumed(s, step, {UuidsFresh}) && Apply(s, step) == t
  }

  /** The second create on its way, over the sidecar of the first. */
  function Creating2(h1: Handle, h2: Handle, stage: CreateStage, sessions: map<string, Handle>, caps: map<string, string>): State {
    Both(h2, map[0 := Deploying(h1), 1 := Creating(h2, stage)], {}, map[h1.appUuid := h1], sessions, caps)
  }

  /** Both deploys accepted, the first one's task wherever it is. */
  function Deploying2(h2: Handle, first: Task, runners: set<string>, sessions: map<string, Handle>, caps: map<string, string>): State {
    Both(h2, map[0 := first, 1 := Deploying(h2)], runners, map[h2.appUuid := h2], sessions, caps)
  }

  lemma SecondRegisters(h1: Handle, h2: Handle, sessions: map<string, Handle>, caps: map<string, string>)
    ensures Leads(Creating2(h1, h2, ToRegister, sessions, caps), Advance(1, true), Creating2(h1, h2, ToInsert, sessions, caps[h2.cap := h2.repoUrl]))
  {
  }

  lemma SecondInserts(h1: Handle, h2: Handle, sessions: map<string, Handle>, caps: map<string, string>)
    ensures Leads(Creating2(h1, h2, ToInsert, sessions, caps), Advance(1, true), Creating2(h1, h2, ToSave, sessions[h2.sessionId := h2], caps))
  {
  }

  lemma SecondSaves(h1: Handle, h2: Handle, sessions: map<string, Handle>, caps: map<string, string>)
    requires Repeats(h1, h2)
    ensures Leads(Creating2(h1, h2, ToSave, sessions, caps), Advance(1, true), Deploying2(h2, Deploying(h1), {}, sessions, caps))
  {
    assert map[h1.appUuid := h1][h2.appUuid := h2] == map[h2.appUuid := h2];
  }

  lemma FirstDeployFails(h1: Handle, h2: Handle, sessions: map<string, Handle>, caps: map<string, string>)
    ensures Leads(Deploying2(h2, Deploying(h1), {}, sessions, caps), Advance(0, false), Deploying2(h2, DeployFailed(h1), {}, sessions, caps))
  {
  }

  lemma FirstPurged(h1: Handle, h2: Handle, sessions: map<string, Handle>, caps: map<string, string>)
    ensures Leads(Deploying2(h2, DeployFailed(h1), {}, sessions, caps), Advance(0, true), Deploying2(h2, Dropping(h1, ToRevoke), {}, sessions, caps))
  {
  }

  lemma FirstRevoked(h1: Handle, h2: Handle, sessions: map<string, Handle>, caps: map<string, string>)
    ensures Leads(Deploying2(h2, Dropping(h1, ToRevoke), {}, sessions, caps), Advance(0, true),
                  Deploying2(h2, Dropping(h1, ToRemove), {}, sessions, caps - {h1.cap}))
  {
  }

  lemma FirstRemoved(h1: Handle, h2: Handle, sessions: map<string, Handle>, caps: map<string, string>)
    ensures Leads(Deploying2(h2, Dropping(h1, ToRemove), {}, sessions, caps), Advance(0, true),
                  Deploying2(h2, Dropping(h1, ToUnlink), {}, sessions - {h1.sessionId}, caps))
  {
  }

  lemma SecondSpawns(h1: Handle, h2: Handle, sessions: map<string, Handle>, caps: map<string, string>)
    ensures Leads(Deploying2(h2, Dropping(h1, ToUnlink), {}, sessions, caps), Spawn(1),
                  Deploying2(h2, Dropping(h1, ToUnlink), {h2.appUuid}, sessions, caps))
  {
  }

  lemma FirstUnlinks(h1: Handle, h2: Handle, sessions: map<string, Handle>, caps: map<string, string>)
    requires Repeats(h1, h2)
    ensures Leads(Deploying2(h2, Dropping(h1, ToUnlink), {h2.appUuid}, sessions, caps), Advance(0, true),
                  Both(h2, map[1 := Deploying(h2)], {h2.appUuid}, map[], sessions, caps))
  {
    assert map[h2.appUuid := h2] - {h1.appUuid} == map[];
  }

  lemma SecondDone(h2: Handle, sessions: map<string, Handle>, caps: map<string, string>)
    ensures Leads(Both(h2, map[1 := Deploying(h2)], {h2.appUuid}, map[], sessions, caps), Advance(1, true),
                  Both(h2, map[], {h2.appUuid}, map[], sessions, caps))
  {
  }

  lemma SecondCreated(h1: Handle, h2: Handle, sessions: map<string, Handle>, caps: map<string, string>)
    requires Repeats(h1, h2)
    ensures var s := Creating2(h1, h2, ToRegister, sessions, caps);
            && Legal(s, SECOND_RETURNS) && AssumedRun(s, SECOND_RETURNS, {UuidsFresh})
            && Exec(s, SECOND_RETURNS) ==
                 Deploying2(h2, Dropping(h1, ToRevoke), {}, sessions[h2.sessionId := h2], caps[h2.cap := h2.repoUrl])
  {
    var sessions2, caps2 := sessions[h2.sessionId := h2], caps[h2.cap := h2.repoUrl];
    SecondRegisters(h1, h2, sessions, caps);
    SecondInserts(h1, h2, sessions, caps2);
    SecondSaves(h1, h2, sessions2, caps2);
    FirstDeployFails(h1, h2, sessions2, caps2);
    FirstPurged(h1, h2, sessions2, caps2);
    var t := [Creating2(h1, h2, ToRegister, sessions, caps), Creating2(h1, h2, ToInsert, sessions, caps2),
              Creating2(h1, h2, ToSave, sessions2, caps2), Deploying2(h2, Deploying(h1), {}, sessions2, caps2),
              Deploying2(h2, DeployFailed(h1), {}, sessions2, caps2), Deploying2(h2, Dropping(h1, ToRevoke), {}, sessions2, caps2)];
    FiveSteps(t[0], SECOND_RETURNS, {UuidsFresh}, t);
  }

  lemma CleanupUnlinks(h1: Handle, h2: Handle, sessions: map<string, Handle>, caps: map<string, string>)
    requires Repeats(h1, h2)
    ensures var s := Deploying2(h2, Dropping(h1, ToRevoke), {}, sessions, caps);
            && Legal(s, CLEANUP_UNLINKS) && AssumedRun(s, CLEANUP_UNLINKS, {UuidsFresh})
            && Exec(s, CLEANUP_UNLINKS) == Both(h2, map[], {h2.appUuid}, map[], sessions - {h1.sessionId}, caps - {h1.cap})
  {
    var left, caps2 := sessions - {h1.sessionId}, caps - {h1.cap};
    FirstRevoked(h1, h2, sessions, caps);
    FirstRemoved(h1, h2, sessions, caps2);
    SecondSpawns(h1, h2, left, caps2);
    FirstUnlinks(h1, h2, left, caps2);
    SecondDone(h2, left, caps2);
    var t := [Deploying2(h2, Dropping(h1, ToRevoke), {}, sessions, caps), Deploying2(h2, Dropping(h1, ToRemove), {}, sessions, caps2),
              Deploying2(h2, Dropping(h1, ToUnlink), {}, left, caps2), Deploying2(h2, Dropping(h1, ToUnlink), {h2.appUuid}, left, caps2),
              Both(h2, map[1 := Deploying(h2)], {h2.appUuid}, map[], left, caps2), Both(h2, map[], {h2.appUuid}, map[], left, caps2)];
    FiveSteps(t[0], CLEANUP_UNLINKS, {UuidsFresh}, t);
  }

  /**
   Without fresh app uuids: of two creates naming one uuid the first deploy fails,
   and its cleanup unlinks the sidecar the second create wrote, while the second
   deploy brings up its runner.  No save, listing or delete goes wrong.
   */
  lemma RepeatedUuidStrands(h1: Handle, h2: Handle)
    requires Repeats(h1, h2)
    ensures var steps := CreateTwice(h1, h2) + (SECOND_RETURNS + CLEANUP_UNLINKS);
            && Legal(IDLE, steps) && AssumedRun(IDLE, steps, {UuidsFresh})
            && Exec(IDLE, steps).runners == {h2.appUuid} && Exec(IDLE, steps).sidecars == map[]
  {
    FirstCreated(h1, h2);
    var sessions, caps := map[h1.sessionId := h1], map[h1.cap := h1.repoUrl];
    SecondCreated(h1, h2, sessions, caps);
    CleanupUnlinks(h1, h2, sessions[h2.sessionId := h2], caps[h2.cap := h2.repoUrl]);
    var s5 := Creating2(h1, h2, ToRegister, sessions, caps);
    RunConcat(s5, SECOND_RETURNS, CLEANUP_UNLINKS, {UuidsFresh});
    RunConcat(IDLE, CreateTwice(h1, h2), SECOND_RETURNS + CLEANUP_UNLINKS, {UuidsFresh});
  }

  // ── What an incomplete listing does ───────────────────────────────────────

  /** Nothing but visits to sidecars, whose unlinks succeed. */
  predicate Visits(steps: seq<Step>) {
    forall step <- steps :: step.Adopt? && step.ok
  }

  predicate AllVisited(s: State) {
    s.phase.Adopting? && s.phase.todo == {}
  }

  /** Visiting sidecars in any order removes exactly those visited that the listing did not name. */
  lemma {:induction false} VisitedExactly(s: State, steps: seq<Step>)
    requires s.phase.Adopting? && Legal(s, steps) && Visits(steps)
    ensures var end := Exec(s, steps);
            && end.phase.Adopting? && end.phase.todo <= s.phase.todo && end.runners == s.runners
            && end.sidecars.Keys == s.sidecars.Keys - (s.phase.todo - end.phase.todo - s.phase.listed)
    decreases |steps|
  {
    if steps != [] {
      assert steps[0] in steps;
      var next := Apply(s, steps[0]);
      assert next.sidecars.Keys == s.sidecars.Keys - ({steps[0].appUuid} - s.phase.listed);
      VisitedExactly(next, steps[1..]);
    }
  }

  /**
   The exact damage: when a re-adoption has visited every sidecar it could read,
   in whatever order, the runners left without a sidecar are exactly those the
   listing did not name - by failing, or by skipping their records.
   */
  lemma StrandedExactly(s: State, listed: set<string>, readable: set<string>, steps: seq<Step>)
    requires NoStrandedRunner(s) && Enabled(s, ListRunners(listed, readable))
    requires Legal(Apply(s, ListRunners(listed, readable)), steps) && Visits(steps)
    requires AllVisited(Exec(Apply(s, ListRunners(listed, readable)), steps))
    ensures var end := Exec(Apply(s, ListRunners(listed, readable)), steps);
            && end.runners - end.sidecars.Keys == (s.runners - listed) * readable
            && (readable == s.sidecars.Keys ==> end.runners - end.sidecars.Keys == s.runners - listed)
  {
    VisitedExactly(Apply(s, ListRunners(listed, readable)), steps);
  }

  /** A way to visit every sidecar left to visit. */
  lemma {:induction false} VisitAll(s: State, todo: set<string>) returns (steps: seq<Step>)
    requires s.phase.Adopting? && s.phase.todo == todo <= s.sidecars.Keys
    ensures Legal(s, steps) && AssumedRun(s, steps, {}) && Visits(steps)
    ensures AllVisited(Exec(s, steps))
    decreases |todo|
  {
    if todo == {} {
      steps := [];
    } else {
      var uuid :| uuid in todo;
      var next := Apply(s, Adopt(uuid, true));
      var rest := VisitAll(next, todo - {uuid});
      steps := [Adopt(uuid, true)] + rest;
      assert steps[1..] == rest;
      FirstStep(s, steps, {});
    }
  }

  /**
   Without the listing assumption: from every state without stranded runners, and
   for every incomplete listing, there is a run that strands exactly the omitted ones.
   */
  lemma IncompleteListingStrands(s: State, listed: set<string>) returns (steps: seq<Step>)
    requires NoStrandedRunner(s) && listed <= s.runners
    ensures Legal(s, steps) && AssumedRun(s, steps, {ListingsComplete})
    ensures Exec(s, steps).runners - Exec(s, steps).sidecars.Keys == s.runners - listed
  {
    var s1 := Apply(s, Crash);
    var list := ListRunners(listed, s.sidecars.Keys);
    var s2 := Apply(s1, list);
    var rest := VisitAll(s2, s.sidecars.Keys);
    StrandedExactly(s1, listed, s.sidecars.Keys, rest);
    WeakerAssumptions(s2, rest);
    steps := [Crash, list] + rest;
    assert steps[1..] == [list] + rest && steps[1..][1..] == rest;
    FirstStep(s1, steps[1..], {ListingsComplete});
    FirstStep(s, steps, {ListingsComplete});
  }

  lemma {:induction false} WeakerAssumptions(s: State, steps: seq<Step>)
    requires Legal(s, steps) && AssumedRun(s, steps, {})
    ensures AssumedRun(s, steps, {ListingsComplete})
    decreases |steps|
  {
    if steps != [] {
      WeakerAssumptions(Apply(s, steps[0]), steps[1..]);
    }
  }

  // ── What each handler comes to ────────────────────────────────────────────

  lemma {:induction false} Sequel(s: State, a: seq<Step>, b: seq<Step>)
    requires Legal(s, a) && Legal(Exec(s, a), b)
    ensures Legal(s, a + b) && Exec(s, a + b) == Exec(Exec(s, a), b)
    decreases |a|
  {
    if a == [] {
      assert a + b == b;
    } else {
      assert (a + b)[0] == a[0] && (a + b)[1..] == a[1..] + b;
      Sequel(Apply(s, a[0]), a[1..], b);
    }
  }

  lemma OneStep(s: State, step: Step)
    requires Enabled(s, step)
    ensures Legal(s, [step]) && Exec(s, [step]) == Apply(s, step)
  {
    assert [step][1..] == [];
  }

  /** Whether the VM of a session gets purged, and whether its sidecar could then be unlinked. */
  datatype Purge = Purge(purged: bool, unlinked: bool)

  /** Forgotten everywhere if its VM was purged, and in no place if not. */
  function Without(s: State, h: Handle, p: Purge): State {
    if !p.purged then s
    else s.(runners := s.runners - {h.appUuid}, sessions := s.sessions - {h.sessionId}, caps := s.caps - {h.cap},
            sidecars := if p.unlinked then s.sidecars - {h.appUuid} else s.sidecars)
  }

  function WithoutAll(s: State, todo: seq<Handle>, purges: seq<Purge>): State
    requires |todo| == |purges|
    decreases |todo|
  {
    if todo == [] then s else WithoutAll(Without(s, todo[0], purges[0]), todo[1..], purges[1..])
  }

  function OneReap(id: nat, p: Purge): seq<Step> {
    if p.purged then [Advance(id, true)] + ([Advance(id, true)] + ([Advance(id, true)] + [Advance(id, p.unlinked)]))
    else [Advance(id, false)]
  }

  function ReapSteps(id: nat, purges: seq<Purge>): seq<Step> {
    if purges == [] then [Advance(id, true)] else OneReap(id, purges[0]) + ReapSteps(id, purges[1..])
  }

  ghost predicate Reaps(s: State, id: nat, todo: seq<Handle>) {
    s.phase.Serving? && id in s.tasks && s.tasks[id] == Reaping(todo, PurgeFirst)
  }

  lemma ReapOne(s: State, id: nat, todo: seq<Handle>, p: Purge)
    requires Reaps(s, id, todo) && todo != []
    ensures Legal(s, OneReap(id, p))
    ensures Exec(s, OneReap(id, p)) == WithTask(Without(s, todo[0], p), id, Some(Reaping(todo[1..], PurgeFirst)))
  {
    if p.purged {
      var s1 := Apply(s, Advance(id, true));
      var s2 := Apply(s1, Advance(id, true));
      var s3 := Apply(s2, Advance(id, true));
      OneStep(s3, Advance(id, p.unlinked));
      OneStep(s2, Advance(id, true));
      OneStep(s1, Advance(id, true));
      OneStep(s, Advance(id, true));
      Sequel(s2, [Advance(id, true)], [Advance(id, p.unlinked)]);
      Sequel(s1, [Advance(id, true)], [Advance(id, true)] + [Advance(id, p.unlinked)]);
      Sequel(s, [Advance(id, true)], [Advance(id, true)] + ([Advance(id, true)] + [Advance(id, p.unlinked)]));
    } else {
      OneStep(s, Advance(id, false));
    }
  }

  lemma {:induction false} WithoutTask(s: State, id: nat, task: Option<Task>, todo: seq<Handle>, purges: seq<Purge>)
    requires |todo| == |purges|
    ensures WithoutAll(WithTask(s, id, task), todo, purges) == WithTask(WithoutAll(s, todo, purges), id, task)
    decreases |todo|
  {
    if todo != [] {
      assert Without(WithTask(s, id, task), todo[0], purges[0]) == WithTask(Without(s, todo[0], purges[0]), id, task);
      WithoutTask(Without(s, todo[0], purges[0]), id, task, todo[1..], purges[1..]);
    }
  }

  lemma {:induction false} ReapAll(s: State, id: nat, todo: seq<Handle>, purges: seq<Purge>)
    requires Reaps(s, id, todo) && |todo| == |purges|
    ensures Legal(s, ReapSteps(id, purges)) && Exec(s, ReapSteps(id, purges)) == WithTask(WithoutAll(s, todo, purges), id, None)
    decreases |todo|
  {
    if todo == [] {
      OneStep(s, Advance(id, true));
    } else {
      var next := WithTask(Without(s, todo[0], purges[0]), id, Some(Reaping(todo[1..], PurgeFirst)));
      ReapOne(s, id, todo, purges[0]);
      ReapAll(next, id, todo[1..], purges[1..]);
      Sequel(s, OneReap(id, purges[0]), ReapSteps(id, purges[1..]));
      WithoutTask(Without(s, todo[0], purges[0]), id, Some(Reaping(todo[1..], PurgeFirst)), todo[1..], purges[1..]);
      assert WithTask(next, id, None) == WithTask(Without(s, todo[0], purges[0]), id, None);
    }
  }

  lemma {:induction false} SelectedExactly(s: State, ids: seq<string>)
    ensures forall h :: h in Selected(s, ids) <==> exists id <- ids :: Get(s.sessions, id) == Some(h)
  {
    if ids != [] {
      var first, rest := ids[0], ids[1..];
      SelectedExactly(s, rest);
      assert ids == [first] + rest;
      forall h ensures h in Selected(s, ids) <==> exists id <- ids :: Get(s.sessions, id) == Some(h) {
        assert h in Selected(s, ids) <==> Get(s.sessions, first) == Some(h) || h in Selected(s, rest);
      }
    }
  }

  /**
   A delete or sweep that runs alone forgets exactly those of its listed sessions
   whose VM it could purge - runner, session, capability, and sidecar if that
   could be unlinked - and leaves every handle of the others, and all else, alone.
   */
  lemma ReapForgets(s: State, id: nat, ids: seq<string>, purges: seq<Purge>)
    requires s.phase.Serving? && id !in s.tasks && |purges| == |Selected(s, ids)|
    ensures var steps := [BeginReap(id, ids)] + ReapSteps(id, purges);
            Legal(s, steps) && Exec(s, steps) == WithoutAll(s, Selected(s, ids), purges)
    ensures forall h :: h in Selected(s, ids) <==> exists sid <- ids :: Get(s.sessions, sid) == Some(h)
  {
    SelectedExactly(s, ids);
    var begun := WithTask(s, id, Some(Reaping(Selected(s, ids), PurgeFirst)));
    OneStep(s, BeginReap(id, ids));
    ReapAll(begun, id, Selected(s, ids), purges);
    Sequel(s, [BeginReap(id, ids)], ReapSteps(id, purges));
    WithoutTask(s, id, Some(Reaping(Selected(s, ids), PurgeFirst)), Selected(s, ids), purges);
    WithoutTask(s, id, None, Selected(s, ids), purges);
    assert WithTask(s, id, None) == s;
  }

  /** Register, insert, save: the deploy is pending. */
  function ToDeploy(id: nat, h: Handle): seq<Step> {
    [BeginCreate(id, h)] + ([Advance(id, true)] + ([Advance(id, true)] + [Advance(id, true)]))
  }

  function Begun(s: State, id: nat, h: Handle, task: Task): State {
    s.(issued := s.issued[h.appUuid := h], tasks := s.tasks[id := task])
  }

  predicate Goes(s: State, step: Step, t: State) {
    Enabled(s, step) && Apply(s, step) == t
  }

  lemma GoesThen(s: State, step: Step, t: State, rest: seq<Step>)
    requires Goes(s, step, t) && Legal(t, rest)
    ensures Legal(s, [step] + rest) && Exec(s, [step] + rest) == Exec(t, rest)
  {
    assert ([step] + rest)[1..] == rest;
  }

  lemma CreateGoes(s: State, id: nat, h: Handle)
    requires s.phase.Serving? && id !in s.tasks
    ensures Goes(s, BeginCreate(id, h), Begun(s, id, h, Creating(h, ToRegister)))
  {
  }

  lemma RegisterGoes(s: State, id: nat, h: Handle)
    requires s.phase.Serving?
    ensures Goes(Begun(s, id, h, Creating(h, ToRegister)), Advance(id, true),
                 Begun(s, id, h, Creating(h, ToInsert)).(caps := s.caps[h.cap := h.repoUrl]))
  {
    assert s.tasks[id := Creating(h, ToRegister)][id := Creating(h, ToInsert)] == s.tasks[id := Creating(h, ToInsert)];
  }

  lemma InsertGoes(s: State, id: nat, h: Handle)
    requires s.phase.Serving?
    ensures Goes(Begun(s, id, h, Creating(h, ToInsert)), Advance(id, true),
                 Begun(s, id, h, Creating(h, ToSave)).(sessions := s.sessions[h.sessionId := h]))
  {
    assert s.tasks[id := Creating(h, ToInsert)][id := Creating(h, ToSave)] == s.tasks[id := Creating(h, ToSave)];
  }

  lemma SaveGoes(s: State, id: nat, h: Handle)
    requires s.phase.Serving?
    ensures Goes(Begun(s, id, h, Creating(h, ToSave)), Advance(id, true),
                 Begun(s, id, h, Deploying(h)).(sidecars := s.sidecars[h.appUuid := h]))
  {
    assert s.tasks[id := Creating(h, ToSave)][id := Deploying(h)] == s.tasks[id := Deploying(h)];
  }

  lemma CreateSaves(s: State, id: nat, h: Handle)
    requires s.phase.Serving? && id !in s.tasks
    ensures Legal(s, ToDeploy(id, h))
    ensures Exec(s, ToDeploy(id, h)) ==
              Begun(s, id, h, Deploying(h)).(sidecars := s.sidecars[h.appUuid := h], sessions := s.sessions[h.sessionId := h],
                                             caps := s.caps[h.cap := h.repoUrl])
  {
    var next := [Advance(id, true)];
    var registered := s.(caps := s.caps[h.cap := h.repoUrl]);
    var inserted := registered.(sessions := s.sessions[h.sessionId := h]);
    var s3 := Begun(inserted, id, h, Creating(h, ToSave));
    SaveGoes(inserted, id, h);
    OneStep(s3, Advance(id, true));
    InsertGoes(registered, id, h);
    GoesThen(Begun(registered, id, h, Creating(h, ToInsert)), Advance(id, true), s3, next);
    RegisterGoes(s, id, h);
    GoesThen(Begun(s, id, h, Creating(h, ToRegister)), Advance(id, true), Begun(registered, id, h, Creating(h, ToInsert)), next + next);
    CreateGoes(s, id, h);
    GoesThen(s, BeginCreate(id, h), Begun(s, id, h, Creating(h, ToRegister)), next + (next + next));
  }

  /** The VM comes up, the deploy returns. */
  function CreateSteps(id: nat, h: Handle): seq<Step> {
    ToDeploy(id, h) + ([Spawn(id)] + [Advance(id, true)])
  }

  /** A create that runs alone leaves runner, sidecar, session and capability, and changes nothing else. */
  lemma CreateBuilds(s: State, id: nat, h: Handle)
    requires s.phase.Serving? && id !in s.tasks
    ensures Legal(s, CreateSteps(id, h))
    ensures Exec(s, CreateSteps(id, h)) ==
              s.(issued := s.issued[h.appUuid := h], runners := s.runners + {h.appUuid}, sidecars := s.sidecars[h.appUuid := h],
                 sessions := s.sessions[h.sessionId := h], caps := s.caps[h.cap := h.repoUrl])
  {
    CreateSaves(s, id, h);
    var pending := Exec(s, ToDeploy(id, h));
    var up := Apply(pending, Spawn(id));
    OneStep(pending, Spawn(id));
    OneStep(up, Advance(id, true));
    Sequel(pending, [Spawn(id)], [Advance(id, true)]);
    Sequel(s, ToDeploy(id, h), [Spawn(id)] + [Advance(id, true)]);
    assert s.tasks[id := Deploying(h)] - {id} == s.tasks;
  }

  /** The deploy fails, its VM is purged or not, and if it is the handles go one by one. */
  function FailureSteps(id: nat, p: Purge): seq<Step> {
    [Advance(id, false)] +
    (if p.purged then [Advance(id, true)] + ([Advance(id, true)] + ([Advance(id, true)] + [Advance(id, p.unlinked)]))
     else [Advance(id, false)])
  }

  lemma DropRuns(s: State, id: nat, h: Handle, unlinked: bool)
    requires s.phase.Serving? && id in s.tasks && s.tasks[id] == Dropping(h, ToRevoke)
    ensures var steps := [Advance(id, true)] + ([Advance(id, true)] + [Advance(id, unlinked)]);
            && Legal(s, steps)
            && Exec(s, steps) ==
                 s.(caps := s.caps - {h.cap}, sessions := s.sessions - {h.sessionId},
                    sidecars := if unlinked then s.sidecars - {h.appUuid} else s.sidecars, tasks := s.tasks - {id})
  {
    var revoked := s.(caps := s.caps - {h.cap}, tasks := s.tasks[id := Dropping(h, ToRemove)]);
    var removed := revoked.(sessions := s.sessions - {h.sessionId}, tasks := s.tasks[id := Dropping(h, ToUnlink)]);
    assert Goes(s, Advance(id, true), revoked);
    assert Goes(revoked, Advance(id, true), removed) by {
      assert revoked.tasks[id := Dropping(h, ToUnlink)] == removed.tasks;
    }
    OneStep(removed, Advance(id, unlinked));
    assert removed.tasks - {id} == s.tasks - {id};
    GoesThen(revoked, Advance(id, true), removed, [Advance(id, unlinked)]);
    GoesThen(s, Advance(id, true), revoked, [Advance(id, true)] + [Advance(id, unlinked)]);
  }

  /** A failed deploy undoes its create once the VM is purged, and keeps every handle when it could not be. */
  lemma FailedDeployUndoes(s: State, id: nat, h: Handle, p: Purge)
    requires s.phase.Serving? && id in s.tasks && s.tasks[id] == Deploying(h)
    ensures Legal(s, FailureSteps(id, p)) && Exec(s, FailureSteps(id, p)) == WithTask(Without(s, h, p), id, None)
  {
    var failed := s.(tasks := s.tasks[id := DeployFailed(h)]);
    assert Goes(s, Advance(id, false), failed);
    if p.purged {
      var purged := s.(runners := s.runners - {h.appUuid}, tasks := s.tasks[id := Dropping(h, ToRevoke)]);
      assert Goes(failed, Advance(id, true), purged) by {
        assert failed.tasks[id := Dropping(h, ToRevoke)] == purged.tasks;
      }
      var drops := [Advance(id, true)] + ([Advance(id, true)] + [Advance(id, p.unlinked)]);
      DropRuns(purged, id, h, p.unlinked);
      assert purged.tasks - {id} == s.tasks - {id};
      GoesThen(failed, Advance(id, true), purged, drops);
      GoesThen(s, Advance(id, false), failed, [Advance(id, true)] + drops);
    } else {
      OneStep(failed, Advance(id, false));
      assert failed.tasks - {id} == s.tasks - {id};
      GoesThen(s, Advance(id, false), failed, [Advance(id, false)]);
    }
  }

  /** A refresh that has read a sidecar, a whole delete of that session, and the refresh writes back what it read. */
  function RefreshAcrossDelete(id: nat, other: nat, sid: string): seq<Step> {
    [BeginRefresh(id, sid)] + ([Advance(id, true)] + (DeleteOne(other, sid) + [Advance(id, true)]))
  }

  function DeleteOne(id: nat, sid: string): seq<Step> {
    [BeginReap(id, [sid])] + ReapSteps(id, [Purge(true, true)])
  }

  lemma OneForgotten(s: State, id: nat, sid: string)
    requires s.phase.Serving? && id !in s.tasks && sid in s.sessions
    ensures Legal(s, DeleteOne(id, sid)) && Exec(s, DeleteOne(id, sid)) == Without(s, s.sessions[sid], Purge(true, true))
  {
    var h := s.sessions[sid];
    assert Selected(s, [sid]) == [h] by { assert [sid][1..] == []; }
    ReapForgets(s, id, [sid], [Purge(true, true)]);
    assert [h][1..] == [] && [Purge(true, true)][1..] == [];
    assert WithoutAll(s, [h], [Purge(true, true)]) == Without(s, h, Purge(true, true));
  }

  lemma RefreshLoads(s: State, id: nat, sid: string)
    requires s.phase.Serving? && id !in s.tasks && sid in s.sessions
    requires Get(s.sidecars, s.sessions[sid].appUuid) == Some(s.sessions[sid])
    ensures var h := s.sessions[sid];
            var begun := s.(tasks := s.tasks[id := Refreshing(h.appUuid, None)]);
            && Goes(s, BeginRefresh(id, sid), begun)
            && Goes(begun, Advance(id, true), s.(tasks := s.tasks[id := Refreshing(h.appUuid, Some(h))]))
  {
    var h := s.sessions[sid];
    assert s.tasks[id := Refreshing(h.appUuid, None)][id := Refreshing(h.appUuid, Some(h))] == s.tasks[id := Refreshing(h.appUuid, Some(h))];
  }

  lemma RefreshSaves(s: State, id: nat, uuid: string, h: Handle)
    requires s.phase.Serving? && id in s.tasks && s.tasks[id] == Refreshing(uuid, Some(h))
    ensures Goes(s, Advance(id, true), s.(sidecars := s.sidecars[h.appUuid := h], tasks := s.tasks - {id}))
  {
  }

  /** A refresh that overlaps a delete puts the sidecar back, without its runner: an orphan, until the next re-adoption. */
  lemma RefreshRevivesSidecar(s: State, id: nat, other: nat, sid: string)
    requires s.phase.Serving? && id !in s.tasks && other !in s.tasks && id != other && sid in s.sessions
    requires Get(s.sidecars, s.sessions[sid].appUuid) == Some(s.sessions[sid])
    ensures Legal(s, RefreshAcrossDelete(id, other, sid))
    ensures var h := s.sessions[sid];
            Exec(s, RefreshAcrossDelete(id, other, sid)) ==
              s.(runners := s.runners - {h.appUuid}, sessions := s.sessions - {h.sessionId}, caps := s.caps - {h.cap})
  {
    var h := s.sessions[sid];
    var begun := s.(tasks := s.tasks[id := Refreshing(h.appUuid, None)]);
    var loaded := s.(tasks := s.tasks[id := Refreshing(h.appUuid, Some(h))]);
    var gone := Without(loaded, h, Purge(true, true));
    RefreshLoads(s, id, sid);
    OneForgotten(loaded, other, sid);
    var end := s.(runners := s.runners - {h.appUuid}, sessions := s.sessions - {h.sessionId}, caps := s.caps - {h.cap});
    RefreshSaves(gone, id, h.appUuid, h);
    assert Goes(gone, Advance(id, true), end) by {
      assert loaded.tasks - {id} == s.tasks;
      assert (s.sidecars - {h.appUuid})[h.appUuid := h] == s.sidecars;
    }
    OneStep(gone, Advance(id, true));
    Sequel(loaded, DeleteOne(other, sid), [Advance(id, true)]);
    GoesThen(begun, Advance(id, true), loaded, DeleteOne(other, sid) + [Advance(id, true)]);
    GoesThen(s, BeginRefresh(id, sid), begun, [Advance(id, true)] + (DeleteOne(other, sid) + [Advance(id, true)]));
  }

  // ── What a restart restores ───────────────────────────────────────────────

  /** What visiting the sidecars `done`, of which those in `listed` have a runner, makes of the stores. */
  ghost predicate Visited(s: State, end: State, done: set<string>, listed: set<string>) {
    && done <= s.sidecars.Keys && end.runners == s.runners && end.issued == s.issued && end.tasks == s.tasks
    && (forall u :: u in end.sidecars <==> u in s.sidecars && (u in done ==> u in listed))
    && (forall u <- end.sidecars :: end.sidecars[u] == s.sidecars[u])
    && (forall u <- done :: u in listed ==> Registered(end, s.sidecars[u]))
    && (forall sid <- end.sessions :: sid in s.sessions || exists u <- done :: u in listed && s.sidecars[u].sessionId == sid)
    && (forall cap <- end.caps :: cap in s.caps || exists u <- done :: u in listed && s.sidecars[u].cap == cap)
  }

  lemma StillRegistered(s: State, mid: State, u: string, uuid: string)
    requires mid.phase.Adopting? && StoresKnown(s) && IdentitiesDiffer(s) && u in s.sidecars && uuid in s.sidecars
    requires Get(mid.sidecars, uuid) == Some(s.sidecars[uuid]) && Enabled(mid, Adopt(uuid, true))
    requires if u == uuid then u in mid.phase.listed else Registered(mid, s.sidecars[u])
    ensures Registered(Apply(mid, Adopt(uuid, true)), s.sidecars[u])
  {
    assert Known(s, s.sidecars[u]) && s.sidecars[u].appUuid == u;
    assert Known(s, s.sidecars[uuid]) && s.sidecars[uuid].appUuid == uuid;
    assert u in s.issued && uuid in s.issued;
  }

  lemma VisitAdds(s: State, mid: State, done: set<string>, uuid: string)
    requires s.phase.Adopting? && Visited(s, mid, done, s.phase.listed) && mid.phase.Adopting? && mid.phase.listed == s.phase.listed
    requires Enabled(mid, Adopt(uuid, true))
    ensures var end := Apply(mid, Adopt(uuid, true));
            && (forall sid <- end.sessions :: sid in s.sessions || exists u <- done + {uuid} :: u in s.phase.listed && s.sidecars[u].sessionId == sid)
            && (forall cap <- end.caps :: cap in s.caps || exists u <- done + {uuid} :: u in s.phase.listed && s.sidecars[u].cap == cap)
  {
    var end := Apply(mid, Adopt(uuid, true));
    forall sid <- end.sessions | sid !in s.sessions ensures exists u <- done + {uuid} :: u in s.phase.listed && s.sidecars[u].sessionId == sid {
      if sid in mid.sessions {
        var u :| u in done && u in s.phase.listed && s.sidecars[u].sessionId == sid;
        assert u in done + {uuid};
      } else {
        assert uuid in done + {uuid} && s.sidecars[uuid].sessionId == sid;
      }
    }
    forall cap <- end.caps | cap !in s.caps ensures exists u <- done + {uuid} :: u in s.phase.listed && s.sidecars[u].cap == cap {
      if cap in mid.caps {
        var u :| u in done && u in s.phase.listed && s.sidecars[u].cap == cap;
        assert u in done + {uuid};
      } else {
        assert uuid in done + {uuid} && s.sidecars[uuid].cap == cap;
      }
    }
  }

  lemma VisitOne(s: State, mid: State, done: set<string>, uuid: string)
    requires s.phase.Adopting? && StoresKnown(s) && IdentitiesDiffer(s)
    requires Visited(s, mid, done, s.phase.listed) && mid.phase == s.phase.(todo := s.phase.todo - done)
    requires Enabled(mid, Adopt(uuid, true)) && uuid !in done
    ensures Visited(s, Apply(mid, Adopt(uuid, true)), done + {uuid}, s.phase.listed)
  {
    forall u <- done + {uuid} | u in s.phase.listed ensures Registered(Apply(mid, Adopt(uuid, true)), s.sidecars[u]) {
      StillRegistered(s, mid, u, uuid);
    }
    VisitAdds(s, mid, done, uuid);
  }

  lemma {:induction false} VisitMany(s: State, mid: State, done: set<string>, steps: seq<Step>)
    requires s.phase.Adopting? && StoresKnown(s) && IdentitiesDiffer(s)
    requires Visited(s, mid, done, s.phase.listed) && mid.phase == s.phase.(todo := s.phase.todo - done)
    requires done <= s.phase.todo && Legal(mid, steps) && Visits(steps)
    ensures var end := Exec(mid, steps);
            && end.phase.Adopting? && end.phase.todo <= s.phase.todo
            && end.phase == s.phase.(todo := end.phase.todo)
            && Visited(s, end, s.phase.todo - end.phase.todo, s.phase.listed)
    decreases |steps|
  {
    if steps == [] {
      assert s.phase.todo - (s.phase.todo - done) == done;
    } else {
      assert steps[0] in steps;
      var uuid := steps[0].appUuid;
      VisitOne(s, mid, done, uuid);
      var next := Apply(mid, steps[0]);
      assert s.phase.todo - done - {uuid} == s.phase.todo - (done + {uuid});
      VisitMany(s, next, done + {uuid}, steps[1..]);
    }
  }

  /** The supervisor dies and comes back, its listings complete. */
  function Restart(s: State, visits: seq<Step>): seq<Step> {
    [Crash] + ([ListRunners(s.runners, s.sidecars.Keys)] + (visits + [Serve]))
  }

  /**
   A crash at any point of any run, and a complete re-adoption that visits the
   sidecars in any order: what is served is exactly the sessions of the live
   runners, each registered from its sidecar, their capabilities and no others,
   and their sidecars and no others.
   */
  lemma RestartRestores(s: State, visits: seq<Step>)
    requires Inv(s) && Visits(visits)
    requires Legal(Apply(Apply(s, Crash), ListRunners(s.runners, s.sidecars.Keys)), visits)
    requires AllVisited(Exec(Apply(Apply(s, Crash), ListRunners(s.runners, s.sidecars.Keys)), visits))
    ensures Legal(s, Restart(s, visits))
    ensures var end := Exec(s, Restart(s, visits));
            && end.phase == Serving(true) && end.tasks == map[] && end.runners == s.runners
            && end.sidecars == (map u | u in s.sidecars && u in s.runners :: s.sidecars[u])
            && (forall u <- s.runners :: Registered(end, s.sidecars[u]))
            && end.sessions.Keys == (set u <- s.runners :: s.sidecars[u].sessionId)
            && end.caps.Keys == (set u <- s.runners :: s.sidecars[u].cap)
  {
    var down := Apply(s, Crash);
    var listing := ListRunners(s.runners, s.sidecars.Keys);
    var adopting := Apply(down, listing);
    VisitMany(adopting, adopting, {}, visits);
    var visited := Exec(adopting, visits);
    assert s.sidecars.Keys - {} == s.sidecars.Keys;
    OneStep(s, Crash);
    OneStep(down, listing);
    OneStep(visited, Serve);
    Sequel(adopting, visits, [Serve]);
    Sequel(down, [listing], visits + [Serve]);
    Sequel(s, [Crash], [listing] + (visits + [Serve]));
    RestoredKeys(adopting, visited);
  }

  lemma RestoredSessions(s: State, end: State)
    requires s.runners <= s.sidecars.Keys
    requires forall u <- s.runners :: s.sidecars[u].sessionId in end.sessions
    requires forall sid <- end.sessions :: exists u <- s.sidecars :: u in s.runners && s.sidecars[u].sessionId == sid
    ensures end.sessions.Keys == (set u <- s.runners :: s.sidecars[u].sessionId)
  {
    forall sid <- end.sessions ensures exists u <- s.runners :: s.sidecars[u].sessionId == sid {
      var u :| u in s.sidecars && u in s.runners && s.sidecars[u].sessionId == sid;
    }
  }

  lemma RestoredCaps(s: State, end: State)
    requires s.runners <= s.sidecars.Keys
    requires forall u <- s.runners :: s.sidecars[u].cap in end.caps
    requires forall cap <- end.caps :: exists u <- s.sidecars :: u in s.runners && s.sidecars[u].cap == cap
    ensures end.caps.Keys == (set u <- s.runners :: s.sidecars[u].cap)
  {
    forall cap <- end.caps ensures exists u <- s.runners :: s.sidecars[u].cap == cap {
      var u :| u in s.sidecars && u in s.runners && s.sidecars[u].cap == cap;
    }
  }

  lemma RestoredSidecars(start: State, end: State)
    requires forall u :: u in end.sidecars <==> u in start.sidecars && u in start.runners
    requires forall u <- end.sidecars :: end.sidecars[u] == start.sidecars[u]
    ensures end.sidecars == (map u | u in start.sidecars && u in start.runners :: start.sidecars[u])
  {
  }

  lemma RestoredKeys(start: State, end: State)
    requires start.runners <= start.sidecars.Keys && start.sessions == map[] && start.caps == map[]
    requires Visited(start, end, start.sidecars.Keys, start.runners)
    ensures end.sidecars == (map u | u in start.sidecars && u in start.runners :: start.sidecars[u])
    ensures forall u <- start.runners :: Registered(end, start.sidecars[u])
    ensures end.sessions.Keys == (set u <- start.runners :: start.sidecars[u].sessionId)
    ensures end.caps.Keys == (set u <- start.runners :: start.sidecars[u].cap)
  {
    forall u <- start.runners ensures Registered(end, start.sidecars[u]) {
      assert u in start.sidecars.Keys;
    }
    RestoredSidecars(start, end);
    VisitedKeys(start, end, start.runners);
    RestoredSessions(start, end);
    RestoredCaps(start, end);
  }

  lemma VisitedKeys(start: State, end: State, listed: set<string>)
    requires start.sessions == map[] && start.caps == map[] && Visited(start, end, start.sidecars.Keys, listed)
    ensures forall sid <- end.sessions :: exists u <- start.sidecars :: u in listed && start.sidecars[u].sessionId == sid
    ensures forall cap <- end.caps :: exists u <- start.sidecars :: u in listed && start.sidecars[u].cap == cap
  {
    forall sid <- end.sessions ensures exists u <- start.sidecars :: u in listed && start.sidecars[u].sessionId == sid {
      assert sid !in start.sessions;
      var u :| u in start.sidecars.Keys && u in listed && start.sidecars[u].sessionId == sid;
      assert u in start.sidecars;
    }
    forall cap <- end.caps ensures exists u <- start.sidecars :: u in listed && start.sidecars[u].cap == cap {
      assert cap !in start.caps;
      var u :| u in start.sidecars.Keys && u in listed && start.sidecars[u].cap == cap;
      assert u in start.sidecars;
    }
  }
}
