/**
 The life of dev sessions as interleaved steps over four stores: the marked
 runner records, the sidecars, the session registry and the capability registry
 (`dev_sessions.rs`, `dev_session_record.rs`).  Every handler is a task that
 advances by one effect at a time; a crash may come between any two, drops every
 task and both in-memory registries, and is followed by re-adoption.
 */
module Lifecycle {
  import opened Common

  /** The identity a create call gives a session; also what its sidecar durably holds. */
  datatype Handle = Handle(sessionId: string, appUuid: string, cap: string, repoUrl: string)

  datatype CreateStage = ToRegister | ToInsert | ToSave

  datatype DropStage = ToRevoke | ToRemove | ToUnlink

  datatype ReapStage = PurgeFirst | ThenRemove | ThenRevoke | ThenUnlink

  datatype Task =
    | Creating(handle: Handle, create: CreateStage)
    | Deploying(handle: Handle)
    | DeployFailed(handle: Handle)
    | Dropping(handle: Handle, drop: DropStage)
    | Reaping(todo: seq<Handle>, reap: ReapStage)
    | Refreshing(appUuid: string, loaded: Option<Handle>)

  /** `complete`: the last re-adoption listed every runner and every sidecar. */
  datatype Phase =
    | Down
    | Adopting(listed: set<string>, todo: set<string>, complete: bool)
    | Serving(complete: bool)

  datatype State = State(
    runners: set<string>,           // app uuids of marked runner records
    sidecars: map<string, Handle>,  // by app uuid
    sessions: map<string, Handle>,  // by session id
    caps: map<string, string>,      // capability to upstream
    tasks: map<nat, Task>,
    issued: map<string, Handle>,    // every identity ever created, by app uuid
    phase: Phase)

  datatype Step =
    | BeginCreate(id: nat, handle: Handle)
    | BeginReap(id: nat, sessionIds: seq<string>)
    | BeginRefresh(id: nat, sessionId: string)
    | Advance(id: nat, ok: bool)
    | Spawn(id: nat)
    | Vanish(appUuid: string)
    | Crash
    | ListRunners(listed: set<string>, readable: set<string>)
    | Adopt(appUuid: string, ok: bool)
    | Serve

  /** The sessions a delete (one id) or a sweep (the expired ids of its snapshot) takes on. */
  function Selected(s: State, ids: seq<string>): seq<Handle> {
    if ids == [] then []
    else (if ids[0] in s.sessions then [s.sessions[ids[0]]] else []) + Selected(s, ids[1..])
  }

  predicate Enabled(s: State, step: Step) {
    match step
    case BeginCreate(id, _) => s.phase.Serving? && id !in s.tasks
    case BeginReap(id, _) => s.phase.Serving? && id !in s.tasks
    case BeginRefresh(id, sid) => s.phase.Serving? && id !in s.tasks && sid in s.sessions
    case Advance(id, _) => s.phase.Serving? && id in s.tasks
    case Spawn(id) => s.phase.Serving? && id in s.tasks && s.tasks[id].Deploying?
    case Vanish(_) => true
    case Crash => true
    case ListRunners(listed, readable) => s.phase.Down? && listed <= s.runners && readable <= s.sidecars.Keys
    case Adopt(uuid, _) => s.phase.Adopting? && uuid in s.phase.todo && uuid in s.sidecars
    case Serve => s.phase.Adopting? && s.phase.todo == {}
  }

  // ── One effect of a task ──────────────────────────────────────────────────

  /** The single store update of a micro-step. */
  datatype Effect =
    | Nothing
    | PutCap(handle: Handle)
    | PutSession(handle: Handle)
    | PutSidecar(handle: Handle)
    | DropRunner(appUuid: string)
    | DropCap(handle: Handle)
    | DropSession(handle: Handle)
    | DropSidecar(handle: Handle)

  function Do(s: State, e: Effect): State {
    match e
    case Nothing => s
    case PutCap(h) => s.(caps := s.caps[h.cap := h.repoUrl])
    case PutSession(h) => s.(sessions := s.sessions[h.sessionId := h])
    case PutSidecar(h) => s.(sidecars := s.sidecars[h.appUuid := h])
    case DropRunner(uuid) => s.(runners := s.runners - {uuid})
    case DropCap(h) => s.(caps := s.caps - {h.cap})
    case DropSession(h) => s.(sessions := s.sessions - {h.sessionId})
    case DropSidecar(h) => s.(sidecars := s.sidecars - {h.appUuid})
  }

  /** What a task does next; `ok` says whether the fallible part of it succeeds. */
  function EffectOf(task: Task, ok: bool): Effect {
    match task
    case Creating(h, ToRegister) => PutCap(h)
    case Creating(h, ToInsert) => PutSession(h)
    case Creating(h, ToSave) => if ok then PutSidecar(h) else Nothing
    case Deploying(_) => Nothing
    case DeployFailed(h) => if ok then DropRunner(h.appUuid) else Nothing
    case Dropping(h, ToRevoke) => DropCap(h)
    case Dropping(h, ToRemove) => DropSession(h)
    case Dropping(h, ToUnlink) => if ok then DropSidecar(h) else Nothing
    case Refreshing(_, None) => Nothing
    case Refreshing(_, Some(h)) => if ok then PutSidecar(h) else Nothing
    case Reaping(todo, stage) =>
      if todo == [] then Nothing
      else match stage
        case PurgeFirst => if ok then DropRunner(todo[0].appUuid) else Nothing
        case ThenRemove => DropSession(todo[0])
        case ThenRevoke => DropCap(todo[0])
        case ThenUnlink => if ok then DropSidecar(todo[0]) else Nothing
  }

  /** Where the task stands afterwards; `None` when it is over. */
  function Successor(sidecars: map<string, Handle>, task: Task, ok: bool): Option<Task> {
    match task
    case Creating(h, ToRegister) => Some(Creating(h, ToInsert))
    case Creating(h, ToInsert) => Some(Creating(h, ToSave))
    case Creating(h, ToSave) => Some(Deploying(h))
    case Deploying(h) => if ok then None else Some(DeployFailed(h))
    case DeployFailed(h) => if ok then Some(Dropping(h, ToRevoke)) else None
    case Dropping(h, ToRevoke) => Some(Dropping(h, ToRemove))
    case Dropping(h, ToRemove) => Some(Dropping(h, ToUnlink))
    case Dropping(h, ToUnlink) => None
    case Refreshing(uuid, None) =>
      if ok && uuid in sidecars then Some(Refreshing(uuid, Some(sidecars[uuid]))) else None
    case Refreshing(_, Some(h)) => None
    case Reaping(todo, stage) =>
      if todo == [] then None
      else match stage
        case PurgeFirst => Some(if ok then Reaping(todo, ThenRemove) else Reaping(todo[1..], PurgeFirst))
        case ThenRemove => Some(Reaping(todo, ThenRevoke))
        case ThenRevoke => Some(Reaping(todo, ThenUnlink))
        case ThenUnlink => Some(Reaping(todo[1..], PurgeFirst))
  }

  function WithTask(s: State, id: nat, task: Option<Task>): State {
    s.(tasks := Put(s.tasks, id, task))
  }

  function AdvanceTask(s: State, id: nat, ok: bool): State
    requires id in s.tasks
  {
    WithTask(Do(s, EffectOf(s.tasks[id], ok)), id, Successor(s.sidecars, s.tasks[id], ok))
  }

  function Apply(s: State, step: Step): State
    requires Enabled(s, step)
  {
    match step
    case BeginCreate(id, h) => WithTask(s.(issued := s.issued[h.appUuid := h]), id, Some(Creating(h, ToRegister)))
    case BeginReap(id, ids) => WithTask(s, id, Some(Reaping(Selected(s, ids), PurgeFirst)))
    case BeginRefresh(id, sid) => WithTask(s, id, Some(Refreshing(s.sessions[sid].appUuid, None)))
    case Advance(id, ok) => AdvanceTask(s, id, ok)
    case Spawn(id) => s.(runners := s.runners + {s.tasks[id].handle.appUuid})
    case Vanish(uuid) => s.(runners := s.runners - {uuid})
    case Crash => s.(sessions := map[], caps := map[], tasks := map[], phase := Down)
    case ListRunners(listed, readable) =>
      s.(phase := Adopting(listed, readable, listed == s.runners && readable == s.sidecars.Keys))
    case Adopt(uuid, ok) =>
      var h := s.sidecars[uuid];
      var next := s.(phase := s.phase.(todo := s.phase.todo - {uuid}));
      if uuid in s.phase.listed then
        next.(caps := s.caps[h.cap := h.repoUrl], sessions := s.sessions[h.sessionId := h])
      else if ok then next.(sidecars := s.sidecars - {uuid})
      else next
    case Serve => s.(phase := Serving(s.phase.complete))
  }

  // ── Runs ──────────────────────────────────────────────────────────────────

  predicate Legal(s: State, steps: seq<Step>)
    decreases |steps|
  {
    steps == [] || (Enabled(s, steps[0]) && Legal(Apply(s, steps[0]), steps[1..]))
  }

  function Exec(s: State, steps: seq<Step>): State
    requires Legal(s, steps)
    decreases |steps|
  {
    if steps == [] then s else Exec(Apply(s, steps[0]), steps[1..])
  }

  // ── What the environment is assumed to do ─────────────────────────────────

  predicate IsPending(task: Task) {
    task.Creating? || task.Deploying?
  }

  /** A deploy of this app uuid has been accepted and has not returned. */
  ghost predicate Pending(s: State, uuid: string) {
    exists id :: id in s.tasks && IsPending(s.tasks[id]) && s.tasks[id].handle.appUuid == uuid
  }

  /** The session id and the capability of a create call are minted by the supervisor: never seen before. */
  ghost predicate FreshMints(s: State, step: Step) {
    step.BeginCreate? ==>
      forall uuid <- s.issued ::
        s.issued[uuid].sessionId != step.handle.sessionId && s.issued[uuid].cap != step.handle.cap
  }

  /** Its app uuid is whatever the caller names; nothing checks that it is new. */
  predicate FreshUuid(s: State, step: Step) {
    step.BeginCreate? ==> step.handle.appUuid !in s.issued
  }

  predicate SidecarSaved(s: State, step: Step) {
    step.Advance? && step.id in s.tasks && s.tasks[step.id].Creating? && s.tasks[step.id].create.ToSave? ==> step.ok
  }

  ghost predicate NoReapOverlapsDeploy(s: State, step: Step) {
    step.BeginReap? ==> forall h <- Selected(s, step.sessionIds) :: !Pending(s, h.appUuid)
  }

  /** A listing names no runner when it fails, and skips each record it cannot read or parse. */
  predicate ListingComplete(s: State, step: Step) {
    step.ListRunners? ==> step.listed == s.runners
  }

  /** The assumptions a run may violate. */
  datatype Assumption = UuidsFresh | SidecarsSaved | NoOverlap | ListingsComplete

  /** Every assumption but the dropped ones. */
  ghost predicate Assumed(s: State, step: Step, dropped: set<Assumption>) {
    && FreshMints(s, step)
    && (UuidsFresh in dropped || FreshUuid(s, step))
    && (SidecarsSaved in dropped || SidecarSaved(s, step))
    && (NoOverlap in dropped || NoReapOverlapsDeploy(s, step))
    && (ListingsComplete in dropped || ListingComplete(s, step))
  }

  ghost predicate AssumedRun(s: State, steps: seq<Step>, dropped: set<Assumption>)
    requires Legal(s, steps)
    decreases |steps|
  {
    steps != [] ==> Assumed(s, steps[0], dropped) && AssumedRun(Apply(s, steps[0]), steps[1..], dropped)
  }
}
