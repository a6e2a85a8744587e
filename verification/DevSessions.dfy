/**
 Dev sessions at rest and in memory: the capability registry (`git_proxy.rs`),
 the session registry and its reaper (`dev_sessions.rs`), the sidecars and
 their re-adoption (`dev_session_record.rs`, `workspace_record.rs`).
 Instants and wall-clock times are in nanoseconds.
 */
module DevSessions {
  import opened Common

  const SECOND: nat := 1_000_000_000

  /** `Instant::now()` and the wall clock, read together; instant 0 is the earliest one. */
  datatype Clock = Clock(instant: nat, wall: nat)

  function NowUnix(clock: Clock): nat {
    clock.wall / SECOND
  }

  function SaturatingSub(a: nat, b: nat): nat {
    if a >= b then a - b else 0
  }

  /** An instant rebuilt from persisted unix seconds: `now` itself when it would fall before the first instant. */
  function UnixToInstant(unix: nat, clock: Clock): nat {
    var elapsed := SaturatingSub(NowUnix(clock), unix) * SECOND;
    if elapsed <= clock.instant then clock.instant - elapsed else clock.instant
  }

  // ── Entities ──────────────────────────────────────────────────────────────

  /** What one capability gives access to. */
  datatype Grant = Grant(upstream: string, token: string, expiresAt: nat)

  datatype Session = Session(
    sessionId: string, appUuid: string, cap: string, createdAt: nat, lastActivity: nat, repoUrl: string, branch: string)

  /** The durable sidecar of a session; its file is named after the app uuid. */
  datatype Record = Record(
    sessionId: string, appUuid: string, cap: string, repoUrl: string, branch: string, createdUnix: nat, activityUnix: nat)

  datatype WorkspaceCap = WorkspaceCap(cap: string, repoUrl: string)

  datatype WorkspaceRecord = WorkspaceRecord(uuid: string, userId: string, caps: seq<WorkspaceCap>, createdUnix: nat, activityUnix: nat)

  datatype Workspace = Workspace(uuid: string, userId: string, caps: seq<string>, createdAt: nat, lastActivity: nat)

  // ── Capabilities ──────────────────────────────────────────────────────────

  /** Upstream and token of a registered, unexpired capability. */
  function Access(grants: map<string, Grant>, cap: string, now: nat): Option<(string, string)> {
    if cap !in grants || grants[cap].expiresAt < now then None
    else Some((grants[cap].upstream, grants[cap].token))
  }

  datatype GitOp =
    | Registers(cap: string, grant: Grant)
    | Revokes(cap: string)
    | Refreshes(cap: string, token: string, expiresAt: nat)

  /** Refreshing re-arms a known capability without moving its upstream; an unknown one stays unknown. */
  function ApplyGit(grants: map<string, Grant>, op: GitOp): map<string, Grant> {
    match op
    case Registers(cap, grant) => grants[cap := grant]
    case Revokes(cap) => grants - {cap}
    case Refreshes(cap, token, expiresAt) =>
      if cap in grants then grants[cap := Grant(grants[cap].upstream, token, expiresAt)] else grants
  }

  class GitSessions {
    var grants: map<string, Grant>

    constructor ()
      ensures grants == map[]
    {
      grants := map[];
    }

    method Register(cap: string, grant: Grant)
      modifies this
      ensures grants == ApplyGit(old(grants), Registers(cap, grant))
    {
      grants := grants[cap := grant];
    }

    method Revoke(cap: string)
      modifies this
      ensures grants == ApplyGit(old(grants), Revokes(cap))
    {
      grants := grants - {cap};
    }

    method RefreshToken(cap: string, token: string, expiresAt: nat) returns (known: bool)
      modifies this
      ensures known == (cap in old(grants))
      ensures grants == ApplyGit(old(grants), Refreshes(cap, token, expiresAt))
    {
      known := cap in grants;
      if known {
        grants := grants[cap := grants[cap].(token := token, expiresAt := expiresAt)];
      }
    }
  }

  // ── Sessions ──────────────────────────────────────────────────────────────

  class DevSessionRegistry {
    var sessions: map<string, Session>

    constructor ()
      ensures sessions == map[]
    {
      sessions := map[];
    }

    method Insert(session: Session)
      modifies this
      ensures sessions == old(sessions)[session.sessionId := session]
    {
      sessions := sessions[session.sessionId := session];
    }

    method Remove(sessionId: string) returns (removed: Option<Session>)
      modifies this
      ensures removed == Get(old(sessions), sessionId)
      ensures sessions == old(sessions) - {sessionId}
    {
      removed := Get(sessions, sessionId);
      sessions := sessions - {sessionId};
    }

    method BumpActivity(sessionId: string, now: nat) returns (found: bool)
      modifies this
      ensures found == (sessionId in old(sessions))
      ensures sessions == if found then old(sessions)[sessionId := Bumped(old(sessions)[sessionId], now)] else old(sessions)
    {
      found := sessionId in sessions;
      if found {
        sessions := sessions[sessionId := Bumped(sessions[sessionId], now)];
      }
    }
  }

  /** The sidecar directory: one record per app uuid. */
  class SidecarDir {
    var records: map<string, Record>

    constructor ()
      ensures records == map[]
    {
      records := map[];
    }

    method Remove(appUuid: string)
      modifies this
      ensures records == old(records) - {appUuid}
    {
      records := records - {appUuid};
    }
  }

  // ── Re-adoption of dev sessions ───────────────────────────────────────────

  /** The three stores of the session layer. */
  datatype Stores = Stores(records: map<string, Record>, sessions: map<string, Session>, grants: map<string, Grant>)

  /** One listed record, the clock when it is handled, and whether an unlink would succeed. */
  datatype Visit = Visit(record: Record, clock: Clock, unlinked: bool)

  datatype Summary = Summary(adopted: nat, gc: nat)

  function Placeholder(repoUrl: string, clock: Clock): Grant {
    Grant(repoUrl, "", clock.instant)
  }

  function SessionOf(v: Visit): Session {
    Session(v.record.sessionId, v.record.appUuid, v.record.cap, UnixToInstant(v.record.createdUnix, v.clock),
            UnixToInstant(v.record.activityUnix, v.clock), v.record.repoUrl, v.record.branch)
  }

  function ReadoptOne(s: Stores, live: set<string>, v: Visit): Stores {
    if v.record.appUuid in live then
      s.(grants := s.grants[v.record.cap := Placeholder(v.record.repoUrl, v.clock)],
         sessions := s.sessions[v.record.sessionId := SessionOf(v)])
    else if v.unlinked then s.(records := s.records - {v.record.appUuid})
    else s
  }

  function Readopt(s: Stores, live: set<string>, visits: seq<Visit>): Stores
    decreases |visits|
  {
    if visits == [] then s else Readopt(ReadoptOne(s, live, visits[0]), live, visits[1..])
  }

  function Adopted(live: set<string>, visits: seq<Visit>): nat {
    if visits == [] then 0 else (if visits[0].record.appUuid in live then 1 else 0) + Adopted(live, visits[1..])
  }

  /** Walk the listed records: adopt those with a live runner, unlink the others. */
  method ReadoptDevSessions(dir: SidecarDir, registry: DevSessionRegistry, git: GitSessions, live: set<string>, visits: seq<Visit>)
    returns (summary: Summary)
    modifies dir, registry, git
    ensures Stores(dir.records, registry.sessions, git.grants)
         == Readopt(Stores(old(dir.records), old(registry.sessions), old(git.grants)), live, visits)
    ensures summary.adopted == Adopted(live, visits) && summary.adopted + summary.gc == |visits|
  {
    summary := Summary(0, 0);
    for i := 0 to |visits|
      invariant Readopt(Stores(dir.records, registry.sessions, git.grants), live, visits[i..])
             == Readopt(Stores(old(dir.records), old(registry.sessions), old(git.grants)), live, visits)
      invariant summary.adopted + summary.gc == i
      invariant summary.adopted + Adopted(live, visits[i..]) == Adopted(live, visits)
    {
      assert visits[i..][1..] == visits[i + 1..];
      var v := visits[i];
      if v.record.appUuid in live {
        git.Register(v.record.cap, Placeholder(v.record.repoUrl, v.clock));
        registry.Insert(SessionOf(v));
        summary := summary.(adopted := summary.adopted + 1);
      } else {
        if v.unlinked {
          dir.Remove(v.record.appUuid);
        }
        summary := summary.(gc := summary.gc + 1);
      }
    }
  }

  // ── Re-adoption of workspaces ─────────────────────────────────────────────

  datatype WorkspaceStores = WorkspaceStores(records: map<string, WorkspaceRecord>, workspaces: map<string, Workspace>, grants: map<string, Grant>)

  datatype WorkspaceVisit = WorkspaceVisit(record: WorkspaceRecord, clock: Clock, unlinked: bool)

  function RegisterAll(grants: map<string, Grant>, caps: seq<WorkspaceCap>, clock: Clock): map<string, Grant>
    decreases |caps|
  {
    if caps == [] then grants
    else RegisterAll(grants[caps[0].cap := Placeholder(caps[0].repoUrl, clock)], caps[1..], clock)
  }

  function CapsOf(rows: seq<WorkspaceCap>): seq<string> {
    seq(|rows|, i requires 0 <= i < |rows| => rows[i].cap)
  }

  function WorkspaceOf(v: WorkspaceVisit): Workspace {
    Workspace(v.record.uuid, v.record.userId, CapsOf(v.record.caps),
              UnixToInstant(v.record.createdUnix, v.clock), UnixToInstant(v.record.activityUnix, v.clock))
  }

  function ReadoptWorkspace(s: WorkspaceStores, live: set<string>, v: WorkspaceVisit): WorkspaceStores {
    if v.record.uuid !in live then
      if v.unlinked then s.(records := s.records - {v.record.uuid}) else s
    else
      s.(grants := RegisterAll(s.grants, v.record.caps, v.clock), workspaces := s.workspaces[v.record.uuid := WorkspaceOf(v)])
  }

  function ReadoptWorkspaces(s: WorkspaceStores, live: set<string>, visits: seq<WorkspaceVisit>): WorkspaceStores
    decreases |visits|
  {
    if visits == [] then s else ReadoptWorkspaces(ReadoptWorkspace(s, live, visits[0]), live, visits[1..])
  }

  function AdoptedWorkspaces(live: set<string>, visits: seq<WorkspaceVisit>): nat {
    if visits == [] then 0 else (if visits[0].record.uuid in live then 1 else 0) + AdoptedWorkspaces(live, visits[1..])
  }

  class WorkspaceStore {
    var records: map<string, WorkspaceRecord>
    var workspaces: map<string, Workspace>

    constructor ()
      ensures records == map[] && workspaces == map[]
    {
      records, workspaces := map[], map[];
    }

    /** Register every capability of a record with an expired placeholder. */
    method RegisterCaps(git: GitSessions, caps: seq<WorkspaceCap>, clock: Clock)
      modifies git
      ensures git.grants == RegisterAll(old(git.grants), caps, clock)
    {
      for i := 0 to |caps|
        invariant RegisterAll(git.grants, caps[i..], clock) == RegisterAll(old(git.grants), caps, clock)
      {
        assert caps[i..][1..] == caps[i + 1..];
        git.Register(caps[i].cap, Placeholder(caps[i].repoUrl, clock));
      }
    }

    method ReadoptAll(git: GitSessions, live: set<string>, visits: seq<WorkspaceVisit>) returns (adopted: nat, gc: nat)
      modifies this, git
      ensures WorkspaceStores(records, workspaces, git.grants)
           == ReadoptWorkspaces(WorkspaceStores(old(records), old(workspaces), old(git.grants)), live, visits)
      ensures adopted == AdoptedWorkspaces(live, visits) && adopted + gc == |visits|
    {
      adopted, gc := 0, 0;
      for i := 0 to |visits|
        invariant ReadoptWorkspaces(WorkspaceStores(records, workspaces, git.grants), live, visits[i..])
               == ReadoptWorkspaces(WorkspaceStores(old(records), old(workspaces), old(git.grants)), live, visits)
        invariant adopted + gc == i && adopted + AdoptedWorkspaces(live, visits[i..]) == AdoptedWorkspaces(live, visits)
      {
        assert visits[i..][1..] == visits[i + 1..];
        var v := visits[i];
        if v.record.uuid !in live {
          if v.unlinked {
            records := records - {v.record.uuid};
          }
          gc := gc + 1;
          continue;
        }
        RegisterCaps(git, v.record.caps, v.clock);
        workspaces := workspaces[v.record.uuid := WorkspaceOf(v)];
        adopted := adopted + 1;
      }
    }
  }

  // ── The reaper ────────────────────────────────────────────────────────────

  /** What a bump of the activity does to a session. */
  function Bumped(s: Session, now: nat): Session {
    s.(lastActivity := now)
  }

  /** Idle for longer than `idleTtl`, or older than `maxTtl`. */
  predicate IsExpired(s: Session, now: nat, idleTtl: nat, maxTtl: nat) {
    SaturatingSub(now, s.lastActivity) > idleTtl || SaturatingSub(now, s.createdAt) > maxTtl
  }

  /** One session of the snapshot, and what purging its VM and unlinking its sidecar will come to. */
  datatype Reap = Reap(session: Session, purged: bool, unlinked: bool)

  predicate Reaped(r: Reap, now: nat, idleTtl: nat, maxTtl: nat) {
    IsExpired(r.session, now, idleTtl, maxTtl) && r.purged
  }

  /** The sessions a sweep reaps. */
  function ReapedOf(snapshot: seq<Reap>, now: nat, idleTtl: nat, maxTtl: nat): set<Reap> {
    set r <- snapshot | Reaped(r, now, idleTtl, maxTtl)
  }

  function IdsOf(reaped: set<Reap>): set<string> {
    set r <- reaped :: r.session.sessionId
  }

  function CapsReaped(reaped: set<Reap>): set<string> {
    set r <- reaped :: r.session.cap
  }

  function SidecarsReaped(reaped: set<Reap>): set<string> {
    set r <- reaped | r.unlinked :: r.session.appUuid
  }

  lemma ReapedSnoc(snapshot: seq<Reap>, i: nat, now: nat, idleTtl: nat, maxTtl: nat)
    requires i < |snapshot|
    ensures ReapedOf(snapshot[..i + 1], now, idleTtl, maxTtl)
         == ReapedOf(snapshot[..i], now, idleTtl, maxTtl) + if Reaped(snapshot[i], now, idleTtl, maxTtl) then {snapshot[i]} else {}
  {
    assert snapshot[..i + 1] == snapshot[..i] + [snapshot[i]];
  }

  lemma HandlesReaped(reaped: set<Reap>, r: Reap)
    ensures IdsOf(reaped + {r}) == IdsOf(reaped) + {r.session.sessionId}
    ensures CapsReaped(reaped + {r}) == CapsReaped(reaped) + {r.session.cap}
    ensures SidecarsReaped(reaped + {r}) == SidecarsReaped(reaped) + if r.unlinked then {r.session.appUuid} else {}
  {
  }

  lemma MinusTwice<V>(m: map<string, V>, a: set<string>, b: set<string>)
    ensures m - a - b == m - (a + b)
  {
  }

  /** The VM of this session is purged: forget the session everywhere. */
  method ForgetReaped(dir: SidecarDir, registry: DevSessionRegistry, git: GitSessions, r: Reap)
    modifies dir, registry, git
    ensures registry.sessions == old(registry.sessions) - {r.session.sessionId}
    ensures git.grants == old(git.grants) - {r.session.cap}
    ensures dir.records == old(dir.records) - if r.unlinked then {r.session.appUuid} else {}
  {
    var _ := registry.Remove(r.session.sessionId);
    git.Revoke(r.session.cap);
    if r.unlinked {
      dir.Remove(r.session.appUuid);
    }
  }

  /** Reap the expired sessions of the snapshot one by one, keeping every handle of those whose purge fails. */
  method SweepExpired(dir: SidecarDir, registry: DevSessionRegistry, git: GitSessions, snapshot: seq<Reap>,
                      now: nat, idleTtl: nat, maxTtl: nat) returns (purged: seq<string>)
    modifies dir, registry, git
    ensures var reaped := ReapedOf(snapshot, now, idleTtl, maxTtl);
            && registry.sessions == old(registry.sessions) - IdsOf(reaped)
            && git.grants == old(git.grants) - CapsReaped(reaped)
            && dir.records == old(dir.records) - SidecarsReaped(reaped)
            && (set id <- purged) == IdsOf(reaped)
  {
    purged := [];
    for i := 0 to |snapshot|
      invariant var reaped := ReapedOf(snapshot[..i], now, idleTtl, maxTtl);
                && registry.sessions == old(registry.sessions) - IdsOf(reaped)
                && git.grants == old(git.grants) - CapsReaped(reaped)
                && dir.records == old(dir.records) - SidecarsReaped(reaped)
                && (set id <- purged) == IdsOf(reaped)
    {
      ReapedSnoc(snapshot, i, now, idleTtl, maxTtl);
      var r := snapshot[i];
      if !IsExpired(r.session, now, idleTtl, maxTtl) || !r.purged {
        continue;
      }
      ghost var reaped := ReapedOf(snapshot[..i], now, idleTtl, maxTtl);
      HandlesReaped(reaped, r);
      MinusTwice(old(registry.sessions), IdsOf(reaped), {r.session.sessionId});
      MinusTwice(old(git.grants), CapsReaped(reaped), {r.session.cap});
      MinusTwice(old(dir.records), SidecarsReaped(reaped), if r.unlinked then {r.session.appUuid} else {});
      ForgetReaped(dir, registry, git, r);
      purged := purged + [r.session.sessionId];
    }
    assert snapshot[..|snapshot|] == snapshot;
  }
}
