/** Re-adoption rebuilds exactly the state the sidecars and the live runners stand for; ages survive it. */
module DevSessionsProofs {
  import opened Common
  import opened DevSessions

  // ── Dev sessions ──────────────────────────────────────────────────────────

  /** Listed once each, and no two listed sessions share an id or a capability. */
  ghost predicate Distinct(visits: seq<Visit>) {
    forall i, j :: 0 <= i < j < |visits| ==>
      var a, b := visits[i].record, visits[j].record;
      a.appUuid != b.appUuid && a.sessionId != b.sessionId && a.cap != b.cap
  }

  ghost predicate IsLive(live: set<string>, v: Visit) {
    v.record.appUuid in live
  }

  function Unlinked(live: set<string>, visits: seq<Visit>): set<string> {
    set v <- visits | v.record.appUuid !in live && v.unlinked :: v.record.appUuid
  }

  lemma {:induction false} RecordsLeft(s: Stores, live: set<string>, visits: seq<Visit>)
    ensures Readopt(s, live, visits).records == s.records - Unlinked(live, visits)
    decreases |visits|
  {
    if visits != [] {
      RecordsLeft(ReadoptOne(s, live, visits[0]), live, visits[1..]);
      assert visits == [visits[0]] + visits[1..];
    }
  }

  /** A listed record is not repeated. */
  lemma FirstDiffers(visits: seq<Visit>)
    requires Distinct(visits) && visits != []
    ensures Distinct(visits[1..])
    ensures forall v <- visits[1..] :: v.record.sessionId != visits[0].record.sessionId && v.record.cap != visits[0].record.cap
  {
    forall v <- visits[1..] ensures v.record.sessionId != visits[0].record.sessionId && v.record.cap != visits[0].record.cap {
      var j :| 0 <= j < |visits[1..]| && visits[1..][j] == v;
      assert visits[j + 1] == v;
    }
  }

  /** The session is the recorded one: every field its own, and each age rebuilt from its own time stamp. */
  predicate Rebuilt(s: Session, r: Record, clock: Clock) {
    && s.sessionId == r.sessionId && s.appUuid == r.appUuid && s.cap == r.cap && s.repoUrl == r.repoUrl && s.branch == r.branch
    && s.createdAt == UnixToInstant(r.createdUnix, clock) && s.lastActivity == UnixToInstant(r.activityUnix, clock)
  }

  /** What one pass leaves, over any stores it starts from. */
  lemma {:induction false} ReadoptLeaves(s: Stores, live: set<string>, visits: seq<Visit>)
    requires Distinct(visits)
    ensures var end := Readopt(s, live, visits);
            && (forall v <- visits :: IsLive(live, v) ==>
                  && v.record.sessionId in end.sessions && Rebuilt(end.sessions[v.record.sessionId], v.record, v.clock)
                  && Get(end.grants, v.record.cap) == Some(Grant(v.record.repoUrl, "", v.clock.instant)))
            && (forall id :: (forall v <- visits :: IsLive(live, v) ==> v.record.sessionId != id) ==>
                  Get(end.sessions, id) == Get(s.sessions, id))
            && (forall cap :: (forall v <- visits :: IsLive(live, v) ==> v.record.cap != cap) ==>
                  Get(end.grants, cap) == Get(s.grants, cap))
    decreases |visits|
  {
    if visits != [] {
      FirstDiffers(visits);
      var first := visits[0];
      ReadoptLeaves(ReadoptOne(s, live, first), live, visits[1..]);
      assert visits == [first] + visits[1..];
      if IsLive(live, first) {
        assert Get(Readopt(s, live, visits).sessions, first.record.sessionId) == Some(SessionOf(first));
      }
    }
  }

  /** `visits` lists the whole sidecar directory, and every unlink succeeds. */
  ghost predicate ListsAll(records: map<string, Record>, visits: seq<Visit>) {
    && (forall v <- visits :: Get(records, v.record.appUuid) == Some(v.record) && v.unlinked)
    && (forall uuid <- records :: exists v <- visits :: v.record.appUuid == uuid)
  }

  function LiveRecords(records: map<string, Record>, live: set<string>): map<string, Record> {
    map uuid | uuid in records && uuid in live :: records[uuid]
  }

  lemma OrphansGone(records: map<string, Record>, live: set<string>, visits: seq<Visit>)
    requires Distinct(visits) && ListsAll(records, visits)
    ensures Readopt(Stores(records, map[], map[]), live, visits).records == LiveRecords(records, live)
  {
    RecordsLeft(Stores(records, map[], map[]), live, visits);
    forall uuid <- records ensures uuid in Unlinked(live, visits) <==> uuid !in live {
      var v :| v in visits && v.record.appUuid == uuid;
    }
  }

  lemma SessionsExact(records: map<string, Record>, live: set<string>, visits: seq<Visit>)
    requires Distinct(visits)
    ensures Readopt(Stores(records, map[], map[]), live, visits).sessions.Keys
         == set v <- visits | IsLive(live, v) :: v.record.sessionId
  {
    ReadoptLeaves(Stores(records, map[], map[]), live, visits);
    var end := Readopt(Stores(records, map[], map[]), live, visits);
    forall id ensures id in end.sessions <==> exists v <- visits :: IsLive(live, v) && v.record.sessionId == id {
      if forall v <- visits :: IsLive(live, v) ==> v.record.sessionId != id {
        assert Get(end.sessions, id) == None;
      }
    }
  }

  lemma GrantsExact(records: map<string, Record>, live: set<string>, visits: seq<Visit>)
    requires Distinct(visits)
    ensures Readopt(Stores(records, map[], map[]), live, visits).grants.Keys
         == set v <- visits | IsLive(live, v) :: v.record.cap
  {
    ReadoptLeaves(Stores(records, map[], map[]), live, visits);
    var end := Readopt(Stores(records, map[], map[]), live, visits);
    forall cap ensures cap in end.grants <==> exists v <- visits :: IsLive(live, v) && v.record.cap == cap {
      if forall v <- visits :: IsLive(live, v) ==> v.record.cap != cap {
        assert Get(end.grants, cap) == None;
      }
    }
  }

  /** What a pass counts as adopted is how many sessions it rebuilds. */
  lemma {:induction false} AdoptedAreSessions(live: set<string>, visits: seq<Visit>)
    requires Distinct(visits)
    ensures Adopted(live, visits) == |set v <- visits | IsLive(live, v) :: v.record.sessionId|
  {
    var ids := set v <- visits | IsLive(live, v) :: v.record.sessionId;
    if visits == [] {
      assert ids == {};
    } else {
      var first, rest := visits[0], visits[1..];
      var others := set v <- rest | IsLive(live, v) :: v.record.sessionId;
      FirstDiffers(visits);
      AdoptedAreSessions(live, rest);
      assert visits == [first] + rest;
      assert ids == others + if IsLive(live, first) then {first.record.sessionId} else {};
    }
  }

  /**
   After a crash (both registries empty), a pass over the whole directory yields
   exactly the sessions whose sidecar has a live marked runner, each capability
   registered to its own repository and unusable at any later instant, and only
   the sidecars of live runners.
   */
  lemma ReadoptRebuilds(records: map<string, Record>, live: set<string>, visits: seq<Visit>)
    requires Distinct(visits) && ListsAll(records, visits)
    ensures var end := Readopt(Stores(records, map[], map[]), live, visits);
            && end.records == LiveRecords(records, live)
            && end.sessions.Keys == (set v <- visits | IsLive(live, v) :: v.record.sessionId)
            && end.grants.Keys == (set v <- visits | IsLive(live, v) :: v.record.cap)
            && |end.sessions.Keys| == Adopted(live, visits)
            && (forall v <- visits :: IsLive(live, v) ==>
                  && v.record.sessionId in end.sessions && Rebuilt(end.sessions[v.record.sessionId], v.record, v.clock)
                  && Get(end.grants, v.record.cap) == Some(Grant(v.record.repoUrl, "", v.clock.instant)))
            && (forall v <- visits, now: nat :: IsLive(live, v) && now > v.clock.instant ==>
                  Access(end.grants, v.record.cap, now) == None)
  {
    OrphansGone(records, live, visits);
    SessionsExact(records, live, visits);
    GrantsExact(records, live, visits);
    ReadoptLeaves(Stores(records, map[], map[]), live, visits);
    AdoptedAreSessions(live, visits);
  }

  /** Two listings of the same live records name the same sessions and capabilities. */
  lemma SameLiveRecords(live: set<string>, records: map<string, Record>, first: seq<Visit>, second: seq<Visit>)
    requires ListsAll(records, first) && ListsAll(LiveRecords(records, live), second)
    ensures forall v <- second :: IsLive(live, v)
    ensures (set v <- first | IsLive(live, v) :: v.record.sessionId) == (set v <- second | IsLive(live, v) :: v.record.sessionId)
    ensures (set v <- first | IsLive(live, v) :: v.record.cap) == (set v <- second | IsLive(live, v) :: v.record.cap)
  {
    forall v <- second ensures IsLive(live, v) && exists u <- first :: IsLive(live, u) && u.record == v.record {
      assert v.record.appUuid in LiveRecords(records, live);
      var u :| u in first && u.record.appUuid == v.record.appUuid;
    }
    forall u <- first | IsLive(live, u) ensures exists v <- second :: IsLive(live, v) && v.record == u.record {
      assert u.record.appUuid in LiveRecords(records, live);
      var v :| v in second && v.record.appUuid == u.record.appUuid;
    }
  }

  /** What makes a session the one it is; the ages are rebuilt by each pass. */
  function Identity(s: Session): (string, string, string, string, string) {
    (s.sessionId, s.appUuid, s.cap, s.repoUrl, s.branch)
  }

  /** A second pass over what the first left, after another crash, rebuilds the same sessions and capabilities and unlinks nothing. */
  lemma ReadoptIdempotent(records: map<string, Record>, live: set<string>, first: seq<Visit>, second: seq<Visit>)
    requires Distinct(first) && ListsAll(records, first)
    requires Distinct(second) && ListsAll(LiveRecords(records, live), second)
    ensures var once := Readopt(Stores(records, map[], map[]), live, first);
            var twice := Readopt(Stores(once.records, map[], map[]), live, second);
            && twice.records == once.records && Adopted(live, second) == |second|
            && twice.sessions.Keys == once.sessions.Keys && twice.grants.Keys == once.grants.Keys
            && (forall id <- once.sessions :: Identity(twice.sessions[id]) == Identity(once.sessions[id]))
            && (forall cap <- once.grants ::
                  twice.grants[cap].upstream == once.grants[cap].upstream && twice.grants[cap].token == once.grants[cap].token == "")
  {
    OrphansGone(records, live, first);
    SameLiveRecords(live, records, first, second);
    SecondPass(LiveRecords(records, live), live, second);
    SessionsExact(records, live, first);
    GrantsExact(records, live, first);
    SameIdentities(records, live, first, second);
    SameUpstreams(records, live, first, second);
  }

  /** A live record visited by the first pass is visited by the second. */
  lemma VisitedAgain(records: map<string, Record>, live: set<string>, first: seq<Visit>, second: seq<Visit>, u: Visit)
    requires ListsAll(records, first) && ListsAll(LiveRecords(records, live), second) && u in first && IsLive(live, u)
    ensures exists v <- second :: IsLive(live, v) && v.record == u.record
  {
    assert u.record.appUuid in LiveRecords(records, live);
    var v :| v in second && v.record.appUuid == u.record.appUuid;
  }

  lemma SameIdentities(records: map<string, Record>, live: set<string>, first: seq<Visit>, second: seq<Visit>)
    requires Distinct(first) && ListsAll(records, first)
    requires Distinct(second) && ListsAll(LiveRecords(records, live), second)
    ensures var once := Readopt(Stores(records, map[], map[]), live, first).sessions;
            var twice := Readopt(Stores(LiveRecords(records, live), map[], map[]), live, second).sessions;
            forall id <- once :: id in twice && Identity(twice[id]) == Identity(once[id])
  {
    var once := Readopt(Stores(records, map[], map[]), live, first).sessions;
    var twice := Readopt(Stores(LiveRecords(records, live), map[], map[]), live, second).sessions;
    SessionsExact(records, live, first);
    ReadoptLeaves(Stores(records, map[], map[]), live, first);
    ReadoptLeaves(Stores(LiveRecords(records, live), map[], map[]), live, second);
    forall id <- once ensures id in twice && Identity(twice[id]) == Identity(once[id]) {
      var u :| u in first && IsLive(live, u) && u.record.sessionId == id;
      VisitedAgain(records, live, first, second, u);
      var v :| v in second && IsLive(live, v) && v.record == u.record;
      assert Rebuilt(twice[v.record.sessionId], v.record, v.clock) && Rebuilt(once[u.record.sessionId], u.record, u.clock);
    }
  }

  lemma SameUpstreams(records: map<string, Record>, live: set<string>, first: seq<Visit>, second: seq<Visit>)
    requires Distinct(first) && ListsAll(records, first)
    requires Distinct(second) && ListsAll(LiveRecords(records, live), second)
    ensures var once := Readopt(Stores(records, map[], map[]), live, first).grants;
            var twice := Readopt(Stores(LiveRecords(records, live), map[], map[]), live, second).grants;
            forall cap <- once :: cap in twice && twice[cap].upstream == once[cap].upstream && twice[cap].token == once[cap].token == ""
  {
    var once := Readopt(Stores(records, map[], map[]), live, first).grants;
    var twice := Readopt(Stores(LiveRecords(records, live), map[], map[]), live, second).grants;
    GrantsExact(records, live, first);
    ReadoptLeaves(Stores(records, map[], map[]), live, first);
    ReadoptLeaves(Stores(LiveRecords(records, live), map[], map[]), live, second);
    forall cap <- once ensures cap in twice && twice[cap].upstream == once[cap].upstream && twice[cap].token == once[cap].token == "" {
      var u :| u in first && IsLive(live, u) && u.record.cap == cap;
      VisitedAgain(records, live, first, second, u);
      var v :| v in second && IsLive(live, v) && v.record == u.record;
      assert Get(twice, v.record.cap) == Some(Grant(v.record.repoUrl, "", v.clock.instant));
      assert Get(once, u.record.cap) == Some(Grant(u.record.repoUrl, "", u.clock.instant));
    }
  }

  /** A pass over live sidecars only. */
  lemma SecondPass(records: map<string, Record>, live: set<string>, visits: seq<Visit>)
    requires Distinct(visits) && ListsAll(records, visits) && forall v <- visits :: IsLive(live, v)
    ensures var end := Readopt(Stores(records, map[], map[]), live, visits);
            && end.records == records && Adopted(live, visits) == |visits|
            && end.sessions.Keys == (set v <- visits | IsLive(live, v) :: v.record.sessionId)
            && end.grants.Keys == (set v <- visits | IsLive(live, v) :: v.record.cap)
  {
    OrphansGone(records, live, visits);
    assert LiveRecords(records, live) == records;
    SessionsExact(records, live, visits);
    GrantsExact(records, live, visits);
    AllAdopted(live, visits);
  }

  lemma {:induction false} AllAdopted(live: set<string>, visits: seq<Visit>)
    requires forall v <- visits :: IsLive(live, v)
    ensures Adopted(live, visits) == |visits|
    decreases |visits|
  {
    if visits != [] {
      assert IsLive(live, visits[0]);
      AllAdopted(live, visits[1..]);
    }
  }

  // ── Capabilities after re-adoption ────────────────────────────────────────

  function GitHistory(grants: map<string, Grant>, ops: seq<GitOp>): map<string, Grant> {
    if ops == [] then grants else ApplyGit(GitHistory(grants, ops[..|ops| - 1]), ops[|ops| - 1])
  }

  /** What the last refresh of `cap` set, or `initial` when there was none. */
  function LastRefresh(initial: (string, nat), cap: string, ops: seq<GitOp>): (string, nat) {
    if ops == [] then initial
    else
      var last := ops[|ops| - 1];
      if last.Refreshes? && last.cap == cap then (last.token, last.expiresAt)
      else LastRefresh(initial, cap, ops[..|ops| - 1])
  }

  /**
   The fate of a registered capability under any history that does not register
   it anew: gone for good once revoked, and otherwise always leading to its first
   upstream, with the token and expiry of its last refresh.
   */
  lemma {:induction false} CapabilityFate(grants: map<string, Grant>, ops: seq<GitOp>, cap: string)
    requires cap in grants && forall op <- ops :: op.Registers? ==> op.cap != cap
    ensures var (token, expiresAt) := LastRefresh((grants[cap].token, grants[cap].expiresAt), cap, ops);
            Get(GitHistory(grants, ops), cap) ==
              if Revokes(cap) in ops then None else Some(Grant(grants[cap].upstream, token, expiresAt))
  {
    if ops != [] {
      assert ops == ops[..|ops| - 1] + [ops[|ops| - 1]];
      CapabilityFate(grants, ops[..|ops| - 1], cap);
    }
  }

  /**
   A re-adopted capability is unusable at every later instant until it is
   refreshed, and from then on gives exactly its own repository with the
   refreshed token, until that expires or the capability is revoked.
   */
  lemma ReadoptedCapability(s: Stores, live: set<string>, visits: seq<Visit>, v: Visit, ops: seq<GitOp>, now: nat)
    requires Distinct(visits) && v in visits && IsLive(live, v) && now > v.clock.instant
    requires forall op <- ops :: op.Registers? ==> op.cap != v.record.cap
    ensures var (token, expiresAt) := LastRefresh(("", v.clock.instant), v.record.cap, ops);
            Access(GitHistory(Readopt(s, live, visits).grants, ops), v.record.cap, now) ==
              if Revokes(v.record.cap) in ops || expiresAt < now then None else Some((v.record.repoUrl, token))
    ensures (forall op <- ops :: op.Refreshes? ==> op.cap != v.record.cap) ==>
              Access(GitHistory(Readopt(s, live, visits).grants, ops), v.record.cap, now) == None
  {
    var grants := Readopt(s, live, visits).grants;
    ReadoptLeaves(s, live, visits);
    assert Get(grants, v.record.cap) == Some(Grant(v.record.repoUrl, "", v.clock.instant));
    CapabilityFate(grants, ops, v.record.cap);
    if forall op <- ops :: op.Refreshes? ==> op.cap != v.record.cap {
      NeverRefreshed(("", v.clock.instant), v.record.cap, ops);
    }
  }

  lemma {:induction false} NeverRefreshed(initial: (string, nat), cap: string, ops: seq<GitOp>)
    requires forall op <- ops :: op.Refreshes? ==> op.cap != cap
    ensures LastRefresh(initial, cap, ops) == initial
  {
    if ops != [] {
      NeverRefreshed(initial, cap, ops[..|ops| - 1]);
    }
  }

  // ── Workspaces ────────────────────────────────────────────────────────────

  /** No capability is attached to two repositories. */
  ghost predicate Unambiguous(rows: seq<WorkspaceCap>) {
    forall a <- rows, b <- rows :: a.cap == b.cap ==> a.repoUrl == b.repoUrl
  }

  /** Registering a whole record leads every capability to its own repository, and disturbs no other. */
  lemma {:induction false} RegisterAllLeads(grants: map<string, Grant>, rows: seq<WorkspaceCap>, clock: Clock)
    requires Unambiguous(rows)
    ensures var end := RegisterAll(grants, rows, clock);
            && (forall row <- rows :: Get(end, row.cap) == Some(Grant(row.repoUrl, "", clock.instant)))
            && (forall cap :: (forall row <- rows :: row.cap != cap) ==> Get(end, cap) == Get(grants, cap))
    decreases |rows|
  {
    if rows != [] {
      var first, rest := rows[0], rows[1..];
      assert rows == [first] + rest;
      RegisterAllLeads(grants[first.cap := Placeholder(first.repoUrl, clock)], rest, clock);
      if row :| row in rest && row.cap == first.cap {
        assert row in rows && first in rows;
        assert Get(RegisterAll(grants, rows, clock), first.cap) == Some(Grant(row.repoUrl, "", clock.instant));
      } else {
        assert Get(RegisterAll(grants, rows, clock), first.cap) == Some(Grant(first.repoUrl, "", clock.instant));
      }
    }
  }

  /** All rows of all live records. */
  function AllRows(live: set<string>, visits: seq<WorkspaceVisit>): seq<WorkspaceCap> {
    if visits == [] then [] else (if visits[0].record.uuid in live then visits[0].record.caps else []) + AllRows(live, visits[1..])
  }

  ghost predicate ListedOnce(visits: seq<WorkspaceVisit>) {
    forall i, j :: 0 <= i < j < |visits| ==> visits[i].record.uuid != visits[j].record.uuid
  }

  lemma {:induction false} WorkspaceRecordsLeft(s: WorkspaceStores, live: set<string>, visits: seq<WorkspaceVisit>)
    ensures ReadoptWorkspaces(s, live, visits).records
         == s.records - (set v <- visits | v.record.uuid !in live && v.unlinked :: v.record.uuid)
    decreases |visits|
  {
    if visits != [] {
      WorkspaceRecordsLeft(ReadoptWorkspace(s, live, visits[0]), live, visits[1..]);
      assert visits == [visits[0]] + visits[1..];
    }
  }

  /** The workspace is the recorded one, with the capabilities of its rows in order, and each age from its own time stamp. */
  predicate WorkspaceBack(w: Workspace, r: WorkspaceRecord, clock: Clock) {
    && w.uuid == r.uuid && w.userId == r.userId
    && |w.caps| == |r.caps| && (forall i :: 0 <= i < |r.caps| ==> w.caps[i] == r.caps[i].cap)
    && w.createdAt == UnixToInstant(r.createdUnix, clock) && w.lastActivity == UnixToInstant(r.activityUnix, clock)
  }

  lemma {:induction false} WorkspacesBack(s: WorkspaceStores, live: set<string>, visits: seq<WorkspaceVisit>)
    requires ListedOnce(visits)
    ensures var end := ReadoptWorkspaces(s, live, visits);
            && (forall v <- visits :: v.record.uuid in live ==>
                  v.record.uuid in end.workspaces && WorkspaceBack(end.workspaces[v.record.uuid], v.record, v.clock))
            && (forall uuid :: (forall v <- visits :: v.record.uuid in live ==> v.record.uuid != uuid) ==>
                  Get(end.workspaces, uuid) == Get(s.workspaces, uuid))
    decreases |visits|
  {
    if visits != [] {
      var first, rest := visits[0], visits[1..];
      assert visits == [first] + rest;
      WorkspacesBack(ReadoptWorkspace(s, live, first), live, rest);
      forall v <- rest ensures v.record.uuid != first.record.uuid {
        var j :| 0 <= j < |rest| && rest[j] == v;
        assert visits[j + 1] == v;
      }
      if first.record.uuid in live {
        assert Get(ReadoptWorkspaces(s, live, visits).workspaces, first.record.uuid) == Some(WorkspaceOf(first));
      }
    }
  }

  /** The grant of a row is an expired placeholder on the row's repository, from the visit of some live record. */
  ghost predicate Held(grants: map<string, Grant>, row: WorkspaceCap, live: set<string>, visits: seq<WorkspaceVisit>) {
    exists v <- visits :: v.record.uuid in live && Get(grants, row.cap) == Some(Grant(row.repoUrl, "", v.clock.instant))
  }

  lemma {:induction false} WorkspaceCapsLead(s: WorkspaceStores, live: set<string>, visits: seq<WorkspaceVisit>)
    requires Unambiguous(AllRows(live, visits))
    ensures var end := ReadoptWorkspaces(s, live, visits);
            && (forall row <- AllRows(live, visits) :: Held(end.grants, row, live, visits))
            && (forall cap :: (forall row <- AllRows(live, visits) :: row.cap != cap) ==> Get(end.grants, cap) == Get(s.grants, cap))
    decreases |visits|
  {
    if visits != [] {
      var first, rest := visits[0], visits[1..];
      assert visits == [first] + rest;
      assert forall row <- AllRows(live, rest) :: row in AllRows(live, visits);
      var next := ReadoptWorkspace(s, live, first);
      WorkspaceCapsLead(next, live, rest);
      var end := ReadoptWorkspaces(s, live, visits);
      forall row <- AllRows(live, rest) ensures Held(end.grants, row, live, visits) {
        var v :| v in rest && v.record.uuid in live && Get(end.grants, row.cap) == Some(Grant(row.repoUrl, "", v.clock.instant));
        assert v in visits;
      }
      if first.record.uuid in live {
        FirstRecordLeads(s, live, visits);
        forall row <- first.record.caps ensures Held(end.grants, row, live, visits) {
          if other :| other in AllRows(live, rest) && other.cap == row.cap {
            assert other in AllRows(live, visits) && row in AllRows(live, visits);
            assert Held(end.grants, other, live, visits);
          } else {
            assert Get(end.grants, row.cap) == Get(next.grants, row.cap);
            assert first in visits;
          }
        }
      }
    }
  }

  lemma {:induction false} RowsListed(live: set<string>, visits: seq<WorkspaceVisit>)
    ensures forall v <- visits :: v.record.uuid in live ==> forall row <- v.record.caps :: row in AllRows(live, visits)
  {
    if visits != [] {
      RowsListed(live, visits[1..]);
      assert visits == [visits[0]] + visits[1..];
    }
  }

  /**
   Re-adopting workspaces registers every capability of every live record to its
   own repository, with an expired placeholder, and puts back exactly the live workspaces with the caps their
   records list; orphan sidecars go.
   */
  lemma WorkspacesRebuilt(s: WorkspaceStores, live: set<string>, visits: seq<WorkspaceVisit>)
    requires ListedOnce(visits) && Unambiguous(AllRows(live, visits))
    ensures var end := ReadoptWorkspaces(s, live, visits);
            && (forall v <- visits :: v.record.uuid in live ==>
                  && v.record.uuid in end.workspaces && WorkspaceBack(end.workspaces[v.record.uuid], v.record, v.clock)
                  && forall row <- v.record.caps :: Held(end.grants, row, live, visits))
            && (forall cap :: (forall row <- AllRows(live, visits) :: row.cap != cap) ==> Get(end.grants, cap) == Get(s.grants, cap))
            && (forall uuid :: (forall v <- visits :: v.record.uuid in live ==> v.record.uuid != uuid) ==>
                  Get(end.workspaces, uuid) == Get(s.workspaces, uuid))
            && end.records == s.records - (set v <- visits | v.record.uuid !in live && v.unlinked :: v.record.uuid)
  {
    WorkspaceRecordsLeft(s, live, visits);
    WorkspacesBack(s, live, visits);
    WorkspaceCapsLead(s, live, visits);
    RowsListed(live, visits);
  }

  /** So no re-adopted capability of a workspace is usable once the pass is over; a refresh is what restores it. */
  lemma WorkspaceCapsUnusable(s: WorkspaceStores, live: set<string>, visits: seq<WorkspaceVisit>, row: WorkspaceCap, now: nat)
    requires Unambiguous(AllRows(live, visits)) && row in AllRows(live, visits)
    requires forall v <- visits :: v.clock.instant < now
    ensures var grants := ReadoptWorkspaces(s, live, visits).grants;
            && Access(grants, row.cap, now) == None
            && forall token, expiresAt: nat :: expiresAt >= now ==>
                 Access(ApplyGit(grants, Refreshes(row.cap, token, expiresAt)), row.cap, now) == Some((row.repoUrl, token))
  {
    WorkspaceCapsLead(s, live, visits);
    var grants := ReadoptWorkspaces(s, live, visits).grants;
    assert Held(grants, row, live, visits);
    var v :| v in visits && v.record.uuid in live && Get(grants, row.cap) == Some(Grant(row.repoUrl, "", v.clock.instant));
  }

  /** `visits` lists the whole workspace directory, and every unlink succeeds. */
  ghost predicate ListsWorkspaces(records: map<string, WorkspaceRecord>, visits: seq<WorkspaceVisit>) {
    && (forall v <- visits :: Get(records, v.record.uuid) == Some(v.record) && v.unlinked)
    && (forall uuid <- records :: exists v <- visits :: v.record.uuid == uuid)
  }

  function LiveWorkspaceRecords(records: map<string, WorkspaceRecord>, live: set<string>): map<string, WorkspaceRecord> {
    map uuid | uuid in records && uuid in live :: records[uuid]
  }

  lemma WorkspaceOrphansGone(records: map<string, WorkspaceRecord>, live: set<string>, visits: seq<WorkspaceVisit>)
    requires ListsWorkspaces(records, visits)
    ensures ReadoptWorkspaces(WorkspaceStores(records, map[], map[]), live, visits).records == LiveWorkspaceRecords(records, live)
  {
    WorkspaceRecordsLeft(WorkspaceStores(records, map[], map[]), live, visits);
    var gone := set v <- visits | v.record.uuid !in live && v.unlinked :: v.record.uuid;
    forall uuid <- records ensures uuid in gone <==> uuid !in live {
      var v :| v in visits && v.record.uuid == uuid;
    }
  }

  /** Every live record of the one is a record of the other. */
  ghost predicate RecordsCarry(live: set<string>, a: seq<WorkspaceVisit>, b: seq<WorkspaceVisit>) {
    forall v <- a :: v.record.uuid in live ==> exists u <- b :: u.record == v.record
  }

  lemma SecondListing(records: map<string, WorkspaceRecord>, live: set<string>, first: seq<WorkspaceVisit>, second: seq<WorkspaceVisit>)
    requires ListsWorkspaces(records, first) && ListsWorkspaces(LiveWorkspaceRecords(records, live), second)
    ensures RecordsCarry(live, first, second) && RecordsCarry(live, second, first) && forall v <- second :: v.record.uuid in live
  {
    forall v <- second ensures v.record.uuid in live && exists u <- first :: u.record == v.record {
      assert v.record.uuid in LiveWorkspaceRecords(records, live);
      var u :| u in first && u.record.uuid == v.record.uuid;
    }
    forall u <- first | u.record.uuid in live ensures exists v <- second :: v.record == u.record {
      assert u.record.uuid in LiveWorkspaceRecords(records, live);
      var v :| v in second && v.record.uuid == u.record.uuid;
    }
  }

  lemma {:induction false} RowOfRecord(live: set<string>, visits: seq<WorkspaceVisit>, row: WorkspaceCap) returns (v: WorkspaceVisit)
    requires row in AllRows(live, visits)
    ensures v in visits && v.record.uuid in live && row in v.record.caps
  {
    v := visits[0];
    if !(v.record.uuid in live && row in v.record.caps) {
      v := RowOfRecord(live, visits[1..], row);
    }
  }

  lemma RowCarries(live: set<string>, a: seq<WorkspaceVisit>, b: seq<WorkspaceVisit>, row: WorkspaceCap)
    requires RecordsCarry(live, a, b) && row in AllRows(live, a)
    ensures row in AllRows(live, b)
  {
    var v := RowOfRecord(live, a, row);
    var u :| u in b && u.record == v.record;
    RowsListed(live, b);
  }

  lemma UnambiguousCarries(live: set<string>, a: seq<WorkspaceVisit>, b: seq<WorkspaceVisit>)
    requires RecordsCarry(live, b, a) && Unambiguous(AllRows(live, a))
    ensures Unambiguous(AllRows(live, b))
  {
    forall row <- AllRows(live, b) ensures row in AllRows(live, a) {
      RowCarries(live, b, a, row);
    }
  }

  /** A workspace but for its ages. */
  function WorkspaceIdentity(w: Workspace): (string, string, seq<string>) {
    (w.uuid, w.userId, w.caps)
  }

  /** This workspace, and every capability of its record, came out of both passes alike. */
  ghost predicate SameAgain(once: WorkspaceStores, twice: WorkspaceStores, r: WorkspaceRecord) {
    && r.uuid in once.workspaces && r.uuid in twice.workspaces
    && WorkspaceIdentity(twice.workspaces[r.uuid]) == WorkspaceIdentity(once.workspaces[r.uuid])
    && forall row <- r.caps ::
         && row.cap in once.grants && row.cap in twice.grants
         && twice.grants[row.cap].upstream == once.grants[row.cap].upstream == row.repoUrl
  }

  lemma WorkspaceAgain(s: WorkspaceStores, t: WorkspaceStores, live: set<string>, first: seq<WorkspaceVisit>, second: seq<WorkspaceVisit>, u: WorkspaceVisit)
    requires ListedOnce(first) && ListedOnce(second) && RecordsCarry(live, first, second) && u in first && u.record.uuid in live
    requires Unambiguous(AllRows(live, first)) && Unambiguous(AllRows(live, second))
    ensures SameAgain(ReadoptWorkspaces(s, live, first), ReadoptWorkspaces(t, live, second), u.record)
  {
    WorkspacesBack(s, live, first);
    WorkspacesBack(t, live, second);
    var v :| v in second && v.record == u.record;
    assert WorkspaceBack(ReadoptWorkspaces(s, live, first).workspaces[u.record.uuid], u.record, u.clock);
    assert WorkspaceBack(ReadoptWorkspaces(t, live, second).workspaces[v.record.uuid], v.record, v.clock);
    assert ReadoptWorkspaces(s, live, first).workspaces[u.record.uuid].caps == ReadoptWorkspaces(t, live, second).workspaces[u.record.uuid].caps;
    forall row <- u.record.caps
      ensures var once, twice := ReadoptWorkspaces(s, live, first).grants, ReadoptWorkspaces(t, live, second).grants;
              row.cap in once && row.cap in twice && twice[row.cap].upstream == once[row.cap].upstream == row.repoUrl
    {
      RowsListed(live, first);
      UpstreamAgain(s, t, live, first, second, row);
    }
  }

  lemma UpstreamAgain(s: WorkspaceStores, t: WorkspaceStores, live: set<string>, first: seq<WorkspaceVisit>, second: seq<WorkspaceVisit>, row: WorkspaceCap)
    requires Unambiguous(AllRows(live, first)) && Unambiguous(AllRows(live, second)) && RecordsCarry(live, first, second)
    requires row in AllRows(live, first)
    ensures var once, twice := ReadoptWorkspaces(s, live, first).grants, ReadoptWorkspaces(t, live, second).grants;
            row.cap in once && row.cap in twice && twice[row.cap].upstream == once[row.cap].upstream == row.repoUrl
  {
    RowCarries(live, first, second, row);
    WorkspaceCapsLead(s, live, first);
    WorkspaceCapsLead(t, live, second);
    assert Held(ReadoptWorkspaces(s, live, first).grants, row, live, first);
    assert Held(ReadoptWorkspaces(t, live, second).grants, row, live, second);
  }

  lemma {:induction false} AdoptedAreWorkspaces(live: set<string>, visits: seq<WorkspaceVisit>)
    requires ListedOnce(visits)
    ensures AdoptedWorkspaces(live, visits) == |set v <- visits | v.record.uuid in live :: v.record.uuid|
  {
    var ids := set v <- visits | v.record.uuid in live :: v.record.uuid;
    if visits == [] {
      assert ids == {};
    } else {
      var first, rest := visits[0], visits[1..];
      var others := set v <- rest | v.record.uuid in live :: v.record.uuid;
      forall v <- rest ensures v.record.uuid != first.record.uuid {
        var j :| 0 <= j < |rest| && rest[j] == v;
        assert visits[j + 1] == v;
      }
      AdoptedAreWorkspaces(live, rest);
      assert visits == [first] + rest;
      assert ids == others + if first.record.uuid in live then {first.record.uuid} else {};
    }
  }

  /** From empty registries, exactly the live workspaces and the capabilities of their rows are there. */
  lemma WorkspacesOnly(records: map<string, WorkspaceRecord>, live: set<string>, visits: seq<WorkspaceVisit>)
    requires ListedOnce(visits) && Unambiguous(AllRows(live, visits))
    ensures var end := ReadoptWorkspaces(WorkspaceStores(records, map[], map[]), live, visits);
            && end.workspaces.Keys == (set v <- visits | v.record.uuid in live :: v.record.uuid)
            && end.grants.Keys == (set row <- AllRows(live, visits) :: row.cap)
            && |end.workspaces.Keys| == AdoptedWorkspaces(live, visits)
  {
    AdoptedAreWorkspaces(live, visits);
    var s := WorkspaceStores(records, map[], map[]);
    var end := ReadoptWorkspaces(s, live, visits);
    WorkspacesBack(s, live, visits);
    WorkspaceCapsLead(s, live, visits);
    forall uuid ensures uuid in end.workspaces <==> exists v <- visits :: v.record.uuid in live && v.record.uuid == uuid {
      if forall v <- visits :: v.record.uuid in live ==> v.record.uuid != uuid {
        assert Get(end.workspaces, uuid) == None;
      }
    }
    forall cap ensures cap in end.grants <==> exists row <- AllRows(live, visits) :: row.cap == cap {
      if row :| row in AllRows(live, visits) && row.cap == cap {
        assert Held(end.grants, row, live, visits);
      } else {
        assert Get(end.grants, cap) == None;
      }
    }
  }

  lemma SameKeys(live: set<string>, a: seq<WorkspaceVisit>, b: seq<WorkspaceVisit>)
    requires RecordsCarry(live, a, b) && RecordsCarry(live, b, a)
    ensures (set v <- a | v.record.uuid in live :: v.record.uuid) == (set v <- b | v.record.uuid in live :: v.record.uuid)
    ensures (set row <- AllRows(live, a) :: row.cap) == (set row <- AllRows(live, b) :: row.cap)
  {
    forall row <- AllRows(live, a) ensures row in AllRows(live, b) {
      RowCarries(live, a, b, row);
    }
    forall row <- AllRows(live, b) ensures row in AllRows(live, a) {
      RowCarries(live, b, a, row);
    }
  }

  /** A second pass over what the first left, after another crash, rebuilds the same workspaces and capabilities, no others, and unlinks nothing. */
  lemma WorkspacesIdempotent(records: map<string, WorkspaceRecord>, live: set<string>, first: seq<WorkspaceVisit>, second: seq<WorkspaceVisit>)
    requires ListedOnce(first) && ListsWorkspaces(records, first) && Unambiguous(AllRows(live, first))
    requires ListedOnce(second) && ListsWorkspaces(LiveWorkspaceRecords(records, live), second)
    ensures var once := ReadoptWorkspaces(WorkspaceStores(records, map[], map[]), live, first);
            var twice := ReadoptWorkspaces(WorkspaceStores(once.records, map[], map[]), live, second);
            && once.records == twice.records == LiveWorkspaceRecords(records, live)
            && twice.workspaces.Keys == once.workspaces.Keys == (set u <- first | u.record.uuid in live :: u.record.uuid)
            && twice.grants.Keys == once.grants.Keys == (set row <- AllRows(live, first) :: row.cap)
            && forall u <- first :: u.record.uuid in live ==> SameAgain(once, twice, u.record)
  {
    WorkspaceOrphansGone(records, live, first);
    var left := LiveWorkspaceRecords(records, live);
    WorkspaceOrphansGone(left, live, second);
    assert LiveWorkspaceRecords(left, live) == left;
    SecondListing(records, live, first, second);
    UnambiguousCarries(live, first, second);
    WorkspacesOnly(records, live, first);
    WorkspacesOnly(left, live, second);
    SameKeys(live, first, second);
    var s, t := WorkspaceStores(records, map[], map[]), WorkspaceStores(left, map[], map[]);
    forall u <- first | u.record.uuid in live
      ensures SameAgain(ReadoptWorkspaces(s, live, first), ReadoptWorkspaces(t, live, second), u.record)
    {
      WorkspaceAgain(s, t, live, first, second, u);
    }
  }

  lemma FirstRecordLeads(s: WorkspaceStores, live: set<string>, visits: seq<WorkspaceVisit>)
    requires visits != [] && visits[0].record.uuid in live && Unambiguous(AllRows(live, visits))
    ensures var next := ReadoptWorkspace(s, live, visits[0]);
            && (forall row <- visits[0].record.caps :: Get(next.grants, row.cap) == Some(Grant(row.repoUrl, "", visits[0].clock.instant)))
            && (forall row <- visits[0].record.caps :: row in AllRows(live, visits))
            && (forall cap :: (forall row <- visits[0].record.caps :: row.cap != cap) ==> Get(next.grants, cap) == Get(s.grants, cap))
  {
    var rows := visits[0].record.caps;
    forall row <- rows ensures row in AllRows(live, visits) {
      assert AllRows(live, visits) == rows + AllRows(live, visits[1..]);
    }
    RegisterAllLeads(s.grants, rows, visits[0].clock);
  }

  // ── Activity ──────────────────────────────────────────────────────────────

  /** A bump buys exactly one more idle time: until then the session expires by its age alone, and never by idling. */
  lemma BumpDefersIdleExpiry(s: Session, bump: nat, now: nat, idleTtl: nat, maxTtl: nat)
    requires bump <= now
    ensures IsExpired(Bumped(s, bump), now, idleTtl, maxTtl) <==> now > bump + idleTtl || SaturatingSub(now, s.createdAt) > maxTtl
    ensures Identity(Bumped(s, bump)) == Identity(s) && Bumped(s, bump).createdAt == s.createdAt
  {
  }

  // ── Ages across restarts ──────────────────────────────────────────────────

  /**
   An age rebuilt from the persisted second is within one second of the true age
   `since the restart + wall-clock time from creation to restart`, exactly unless
   the whole seconds between are more than the instants there are to go back by,
   or the wall clock was set back in between: then it restarts from 0.
   */
  lemma RebuiltAge(created: nat, restart: Clock, now: nat)
    requires restart.instant <= now
    ensures var rebuilt: int := now - UnixToInstant(created / SECOND, restart);
            var truth: int := now - restart.instant + (restart.wall - created);
            if created <= restart.wall && (restart.wall / SECOND - created / SECOND) * SECOND <= restart.instant
            then truth - SECOND < rebuilt < truth + SECOND
            else rebuilt == now - restart.instant
  {
    if created <= restart.wall {
      assert created / SECOND <= restart.wall / SECOND;
    } else {
      assert restart.wall / SECOND <= created / SECOND;
    }
  }

  /** The whole seconds from a wall-clock time to the restart can be gone back by. */
  predicate Representable(time: nat, restart: Clock) {
    time <= restart.wall && (restart.wall / SECOND - time / SECOND) * SECOND <= restart.instant
  }

  /**
   Hence no restart makes a re-adopted session expire more than one second early:
   one that is swept after it truly is, to within a second, idle or old enough.
   Nor, where both ages can be rebuilt, more than one second late.
   */
  lemma RestartExpiresNotEarly(s: Stores, live: set<string>, visits: seq<Visit>, v: Visit,
                               created: nat, active: nat, now: nat, idleTtl: nat, maxTtl: nat)
    requires Distinct(visits) && v in visits && IsLive(live, v)
    requires v.record.createdUnix == created / SECOND && v.record.activityUnix == active / SECOND
    requires created <= v.clock.wall && active <= v.clock.wall && v.clock.instant <= now
    ensures var sessions := Readopt(s, live, visits).sessions;
            var idle: int := now - v.clock.instant + (v.clock.wall - active);
            var age: int := now - v.clock.instant + (v.clock.wall - created);
            && v.record.sessionId in sessions
            && (IsExpired(sessions[v.record.sessionId], now, idleTtl, maxTtl) ==> idle > idleTtl - SECOND || age > maxTtl - SECOND)
            && (Representable(active, v.clock) && Representable(created, v.clock) && (idle >= idleTtl + SECOND || age >= maxTtl + SECOND) ==>
                  IsExpired(sessions[v.record.sessionId], now, idleTtl, maxTtl))
  {
    ReadoptLeaves(s, live, visits);
    RebuiltAge(created, v.clock, now);
    RebuiltAge(active, v.clock, now);
  }

  // ── The sweep ─────────────────────────────────────────────────────────────

  /** Idle or old beyond the limit by the sweep's own clock, and its VM purged. */
  predicate Forgettable(r: Reap, now: nat, idleTtl: nat, maxTtl: nat) {
    r.purged && (now > r.session.lastActivity + idleTtl || now > r.session.createdAt + maxTtl)
  }

  /**
   What a sweep leaves: a session and its capability unless some entry of the
   snapshot for it expired and was purged, a sidecar unless it could be unlinked
   as well.  So whatever is young, or could not be purged, keeps every handle.
   */
  lemma SweepLeaves(sessions: map<string, Session>, grants: map<string, Grant>, records: map<string, Record>, snapshot: seq<Reap>,
                    now: nat, idleTtl: nat, maxTtl: nat)
    ensures var reaped := ReapedOf(snapshot, now, idleTtl, maxTtl);
            && (forall id <- sessions ::
                  id in sessions - IdsOf(reaped) <==>
                  forall r <- snapshot :: r.session.sessionId == id ==> !Forgettable(r, now, idleTtl, maxTtl))
            && (forall cap <- grants ::
                  cap in grants - CapsReaped(reaped) <==>
                  forall r <- snapshot :: r.session.cap == cap ==> !Forgettable(r, now, idleTtl, maxTtl))
            && (forall uuid <- records ::
                  uuid in records - SidecarsReaped(reaped) <==>
                  forall r <- snapshot :: r.session.appUuid == uuid ==> !(Forgettable(r, now, idleTtl, maxTtl) && r.unlinked))
  {
    forall r <- snapshot ensures r in ReapedOf(snapshot, now, idleTtl, maxTtl) <==> Forgettable(r, now, idleTtl, maxTtl) {
    }
  }
}
