/**
 Replacing a record file crash-safely: `src/api/atomic_record.rs`, and the
 listing of the record directory (`dev_session_record.rs`).  A directory entry
 that was changed since the directory was last synced may, after a crash, point
 to any target it had since; a file written since its last sync may hold anything.
 */
module AtomicRecord {
  import opened Common

  type Inode = nat

  datatype Fs = Fs(
    names: map<string, Inode>,                  // the directory, as seen while running
    choices: map<string, set<Option<Inode>>>,   // what a crash may leave a changed entry pointing to
    contents: map<Inode, Bytes>,
    clean: set<Inode>,                          // files with nothing unsynced
    next: Inode)

  datatype Op =
    | CreateTemp(temp: string)
    | Write(temp: string, piece: Bytes)
    | SyncFile(temp: string)
    | Rename(temp: string, path: string)
    | Unlink(name: string)
    | SyncDir

  /** The targets an entry may have after a crash. */
  function Choices(fs: Fs, name: string): set<Option<Inode>> {
    if name in fs.choices then fs.choices[name] else {Get(fs.names, name)}
  }

  function Repoint(fs: Fs, name: string, target: Option<Inode>): Fs {
    fs.(names := Put(fs.names, name, target), choices := fs.choices[name := Choices(fs, name) + {target}])
  }

  function Apply(fs: Fs, op: Op): Fs {
    match op
    case CreateTemp(temp) =>
      Repoint(fs, temp, Some(fs.next)).(contents := fs.contents[fs.next := []], clean := fs.clean - {fs.next}, next := fs.next + 1)
    case Write(temp, piece) =>
      if temp !in fs.names || fs.names[temp] !in fs.contents then fs
      else
        var i := fs.names[temp];
        fs.(contents := fs.contents[i := fs.contents[i] + piece], clean := fs.clean - {i})
    case SyncFile(temp) =>
      if temp in fs.names then fs.(clean := fs.clean + {fs.names[temp]}) else fs
    case Rename(temp, path) =>
      if temp in fs.names then Repoint(Repoint(fs, path, Some(fs.names[temp])), temp, None) else fs
    case Unlink(name) => Repoint(fs, name, None)
    case SyncDir => fs.(choices := map[])
  }

  function ApplyAll(fs: Fs, ops: seq<Op>): Fs
    decreases |ops|
  {
    if ops == [] then fs else ApplyAll(Apply(fs, ops[0]), ops[1..])
  }

  lemma {:induction false} ApplyAllAppend(fs: Fs, ops: seq<Op>, op: Op)
    ensures ApplyAll(fs, ops + [op]) == Apply(ApplyAll(fs, ops), op)
    decreases |ops|
  {
    if ops == [] {
      assert ([] + [op])[1..] == [];
    } else {
      assert (ops + [op])[1..] == ops[1..] + [op];
      ApplyAllAppend(Apply(fs, ops[0]), ops[1..], op);
    }
  }

  /** Which system calls of one save succeed, and in which pieces the contents get written. */
  datatype Script = Script(
    created: bool, permitted: bool, pieces: seq<Bytes>, synced: bool, persisted: bool, dirSynced: bool, discarded: bool)

  function Joined(pieces: seq<Bytes>): Bytes {
    if pieces == [] then [] else pieces[0] + Joined(pieces[1..])
  }

  function Writes(temp: string, pieces: seq<Bytes>): seq<Op> {
    if pieces == [] then [] else [Write(temp, pieces[0])] + Writes(temp, pieces[1..])
  }

  lemma WritesFrom(temp: string, pieces: seq<Bytes>, i: nat)
    requires i < |pieces|
    ensures Writes(temp, pieces[i..]) == [Write(temp, pieces[i])] + Writes(temp, pieces[i + 1..])
  {
    assert pieces[i..][1..] == pieces[i + 1..];
  }

  predicate Written(s: Script, contents: Bytes) {
    Joined(s.pieces) == contents
  }

  /** What follows a failing call: the temporary file is dropped, if that succeeds. */
  function GiveUp(temp: string, s: Script): seq<Op> {
    if s.discarded then [Unlink(temp)] else []
  }

  /** The part of a save after the temporary file holds everything. */
  function Publish(temp: string, path: string, s: Script): seq<Op> {
    if !s.synced then GiveUp(temp, s)
    else if !s.persisted then [SyncFile(temp)] + GiveUp(temp, s)
    else [SyncFile(temp), Rename(temp, path)] + if s.dirSynced then [SyncDir] else []
  }

  /** The calls of one save, in order. */
  function SaveOps(temp: string, path: string, contents: Bytes, s: Script): seq<Op> {
    if !s.created then []
    else if !s.permitted then [CreateTemp(temp)] + GiveUp(temp, s)
    else [CreateTemp(temp)] + (Writes(temp, s.pieces) + if Written(s, contents) then Publish(temp, path, s) else GiveUp(temp, s))
  }

  predicate SaveOk(contents: Bytes, s: Script) {
    s.created && s.permitted && Written(s, contents) && s.synced && s.persisted && s.dirSynced
  }

  // ── The same, in place ────────────────────────────────────────────────────

  /** The record directory; `done` is the calls made on it since `start`. */
  class RecordDir {
    var fs: Fs
    ghost const start: Fs
    ghost var done: seq<Op>

    ghost predicate Valid()
      reads this
    {
      fs == ApplyAll(start, done)
    }

    constructor (initial: Fs)
      ensures Valid() && start == initial && done == []
    {
      fs, start, done := initial, initial, [];
    }

    method Perform(op: Op)
      requires Valid()
      modifies this
      ensures Valid() && done == old(done) + [op]
    {
      ApplyAllAppend(start, done, op);
      fs, done := Apply(fs, op), done + [op];
    }

    method DropTemp(temp: string, s: Script)
      requires Valid()
      modifies this
      ensures Valid() && done == old(done) + GiveUp(temp, s)
    {
      if s.discarded {
        Perform(Unlink(temp));
      }
    }

    method WriteAll(temp: string, pieces: seq<Bytes>)
      requires Valid()
      modifies this
      ensures Valid() && done == old(done) + Writes(temp, pieces)
    {
      var i := 0;
      assert pieces[0..] == pieces;
      while i < |pieces|
        invariant 0 <= i <= |pieces| && Valid()
        invariant done + Writes(temp, pieces[i..]) == old(done) + Writes(temp, pieces)
      {
        WritesFrom(temp, pieces, i);
        ghost var before := done;
        Perform(Write(temp, pieces[i]));
        assert before + ([Write(temp, pieces[i])] + Writes(temp, pieces[i + 1..])) == done + Writes(temp, pieces[i + 1..]);
        i := i + 1;
      }
      assert Writes(temp, pieces[i..]) == [];
      assert done + [] == done;
    }

    /** Sync, rename over the record, sync the directory. */
    method PublishTemp(temp: string, path: string, s: Script) returns (ok: bool)
      requires Valid()
      modifies this
      ensures Valid() && done == old(done) + Publish(temp, path, s)
      ensures ok == (s.synced && s.persisted && s.dirSynced)
    {
      if !s.synced {
        DropTemp(temp, s);
        return false;
      }
      Perform(SyncFile(temp));
      if !s.persisted {
        DropTemp(temp, s);
        return false;
      }
      Perform(Rename(temp, path));
      if s.dirSynced {
        Perform(SyncDir);
      }
      ok := s.dirSynced;
    }

    /** `remove`: the record is unlinked, and the directory not synced; a missing one is no error. */
    method Remove(path: string, unlinked: bool)
      requires Valid()
      modifies this
      ensures Valid() && done == old(done) + if unlinked && path in old(fs.names) then [Unlink(path)] else []
    {
      if unlinked && path in fs.names {
        Perform(Unlink(path));
      }
    }

    /** Fill the temporary file; publish it only if all of it got written. */
    method FillTemp(temp: string, path: string, contents: Bytes, s: Script) returns (ok: bool)
      requires Valid()
      modifies this
      ensures Valid()
      ensures done == old(done) + (Writes(temp, s.pieces) + if Written(s, contents) then Publish(temp, path, s) else GiveUp(temp, s))
      ensures ok == (Written(s, contents) && s.synced && s.persisted && s.dirSynced)
    {
      WriteAll(temp, s.pieces);
      if Written(s, contents) {
        ok := PublishTemp(temp, path, s);
      } else {
        DropTemp(temp, s);
        ok := false;
      }
    }

    /** Create, write, publish; `Ok` only if every call succeeded. */
    method Save(temp: string, path: string, contents: Bytes, s: Script) returns (ok: bool)
      requires Valid()
      modifies this
      ensures Valid() && done == old(done) + SaveOps(temp, path, contents, s)
      ensures ok == SaveOk(contents, s)
    {
      if !s.created {
        return false;
      }
      Perform(CreateTemp(temp));
      if !s.permitted {
        DropTemp(temp, s);
        return false;
      }
      ok := FillTemp(temp, path, contents, s);
    }
  }

  // ── After a crash ─────────────────────────────────────────────────────────

  predicate MayHold(fs: Fs, target: Option<Inode>, content: Option<Bytes>) {
    match target
    case None => content == None
    case Some(i) => content.Some? && (i in fs.clean && i in fs.contents ==> content.value == fs.contents[i])
  }

  ghost predicate MayRead(fs: Fs, name: string, content: Option<Bytes>) {
    exists target <- Choices(fs, name) :: MayHold(fs, target, content)
  }

  /** A directory a crash in this state may leave behind. */
  ghost predicate MaySurvive(fs: Fs, after: map<string, Bytes>) {
    forall name :: MayRead(fs, name, Get(after, name))
  }

  const JSON := ".json"

  predicate IsRecordName(name: string) {
    |name| > |JSON| && name[|name| - |JSON|..] == JSON
  }

  /** What listing a directory reads: the files with the record extension, nothing else. */
  function ListRecords(dir: map<string, Bytes>): map<string, Bytes> {
    map name | name in dir && IsRecordName(name) :: dir[name]
  }

  /** The directory as a running process reads it. */
  function Visible(fs: Fs): map<string, Bytes> {
    map name | name in fs.names && fs.names[name] in fs.contents :: fs.contents[fs.names[name]]
  }

  // ── Whole histories ───────────────────────────────────────────────────────

  /** What a restart finds: nothing unsynced, and the directory the crash left. */
  ghost predicate Restarted(fs: Fs, after: map<string, Bytes>) {
    fs.choices == map[] && Visible(fs) == after
    && forall name <- fs.names :: fs.names[name] < fs.next && fs.names[name] in fs.clean && fs.names[name] in fs.contents
  }

  /** One save under way: what it was asked to do, how its calls will go, and how many of them it has made. */
  datatype Flight = Flight(temp: string, path: string, contents: Bytes, script: Script, at: nat)

  function Calls(f: Flight): seq<Op> {
    SaveOps(f.temp, f.path, f.contents, f.script)
  }

  /** The directory and the saves under way; handlers save concurrently, one call at a time each. */
  datatype Dir = Dir(fs: Fs, flights: map<nat, Flight>)

  datatype Move =
    | Begin(id: nat, flight: Flight)
    | Proceed(id: nat)
    | Remove(path: string)
    | Crash(restarted: Fs)

  /** Temporary names are random: no two saves of one process share theirs.  A crash may leave anything that may survive. */
  ghost predicate Enabled(d: Dir, m: Move) {
    match m
    case Begin(id, f) =>
      && id !in d.flights && f.at == 0 && IsRecordName(f.path) && !IsRecordName(f.temp)
      && forall other <- d.flights :: d.flights[other].temp != f.temp
    case Proceed(id) => id in d.flights && d.flights[id].at < |Calls(d.flights[id])|
    case Remove(path) => IsRecordName(path)
    case Crash(restarted) => MaySurvive(d.fs, Visible(restarted)) && Restarted(restarted, Visible(restarted))
  }

  /** The call a save makes next. */
  function NextCall(f: Flight): Op
    requires f.at < |Calls(f)|
  {
    Calls(f)[f.at]
  }

  ghost function Do(d: Dir, m: Move): Dir
    requires Enabled(d, m)
  {
    match m
    case Begin(id, f) => d.(flights := d.flights[id := f])
    case Proceed(id) =>
      var f := d.flights[id];
      Dir(Apply(d.fs, NextCall(f)), d.flights[id := f.(at := f.at + 1)])
    case Remove(path) => d.(fs := Apply(d.fs, Unlink(path)))
    case Crash(restarted) => Dir(restarted, map[])
  }

  ghost predicate Possible(d: Dir, moves: seq<Move>)
    decreases |moves|
  {
    moves == [] || (Enabled(d, moves[0]) && Possible(Do(d, moves[0]), moves[1..]))
  }

  ghost function DoAll(d: Dir, moves: seq<Move>): Dir
    requires Possible(d, moves)
    decreases |moves|
  {
    if moves == [] then d else DoAll(Do(d, moves[0]), moves[1..])
  }
}
