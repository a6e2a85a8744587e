/**
 Over any history of saves, with their calls interleaved, of removals and of
 crashes, every record is absent or wholly one of the contents stored since the
 directory was last synced.
 */
module AtomicRecordProofs {
  import opened Common
  import opened AtomicRecord

  // ── Keeping book ──────────────────────────────────────────────────────────

  /**
   What is known of the records from the outside: what they read as now, and for
   those changed since the directory was last synced, what a crash may make of them.
   */
  datatype Book = Book(now: map<string, Bytes>, may: map<string, set<Option<Bytes>>>)

  function MayBe(b: Book, name: string): set<Option<Bytes>> {
    if name in b.may then b.may[name] else {Get(b.now, name)}
  }

  function Changed(b: Book, name: string, content: Option<Bytes>): Book {
    Book(Put(b.now, name, content), b.may[name := MayBe(b, name) + {content}])
  }

  /** How one call of a save of `contents` changes the book: at the rename, and at the directory sync. */
  function Track(b: Book, op: Op, contents: Bytes): Book {
    match op
    case Rename(_, path) => Changed(b, path, Some(contents))
    case Unlink(name) => if IsRecordName(name) then Changed(b, name, None) else b
    case SyncDir => Book(b.now, map[])
    case _ => b
  }

  function TrackAll(b: Book, ops: seq<Op>, contents: Bytes): Book
    decreases |ops|
  {
    if ops == [] then b else TrackAll(Track(b, ops[0], contents), ops[1..], contents)
  }

  /** Every target the entry may have is whole and synced, and holds one of `allowed`. */
  ghost predicate Holds(fs: Fs, name: string, allowed: set<Option<Bytes>>) {
    forall target <- Choices(fs, name) ::
      match target
      case None => None in allowed
      case Some(i) => i in fs.clean && i in fs.contents && Some(fs.contents[i]) in allowed
  }

  ghost predicate Sound(fs: Fs) {
    && (forall name :: Get(fs.names, name) in Choices(fs, name))
    && (forall name, i :: Some(i) in Choices(fs, name) ==> i < fs.next)
  }

  ghost predicate TracksAt(fs: Fs, b: Book, name: string) {
    Holds(fs, name, MayBe(b, name)) && Get(Visible(fs), name) == Get(b.now, name)
  }

  /** The book is right: every record entry is whole and as the book has it. */
  ghost predicate Tracks(fs: Fs, b: Book) {
    && Sound(fs)
    && (forall name <- b.now :: IsRecordName(name))
    && (forall name :: IsRecordName(name) ==> TracksAt(fs, b, name))
  }

  /** The temporary file holds `written`, and no record entry can come to point to it by a crash. */
  ghost predicate TempHolds(fs: Fs, temp: string, written: Bytes) {
    && !IsRecordName(temp)
    && temp in fs.names && Get(fs.contents, fs.names[temp]) == Some(written)
    && forall name :: IsRecordName(name) ==> Some(fs.names[temp]) !in Choices(fs, name)
  }

  // ── One call at a time ────────────────────────────────────────────────────

  lemma ShownAt(fs: Fs, name: string)
    requires Sound(fs)
    ensures Get(Visible(fs), name) == match Get(fs.names, name) case None => None case Some(i) => Get(fs.contents, i)
  {
  }

  /** An entry that a call did not touch keeps what it holds and shows. */
  lemma Untouched(fs: Fs, after: Fs, b: Book, name: string)
    requires Tracks(fs, b) && IsRecordName(name) && Sound(after)
    requires Choices(after, name) == Choices(fs, name) && Get(after.names, name) == Get(fs.names, name)
    requires forall i :: Some(i) in Choices(fs, name) ==>
               Get(after.contents, i) == Get(fs.contents, i) && (i in fs.clean ==> i in after.clean)
    ensures TracksAt(after, b, name)
  {
    assert TracksAt(fs, b, name);
    assert Get(fs.names, name) in Choices(fs, name);
    ShownAt(fs, name);
    ShownAt(after, name);
  }

  lemma CreateTempTracked(fs: Fs, temp: string, b: Book)
    requires Tracks(fs, b) && !IsRecordName(temp)
    ensures Tracks(Apply(fs, CreateTemp(temp)), b) && TempHolds(Apply(fs, CreateTemp(temp)), temp, [])
  {
    var after := Apply(fs, CreateTemp(temp));
    forall name | name != temp ensures Choices(after, name) == Choices(fs, name) && Get(after.names, name) == Get(fs.names, name) {
    }
    assert Choices(after, temp) == Choices(fs, temp) + {Some(fs.next)};
    assert Sound(after);
    forall name | IsRecordName(name)
      ensures Some(fs.next) !in Choices(fs, name) && TracksAt(after, b, name)
    {
      assert name != temp;
      Untouched(fs, after, b, name);
    }
  }

  lemma WriteTracked(fs: Fs, temp: string, piece: Bytes, b: Book, written: Bytes)
    requires Tracks(fs, b) && TempHolds(fs, temp, written)
    ensures Tracks(Apply(fs, Write(temp, piece)), b) && TempHolds(Apply(fs, Write(temp, piece)), temp, written + piece)
  {
    var after := Apply(fs, Write(temp, piece));
    forall name ensures Choices(after, name) == Choices(fs, name) && Get(after.names, name) == Get(fs.names, name) {
    }
    assert Sound(after);
    forall name | IsRecordName(name) ensures TracksAt(after, b, name) {
      Untouched(fs, after, b, name);
    }
  }

  lemma SyncFileTracked(fs: Fs, temp: string, b: Book, written: Bytes)
    requires Tracks(fs, b) && TempHolds(fs, temp, written)
    ensures var after := Apply(fs, SyncFile(temp));
            Tracks(after, b) && TempHolds(after, temp, written) && after.names[temp] in after.clean
  {
    var after := Apply(fs, SyncFile(temp));
    forall name ensures Choices(after, name) == Choices(fs, name) && Get(after.names, name) == Get(fs.names, name) {
    }
    assert Sound(after);
    forall name | IsRecordName(name) ensures TracksAt(after, b, name) {
      Untouched(fs, after, b, name);
    }
  }

  lemma RenameChoices(fs: Fs, temp: string, path: string)
    requires Sound(fs) && temp in fs.names && temp != path
    ensures var after := Apply(fs, Rename(temp, path));
            && Sound(after) && after.contents == fs.contents && after.clean == fs.clean
            && Choices(after, path) == Choices(fs, path) + {Some(fs.names[temp])}
            && Get(after.names, path) == Some(fs.names[temp])
            && forall name :: name != temp && name != path ==>
                 Choices(after, name) == Choices(fs, name) && Get(after.names, name) == Get(fs.names, name)
  {
    var after := Apply(fs, Rename(temp, path));
    forall name | name != temp && name != path ensures Choices(after, name) == Choices(fs, name) && Get(after.names, name) == Get(fs.names, name) {
    }
    assert Some(fs.names[temp]) in Choices(fs, temp) by { assert Get(fs.names, temp) in Choices(fs, temp); }
    assert Choices(after, temp) == Choices(fs, temp) + {None};
    assert Choices(after, path) == Choices(fs, path) + {Some(fs.names[temp])};
  }

  /** A change of another record's entry leaves the book right about this one. */
  lemma OtherEntry(fs: Fs, b: Book, path: string, content: Option<Bytes>, name: string)
    requires TracksAt(fs, b, name) && name != path
    ensures TracksAt(fs, Changed(b, path, content), name)
  {
    assert MayBe(Changed(b, path, content), name) == MayBe(b, name);
  }

  /** An entry given one more target, now the current one, holds and shows one more content. */
  lemma ThisEntry(fs: Fs, after: Fs, b: Book, path: string, target: Option<Inode>, content: Option<Bytes>)
    requires TracksAt(fs, b, path) && Sound(after)
    requires Choices(after, path) == Choices(fs, path) + {target} && Get(after.names, path) == target
    requires after.contents == fs.contents && after.clean == fs.clean
    requires match target case None => content == None case Some(i) => i in fs.clean && i in fs.contents && content == Some(fs.contents[i])
    ensures TracksAt(after, Changed(b, path, content), path)
  {
    assert MayBe(Changed(b, path, content), path) == MayBe(b, path) + {content};
    ShownAt(after, path);
  }

  lemma ChangedKeys(b: Book, path: string, content: Option<Bytes>)
    requires IsRecordName(path) && forall name <- b.now :: IsRecordName(name)
    ensures forall name <- Changed(b, path, content).now :: IsRecordName(name)
  {
  }

  lemma RenameTracked(fs: Fs, temp: string, path: string, b: Book, contents: Bytes)
    requires Tracks(fs, b) && TempHolds(fs, temp, contents) && fs.names[temp] in fs.clean && IsRecordName(path)
    ensures Tracks(Apply(fs, Rename(temp, path)), Changed(b, path, Some(contents)))
  {
    var after := Apply(fs, Rename(temp, path));
    RenameChoices(fs, temp, path);
    ChangedKeys(b, path, Some(contents));
    forall name | IsRecordName(name) ensures TracksAt(after, Changed(b, path, Some(contents)), name) {
      if name == path {
        ThisEntry(fs, after, b, path, Some(fs.names[temp]), Some(contents));
      } else {
        Untouched(fs, after, b, name);
        OtherEntry(after, b, path, Some(contents), name);
      }
    }
  }

  lemma UnlinkChoices(fs: Fs, name: string)
    requires Sound(fs)
    ensures var after := Apply(fs, Unlink(name));
            && Sound(after) && after.contents == fs.contents && after.clean == fs.clean
            && Choices(after, name) == Choices(fs, name) + {None} && Get(after.names, name) == None
            && forall other :: other != name ==>
                 Choices(after, other) == Choices(fs, other) && Get(after.names, other) == Get(fs.names, other)
  {
    var after := Apply(fs, Unlink(name));
    forall other | other != name ensures Choices(after, other) == Choices(fs, other) && Get(after.names, other) == Get(fs.names, other) {
    }
    assert Choices(after, name) == Choices(fs, name) + {None};
  }

  lemma UnlinkTracked(fs: Fs, name: string, b: Book)
    requires Tracks(fs, b)
    ensures Tracks(Apply(fs, Unlink(name)), Track(b, Unlink(name), []))
  {
    var after := Apply(fs, Unlink(name));
    UnlinkChoices(fs, name);
    if IsRecordName(name) {
      ChangedKeys(b, name, None);
    }
    forall other | IsRecordName(other) ensures TracksAt(after, Track(b, Unlink(name), []), other) {
      if other == name {
        ThisEntry(fs, after, b, name, None, None);
      } else {
        Untouched(fs, after, b, other);
        OtherEntry(after, b, name, None, other);
      }
    }
  }

  lemma SyncDirTracked(fs: Fs, b: Book)
    requires Tracks(fs, b)
    ensures Tracks(Apply(fs, SyncDir), Book(b.now, map[]))
  {
    var after := Apply(fs, SyncDir);
    forall name ensures Choices(after, name) == {Get(fs.names, name)} <= Choices(fs, name) {
    }
    assert Sound(after);
    forall name | IsRecordName(name)
      ensures TracksAt(after, Book(b.now, map[]), name)
    {
      assert TracksAt(fs, b, name);
      ShownAt(fs, name);
      ShownAt(after, name);
    }
  }

  // ── The calls of one save ────────────────────────────────────────────────────

  /** What a save has done to its temporary file: whether it is there, what it holds, whether that is synced. */
  datatype Made = Made(there: bool, written: Bytes, synced: bool)

  const NOT_MADE := Made(false, [], false)

  function Advance(m: Made, op: Op): Made {
    match op
    case CreateTemp(_) => Made(true, [], false)
    case Write(_, piece) => Made(m.there, m.written + piece, false)
    case SyncFile(_) => m.(synced := true)
    case Rename(_, _) => NOT_MADE
    case Unlink(_) => NOT_MADE
    case SyncDir => m
  }

  function MadeBy(m: Made, ops: seq<Op>): Made
    decreases |ops|
  {
    if ops == [] then m else MadeBy(Advance(m, ops[0]), ops[1..])
  }

  /** A save calls on its own files only, writes and syncs what it has made, and renames it complete and synced. */
  predicate Sane(m: Made, f: Flight, op: Op) {
    match op
    case CreateTemp(temp) => temp == f.temp
    case Write(temp, _) => temp == f.temp && m.there
    case SyncFile(temp) => temp == f.temp && m.there
    case Rename(temp, path) => temp == f.temp && path == f.path && m == Made(true, f.contents, true)
    case Unlink(temp) => temp == f.temp
    case SyncDir => true
  }

  predicate AllSane(m: Made, f: Flight, ops: seq<Op>)
    decreases |ops|
  {
    ops == [] || (Sane(m, f, ops[0]) && AllSane(Advance(m, ops[0]), f, ops[1..]))
  }

  lemma GiveUpSane(m: Made, f: Flight)
    ensures AllSane(m, f, GiveUp(f.temp, f.script))
  {
  }

  lemma PublishSane(m: Made, f: Flight)
    requires m.there && m.written == f.contents
    ensures AllSane(m, f, Publish(f.temp, f.path, f.script))
  {
    var ops := Publish(f.temp, f.path, f.script);
    var synced := m.(synced := true);
    if f.script.synced && !f.script.persisted {
      GiveUpSane(synced, f);
      assert ops[1..] == GiveUp(f.temp, f.script);
    } else if f.script.synced {
      var last := if f.script.dirSynced then [SyncDir] else [];
      assert ops[1..] == [Rename(f.temp, f.path)] + last && ([Rename(f.temp, f.path)] + last)[1..] == last;
      assert AllSane(NOT_MADE, f, last);
      assert AllSane(synced, f, ops[1..]);
    }
  }

  lemma {:induction false} WritesSane(m: Made, f: Flight, pieces: seq<Bytes>, rest: seq<Op>)
    requires m.there
    requires rest == if m.written + Joined(pieces) == f.contents then Publish(f.temp, f.path, f.script) else GiveUp(f.temp, f.script)
    ensures AllSane(m, f, Writes(f.temp, pieces) + rest)
    decreases |pieces|
  {
    var ops := Writes(f.temp, pieces) + rest;
    if pieces == [] {
      assert ops == rest && m.written + Joined(pieces) == m.written;
      if m.written == f.contents {
        PublishSane(m, f);
      } else {
        GiveUpSane(m, f);
      }
    } else {
      assert ops[0] == Write(f.temp, pieces[0]) && ops[1..] == Writes(f.temp, pieces[1..]) + rest;
      assert m.written + Joined(pieces) == m.written + pieces[0] + Joined(pieces[1..]);
      WritesSane(Advance(m, ops[0]), f, pieces[1..], rest);
    }
  }

  lemma CallsSane(f: Flight)
    ensures AllSane(NOT_MADE, f, Calls(f))
  {
    var s := f.script;
    if s.created {
      var made := Made(true, [], false);
      if !s.permitted {
        GiveUpSane(made, f);
        assert Calls(f)[1..] == GiveUp(f.temp, s);
      } else {
        var rest := if Written(s, f.contents) then Publish(f.temp, f.path, s) else GiveUp(f.temp, s);
        assert Calls(f)[1..] == Writes(f.temp, s.pieces) + rest;
        assert [] + Joined(s.pieces) == Joined(s.pieces);
        WritesSane(made, f, s.pieces, rest);
      }
    }
  }

  lemma {:induction false} SaneAt(m: Made, f: Flight, ops: seq<Op>, k: nat)
    requires AllSane(m, f, ops) && k < |ops|
    ensures Sane(MadeBy(m, ops[..k]), f, ops[k])
    ensures MadeBy(m, ops[..k + 1]) == Advance(MadeBy(m, ops[..k]), ops[k])
    decreases |ops|
  {
    assert ops[..k + 1][1..] == ops[1..][..k];
    if k > 0 {
      assert ops[..k][1..] == ops[1..][..k - 1];
      SaneAt(Advance(m, ops[0]), f, ops[1..], k - 1);
    } else {
      assert ops[..1][1..] == [];
    }
  }

  function MadeOf(f: Flight): Made
    requires f.at <= |Calls(f)|
  {
    MadeBy(NOT_MADE, Calls(f)[..f.at])
  }

  lemma NextSane(f: Flight)
    requires f.at < |Calls(f)|
    ensures Sane(MadeOf(f), f, NextCall(f)) && MadeOf(f.(at := f.at + 1)) == Advance(MadeOf(f), NextCall(f))
  {
    CallsSane(f);
    SaneAt(NOT_MADE, f, Calls(f), f.at);
  }

  /** The temporary file is as its save has made it. */
  ghost predicate Ready(fs: Fs, temp: string, m: Made) {
    m.there ==> TempHolds(fs, temp, m.written) && (m.synced ==> fs.names[temp] in fs.clean)
  }

  /** One call of a save keeps the book right and its own file as it has made it. */
  lemma CallTracked(fs: Fs, b: Book, f: Flight, m: Made, op: Op)
    requires Tracks(fs, b) && IsRecordName(f.path) && !IsRecordName(f.temp) && Ready(fs, f.temp, m) && Sane(m, f, op)
    ensures Tracks(Apply(fs, op), Track(b, op, f.contents)) && Ready(Apply(fs, op), f.temp, Advance(m, op))
  {
    match op
    case CreateTemp(temp) => CreateTempTracked(fs, temp, b);
    case Write(temp, piece) => WriteTracked(fs, temp, piece, b, m.written);
    case SyncFile(temp) => SyncFileTracked(fs, temp, b, m.written);
    case Rename(temp, path) => RenameTracked(fs, temp, path, b, f.contents);
    case Unlink(temp) => UnlinkTracked(fs, temp, b);
    case SyncDir =>
      SyncDirTracked(fs, b);
      if m.there {
        SyncDirKeepsTemp(fs, f.temp, m.written);
      }
  }

  lemma SyncDirKeepsTemp(fs: Fs, temp: string, written: Bytes)
    requires Sound(fs) && TempHolds(fs, temp, written)
    ensures TempHolds(Apply(fs, SyncDir), temp, written)
  {
    var after := Apply(fs, SyncDir);
    forall name | IsRecordName(name) ensures Some(after.names[temp]) !in Choices(after, name) {
      assert Choices(after, name) == {Get(fs.names, name)};
      assert Get(fs.names, name) in Choices(fs, name);
    }
  }

  // ── A whole save ──────────────────────────────────────────────────────────

  /** The book stays right through every prefix of these calls. */
  ghost predicate Throughout(fs: Fs, b: Book, ops: seq<Op>, contents: Bytes)
    decreases |ops|
  {
    Tracks(fs, b) && (ops != [] ==> Throughout(Apply(fs, ops[0]), Track(b, ops[0], contents), ops[1..], contents))
  }

  lemma {:induction false} ThroughoutAt(fs: Fs, b: Book, ops: seq<Op>, contents: Bytes, k: nat)
    requires Throughout(fs, b, ops, contents) && k <= |ops|
    ensures Tracks(ApplyAll(fs, ops[..k]), TrackAll(b, ops[..k], contents))
    decreases |ops|
  {
    if k > 0 {
      assert ops[..k][1..] == ops[1..][..k - 1];
      ThroughoutAt(Apply(fs, ops[0]), Track(b, ops[0], contents), ops[1..], contents, k - 1);
    }
  }

  lemma {:induction false} SaneThroughout(fs: Fs, b: Book, f: Flight, m: Made, ops: seq<Op>)
    requires Tracks(fs, b) && IsRecordName(f.path) && !IsRecordName(f.temp) && Ready(fs, f.temp, m) && AllSane(m, f, ops)
    ensures Throughout(fs, b, ops, f.contents)
    decreases |ops|
  {
    if ops != [] {
      CallTracked(fs, b, f, m, ops[0]);
      SaneThroughout(Apply(fs, ops[0]), Track(b, ops[0], f.contents), f, Advance(m, ops[0]), ops[1..]);
    }
  }

  /** Every prefix of a save, successful or failing, keeps the book right. */
  lemma SaveThroughout(fs: Fs, temp: string, s: Script, b: Book, path: string, contents: Bytes)
    requires Tracks(fs, b) && IsRecordName(path) && !IsRecordName(temp)
    ensures Throughout(fs, b, SaveOps(temp, path, contents, s), contents)
  {
    var f := Flight(temp, path, contents, s, 0);
    CallsSane(f);
    SaneThroughout(fs, b, f, NOT_MADE, Calls(f));
  }

  // ── What the book says of a save ──────────────────────────────────────────

  lemma {:induction false} TrackConcat(b: Book, x: seq<Op>, y: seq<Op>, contents: Bytes)
    ensures TrackAll(b, x + y, contents) == TrackAll(TrackAll(b, x, contents), y, contents)
    decreases |x|
  {
    if x == [] {
      assert x + y == y;
    } else {
      assert (x + y)[1..] == x[1..] + y;
      TrackConcat(Track(b, x[0], contents), x[1..], y, contents);
    }
  }

  predicate Quiet(op: Op) {
    op.CreateTemp? || op.Write? || op.SyncFile? || (op.Unlink? && !IsRecordName(op.name))
  }

  lemma {:induction false} QuietTracks(b: Book, ops: seq<Op>, contents: Bytes)
    requires forall op <- ops :: Quiet(op)
    ensures TrackAll(b, ops, contents) == b
    decreases |ops|
  {
    if ops != [] {
      assert Quiet(ops[0]);
      QuietTracks(b, ops[1..], contents);
    }
  }

  lemma {:induction false} WritesQuiet(temp: string, pieces: seq<Bytes>)
    ensures forall op <- Writes(temp, pieces) :: Quiet(op)
  {
    if pieces != [] {
      WritesQuiet(temp, pieces[1..]);
    }
  }

  predicate Renames(s: Script, contents: Bytes) {
    s.created && s.permitted && Written(s, contents) && s.synced && s.persisted
  }

  /** The calls of a save: quiet ones, and for a save that renames the rename and the directory sync after them. */
  lemma SaveShape(temp: string, path: string, contents: Bytes, s: Script) returns (quiet: seq<Op>)
    requires !IsRecordName(temp)
    ensures forall op <- quiet :: Quiet(op)
    ensures SaveOps(temp, path, contents, s) ==
              quiet + if !Renames(s, contents) then [] else if s.dirSynced then [Rename(temp, path), SyncDir] else [Rename(temp, path)]
  {
    WritesQuiet(temp, s.pieces);
    if Renames(s, contents) {
      quiet := [CreateTemp(temp)] + (Writes(temp, s.pieces) + [SyncFile(temp)]);
    } else {
      quiet := SaveOps(temp, path, contents, s);
    }
  }

  /**
   What a save does to the book, up to any of its calls: nothing, or - once it has
   renamed - the new contents in place and possible for `path` only, or - once it
   has synced the directory - the new contents in place and certain.
   */
  lemma SaveTracksExactly(b: Book, temp: string, path: string, contents: Bytes, s: Script, k: nat)
    requires !IsRecordName(temp) && k <= |SaveOps(temp, path, contents, s)|
    ensures var ops := SaveOps(temp, path, contents, s);
            TrackAll(b, ops[..k], contents) ==
              if SyncDir in ops[..k] then Book(b.now[path := contents], map[])
              else if Rename(temp, path) in ops[..k] then Changed(b, path, Some(contents))
              else b
    ensures k == |SaveOps(temp, path, contents, s)| ==> (SyncDir in SaveOps(temp, path, contents, s)[..k] <==> SaveOk(contents, s))
  {
    var ops := SaveOps(temp, path, contents, s);
    var quiet := SaveShape(temp, path, contents, s);
    var n := |quiet|;
    if k <= n {
      assert ops[..k] == quiet[..k];
      QuietTracks(b, ops[..k], contents);
    } else {
      assert ops[..k] == quiet + ops[n..k];
      assert ops[n..k] == if k == n + 1 then [Rename(temp, path)] else [Rename(temp, path), SyncDir];
      assert [Rename(temp, path), SyncDir][1..] == [SyncDir] && [SyncDir][1..] == [] && [Rename(temp, path)][1..] == [];
      QuietTracks(b, quiet, contents);
      TrackConcat(b, quiet, ops[n..k], contents);
    }
  }

  /** So a save adds only its own contents, for its own record, to what may be. */
  lemma SaveAddsOnly(b: Book, temp: string, path: string, contents: Bytes, s: Script, k: nat, name: string)
    requires !IsRecordName(temp) && k <= |SaveOps(temp, path, contents, s)| && Get(b.now, name) in MayBe(b, name)
    ensures MayBe(TrackAll(b, SaveOps(temp, path, contents, s)[..k], contents), name)
         <= MayBe(b, name) + if name == path then {Some(contents)} else {}
  {
    SaveTracksExactly(b, temp, path, contents, s, k);
  }

  // ── What a crash or a listing shows ───────────────────────────────────────

  /** Whatever a crash leaves, or a running process sees, of a record is what the book has it may be. */
  lemma TrackedShows(fs: Fs, b: Book, after: map<string, Bytes>, name: string)
    requires Tracks(fs, b) && IsRecordName(name)
    ensures MaySurvive(fs, after) ==> Get(after, name) in MayBe(b, name)
    ensures Get(Visible(fs), name) == Get(b.now, name) && Get(b.now, name) in MayBe(b, name)
  {
    assert TracksAt(fs, b, name);
    ShownAt(fs, name);
    assert Get(fs.names, name) in Choices(fs, name);
    if MaySurvive(fs, after) {
      assert MayRead(fs, name, Get(after, name));
      var target :| target in Choices(fs, name) && MayHold(fs, target, Get(after, name));
    }
  }

  lemma SameMap(a: map<string, Bytes>, b: map<string, Bytes>)
    requires forall name :: Get(a, name) == Get(b, name)
    ensures a == b
  {
    forall name ensures name in a <==> name in b {
      assert Get(a, name) == Get(b, name);
    }
    forall name <- a ensures a[name] == b[name] {
      assert Get(a, name) == Get(b, name);
    }
  }

  lemma TrackedLists(fs: Fs, b: Book)
    requires Tracks(fs, b)
    ensures ListRecords(Visible(fs)) == b.now
  {
    forall name ensures Get(ListRecords(Visible(fs)), name) == Get(b.now, name) {
      if IsRecordName(name) {
        TrackedShows(fs, b, map[], name);
      }
    }
    SameMap(ListRecords(Visible(fs)), b.now);
  }

  // ── The statements ────────────────────────────────────────────────────────

  /**
   Atomic replacement, from any reachable directory: wherever a save is
   interrupted, and whatever a crash there makes of the unsynced, the record is
   wholly what it might have been before or wholly the new contents, and every
   other record is what it might have been before.  Nothing else is listed.
   */
  lemma SaveIsAtomic(fs: Fs, b: Book, temp: string, path: string, contents: Bytes, s: Script, k: nat, after: map<string, Bytes>, name: string)
    requires Tracks(fs, b) && IsRecordName(path) && !IsRecordName(temp) && IsRecordName(name)
    requires k <= |SaveOps(temp, path, contents, s)|
    requires var at := ApplyAll(fs, SaveOps(temp, path, contents, s)[..k]);
             MaySurvive(at, after) || after == Visible(at)
    ensures Get(after, name) in MayBe(b, name) + if name == path then {Some(contents)} else {}
    ensures Get(ListRecords(after), name) == Get(after, name)
  {
    var ops := SaveOps(temp, path, contents, s);
    SaveThroughout(fs, temp, s, b, path, contents);
    ThroughoutAt(fs, b, ops, contents, k);
    TrackedShows(ApplyAll(fs, ops[..k]), TrackAll(b, ops[..k], contents), after, name);
    TrackedShows(fs, b, after, name);
    SaveAddsOnly(b, temp, path, contents, s, k, name);
  }

  /** In particular, where nothing is unsynced the listing is exactly the old records or those with the new one in place. */
  lemma SaveAtRestIsAtomic(fs: Fs, records: map<string, Bytes>, temp: string, path: string, contents: Bytes, s: Script, k: nat, after: map<string, Bytes>)
    requires Tracks(fs, Book(records, map[])) && IsRecordName(path) && !IsRecordName(temp)
    requires k <= |SaveOps(temp, path, contents, s)|
    requires var at := ApplyAll(fs, SaveOps(temp, path, contents, s)[..k]);
             MaySurvive(at, after) || after == Visible(at)
    ensures ListRecords(after) == records || ListRecords(after) == records[path := contents]
  {
    var listed := if Get(after, path) == Get(records, path) then records else records[path := contents];
    forall name ensures Get(ListRecords(after), name) == Get(listed, name) {
      if IsRecordName(name) {
        SaveIsAtomic(fs, Book(records, map[]), temp, path, contents, s, k, after, name);
        SaveIsAtomic(fs, Book(records, map[]), temp, path, contents, s, k, after, path);
      }
    }
    SameMap(ListRecords(after), listed);
  }

  /**
   `Ok` means new and durable, from any reachable directory: whatever was unsynced
   before, afterwards every record is certain, and `path` is the new contents.
   */
  lemma SaveOkIsDurable(fs: Fs, b: Book, temp: string, path: string, contents: Bytes, s: Script)
    requires Tracks(fs, b) && IsRecordName(path) && !IsRecordName(temp) && SaveOk(contents, s)
    ensures Tracks(ApplyAll(fs, SaveOps(temp, path, contents, s)), Book(b.now[path := contents], map[]))
  {
    var ops := SaveOps(temp, path, contents, s);
    SaveThroughout(fs, temp, s, b, path, contents);
    assert ops[..|ops|] == ops;
    ThroughoutAt(fs, b, ops, contents, |ops|);
    SaveTracksExactly(b, temp, path, contents, s, |ops|);
  }

  /** A save that fails without a crash is visible exactly when it got as far as the rename. */
  lemma SaveErrShows(fs: Fs, b: Book, temp: string, path: string, contents: Bytes, s: Script)
    requires Tracks(fs, b) && IsRecordName(path) && !IsRecordName(temp) && !SaveOk(contents, s)
    ensures ListRecords(Visible(ApplyAll(fs, SaveOps(temp, path, contents, s)))) ==
              if Renames(s, contents) then b.now[path := contents] else b.now
  {
    var ops := SaveOps(temp, path, contents, s);
    SaveThroughout(fs, temp, s, b, path, contents);
    assert ops[..|ops|] == ops;
    ThroughoutAt(fs, b, ops, contents, |ops|);
    SaveTracksExactly(b, temp, path, contents, s, |ops|);
    var quiet := SaveShape(temp, path, contents, s);
    assert Rename(temp, path) in ops <==> Renames(s, contents);
    TrackedLists(ApplyAll(fs, ops), TrackAll(b, ops, contents));
  }

  // ── Many saves at once ────────────────────────────────────────────────────

  ghost predicate FlightOk(fs: Fs, f: Flight) {
    IsRecordName(f.path) && !IsRecordName(f.temp) && f.at <= |Calls(f)| && Ready(fs, f.temp, MadeOf(f))
  }

  /** Two saves have different temporary names, and those that are there different files. */
  ghost predicate Apart(fs: Fs, f: Flight, g: Flight)
    requires f.at <= |Calls(f)| && g.at <= |Calls(g)|
  {
    && f.temp != g.temp
    && (MadeOf(f).there && MadeOf(g).there && f.temp in fs.names && g.temp in fs.names ==> fs.names[f.temp] != fs.names[g.temp])
  }

  ghost predicate Inv(d: Dir, b: Book) {
    && Tracks(d.fs, b)
    && (forall id <- d.flights :: FlightOk(d.fs, d.flights[id]))
    && (forall x <- d.flights, y <- d.flights :: x != y ==> Apart(d.fs, d.flights[x], d.flights[y]))
  }

  /** An operation that is not on this file, and gives no record this target, leaves the file as it was. */
  lemma OtherReady(fs: Fs, after: Fs, temp: string, m: Made, added: Option<Inode>)
    requires Ready(fs, temp, m) && m.there
    requires Get(after.names, temp) == Get(fs.names, temp) && added != Some(fs.names[temp])
    requires Get(after.contents, fs.names[temp]) == Get(fs.contents, fs.names[temp])
    requires fs.names[temp] in fs.clean ==> fs.names[temp] in after.clean
    requires forall name :: IsRecordName(name) ==> Choices(after, name) <= Choices(fs, name) + {added}
    ensures Ready(after, temp, m)
  {
  }

  /** A call of one save leaves the file of another as it was. */
  lemma CallKeepsOther(fs: Fs, f: Flight, m: Made, op: Op, temp: string, other: Made)
    requires Sound(fs) && IsRecordName(f.path) && !IsRecordName(f.temp) && Ready(fs, f.temp, m) && Sane(m, f, op)
    requires !IsRecordName(temp) && temp != f.temp && Ready(fs, temp, other) && other.there
    requires m.there ==> fs.names[f.temp] != fs.names[temp]
    ensures Ready(Apply(fs, op), temp, other) && Get(Apply(fs, op).names, temp) == Get(fs.names, temp)
  {
    var after := Apply(fs, op);
    assert Get(fs.names, temp) in Choices(fs, temp);
    match op
    case CreateTemp(_) =>
      forall name | IsRecordName(name) ensures Choices(after, name) == Choices(fs, name) {
      }
      OtherReady(fs, after, temp, other, None);
    case Write(_, _) =>
      forall name ensures Choices(after, name) == Choices(fs, name) {
      }
      OtherReady(fs, after, temp, other, None);
    case SyncFile(_) =>
      forall name ensures Choices(after, name) == Choices(fs, name) {
      }
      OtherReady(fs, after, temp, other, None);
    case Rename(_, path) =>
      RenameChoices(fs, f.temp, path);
      OtherReady(fs, after, temp, other, Some(fs.names[f.temp]));
    case Unlink(name) =>
      UnlinkChoices(fs, name);
      OtherReady(fs, after, temp, other, None);
    case SyncDir =>
      SyncDirKeepsTemp(fs, temp, other.written);
  }

  /** The removal of a record leaves every temporary file as it was. */
  lemma RemoveKeepsTemp(fs: Fs, path: string, temp: string, m: Made)
    requires Sound(fs) && IsRecordName(path) && !IsRecordName(temp) && Ready(fs, temp, m)
    ensures Ready(Apply(fs, Unlink(path)), temp, m) && Get(Apply(fs, Unlink(path)).names, temp) == Get(fs.names, temp)
  {
    UnlinkChoices(fs, path);
    if m.there {
      OtherReady(fs, Apply(fs, Unlink(path)), temp, m, None);
    }
  }

  /** A file that is there after the call is the same as before, or a new one. */
  lemma CallKeepsFile(fs: Fs, f: Flight, m: Made, op: Op)
    requires Sound(fs) && Ready(fs, f.temp, m) && Sane(m, f, op) && Advance(m, op).there
    ensures f.temp in Apply(fs, op).names
    ensures Apply(fs, op).names[f.temp] == fs.next || (m.there && Apply(fs, op).names[f.temp] == fs.names[f.temp])
  {
  }

  lemma InodeOld(fs: Fs, temp: string)
    requires Sound(fs) && temp in fs.names
    ensures fs.names[temp] < fs.next
  {
    assert Get(fs.names, temp) in Choices(fs, temp);
  }

  lemma ProceedKeepsOthers(d: Dir, b: Book, id: nat, other: nat)
    requires Inv(d, b) && Enabled(d, Proceed(id)) && other in d.flights && other != id
    ensures var after := Do(d, Proceed(id));
            && FlightOk(after.fs, after.flights[other])
            && Apart(after.fs, after.flights[id], after.flights[other]) && Apart(after.fs, after.flights[other], after.flights[id])
            && (MadeOf(d.flights[other]).there ==> Get(after.fs.names, d.flights[other].temp) == Get(d.fs.names, d.flights[other].temp))
  {
    var f, g := d.flights[id], d.flights[other];
    assert FlightOk(d.fs, f) && FlightOk(d.fs, g) && Apart(d.fs, f, g);
    NextSane(f);
    if MadeOf(g).there {
      CallKeepsOther(d.fs, f, MadeOf(f), NextCall(f), g.temp, MadeOf(g));
      if Advance(MadeOf(f), NextCall(f)).there {
        CallKeepsFile(d.fs, f, MadeOf(f), NextCall(f));
        InodeOld(d.fs, g.temp);
      }
    }
  }

  lemma ProceedKeepsOwn(d: Dir, b: Book, id: nat)
    requires Inv(d, b) && Enabled(d, Proceed(id))
    ensures var f, after := d.flights[id], Do(d, Proceed(id));
            Tracks(after.fs, Track(b, NextCall(f), f.contents)) && FlightOk(after.fs, after.flights[id])
  {
    var f := d.flights[id];
    assert FlightOk(d.fs, f);
    NextSane(f);
    CallTracked(d.fs, b, f, MadeOf(f), NextCall(f));
  }

  lemma ProceedKeepsApart(d: Dir, b: Book, id: nat, x: nat, y: nat)
    requires Inv(d, b) && Enabled(d, Proceed(id)) && x in d.flights && y in d.flights && x != y
    ensures var after := Do(d, Proceed(id));
            && after.flights[x].at <= |Calls(after.flights[x])| && after.flights[y].at <= |Calls(after.flights[y])|
            && Apart(after.fs, after.flights[x], after.flights[y])
  {
    assert FlightOk(d.fs, d.flights[x]) && FlightOk(d.fs, d.flights[y]) && Apart(d.fs, d.flights[x], d.flights[y]);
    if x != id {
      ProceedKeepsOthers(d, b, id, x);
    }
    if y != id {
      ProceedKeepsOthers(d, b, id, y);
    }
  }

  lemma ProceedKeepsInv(d: Dir, b: Book, id: nat)
    requires Inv(d, b) && Enabled(d, Proceed(id))
    ensures Inv(Do(d, Proceed(id)), Track(b, NextCall(d.flights[id]), d.flights[id].contents))
  {
    var after := Do(d, Proceed(id));
    ProceedKeepsOwn(d, b, id);
    forall x <- after.flights ensures FlightOk(after.fs, after.flights[x]) {
      if x != id {
        ProceedKeepsOthers(d, b, id, x);
      }
    }
    forall x <- after.flights, y <- after.flights | x != y ensures Apart(after.fs, after.flights[x], after.flights[y]) {
      ProceedKeepsApart(d, b, id, x, y);
    }
  }

  lemma RemoveKeepsInv(d: Dir, b: Book, path: string)
    requires Inv(d, b) && IsRecordName(path)
    ensures Inv(Do(d, Remove(path)), Changed(b, path, None))
  {
    var after := Do(d, Remove(path));
    UnlinkTracked(d.fs, path, b);
    forall x <- after.flights ensures FlightOk(after.fs, after.flights[x]) {
      assert FlightOk(d.fs, d.flights[x]);
      RemoveKeepsTemp(d.fs, path, d.flights[x].temp, MadeOf(d.flights[x]));
    }
    forall x <- after.flights, y <- after.flights | x != y ensures Apart(after.fs, after.flights[x], after.flights[y]) {
      assert FlightOk(d.fs, d.flights[x]) && FlightOk(d.fs, d.flights[y]) && Apart(d.fs, d.flights[x], d.flights[y]);
      RemoveKeepsTemp(d.fs, path, d.flights[x].temp, MadeOf(d.flights[x]));
      RemoveKeepsTemp(d.fs, path, d.flights[y].temp, MadeOf(d.flights[y]));
    }
  }

  // ── Histories ─────────────────────────────────────────────────────────────

  /** How the book changes with one move. */
  ghost function TrackMove(d: Dir, b: Book, m: Move): Book
    requires Enabled(d, m)
  {
    match m
    case Begin(_, _) => b
    case Proceed(id) => Track(b, NextCall(d.flights[id]), d.flights[id].contents)
    case Remove(path) => Changed(b, path, None)
    case Crash(restarted) => Book(ListRecords(Visible(restarted)), map[])
  }

  ghost function TrackMoves(d: Dir, b: Book, moves: seq<Move>): Book
    requires Possible(d, moves)
    decreases |moves|
  {
    if moves == [] then b else TrackMoves(Do(d, moves[0]), TrackMove(d, b, moves[0]), moves[1..])
  }

  lemma RestartTracked(fs: Fs)
    requires Restarted(fs, Visible(fs))
    ensures Tracks(fs, Book(ListRecords(Visible(fs)), map[]))
  {
    forall name ensures Choices(fs, name) == {Get(fs.names, name)} {
    }
    assert Sound(fs);
    forall name | IsRecordName(name)
      ensures TracksAt(fs, Book(ListRecords(Visible(fs)), map[]), name)
    {
      ShownAt(fs, name);
    }
  }

  lemma BeginKeepsInv(d: Dir, b: Book, id: nat, f: Flight)
    requires Inv(d, b) && Enabled(d, Begin(id, f))
    ensures Inv(Do(d, Begin(id, f)), b)
  {
    assert Calls(f)[..0] == [] && MadeOf(f) == NOT_MADE;
  }

  lemma MoveKeepsInv(d: Dir, b: Book, m: Move)
    requires Inv(d, b) && Enabled(d, m)
    ensures Inv(Do(d, m), TrackMove(d, b, m))
  {
    match m
    case Begin(id, f) => BeginKeepsInv(d, b, id, f);
    case Proceed(id) => ProceedKeepsInv(d, b, id);
    case Remove(path) => RemoveKeepsInv(d, b, path);
    case Crash(restarted) => RestartTracked(restarted);
  }

  /**
   The book stays right over every history: saves - Ok, failing or cut off - of the
   same or of different records with their calls interleaved in any way, removals
   and crashes.
   */
  lemma {:induction false} HistoryTracked(d: Dir, b: Book, moves: seq<Move>)
    requires Inv(d, b) && Possible(d, moves)
    ensures Inv(DoAll(d, moves), TrackMoves(d, b, moves))
    decreases |moves|
  {
    if moves != [] {
      MoveKeepsInv(d, b, moves[0]);
      HistoryTracked(Do(d, moves[0]), TrackMove(d, b, moves[0]), moves[1..]);
    }
  }

  /** What the saves under way and the history tried to make of a record. */
  function Stored(flights: map<nat, Flight>, moves: seq<Move>, name: string): set<Option<Bytes>> {
    (set id <- flights | flights[id].path == name :: Some(flights[id].contents))
    + (set m <- moves | m.Begin? && m.flight.path == name :: Some(m.flight.contents))
    + if Remove(name) in moves then {None} else {}
  }

  lemma NowMayBe(fs: Fs, b: Book, name: string)
    requires Tracks(fs, b) && IsRecordName(name)
    ensures Get(b.now, name) in MayBe(b, name)
  {
    TrackedShows(fs, b, map[], name);
  }

  /** One move adds no possibility for a record but what a save under way is to store, or its removal. */
  lemma MoveAddsOnly(d: Dir, b: Book, m: Move, name: string)
    requires Inv(d, b) && Enabled(d, m) && IsRecordName(name)
    ensures MayBe(TrackMove(d, b, m), name) <= MayBe(b, name) + Stored(d.flights, [m], name)
  {
    NowMayBe(d.fs, b, name);
    match m
    case Begin(_, _) =>
    case Proceed(id) =>
      var f := d.flights[id];
      assert FlightOk(d.fs, f);
      NextSane(f);
    case Remove(path) =>
      assert m in [m];
    case Crash(restarted) =>
      TrackedShows(d.fs, b, Visible(restarted), name);
  }

  /** And what is to be stored afterwards was to be stored before. */
  lemma MoveStores(d: Dir, m: Move, moves: seq<Move>, name: string)
    requires Enabled(d, m)
    ensures Stored(Do(d, m).flights, moves, name) + Stored(d.flights, [m], name) <= Stored(d.flights, [m] + moves, name)
  {
    assert m in [m] + moves;
    forall other <- moves ensures other in [m] + moves {
    }
  }

  lemma {:induction false} BookBounded(d: Dir, b: Book, moves: seq<Move>, name: string)
    requires Inv(d, b) && Possible(d, moves) && IsRecordName(name)
    ensures MayBe(TrackMoves(d, b, moves), name) <= MayBe(b, name) + Stored(d.flights, moves, name)
    decreases |moves|
  {
    if moves != [] {
      MoveKeepsInv(d, b, moves[0]);
      MoveAddsOnly(d, b, moves[0], name);
      BookBounded(Do(d, moves[0]), TrackMove(d, b, moves[0]), moves[1..], name);
      MoveStores(d, moves[0], moves[1..], name);
      assert [moves[0]] + moves[1..] == moves;
      Bounded(MayBe(TrackMoves(d, b, moves), name), MayBe(TrackMove(d, b, moves[0]), name), MayBe(b, name),
              Stored(Do(d, moves[0]).flights, moves[1..], name), Stored(d.flights, [moves[0]], name), Stored(d.flights, moves, name));
    }
  }

  lemma Bounded<T>(a: set<T>, b: set<T>, c: set<T>, x: set<T>, y: set<T>, z: set<T>)
    requires a <= b + x && b <= c + y && x + y <= z
    ensures a <= c + z
  {
  }

  /**
   Over any such history from a restart, whatever is listed, and whatever a crash
   at its end can leave, is for every record what it was at the start, or wholly
   the contents of one save begun under that name, or absent because it was
   removed - never a torn record, a mixture of saves or a leftover file.
   */
  lemma OnlyWhatWasStored(fs: Fs, records: map<string, Bytes>, moves: seq<Move>, after: map<string, Bytes>, name: string)
    requires Tracks(fs, Book(records, map[])) && Possible(Dir(fs, map[]), moves) && IsRecordName(name)
    requires var end := DoAll(Dir(fs, map[]), moves).fs;
             MaySurvive(end, after) || after == Visible(end)
    ensures Get(after, name) in {Get(records, name)} + Stored(map[], moves, name)
    ensures ListRecords(Visible(DoAll(Dir(fs, map[]), moves).fs)) == TrackMoves(Dir(fs, map[]), Book(records, map[]), moves).now
  {
    var d, b := Dir(fs, map[]), Book(records, map[]);
    HistoryTracked(d, b, moves);
    BookBounded(d, b, moves, name);
    TrackedShows(DoAll(d, moves).fs, TrackMoves(d, b, moves), after, name);
    TrackedLists(DoAll(d, moves).fs, TrackMoves(d, b, moves));
  }

  // ── An Ok save among others ───────────────────────────────────────────────

  /** The move renames over this record, or removes it, or is a crash. */
  ghost predicate Touches(d: Dir, m: Move, path: string)
    requires Enabled(d, m)
  {
    match m
    case Begin(_, _) => false
    case Proceed(id) => NextCall(d.flights[id]).Rename? && d.flights[id].path == path
    case Remove(other) => other == path
    case Crash(_) => true
  }

  ghost predicate LeavesAlone(d: Dir, moves: seq<Move>, path: string)
    requires Possible(d, moves)
    decreases |moves|
  {
    moves != [] ==> !Touches(d, moves[0], path) && LeavesAlone(Do(d, moves[0]), moves[1..], path)
  }

  lemma MoveKeepsNow(d: Dir, b: Book, m: Move, path: string)
    requires Inv(d, b) && Enabled(d, m) && IsRecordName(path) && !Touches(d, m, path)
    ensures Get(TrackMove(d, b, m).now, path) == Get(b.now, path)
  {
    if m.Proceed? {
      assert FlightOk(d.fs, d.flights[m.id]);
      NextSane(d.flights[m.id]);
    }
  }

  lemma {:induction false} NowKept(d: Dir, b: Book, moves: seq<Move>, path: string)
    requires Inv(d, b) && Possible(d, moves) && IsRecordName(path) && LeavesAlone(d, moves, path)
    ensures Get(TrackMoves(d, b, moves).now, path) == Get(b.now, path)
    decreases |moves|
  {
    if moves != [] {
      MoveKeepsInv(d, b, moves[0]);
      MoveKeepsNow(d, b, moves[0], path);
      NowKept(Do(d, moves[0]), TrackMove(d, b, moves[0]), moves[1..], path);
    }
  }

  lemma RenameMakesCurrent(d: Dir, b: Book, id: nat)
    requires Inv(d, b) && Enabled(d, Proceed(id)) && NextCall(d.flights[id]).Rename?
    ensures var book := TrackMove(d, b, Proceed(id));
            Inv(Do(d, Proceed(id)), book) && Get(book.now, d.flights[id].path) == Some(d.flights[id].contents)
  {
    assert FlightOk(d.fs, d.flights[id]);
    NextSane(d.flights[id]);
    MoveKeepsInv(d, b, Proceed(id));
  }

  lemma SyncMakesCertain(d: Dir, b: Book, id: nat)
    requires Inv(d, b) && Enabled(d, Proceed(id)) && NextCall(d.flights[id]).SyncDir?
    ensures Inv(Do(d, Proceed(id)), Book(b.now, map[]))
  {
    ProceedKeepsInv(d, b, id);
    var f := d.flights[id];
    SyncTracks(b, NextCall(f), f.contents);
  }

  lemma SyncTracks(b: Book, op: Op, contents: Bytes)
    requires op.SyncDir?
    ensures Track(b, op, contents) == Book(b.now, map[])
  {
  }

  /**
   An Ok save is new and durable among all others: from its rename on, whatever
   other saves do meanwhile, its directory sync makes every record certain as it
   reads then, and its own record the new contents unless another save or a
   removal of that very record came in between.
   */
  lemma OkSaveIsCertain(d: Dir, b: Book, id: nat, renamed: Dir, between: seq<Move>, later: Dir, book: Book)
    requires Inv(d, b) && Enabled(d, Proceed(id)) && NextCall(d.flights[id]).Rename? && renamed == Do(d, Proceed(id))
    requires Possible(renamed, between) && LeavesAlone(renamed, between, d.flights[id].path) && later == DoAll(renamed, between)
    requires Enabled(later, Proceed(id)) && NextCall(later.flights[id]).SyncDir?
    requires book == TrackMoves(renamed, TrackMove(d, b, Proceed(id)), between)
    ensures Inv(Do(later, Proceed(id)), Book(book.now, map[]))
    ensures Get(book.now, d.flights[id].path) == Some(d.flights[id].contents)
  {
    RenameMakesCurrent(d, b, id);
    var first := TrackMove(d, b, Proceed(id));
    FlightPath(d, b, id);
    NowKept(renamed, first, between, d.flights[id].path);
    HistoryTracked(renamed, first, between);
    SyncMakesCertain(later, book, id);
  }

  lemma FlightPath(d: Dir, b: Book, id: nat)
    requires Inv(d, b) && id in d.flights
    ensures IsRecordName(d.flights[id].path)
  {
    assert FlightOk(d.fs, d.flights[id]);
  }

  // ── Why the order of the calls matters ────────────────────────────────────

  lemma ThreeCalls(fs: Fs, a: Op, b: Op, c: Op)
    ensures ApplyAll(fs, [a, b, c]) == Apply(Apply(Apply(fs, a), b), c)
  {
    assert [a, b, c][1..] == [b, c] && [b, c][1..] == [c] && [c][1..] == [];
    assert ApplyAll(Apply(Apply(fs, a), b), [c]) == Apply(Apply(Apply(fs, a), b), c);
    assert ApplyAll(Apply(fs, a), [b, c]) == ApplyAll(Apply(Apply(fs, a), b), [c]);
  }

  lemma EmptyTracked(fs: Fs)
    requires fs.names == map[] && fs.choices == map[]
    ensures Tracks(fs, Book(map[], map[]))
  {
    assert Visible(fs) == map[];
    RestartTracked(fs);
    assert ListRecords(Visible(fs)) == map[];
  }

  /**
   The file sync is what buys this: with the rename done before it, a crash can
   leave the record holding neither the old nor the new contents.
   */
  lemma RenameBeforeSyncTears(temp: string, path: string)
    requires IsRecordName(path) && !IsRecordName(temp)
    ensures exists fs, records, contents, after ::
              && Tracks(fs, Book(records, map[]))
              && MaySurvive(ApplyAll(fs, [CreateTemp(temp), Write(temp, contents), Rename(temp, path)]), after)
              && ListRecords(after) != records && ListRecords(after) != records[path := contents]
  {
    var fs := Fs(map[], map[], map[], {}, 0);
    var records: map<string, Bytes> := map[];
    var contents: Bytes := [1, 2];
    var ops := [CreateTemp(temp), Write(temp, contents), Rename(temp, path)];
    var made := Apply(fs, ops[0]);
    var filled := Apply(made, ops[1]);
    var at := Apply(filled, ops[2]);
    ThreeCalls(fs, ops[0], ops[1], ops[2]);
    var after: map<string, Bytes> := map[path := [1]];
    forall name ensures MayRead(at, name, Get(after, name)) {
      if name == path {
        assert Some(0) in Choices(at, name) && MayHold(at, Some(0), Get(after, name));
      } else {
        assert None in Choices(at, name) && MayHold(at, None, Get(after, name));
      }
    }
    assert MaySurvive(at, after);
    assert ListRecords(after)[path] == [1];
    assert records[path := contents][path] == [1, 2];
    EmptyTracked(fs);
  }

  // ── What only a sync makes certain ────────────────────────────────────────

  /** Creating a file or writing to it leaves it, until it is synced, such that a crash may leave anything in it. */
  lemma UnsyncedHoldsAnything(fs: Fs, temp: string, piece: Bytes, junk: Bytes)
    requires Get(fs.names, temp) in Choices(fs, temp)
    ensures MayRead(Apply(fs, CreateTemp(temp)), temp, Some(junk))
    ensures temp in fs.names && fs.names[temp] in fs.contents ==> MayRead(Apply(fs, Write(temp, piece)), temp, Some(junk))
    ensures temp in fs.names && fs.names[temp] in fs.contents ==>
              forall content :: MayHold(Apply(fs, SyncFile(temp)), Some(fs.names[temp]), content) ==> content == Some(fs.contents[fs.names[temp]])
  {
    var made := Apply(fs, CreateTemp(temp));
    assert Some(fs.next) in Choices(made, temp) && MayHold(made, Some(fs.next), Some(junk));
    if temp in fs.names && fs.names[temp] in fs.contents {
      var written := Apply(fs, Write(temp, piece));
      var i := fs.names[temp];
      assert Some(i) in Choices(written, temp) && MayHold(written, Some(i), Some(junk));
    }
  }

  /** Renaming an unsynced file over a record lets a crash leave anything in the record. */
  lemma RenameUnsyncedTears(fs: Fs, temp: string, path: string, junk: Bytes)
    requires temp in fs.names && fs.names[temp] !in fs.clean && temp != path
    ensures MayRead(Apply(fs, Rename(temp, path)), path, Some(junk))
  {
    var after := Apply(fs, Rename(temp, path));
    var i := fs.names[temp];
    assert Some(i) in Choices(after, path) && MayHold(after, Some(i), Some(junk));
  }

  // ── The temporary file ────────────────────────────────────────────────────

  lemma OneCall(fs: Fs, op: Op, rest: seq<Op>)
    ensures ApplyAll(fs, [op] + rest) == ApplyAll(Apply(fs, op), rest)
  {
    assert ([op] + rest)[1..] == rest;
  }

  lemma {:induction false} AfterWrites(fs: Fs, temp: string, pieces: seq<Bytes>, rest: seq<Op>) returns (mid: Fs)
    ensures mid.names == fs.names && ApplyAll(fs, Writes(temp, pieces) + rest) == ApplyAll(mid, rest)
    decreases |pieces|
  {
    if pieces == [] {
      mid := fs;
      assert Writes(temp, pieces) + rest == rest;
    } else {
      var write := Write(temp, pieces[0]);
      mid := AfterWrites(Apply(fs, write), temp, pieces[1..], rest);
      assert Writes(temp, pieces) + rest == [write] + (Writes(temp, pieces[1..]) + rest);
      OneCall(fs, write, Writes(temp, pieces[1..]) + rest);
    }
  }

  lemma GivenUp(fs: Fs, temp: string, s: Script)
    requires temp in fs.names
    ensures temp in ApplyAll(fs, GiveUp(temp, s)).names <==> !s.discarded
  {
    if s.discarded {
      assert GiveUp(temp, s)[1..] == [];
    }
  }

  lemma PublishedOrGivenUp(fs: Fs, temp: string, path: string, s: Script)
    requires temp in fs.names && temp != path
    ensures temp in ApplyAll(fs, Publish(temp, path, s)).names <==> !(s.synced && s.persisted) && !s.discarded
  {
    var synced := Apply(fs, SyncFile(temp));
    if !s.synced {
      GivenUp(fs, temp, s);
    } else if !s.persisted {
      assert ([SyncFile(temp)] + GiveUp(temp, s))[1..] == GiveUp(temp, s);
      GivenUp(synced, temp, s);
    } else {
      var last := if s.dirSynced then [SyncDir] else [];
      assert [SyncFile(temp), Rename(temp, path)] + last == [SyncFile(temp)] + ([Rename(temp, path)] + last);
      OneCall(fs, SyncFile(temp), [Rename(temp, path)] + last);
      OneCall(synced, Rename(temp, path), last);
      var renamed := Apply(synced, Rename(temp, path));
      assert temp !in renamed.names;
      if s.dirSynced {
        assert last[1..] == [];
      }
    }
  }

  /** A save leaves its temporary file behind exactly when it made it, did not get as far as the rename, and could not unlink it. */
  lemma TempLeftExactly(fs: Fs, temp: string, path: string, contents: Bytes, s: Script)
    requires temp !in fs.names && temp != path
    ensures temp in ApplyAll(fs, SaveOps(temp, path, contents, s)).names <==> s.created && !Renames(s, contents) && !s.discarded
  {
    if s.created {
      var made := Apply(fs, CreateTemp(temp));
      if !s.permitted {
        assert ([CreateTemp(temp)] + GiveUp(temp, s))[1..] == GiveUp(temp, s);
        GivenUp(made, temp, s);
      } else {
        var rest := if Written(s, contents) then Publish(temp, path, s) else GiveUp(temp, s);
        assert ([CreateTemp(temp)] + (Writes(temp, s.pieces) + rest))[1..] == Writes(temp, s.pieces) + rest;
        var mid := AfterWrites(made, temp, s.pieces, rest);
        if Written(s, contents) {
          PublishedOrGivenUp(mid, temp, path, s);
        } else {
          GivenUp(mid, temp, s);
        }
      }
    }
  }

  // ── A save that runs alone ────────────────────────────────────────────────

  /** Records are the files with something in front of `.json`. */
  lemma RecordNamesExactly(name: string)
    ensures IsRecordName(name) <==> exists stem :: stem != "" && name == stem + ".json"
  {
    if IsRecordName(name) {
      var stem := name[..|name| - |JSON|];
      assert stem != "" && name == stem + ".json";
    }
    if stem :| stem != "" && name == stem + ".json" {
      assert name[|name| - |JSON|..] == JSON;
    }
  }

  function Alone(id: nat, n: nat): seq<Move> {
    seq(n, _ => Proceed(id))
  }

  lemma {:induction false} ProceedsAlone(d: Dir, id: nat)
    requires id in d.flights && d.flights[id].at <= |Calls(d.flights[id])|
    ensures var f := d.flights[id];
            var moves := Alone(id, |Calls(f)| - f.at);
            && Possible(d, moves)
            && DoAll(d, moves) == Dir(ApplyAll(d.fs, Calls(f)[f.at..]), d.flights[id := f.(at := |Calls(f)|)])
    decreases |Calls(d.flights[id])| - d.flights[id].at
  {
    var f := d.flights[id];
    var calls := Calls(f);
    if f.at < |calls| {
      var next := Do(d, Proceed(id));
      assert Calls(next.flights[id]) == calls;
      ProceedsAlone(next, id);
      assert Alone(id, |calls| - f.at)[1..] == Alone(id, |calls| - f.at - 1);
      assert calls[f.at..][1..] == calls[f.at + 1..];
      assert next.flights[id := f.(at := |calls|)] == d.flights[id := f.(at := |calls|)];
    } else {
      assert d.flights[id := f] == d.flights;
    }
  }

  /** Begun among other saves, which then stand still, a save makes exactly its own calls, in order. */
  lemma SaveAlone(d: Dir, id: nat, f: Flight, stem: string)
    requires id !in d.flights && f.at == 0 && stem != "" && f.path == stem + ".json"
    requires forall other <- d.flights :: d.flights[other].temp != f.temp
    requires forall front :: f.temp != front + ".json"
    ensures var moves := [Begin(id, f)] + Alone(id, |Calls(f)|);
            && Possible(d, moves)
            && DoAll(d, moves) == Dir(ApplyAll(d.fs, Calls(f)), d.flights[id := f.(at := |Calls(f)|)])
  {
    RecordNamesExactly(f.path);
    RecordNamesExactly(f.temp);
    var begun := Do(d, Begin(id, f));
    var moves := [Begin(id, f)] + Alone(id, |Calls(f)|);
    assert moves[1..] == Alone(id, |Calls(f)|);
    ProceedsAlone(begun, id);
    assert Calls(f)[0..] == Calls(f);
  }
}
