/**
 The resumable download of `src/oci_pull_transport.rs`.

 The network and the local file system are one script: a `Turn` says how one
 iteration of the retry loop is answered.  A finite script is a run observed up
 to some point, so "the script is used up" means "the call has not returned".
 */
module Transport {
  import opened Common

  /** Consecutive tries without progress before a blob is given up. */
  const MAX_STALL_RETRIES: nat := 40

  /** Wall-clock budget of one blob, in seconds. */
  const BLOB_DEADLINE: nat := 60 * 45

  /** What became of one body chunk: written whole, or the write failed after `kept` bytes of it. */
  datatype Chunk = Stored(data: Bytes) | Refused(data: Bytes, kept: nat)

  /**
   One response body together with the local I/O it meets.  `opens`: the target
   file could be opened.  `clean`: the body ended cleanly rather than breaking.
   `unflushed`: how many trailing bytes the final flush, whose result the code
   ignores, failed to put on disk.
   */
  datatype Body = Body(opens: bool, chunks: seq<Chunk>, clean: bool, unflushed: nat)

  datatype Reply = TransportError | Response(status: nat, body: Body)

  /** One iteration: the reply, and the seconds elapsed when the stall check reads the clock. */
  datatype Turn = Turn(reply: Reply, elapsed: nat)

  datatype Outcome =
    | Running(stall: nat)
    | Complete
    | DeadlineExceeded
    | Stalled
    | UnexpectedStatus(status: nat)

  datatype Transfer = Transfer(file: Option<Bytes>, outcome: Outcome)

  predicate IsTransient(status: nat) {
    status == 429 || 500 <= status <= 599
  }

  function Content(file: Option<Bytes>): Bytes {
    if file.Some? then file.value else []
  }

  /** The first byte asked for with a `Range` header; no header while nothing is on disk. */
  function RangeFrom(file: Option<Bytes>): Option<nat> {
    if Content(file) == [] then None else Some(|Content(file)|)
  }

  // ── One body ──────────────────────────────────────────────────────────────

  /** The bytes the server put on the wire before the pump stopped reading. */
  function Served(chunks: seq<Chunk>): Bytes {
    if chunks == [] then []
    else if chunks[0].Refused? then chunks[0].data
    else chunks[0].data + Served(chunks[1..])
  }

  /** The bytes the writes accepted, in order, up to the first failing write. */
  function Accepted(chunks: seq<Chunk>): Bytes {
    if chunks == [] then []
    else match chunks[0]
      case Stored(data) => data + Accepted(chunks[1..])
      case Refused(data, kept) => data[..Min(kept, |data|)]
  }

  predicate WriteFails(chunks: seq<Chunk>) {
    exists i :: 0 <= i < |chunks| && chunks[i].Refused?
  }

  /** The bytes a whole pump leaves appended to what it started from. */
  function Pumped(body: Body): Bytes {
    var written := Accepted(body.chunks);
    if WriteFails(body.chunks) then written
    else written[..|written| - Min(body.unflushed, |written|)]
  }

  /** The file and the "clean end-of-body" verdict after one pump. */
  function PumpBody(file: Option<Bytes>, body: Body, append: bool): (Option<Bytes>, bool) {
    if !body.opens then (file, false)
    else
      var start := if append then Content(file) else [];
      (Some(start + Pumped(body)), body.clean && !WriteFails(body.chunks))
  }

  // ── The retry loop ────────────────────────────────────────────────────────

  function BumpStall(stall: nat, elapsed: nat): Outcome {
    if elapsed >= BLOB_DEADLINE then DeadlineExceeded
    else if stall + 1 >= MAX_STALL_RETRIES then Stalled
    else Running(stall + 1)
  }

  function Step(file: Option<Bytes>, stall: nat, turn: Turn): Transfer {
    match turn.reply
    case TransportError => Transfer(file, BumpStall(stall, turn.elapsed))
    case Response(status, body) =>
      if status == 416 then Transfer(file, Complete)
      else if status == 200 || status == 206 then
        var append := status == 206 && Content(file) != [];
        var (after, clean) := PumpBody(file, body, append);
        var before := if append then |Content(file)| else 0;
        Transfer(after,
                 if clean then Complete
                 else if |Content(after)| > before then Running(0)
                 else BumpStall(stall, turn.elapsed))
      else if IsTransient(status) then Transfer(file, BumpStall(stall, turn.elapsed))
      else Transfer(file, UnexpectedStatus(status))
  }

  /** A whole call of `download_resumable`, as far as the script goes. */
  function Run(file: Option<Bytes>, stall: nat, turns: seq<Turn>): Transfer
    decreases |turns|
  {
    if turns == [] then Transfer(file, Running(stall))
    else
      var next := Step(file, stall, turns[0]);
      if next.outcome.Running? then Run(next.file, next.outcome.stall, turns[1..]) else next
  }

  function Download(file: Option<Bytes>, turns: seq<Turn>): Transfer {
    Run(file, 0, turns)
  }

  /** The `Range` offsets requested, one per iteration performed. */
  function RangesAsked(file: Option<Bytes>, stall: nat, turns: seq<Turn>): seq<Option<nat>>
    decreases |turns|
  {
    if turns == [] then []
    else
      var next := Step(file, stall, turns[0]);
      [RangeFrom(file)] + if next.outcome.Running? then RangesAsked(next.file, next.outcome.stall, turns[1..]) else []
  }

  // ── The in-place loops ────────────────────────────────────────────────────

  /** A directory of files, updated in place. */
  class Disk {
    var files: map<string, Bytes>

    constructor ()
      ensures files == map[]
    {
      files := map[];
    }

    function At(path: string): (file: Option<Bytes>)
      reads this
      ensures file.Some? <==> path in files
      ensures file.Some? ==> file.value == files[path]
    {
      Get(files, path)
    }

    method Remove(path: string)
      modifies this
      ensures files == Put(old(files), path, None)
    {
      files := files - {path};
    }
  }

  lemma AcceptedSnoc(chunks: seq<Chunk>, next: Chunk)
    requires !WriteFails(chunks)
    ensures Accepted(chunks + [next]) == Accepted(chunks) + Accepted([next])
  {
    if chunks != [] {
      assert chunks[0].Stored?;
      assert (chunks + [next])[1..] == chunks[1..] + [next];
      AcceptedSnoc(chunks[1..], next);
    }
  }

  lemma AcceptedStops(chunks: seq<Chunk>, i: nat)
    requires i < |chunks| && chunks[i].Refused? && !WriteFails(chunks[..i])
    ensures Accepted(chunks) == Accepted(chunks[..i + 1])
  {
    if i > 0 {
      assert chunks[..i][0].Stored?;
      assert chunks[1..][..i - 1] == chunks[..i][1..];
      assert chunks[1..][..i] == chunks[..i + 1][1..];
      AcceptedStops(chunks[1..], i - 1);
    } else {
      assert chunks[..1] == [chunks[0]];
    }
  }

  /** Append the chunks one by one, stopping at the first failing write. */
  method WriteChunks(disk: Disk, dest: string, chunks: seq<Chunk>) returns (failed: bool, written: nat)
    requires dest in disk.files
    modifies disk
    ensures failed == WriteFails(chunks) && written == |Accepted(chunks)|
    ensures disk.files == old(disk.files)[dest := old(disk.files)[dest] + Accepted(chunks)]
  {
    ghost var start := disk.files[dest];
    assert start + Accepted(chunks[..0]) == start;
    written := 0;
    var i := 0;
    while i < |chunks|
      invariant 0 <= i <= |chunks| && !WriteFails(chunks[..i])
      invariant written == |Accepted(chunks[..i])|
      invariant disk.files == old(disk.files)[dest := start + Accepted(chunks[..i])]
    {
      assert chunks[..i + 1] == chunks[..i] + [chunks[i]];
      AcceptedSnoc(chunks[..i], chunks[i]);
      var data := if chunks[i].Stored? then chunks[i].data else chunks[i].data[..Min(chunks[i].kept, |chunks[i].data|)];
      assert data == Accepted([chunks[i]]);
      assert start + Accepted(chunks[..i]) + data == start + Accepted(chunks[..i + 1]);
      disk.files := disk.files[dest := disk.files[dest] + data];
      written := written + |data|;
      if chunks[i].Refused? {
        AcceptedStops(chunks, i);
        return true, written;
      }
      i := i + 1;
    }
    assert chunks[..i] == chunks;
    failed := false;
  }

  /** Pump one body into `dest`: open, write chunk by chunk, flush. */
  method Pump(disk: Disk, dest: string, body: Body, append: bool) returns (clean: bool)
    modifies disk
    ensures (Get(disk.files, dest), clean) == PumpBody(Get(old(disk.files), dest), body, append)
    ensures disk.files == Put(old(disk.files), dest, Get(disk.files, dest))
  {
    if !body.opens {
      return false;
    }
    if !append || dest !in disk.files {
      disk.files := disk.files[dest := []];
    }
    ghost var start := disk.files[dest];
    var failed, written := WriteChunks(disk, dest, body.chunks);
    if failed {
      return false;
    }
    var all := disk.files[dest];
    var lost := Min(body.unflushed, written);
    assert all[..|all| - lost] == start + Pumped(body);
    disk.files := disk.files[dest := all[..|all| - lost]];
    clean := body.clean;
  }

  /** One pass of the loop body, after the reply has come in. */
  method HandleReply(disk: Disk, dest: string, stall: nat, turn: Turn) returns (outcome: Outcome)
    modifies disk
    ensures Transfer(Get(disk.files, dest), outcome) == Step(Get(old(disk.files), dest), stall, turn)
    ensures disk.files == Put(old(disk.files), dest, Get(disk.files, dest))
  {
    var have := |Content(disk.At(dest))|;
    match turn.reply {
      case TransportError =>
        outcome := BumpStall(stall, turn.elapsed);
      case Response(status, body) =>
        if status == 416 {
          return Complete;
        }
        var append := have > 0;
        if status == 200 {
          append := false;
        } else if status != 206 {
          return if IsTransient(status) then BumpStall(stall, turn.elapsed) else UnexpectedStatus(status);
        }
        var before := if append then have else 0;
        var clean := Pump(disk, dest, body, append);
        var after := |Content(disk.At(dest))|;
        outcome := if clean then Complete
                   else if after > before then Running(0)
                   else BumpStall(stall, turn.elapsed);
    }
  }

  lemma PutTwice(files: map<string, Bytes>, dest: string, a: Option<Bytes>, b: Option<Bytes>)
    ensures Put(Put(files, dest, a), dest, b) == Put(files, dest, b)
  {
  }

  /** What one iteration adds in front of the rest. */
  lemma RunFrom(file: Option<Bytes>, stall: nat, turns: seq<Turn>, i: nat)
    requires i < |turns|
    ensures var next := Step(file, stall, turns[i]);
            if next.outcome.Running? then
              && Run(file, stall, turns[i..]) == Run(next.file, next.outcome.stall, turns[i + 1..])
              && RangesAsked(file, stall, turns[i..])
                 == [RangeFrom(file)] + RangesAsked(next.file, next.outcome.stall, turns[i + 1..])
            else
              Run(file, stall, turns[i..]) == next && RangesAsked(file, stall, turns[i..]) == [RangeFrom(file)]
  {
    assert turns[i..][1..] == turns[i + 1..];
  }

  /** The resume loop, over the shared file and a local stall counter. */
  method DownloadResumable(disk: Disk, dest: string, turns: seq<Turn>)
    returns (outcome: Outcome, asked: seq<Option<nat>>)
    modifies disk
    ensures Transfer(Get(disk.files, dest), outcome) == Download(Get(old(disk.files), dest), turns)
    ensures disk.files == Put(old(disk.files), dest, Get(disk.files, dest))
    ensures asked == RangesAsked(Get(old(disk.files), dest), 0, turns)
  {
    var stall := 0;
    asked := [];
    var i := 0;
    ghost var file := Get(disk.files, dest);
    assert turns[0..] == turns;
    while i < |turns|
      invariant 0 <= i <= |turns|
      invariant Get(disk.files, dest) == file && disk.files == Put(old(disk.files), dest, file)
      invariant Run(file, stall, turns[i..]) == Download(Get(old(disk.files), dest), turns)
      invariant asked + RangesAsked(file, stall, turns[i..]) == RangesAsked(Get(old(disk.files), dest), 0, turns)
    {
      RunFrom(file, stall, turns, i);
      asked := asked + [RangeFrom(disk.At(dest))];
      outcome := HandleReply(disk, dest, stall, turns[i]);
      PutTwice(old(disk.files), dest, file, Get(disk.files, dest));
      if !outcome.Running? {
        return;
      }
      file := Get(disk.files, dest);
      stall := outcome.stall;
      i := i + 1;
    }
    outcome := Running(stall);
  }
}
