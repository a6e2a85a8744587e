/**
 What the resume loop guarantees against a registry that serves prefixes of one
 document, and what it does not guarantee about its running time.
 */
module ResumeProofs {
  import opened Common
  import opened Transport

  /**
   A reply a registry holding exactly `doc` may give to a request for `range`
   (sections 14.2, 15.3.7 and 15.5.17 of RFC 9110): 200 serves from byte 0, 206
   from the offset asked for, 416 only at or past the end, and a body ends
   cleanly only after the last byte.  Breaks, transport errors, failing local
   writes and any other status may come at any time.
   */
  ghost predicate Honest(doc: Bytes, range: Option<nat>, reply: Reply) {
    reply.Response? ==>
      var from := if range.Some? && reply.status == 206 then range.value else 0;
      && (reply.status == 416 ==> range.Some? && range.value >= |doc|)
      && (reply.status == 206 ==> from < |doc| || (from == 0 && doc == []))
      && (reply.status == 200 || reply.status == 206 ==>
            && from <= |doc|
            && Served(reply.body.chunks) <= doc[from..]
            && (reply.body.clean && !WriteFails(reply.body.chunks) ==> Served(reply.body.chunks) == doc[from..]))
  }

  ghost predicate HonestRun(doc: Bytes, file: Option<Bytes>, stall: nat, turns: seq<Turn>)
    decreases |turns|
  {
    turns != [] ==>
      var next := Step(file, stall, turns[0]);
      && Honest(doc, RangeFrom(file), turns[0].reply)
      && (next.outcome.Running? ==> HonestRun(doc, next.file, next.outcome.stall, turns[1..]))
  }

  /** No request that carried a `Range` is answered with a full 200 body. */
  ghost predicate RangesHonoured(file: Option<Bytes>, stall: nat, turns: seq<Turn>)
    decreases |turns|
  {
    turns != [] ==>
      var next := Step(file, stall, turns[0]);
      && (RangeFrom(file).Some? && turns[0].reply.Response? ==> turns[0].reply.status != 200)
      && (next.outcome.Running? ==> RangesHonoured(next.file, next.outcome.stall, turns[1..]))
  }

  /** What continuing the content `base` with the missing tail of `doc` adds up to. */
  function Spliced(base: Bytes, doc: Bytes): Bytes {
    if |base| <= |doc| then base + doc[|base|..] else base
  }

  /** `file` is `base`, continued with some of the bytes of `doc` that follow it. */
  ghost predicate Continues(base: Bytes, doc: Bytes, file: Bytes) {
    base <= file <= Spliced(base, doc)
  }

  /** Continuing a base gives the document exactly when the base is a prefix of it. */
  lemma SplicedPrefix(base: Bytes, doc: Bytes)
    ensures Spliced(base, doc) == doc <==> base <= doc
  {
    if base <= doc {
      assert base + doc[|base|..] == doc;
    }
  }

  predicate Restarts(turn: Turn) {
    turn.reply.Response? && turn.reply.status == 200 && turn.reply.body.opens
  }

  /** Some iteration of the run truncated the file and began again from byte 0. */
  predicate RunRestarts(file: Option<Bytes>, stall: nat, turns: seq<Turn>)
    decreases |turns|
  {
    turns != [] &&
    var next := Step(file, stall, turns[0]);
    Restarts(turns[0]) || (next.outcome.Running? && RunRestarts(next.file, next.outcome.stall, turns[1..]))
  }

  /** Bytes of the tail that the ignored flush of the returning iteration kept off the disk. */
  function LostTail(file: Option<Bytes>, stall: nat, turns: seq<Turn>): nat
    decreases |turns|
  {
    if turns == [] then 0
    else
      var next := Step(file, stall, turns[0]);
      if next.outcome.Running? then LostTail(next.file, next.outcome.stall, turns[1..])
      else if turns[0].reply.Response? && turns[0].reply.status != 416 && turns[0].reply.body.opens then
        Min(turns[0].reply.body.unflushed, |Accepted(turns[0].reply.body.chunks)|)
      else 0
  }

  lemma {:induction false} AcceptedOfServed(chunks: seq<Chunk>)
    ensures Accepted(chunks) <= Served(chunks)
    ensures !WriteFails(chunks) ==> Accepted(chunks) == Served(chunks)
  {
    if chunks != [] && chunks[0].Stored? {
      AcceptedOfServed(chunks[1..]);
      if !WriteFails(chunks) {
        forall i | 0 <= i < |chunks[1..]| ensures chunks[1..][i].Stored? {
          assert chunks[1..][i] == chunks[i + 1];
        }
      }
    }
  }

  /** A pump of served bytes that follow `head` leaves a continuation of `head`. */
  lemma PumpContinues(head: Bytes, tail: Bytes, body: Body)
    requires Served(body.chunks) <= tail
    requires body.clean && !WriteFails(body.chunks) ==> Served(body.chunks) == tail
    ensures head <= head + Pumped(body) <= head + tail
    ensures body.clean && !WriteFails(body.chunks) ==>
              var whole := head + tail;
              var lost := Min(body.unflushed, |Accepted(body.chunks)|);
              lost <= |whole| && head + Pumped(body) == whole[..|whole| - lost]
  {
    AcceptedOfServed(body.chunks);
    assert Pumped(body) <= Accepted(body.chunks);
  }

  /** The file continues `base`; after an Ok return it is the whole splice, but for the last `lost` bytes. */
  ghost predicate Leaves(base: Bytes, doc: Bytes, t: Transfer, lost: nat) {
    var whole := Spliced(base, doc);
    && Continues(base, doc, Content(t.file))
    && (t.outcome == Complete ==>
          && lost <= |whole| && t.file == Some(whole[..|whole| - lost])
          && (lost > 0 ==> |base| <= |doc|))
  }

  lemma SplicedFurther(base: Bytes, doc: Bytes, head: Bytes)
    requires Continues(base, doc, head) && |head| <= |doc|
    ensures head + doc[|head|..] == Spliced(base, doc) && base <= head
  {
  }

  predicate HasBody(turn: Turn) {
    turn.reply.Response? && turn.reply.body.opens && (turn.reply.status == 200 || turn.reply.status == 206)
  }

  /** An iteration with a body appends what was pumped to the old content, or to nothing after a 200. */
  lemma BodyStep(file: Option<Bytes>, stall: nat, turn: Turn)
    requires HasBody(turn)
    ensures var next := Step(file, stall, turn);
            var body := turn.reply.body;
            && next.file == Some((if Restarts(turn) then [] else Content(file)) + Pumped(body))
            && (next.outcome == Complete <==> body.clean && !WriteFails(body.chunks))
            && (next.outcome == Complete ==> LostTail(file, stall, [turn]) == Min(body.unflushed, |Accepted(body.chunks)|))
  {
  }

  lemma BodyContinues(base: Bytes, doc: Bytes, file: Option<Bytes>, stall: nat, turn: Turn)
    requires Continues(base, doc, Content(file)) && Honest(doc, RangeFrom(file), turn.reply) && HasBody(turn)
    ensures var now := if Restarts(turn) then [] else base;
            var next := Step(file, stall, turn);
            Leaves(now, doc, next, LostTail(file, stall, [turn]))
  {
    var head := if Restarts(turn) then [] else Content(file);
    BodyStep(file, stall, turn);
    SplicedFurther(if Restarts(turn) then [] else base, doc, head);
    PumpContinues(head, doc[|head|..], turn.reply.body);
  }

  /** One iteration continues the same base, or restarts from nothing; an Ok iteration leaves all but the lost tail. */
  lemma StepContinues(base: Bytes, doc: Bytes, file: Option<Bytes>, stall: nat, turn: Turn)
    requires Continues(base, doc, Content(file)) && Honest(doc, RangeFrom(file), turn.reply)
    ensures var now := if Restarts(turn) then [] else base;
            var next := Step(file, stall, turn);
            Leaves(now, doc, next, LostTail(file, stall, [turn]))
  {
    if HasBody(turn) {
      BodyContinues(base, doc, file, stall, turn);
    } else {
      var whole := Spliced(base, doc);
      var f := Content(file);
      assert f == whole[..|f|] && whole[..|whole| - 0] == whole;
    }
  }

  /** The master statement: whatever was on disk, and whatever breaks, the run continues one base. */
  lemma {:induction false} RunContinues(base: Bytes, doc: Bytes, file: Option<Bytes>, stall: nat, turns: seq<Turn>)
    requires Continues(base, doc, Content(file)) && HonestRun(doc, file, stall, turns)
    ensures var now := if RunRestarts(file, stall, turns) then [] else base;
            var end := Run(file, stall, turns);
            Leaves(now, doc, end, LostTail(file, stall, turns))
    decreases |turns|
  {
    if turns != [] {
      var next := Step(file, stall, turns[0]);
      StepContinues(base, doc, file, stall, turns[0]);
      if next.outcome.Running? {
        RunContinues(if Restarts(turns[0]) then [] else base, doc, next.file, next.outcome.stall, turns[1..]);
      }
    }
  }

  /**
   Resume safety.  Starting absent or from a prefix of the blob, the file is a
   prefix of it after every run (a run may stop at any loop head or chunk), and
   an Ok return leaves exactly the blob if and only if the final flush lost nothing.
   */
  lemma ResumeSafety(blob: Bytes, file: Option<Bytes>, turns: seq<Turn>)
    requires Content(file) <= blob && HonestRun(blob, file, 0, turns)
    ensures Content(Download(file, turns).file) <= blob
    ensures Download(file, turns).outcome == Complete ==>
              (Download(file, turns).file == Some(blob) <==> LostTail(file, 0, turns) == 0)
  {
    SplicedPrefix(Content(file), blob);
    SplicedPrefix([], blob);
    RunContinues(Content(file), blob, file, 0, turns);
    if Download(file, turns).outcome == Complete {
      StaleFileExact(blob, file, turns);
    }
  }

  /**
   From an arbitrary file: an Ok download leaves the served document exactly when
   its last flush lost nothing and some iteration restarted from byte 0 or the
   file had been a prefix of that document; otherwise it leaves the splice,
   short of what the flush lost.
   */
  lemma StaleFileExact(doc: Bytes, file: Option<Bytes>, turns: seq<Turn>)
    requires HonestRun(doc, file, 0, turns) && Download(file, turns).outcome == Complete
    ensures Download(file, turns).file == Some(doc) <==>
              LostTail(file, 0, turns) == 0 && (RunRestarts(file, 0, turns) || Content(file) <= doc)
    ensures !RunRestarts(file, 0, turns) && LostTail(file, 0, turns) == 0 ==>
              Download(file, turns).file == Some(Spliced(Content(file), doc))
  {
    var now := if RunRestarts(file, 0, turns) then [] else Content(file);
    RunContinues(Content(file), doc, file, 0, turns);
    SplicedPrefix(now, doc);
    var whole, lost := Spliced(now, doc), LostTail(file, 0, turns);
    if lost == 0 {
      assert whole[..|whole| - 0] == whole;
    } else {
      assert |whole| == |doc| && |whole[..|whole| - lost]| < |doc|;
    }
  }

  // ── Running time ──────────────────────────────────────────────────────────

  /** How many iterations the script lets the loop perform. */
  function Iterations(file: Option<Bytes>, stall: nat, turns: seq<Turn>): (n: nat)
    ensures n <= |turns|
    ensures Run(file, stall, turns).outcome.Running? ==> n == |turns|
    decreases |turns|
  {
    if turns == [] then 0
    else
      var next := Step(file, stall, turns[0]);
      1 + if next.outcome.Running? then Iterations(next.file, next.outcome.stall, turns[1..]) else 0
  }

  /** 40 tries for every byte still missing, plus what is left of the current 40. */
  function Budget(blob: Bytes, file: Option<Bytes>, stall: nat): int {
    MAX_STALL_RETRIES * (|blob| - |Content(file)|) + MAX_STALL_RETRIES - stall
  }

  /** This iteration's ranged request is answered with a full body. */
  predicate Ignores(file: Option<Bytes>, turn: Turn) {
    RangeFrom(file).Some? && turn.reply.Response? && turn.reply.status == 200
  }

  /** How many ranged requests of the run are answered with a full body. */
  function Ignored(file: Option<Bytes>, stall: nat, turns: seq<Turn>): nat
    decreases |turns|
  {
    if turns == [] then 0
    else
      var next := Step(file, stall, turns[0]);
      (if Ignores(file, turns[0]) then 1 else 0)
      + if next.outcome.Running? then Ignored(next.file, next.outcome.stall, turns[1..]) else 0
  }

  lemma {:induction false} HonouredIgnoresNone(file: Option<Bytes>, stall: nat, turns: seq<Turn>)
    ensures RangesHonoured(file, stall, turns) <==> Ignored(file, stall, turns) == 0
    decreases |turns|
  {
    if turns != [] && Step(file, stall, turns[0]).outcome.Running? {
      var next := Step(file, stall, turns[0]);
      HonouredIgnoresNone(next.file, next.outcome.stall, turns[1..]);
    }
  }

  lemma StepKeepsPrefix(blob: Bytes, file: Option<Bytes>, stall: nat, turn: Turn)
    requires stall < MAX_STALL_RETRIES && Content(file) <= blob && Honest(blob, RangeFrom(file), turn.reply)
    ensures var next := Step(file, stall, turn);
            Content(next.file) <= blob && (next.outcome.Running? ==> next.outcome.stall < MAX_STALL_RETRIES)
  {
    SplicedPrefix(Content(file), blob);
    SplicedPrefix([], blob);
    StepContinues(Content(file), blob, file, stall, turn);
  }

  /** An iteration that does not return lowers the budget, unless it ignored a range. */
  lemma StepSpendsBudget(blob: Bytes, file: Option<Bytes>, stall: nat, turn: Turn)
    requires stall < MAX_STALL_RETRIES && Content(file) <= blob && Honest(blob, RangeFrom(file), turn.reply)
    requires Step(file, stall, turn).outcome.Running?
    ensures var next := Step(file, stall, turn);
            && 0 < Budget(blob, next.file, next.outcome.stall) <= MAX_STALL_RETRIES * (|blob| + 1)
            && (!Ignores(file, turn) ==> Budget(blob, next.file, next.outcome.stall) < Budget(blob, file, stall))
  {
    StepKeepsPrefix(blob, file, stall, turn);
  }

  lemma BudgetPositive(blob: Bytes, file: Option<Bytes>, stall: nat)
    requires stall < MAX_STALL_RETRIES && Content(file) <= blob
    ensures Budget(blob, file, stall) > 0
  {
  }

  /**
   Every honest run, ranges honoured or not: the tries are bounded by the budget
   and one more whole budget for each range that was ignored.
   */
  lemma {:induction false} RunWithinBudget(blob: Bytes, file: Option<Bytes>, stall: nat, turns: seq<Turn>)
    requires stall < MAX_STALL_RETRIES && Content(file) <= blob && HonestRun(blob, file, stall, turns)
    ensures Iterations(file, stall, turns)
         <= Budget(blob, file, stall) + Ignored(file, stall, turns) * (MAX_STALL_RETRIES * (|blob| + 1) + 1)
    ensures Run(file, stall, turns).outcome.Running? ==>
              |turns| < Budget(blob, file, stall) + Ignored(file, stall, turns) * (MAX_STALL_RETRIES * (|blob| + 1) + 1)
    decreases |turns|
  {
    BudgetPositive(blob, file, stall);
    if turns != [] {
      var next := Step(file, stall, turns[0]);
      if next.outcome.Running? {
        StepKeepsPrefix(blob, file, stall, turns[0]);
        StepSpendsBudget(blob, file, stall, turns[0]);
        RunWithinBudget(blob, next.file, next.outcome.stall, turns[1..]);
        var later := Ignored(next.file, next.outcome.stall, turns[1..]);
        if Ignores(file, turns[0]) {
          OneMore(later, MAX_STALL_RETRIES * (|blob| + 1) + 1);
        }
      } else {
        AtLeastNothing(Ignored(file, stall, turns), MAX_STALL_RETRIES * (|blob| + 1) + 1);
      }
    } else {
      AtLeastNothing(0, MAX_STALL_RETRIES * (|blob| + 1) + 1);
    }
  }

  lemma OneMore(n: nat, unit: nat)
    ensures (n + 1) * unit == n * unit + unit
  {
  }

  lemma AtLeastNothing(n: nat, unit: nat)
    ensures n * unit >= 0
  {
  }

  /** Bytes still missing, and one more try: what is left once every stall is past the deadline. */
  function Overtime(blob: Bytes, file: Option<Bytes>): int {
    |blob| - |Content(file)| + 1
  }

  /** Past the deadline an iteration that does not return makes progress, or ignored a range. */
  lemma StepPastDeadline(blob: Bytes, file: Option<Bytes>, stall: nat, turn: Turn)
    requires stall < MAX_STALL_RETRIES && Content(file) <= blob && Honest(blob, RangeFrom(file), turn.reply)
    requires turn.elapsed >= BLOB_DEADLINE && Step(file, stall, turn).outcome.Running?
    ensures var next := Step(file, stall, turn);
            0 < Overtime(blob, next.file) <= |blob| + 1 && (!Ignores(file, turn) ==> Overtime(blob, next.file) < Overtime(blob, file))
  {
    StepKeepsPrefix(blob, file, stall, turn);
  }

  /**
   The deadline, as far as it goes: once it has passed, a run returns within as
   many tries as bytes are missing and one more, and that many again from byte 0
   for each range that is ignored.
   */
  lemma {:induction false} PastDeadline(blob: Bytes, file: Option<Bytes>, stall: nat, turns: seq<Turn>)
    requires stall < MAX_STALL_RETRIES && Content(file) <= blob && HonestRun(blob, file, stall, turns)
    requires forall turn <- turns :: turn.elapsed >= BLOB_DEADLINE
    ensures Iterations(file, stall, turns) <= Overtime(blob, file) + Ignored(file, stall, turns) * (|blob| + 2)
    decreases |turns|
  {
    if turns != [] {
      var next := Step(file, stall, turns[0]);
      if next.outcome.Running? {
        assert turns[0] in turns;
        StepKeepsPrefix(blob, file, stall, turns[0]);
        StepPastDeadline(blob, file, stall, turns[0]);
        PastDeadline(blob, next.file, next.outcome.stall, turns[1..]);
        if Ignores(file, turns[0]) {
          OneMore(Ignored(next.file, next.outcome.stall, turns[1..]), |blob| + 2);
        }
      } else {
        AtLeastNothing(Ignored(file, stall, turns), |blob| + 2);
      }
    } else {
      AtLeastNothing(0, |blob| + 2);
    }
  }

  /**
   Termination of any honest run: 40 * (|blob| + 1) tries, and one more round of
   them for each ignored range.  Unbounded runs are those that ignore ranges
   without bound.
   */
  lemma TriesBounded(blob: Bytes, file: Option<Bytes>, turns: seq<Turn>)
    requires Content(file) <= blob && HonestRun(blob, file, 0, turns)
    ensures Iterations(file, 0, turns)
         <= MAX_STALL_RETRIES * (|blob| + 1) + Ignored(file, 0, turns) * (MAX_STALL_RETRIES * (|blob| + 1) + 1)
    ensures |turns| >= MAX_STALL_RETRIES * (|blob| + 1) + Ignored(file, 0, turns) * (MAX_STALL_RETRIES * (|blob| + 1) + 1) ==>
              !Download(file, turns).outcome.Running?
  {
    RunWithinBudget(blob, file, 0, turns);
  }

  /** With ranges honoured: at most 40 * (|blob| + 1) tries, however the link breaks. */
  lemma ResumeTerminates(blob: Bytes, file: Option<Bytes>, turns: seq<Turn>)
    requires Content(file) <= blob && HonestRun(blob, file, 0, turns) && RangesHonoured(file, 0, turns)
    ensures Iterations(file, 0, turns) <= MAX_STALL_RETRIES * (|blob| + 1)
    ensures |turns| >= MAX_STALL_RETRIES * (|blob| + 1) ==> !Download(file, turns).outcome.Running?
  {
    HonouredIgnoresNone(file, 0, turns);
    TriesBounded(blob, file, turns);
    NoneIgnored(Ignored(file, 0, turns), MAX_STALL_RETRIES * (|blob| + 1) + 1);
  }

  lemma NoneIgnored(n: nat, unit: nat)
    requires n == 0
    ensures n * unit == 0
  {
  }

  /**
   The wall-clock bound: with ranges honoured, a run in which every stall is past
   the deadline, from any point on, returns within the missing bytes and one more try.
   */
  lemma DeadlineHolds(blob: Bytes, file: Option<Bytes>, stall: nat, turns: seq<Turn>)
    requires stall < MAX_STALL_RETRIES && Content(file) <= blob
    requires HonestRun(blob, file, stall, turns) && RangesHonoured(file, stall, turns)
    requires forall turn <- turns :: turn.elapsed >= BLOB_DEADLINE
    ensures Iterations(file, stall, turns) <= |blob| - |Content(file)| + 1
  {
    HonouredIgnoresNone(file, stall, turns);
    PastDeadline(blob, file, stall, turns);
    NoneIgnored(Ignored(file, stall, turns), |blob| + 2);
  }

  /**
   A try without progress: a transport error, a transient status, or a body that
   breaks, or cannot be written, before its first byte.  A full body whose file
   cannot be opened is none while bytes are on disk: they then count as progress.
   */
  predicate Stalling(file: Option<Bytes>, turn: Turn) {
    match turn.reply
    case TransportError => true
    case Response(status, body) =>
      || IsTransient(status)
      || (status == 206 && !body.opens)
      || (status == 200 && !body.opens && Content(file) == [])
      || ((status == 200 || status == 206) && body.opens && Pumped(body) == [] && (WriteFails(body.chunks) || !body.clean))
  }

  predicate StallsThroughout(file: Option<Bytes>, stall: nat, turns: seq<Turn>)
    decreases |turns|
  {
    turns != [] ==>
      var next := Step(file, stall, turns[0]);
      Stalling(file, turns[0]) && (next.outcome.Running? ==> StallsThroughout(next.file, next.outcome.stall, turns[1..]))
  }

  /** A stalling try is one that neither returns Ok nor resets the count nor fails on the status, exactly. */
  lemma StallingExactly(file: Option<Bytes>, stall: nat, turn: Turn)
    ensures Stalling(file, turn) <==> Step(file, stall, turn).outcome == BumpStall(stall, turn.elapsed)
  {
    if Stalling(file, turn) && turn.reply.Response? {
      assert [] + Pumped(turn.reply.body) == Pumped(turn.reply.body);
    }
  }

  // ── The stall count ───────────────────────────────────────────────────────

  /** The file after some tries; no stall count has a say in it. */
  function FileAfter(file: Option<Bytes>, turns: seq<Turn>): Option<Bytes> {
    if turns == [] then file else Step(FileAfter(file, turns[..|turns| - 1]), 0, turns[|turns| - 1]).file
  }

  /** How many of the last tries in a row made no progress. */
  function TrailingStalls(file: Option<Bytes>, turns: seq<Turn>): nat {
    if turns == [] then 0
    else
      var before := turns[..|turns| - 1];
      if Stalling(FileAfter(file, before), turns[|turns| - 1]) then 1 + TrailingStalls(file, before) else 0
  }

  /** A run taken at its end instead of at its beginning. */
  lemma {:induction false} RunSnoc(file: Option<Bytes>, stall: nat, turns: seq<Turn>, turn: Turn)
    ensures var r := Run(file, stall, turns);
            Run(file, stall, turns + [turn]) == if r.outcome.Running? then Step(r.file, r.outcome.stall, turn) else r
    decreases |turns|
  {
    if turns == [] {
      assert ([] + [turn])[1..] == [];
    } else {
      assert (turns + [turn])[1..] == turns[1..] + [turn];
      var next := Step(file, stall, turns[0]);
      if next.outcome.Running? {
        RunSnoc(next.file, next.outcome.stall, turns[1..], turn);
      }
    }
  }

  /** A try that makes progress and does not return starts the count afresh, whatever it was. */
  lemma ProgressResets(file: Option<Bytes>, stall: nat, turn: Turn)
    requires !Stalling(file, turn) && Step(file, stall, turn).outcome.Running?
    ensures Step(file, stall, turn).outcome == Running(0)
  {
    if turn.reply.Response? {
      assert [] + Pumped(turn.reply.body) == Pumped(turn.reply.body);
    }
  }

  /**
   While a call is running its count is exactly the number of tries without progress
   since the last one that made some; and a call that ended `Stalled` did so on a
   row of forty of them, no fewer and no more.
   */
  lemma {:induction false} StallCount(file: Option<Bytes>, turns: seq<Turn>)
    requires turns == [] || Download(file, turns[..|turns| - 1]).outcome.Running?
    ensures var r := Download(file, turns);
            && r.file == FileAfter(file, turns)
            && (r.outcome.Running? ==> r.outcome.stall == TrailingStalls(file, turns) < MAX_STALL_RETRIES)
            && (r.outcome == Stalled ==> TrailingStalls(file, turns) == MAX_STALL_RETRIES)
    decreases |turns|
  {
    if turns != [] {
      var before, last := turns[..|turns| - 1], turns[|turns| - 1];
      assert turns == before + [last];
      RunSnoc(file, 0, before, last);
      if before != [] {
        var earlier := before[..|before| - 1];
        assert before == earlier + [before[|before| - 1]];
        RunSnoc(file, 0, earlier, before[|before| - 1]);
      }
      StallCount(file, before);
      var r := Download(file, before);
      StallingExactly(r.file, r.outcome.stall, last);
      if !Stalling(r.file, last) && Step(r.file, r.outcome.stall, last).outcome.Running? {
        ProgressResets(r.file, r.outcome.stall, last);
      }
    }
  }

  /** So one try with progress, from any count, buys forty more: thirty-nine stalls after it the call still runs. */
  lemma ProgressBuysForty(file: Option<Bytes>, stall: nat, turn: Turn, turns: seq<Turn>)
    requires !Stalling(file, turn) && Step(file, stall, turn).outcome.Running?
    requires StallsThroughout(Step(file, stall, turn).file, 0, turns) && forall t <- turns :: t.elapsed < BLOB_DEADLINE
    ensures Run(file, stall, [turn] + turns).outcome ==
              if |turns| >= MAX_STALL_RETRIES then Stalled else Running(|turns|)
  {
    ProgressResets(file, stall, turn);
    assert ([turn] + turns)[1..] == turns;
    FortiethTry(Step(file, stall, turn).file, 0, turns);
  }

  /** What each status leads to, by number: 416 ends the call, 429 and 500 to 599 stall it, and all but 200 and 206 of the rest fail it. */
  lemma StatusFates(file: Option<Bytes>, stall: nat, status: nat, body: Body, elapsed: nat)
    requires status != 200 && status != 206
    ensures Step(file, stall, Turn(Response(status, body), elapsed)) ==
              Transfer(file, if status == 416 then Complete
                             else if status == 429 || 500 <= status < 600 then
                               (if elapsed >= 2700 then DeadlineExceeded else if stall >= 39 then Stalled else Running(stall + 1))
                             else UnexpectedStatus(status))
  {
  }

  /** Without progress and before the deadline the loop gives up at the fortieth try in a row, not before. */
  lemma {:induction false} FortiethTry(file: Option<Bytes>, stall: nat, turns: seq<Turn>)
    requires stall < MAX_STALL_RETRIES && StallsThroughout(file, stall, turns)
    requires forall turn <- turns :: turn.elapsed < BLOB_DEADLINE
    ensures Run(file, stall, turns).outcome ==
              if stall + |turns| >= MAX_STALL_RETRIES then Stalled else Running(stall + |turns|)
    decreases |turns|
  {
    if turns != [] {
      assert turns[0] in turns;
      StallingExactly(file, stall, turns[0]);
      if stall + 1 < MAX_STALL_RETRIES {
        FortiethTry(Step(file, stall, turns[0]).file, stall + 1, turns[1..]);
      }
    }
  }

  /** An honest server that ignores `Range`, over a link that breaks after one byte, long past the deadline. */
  function OneByteThenBreak(blob: Bytes): Turn
    requires blob != []
  {
    Turn(Response(200, Body(true, [Stored([blob[0]])], false, 0)), 2 * BLOB_DEADLINE)
  }

  /**
   Neither the stall cap nor the wall-clock deadline bounds the loop when ranges
   are ignored: every byte resets the stall count, and only a stall reads the clock.
   */
  lemma {:induction false} ResumeNeedNotTerminate(blob: Bytes, file: Option<Bytes>, n: nat)
    requires blob != []
    ensures var turns := seq(n, _ => OneByteThenBreak(blob));
            HonestRun(blob, file, 0, turns) && Download(file, turns).outcome == Running(0)
    decreases n
  {
    if n > 0 {
      var turn := OneByteThenBreak(blob);
      var turns := seq(n, _ => turn);
      assert turns[1..] == seq(n - 1, _ => turn);
      ResumeNeedNotTerminate(blob, Some([blob[0]]), n - 1);
      var one := [Stored([blob[0]])];
      assert Accepted(one) == [blob[0]] + Accepted([]) && Served(one) == [blob[0]] + Served([]);
      assert Pumped(turn.reply.body) == [blob[0]];
      assert [] + Pumped(turn.reply.body) == [blob[0]];
      assert Step(file, 0, turn) == Transfer(Some([blob[0]]), Running(0));
    }
  }

  /** Each iteration asks for exactly the bytes after those on disk, and for everything while there are none. */
  lemma {:induction false} AsksForTheRest(file: Option<Bytes>, stall: nat, turns: seq<Turn>, k: nat)
    requires k < Iterations(file, stall, turns)
    ensures |RangesAsked(file, stall, turns)| == Iterations(file, stall, turns)
    ensures RangesAsked(file, stall, turns)[k] == RangeFrom(Run(file, stall, turns[..k]).file)
    ensures Run(file, stall, turns[..k]).outcome.Running?
    decreases |turns|
  {
    var next := Step(file, stall, turns[0]);
    if next.outcome.Running? && Iterations(next.file, next.outcome.stall, turns[1..]) > 0 {
      AsksForTheRest(next.file, next.outcome.stall, turns[1..], if k > 0 then k - 1 else 0);
    }
    if k > 0 {
      assert turns[..k][1..] == turns[1..][..k - 1];
    }
  }

  // ── What the writes leave ─────────────────────────────────────────────────

  function DataOf(chunks: seq<Chunk>): Bytes {
    if chunks == [] then [] else chunks[0].data + DataOf(chunks[1..])
  }

  /** Chunks are written in order and in full; of the first one refused stays what was written of it, and of the later ones nothing. */
  lemma {:induction false} WrittenExactly(chunks: seq<Chunk>, i: nat)
    requires i <= |chunks| && !WriteFails(chunks[..i]) && (i < |chunks| ==> chunks[i].Refused?)
    ensures Accepted(chunks) == DataOf(chunks[..i]) + if i < |chunks| then chunks[i].data[..Min(chunks[i].kept, |chunks[i].data|)] else []
  {
    if i > 0 {
      assert chunks[..i][0].Stored?;
      assert chunks[1..][..i - 1] == chunks[..i][1..];
      WrittenExactly(chunks[1..], i - 1);
    }
  }
}
