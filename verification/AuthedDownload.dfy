/**
 The resume loop with its authenticated GETs: `download_resumable` of
 `src/oci_pull_transport.rs` over `get_authed` of `src/oci_pull_auth.rs`, sharing
 the bearer cache of the pull.
 */
module AuthedDownload {
  import opened Common
  import A = Auth
  import T = Transport

  /** One iteration: the replies its GETs would receive, and the bodies of the first and of the retried one. */
  datatype Leg = Leg(call: A.Call, first: T.Body, retry: T.Body, elapsed: nat)

  /** What the loop gets to see of a call. */
  function ReplyOf(o: A.Outcome, leg: Leg): T.Reply {
    match o.result
    case TransportFailed => T.TransportError
    case Returned(Lost) => T.TransportError
    case Returned(Got(status, _)) => T.Response(status, if |o.sent| == 1 then leg.first else leg.retry)
  }

  function TurnOf(o: A.Outcome, leg: Leg): T.Turn {
    T.Turn(ReplyOf(o, leg), leg.elapsed)
  }

  /** `turns` is what the resume loop saw, one turn for every iteration performed. */
  datatype Play = Play(transfer: T.Transfer, cache: A.Cache, sent: seq<seq<A.Request>>, turns: seq<T.Turn>)

  function Download(parse: A.ParseToken, cache: A.Cache, basic: Option<string>, file: Option<Bytes>, stall: nat, legs: seq<Leg>): Play
    decreases |legs|
  {
    if legs == [] then Play(T.Transfer(file, T.Running(stall)), cache, [], [])
    else
      var o := A.GetAuthed(parse, cache, basic, legs[0].call);
      var turn := TurnOf(o, legs[0]);
      var next := T.Step(file, stall, turn);
      if !next.outcome.Running? then Play(next, o.cache, [o.sent], [turn])
      else
        var rest := Download(parse, o.cache, basic, next.file, next.outcome.stall, legs[1..]);
        Play(rest.transfer, rest.cache, [o.sent] + rest.sent, [turn] + rest.turns)
  }

  /** What one iteration adds in front of the rest. */
  lemma DownloadFrom(parse: A.ParseToken, cache: A.Cache, basic: Option<string>, file: Option<Bytes>, stall: nat, legs: seq<Leg>, i: nat,
                     o: A.Outcome, next: T.Transfer)
    requires i < |legs| && o == A.GetAuthed(parse, cache, basic, legs[i].call) && next == T.Step(file, stall, TurnOf(o, legs[i]))
    ensures var play := Download(parse, cache, basic, file, stall, legs[i..]);
            if next.outcome.Running? then
              var rest := Download(parse, o.cache, basic, next.file, next.outcome.stall, legs[i + 1..]);
              play.transfer == rest.transfer && play.cache == rest.cache && play.sent == [o.sent] + rest.sent
            else play.transfer == next && play.cache == o.cache && play.sent == [o.sent]
  {
    assert legs[i..][1..] == legs[i + 1..];
  }

  lemma SentSplits(done: seq<seq<A.Request>>, one: seq<A.Request>, rest: seq<seq<A.Request>>)
    ensures done + ([one] + rest) == done + [one] + rest
  {
  }

  /** One iteration: an authenticated GET, then what the loop makes of its reply. */
  method PlayLeg(disk: T.Disk, dest: string, cache: A.BearerCache, parse: A.ParseToken, basic: Option<string>, stall: nat, leg: Leg)
    returns (outcome: T.Outcome, sent: seq<A.Request>)
    modifies disk, cache
    ensures var o := A.GetAuthed(parse, old(cache.State()), basic, leg.call);
            && cache.State() == o.cache && sent == o.sent
            && T.Transfer(Get(disk.files, dest), outcome) == T.Step(Get(old(disk.files), dest), stall, TurnOf(o, leg))
    ensures disk.files == Put(old(disk.files), dest, Get(disk.files, dest))
  {
    var result;
    result, sent := cache.GetAuthedWith(parse, basic, leg.call);
    outcome := T.HandleReply(disk, dest, stall, TurnOf(A.Outcome(cache.State(), result, sent), leg));
  }

  /** The loop itself, over the shared file and the shared cache. */
  method DownloadAuthed(disk: T.Disk, dest: string, cache: A.BearerCache, parse: A.ParseToken, basic: Option<string>, legs: seq<Leg>)
    returns (outcome: T.Outcome, sent: seq<seq<A.Request>>)
    modifies disk, cache
    ensures var play := Download(parse, old(cache.State()), basic, Get(old(disk.files), dest), 0, legs);
            && T.Transfer(Get(disk.files, dest), outcome) == play.transfer
            && cache.State() == play.cache && sent == play.sent
    ensures disk.files == Put(old(disk.files), dest, Get(disk.files, dest))
  {
    var stall := 0;
    sent := [];
    var i := 0;
    ghost var play := Download(parse, cache.State(), basic, Get(disk.files, dest), 0, legs);
    ghost var file, held := Get(disk.files, dest), cache.State();
    assert legs[0..] == legs;
    assert sent + play.sent == play.sent;
    while i < |legs|
      invariant 0 <= i <= |legs|
      invariant disk.files == Put(old(disk.files), dest, file) && Get(disk.files, dest) == file && cache.State() == held
      invariant var rest := Download(parse, held, basic, file, stall, legs[i..]);
                rest.transfer == play.transfer && rest.cache == play.cache && sent + rest.sent == play.sent
    {
      ghost var o := A.GetAuthed(parse, held, basic, legs[i].call);
      ghost var next := T.Step(file, stall, TurnOf(o, legs[i]));
      DownloadFrom(parse, held, basic, file, stall, legs, i, o, next);
      SentSplits(sent, o.sent, Download(parse, o.cache, basic, next.file, if next.outcome.Running? then next.outcome.stall else 0, legs[i + 1..]).sent);
      T.PutTwice(old(disk.files), dest, file, next.file);
      var requests;
      outcome, requests := PlayLeg(disk, dest, cache, parse, basic, stall, legs[i]);
      sent := sent + [requests];
      if !outcome.Running? {
        return;
      }
      file, held := next.file, o.cache;
      stall := outcome.stall;
      i := i + 1;
    }
    assert sent + [] == sent;
    outcome := T.Running(stall);
  }
}
