/** Authentication is transparent to the resume loop, and its cost is bounded over the whole download. */
module AuthedDownloadProofs {
  import opened Common
  import opened AuthedDownload
  import opened ResumeProofs
  import A = Auth
  import AP = AuthProofs
  import C = Challenge
  import T = Transport

  function CallsOf(legs: seq<Leg>): seq<A.Call> {
    seq(|legs|, i requires 0 <= i < |legs| => legs[i].call)
  }

  lemma {:induction false} LoopIsResume(parse: A.ParseToken, cache: A.Cache, basic: Option<string>, file: Option<Bytes>, stall: nat, legs: seq<Leg>)
    ensures var play := Download(parse, cache, basic, file, stall, legs);
            && |play.turns| <= |legs|
            && play.transfer == T.Run(file, stall, play.turns)
            && |play.turns| == Iterations(file, stall, play.turns)
    decreases |legs|
  {
    if legs != [] {
      var o := A.GetAuthed(parse, cache, basic, legs[0].call);
      var next := T.Step(file, stall, TurnOf(o, legs[0]));
      if next.outcome.Running? {
        LoopIsResume(parse, o.cache, basic, next.file, next.outcome.stall, legs[1..]);
        var rest := Download(parse, o.cache, basic, next.file, next.outcome.stall, legs[1..]);
        assert Download(parse, cache, basic, file, stall, legs).turns[1..] == rest.turns;
      }
    }
  }

  /** The calls of the first `n` legs, the first of them apart. */
  lemma CallsSplit(legs: seq<Leg>, n: nat)
    requires 0 < n <= |legs|
    ensures CallsOf(legs)[..n][0] == legs[0].call && CallsOf(legs)[..n][1..] == CallsOf(legs[1..])[..n - 1]
  {
  }

  lemma {:induction false} LoopIsPull(parse: A.ParseToken, cache: A.Cache, basic: Option<string>, file: Option<Bytes>, stall: nat, legs: seq<Leg>)
    ensures var play := Download(parse, cache, basic, file, stall, legs);
            && |play.turns| <= |legs|
            && var calls := AP.Pull(parse, cache, basic, CallsOf(legs)[..|play.turns|]);
               play.sent == calls.sent && play.cache == calls.cache
    decreases |legs|
  {
    if legs != [] {
      var o := A.GetAuthed(parse, cache, basic, legs[0].call);
      var next := T.Step(file, stall, TurnOf(o, legs[0]));
      if next.outcome.Running? {
        var rest := Download(parse, o.cache, basic, next.file, next.outcome.stall, legs[1..]);
        LoopIsPull(parse, o.cache, basic, next.file, next.outcome.stall, legs[1..]);
        CallsSplit(legs, 1 + |rest.turns|);
      } else {
        CallsSplit(legs, 1);
      }
    }
  }

  /**
   Transparency: the file evolves as under the plain resume loop fed with the
   replies that authentication lets through, and the requests and the cache are
   those of the authenticated calls actually made, one per iteration.
   */
  lemma AuthIsTransparent(parse: A.ParseToken, cache: A.Cache, basic: Option<string>, file: Option<Bytes>, stall: nat, legs: seq<Leg>)
    ensures var play := Download(parse, cache, basic, file, stall, legs);
            && |play.turns| <= |legs|
            && play.transfer == T.Run(file, stall, play.turns)
            && |play.turns| == Iterations(file, stall, play.turns)
            && var calls := AP.Pull(parse, cache, basic, CallsOf(legs)[..|play.turns|]);
               play.sent == calls.sent && play.cache == calls.cache
  {
    LoopIsResume(parse, cache, basic, file, stall, legs);
    LoopIsPull(parse, cache, basic, file, stall, legs);
  }

  function GetsSent(sent: seq<seq<A.Request>>): nat {
    if sent == [] then 0 else |sent[0]| + GetsSent(sent[1..])
  }

  lemma {:induction false} ThreeGetsEach(parse: A.ParseToken, cache: A.Cache, basic: Option<string>, calls: seq<A.Call>)
    ensures GetsSent(AP.Pull(parse, cache, basic, calls).sent) <= 3 * |calls|
    decreases |calls|
  {
    if calls != [] {
      AP.CallSends(parse, cache, basic, calls[0]);
      ThreeGetsEach(parse, A.GetAuthed(parse, cache, basic, calls[0]).cache, basic, calls[1..]);
    }
  }

  /**
   One download of a pull, end to end, from whatever token the pull holds: against
   an honest registry the file stays a prefix of the blob and an Ok return leaves
   exactly it, unless the last flush lost bytes; with ranges honoured it takes at
   most 120 GETs per blob byte and 120 more; and it exchanges successfully once per
   rejected bearer, and once more only to get the first token.
   */
  lemma AuthedResume(parse: A.ParseToken, key: A.Key, token: Option<string>, basic: Option<string>, blob: Bytes, file: Option<Bytes>, legs: seq<Leg>)
    requires AP.SingleKey(key, CallsOf(legs)) && T.Content(file) <= blob
    requires HonestRun(blob, file, 0, Download(parse, AP.Holding(key, token), basic, file, 0, legs).turns)
    ensures var play := Download(parse, AP.Holding(key, token), basic, file, 0, legs);
            && T.Content(play.transfer.file) <= blob
            && (play.transfer.outcome == T.Complete ==>
                  (play.transfer.file == Some(blob) <==> LostTail(file, 0, play.turns) == 0))
            && (RangesHonoured(file, 0, play.turns) ==> GetsSent(play.sent) <= 120 * (|blob| + 1))
            && play.cache == AP.Holding(key, play.cache.newest)
            && AP.SuccessfulExchanges(play.sent) + AP.Missing(play.cache.newest) <= AP.Missing(token) + AP.Rejections(play.sent)
  {
    var cache := AP.Holding(key, token);
    var play := Download(parse, cache, basic, file, 0, legs);
    AuthIsTransparent(parse, cache, basic, file, 0, legs);
    ResumeSafety(blob, file, play.turns);
    var calls := CallsOf(legs)[..|play.turns|];
    ThreeGetsEach(parse, cache, basic, calls);
    if RangesHonoured(file, 0, play.turns) {
      ResumeTerminates(blob, file, play.turns);
    }
    AP.ExchangesBounded(parse, key, token, basic, calls);
  }

  // ── All downloads of one pull ─────────────────────────────────────────────

  /** One download: the document the registry holds, the file as found, and the iterations. */
  datatype Job = Job(blob: Bytes, file: Option<Bytes>, legs: seq<Leg>)

  /** The downloads of a pull, one after the other, sharing the cache. */
  function PullAll(parse: A.ParseToken, cache: A.Cache, basic: Option<string>, jobs: seq<Job>): seq<Play>
    decreases |jobs|
  {
    if jobs == [] then []
    else
      var play := Download(parse, cache, basic, jobs[0].file, 0, jobs[0].legs);
      [play] + PullAll(parse, play.cache, basic, jobs[1..])
  }

  ghost predicate HonestJobs(parse: A.ParseToken, cache: A.Cache, basic: Option<string>, key: A.Key, jobs: seq<Job>)
    decreases |jobs|
  {
    jobs != [] ==>
      var play := Download(parse, cache, basic, jobs[0].file, 0, jobs[0].legs);
      && AP.SingleKey(key, CallsOf(jobs[0].legs)) && T.Content(jobs[0].file) <= jobs[0].blob
      && HonestRun(jobs[0].blob, jobs[0].file, 0, play.turns)
      && HonestJobs(parse, play.cache, basic, key, jobs[1..])
  }

  /** What a download leaves of its file. */
  ghost predicate Delivered(job: Job, play: Play) {
    && T.Content(play.transfer.file) <= job.blob
    && (play.transfer.outcome == T.Complete ==> (play.transfer.file == Some(job.blob) <==> LostTail(job.file, 0, play.turns) == 0))
    && (RangesHonoured(job.file, 0, play.turns) ==> GetsSent(play.sent) <= 120 * (|job.blob| + 1))
  }

  function Sent(plays: seq<Play>): seq<seq<A.Request>> {
    if plays == [] then [] else plays[0].sent + Sent(plays[1..])
  }

  lemma {:induction false} CountsAdd(a: seq<seq<A.Request>>, b: seq<seq<A.Request>>)
    ensures AP.SuccessfulExchanges(a + b) == AP.SuccessfulExchanges(a) + AP.SuccessfulExchanges(b)
    ensures AP.Rejections(a + b) == AP.Rejections(a) + AP.Rejections(b)
  {
    if a == [] {
      assert a + b == b;
    } else {
      assert (a + b)[1..] == a[1..] + b;
      CountsAdd(a[1..], b);
    }
  }

  /**
   A whole pull: every download delivers, and over all of them together - manifest,
   config, layers and every ranged resume - the token endpoint answers at most
   once, and once more for each bearer the registry rejected.
   */
  lemma {:induction false} AuthedPull(parse: A.ParseToken, key: A.Key, token: Option<string>, basic: Option<string>, jobs: seq<Job>)
    requires HonestJobs(parse, AP.Holding(key, token), basic, key, jobs)
    ensures var plays := PullAll(parse, AP.Holding(key, token), basic, jobs);
            && |plays| == |jobs|
            && (forall i :: 0 <= i < |jobs| ==> Delivered(jobs[i], plays[i]))
            && AP.SuccessfulExchanges(Sent(plays)) <= AP.Missing(token) + AP.Rejections(Sent(plays))
    decreases |jobs|
  {
    if jobs != [] {
      var play := Download(parse, AP.Holding(key, token), basic, jobs[0].file, 0, jobs[0].legs);
      AuthedResume(parse, key, token, basic, jobs[0].blob, jobs[0].file, jobs[0].legs);
      AuthedPull(parse, key, play.cache.newest, basic, jobs[1..]);
      var plays := PullAll(parse, AP.Holding(key, token), basic, jobs);
      var rest := PullAll(parse, play.cache, basic, jobs[1..]);
      assert plays[1..] == rest;
      CountsAdd(play.sent, Sent(rest));
      forall i | 0 <= i < |jobs| ensures Delivered(jobs[i], plays[i]) {
        if i > 0 {
          assert Delivered(jobs[1..][i - 1], rest[i - 1]);
        }
      }
    }
  }

  /** What one iteration of the resume loop gets to see, by the replies of its GETs. */
  function Seen(reply: A.Reply, body: T.Body): T.Reply {
    match reply
    case Lost => T.TransportError
    case Got(status, _) => T.Response(status, body)
  }

  /**
   A reply that is no challenge reaches the loop with its own body; a challenged
   one is replaced by the retry and the body of that, or by a transport error
   when no token was to be had for the retry.
   */
  lemma LoopSees(parse: A.ParseToken, cache: A.Cache, basic: Option<string>, file: Option<Bytes>, stall: nat, leg: Leg)
    ensures var turns := Download(parse, cache, basic, file, stall, [leg]).turns;
            && |turns| == 1 && turns[0].elapsed == leg.elapsed
            && turns[0].reply ==
                 if !(exists c :: AP.Challenges(leg.call.first, c)) then Seen(leg.call.first, leg.first)
                 else if A.GetAuthed(parse, cache, basic, leg.call).sent[|A.GetAuthed(parse, cache, basic, leg.call).sent| - 1].Exchange? then T.TransportError
                 else Seen(leg.call.retry, leg.retry)
  {
    AP.HeadersSent(parse, cache, basic, leg.call);
  }

  /** A bearer that expires mid-blob costs nothing but requests: the retried range counts as if it had been asked for first. */
  lemma ExpiryKeepsProgress(parse: A.ParseToken, cache: A.Cache, basic: Option<string>, file: Option<Bytes>, stall: nat, leg: Leg)
    requires A.ChallengeIn(leg.call.first).Some? && AP.NeedsExchange(cache, A.ChallengeIn(leg.call.first).value)
    requires A.Exchanged(parse, leg.call.exchange).Some? && leg.call.retry.Got?
    ensures var play := Download(parse, cache, basic, file, stall, [leg]);
            && play.transfer == T.Step(file, stall, T.Turn(T.Response(leg.call.retry.status, leg.retry), leg.elapsed))
            && play.cache.newest == A.Exchanged(parse, leg.call.exchange)
  {
    assert [leg][1..] == [];
  }

  /** A stale token that is not the newest one ends the download with a 401, the token endpoint never being asked. */
  lemma StaleTokenEndsDownload(parse: A.ParseToken, cache: A.Cache, basic: Option<string>, file: Option<Bytes>, stall: nat,
                               header: string, exchange: A.TokenReply, leg: Leg)
    requires leg.call == AP.Refused(header, exchange)
    requires C.ParseBearerChallenge(header).Some? && !AP.NeedsExchange(cache, C.ParseBearerChallenge(header).value)
    ensures var play := Download(parse, cache, basic, file, stall, [leg]);
            && play.transfer == T.Transfer(file, T.UnexpectedStatus(401)) && play.cache == cache
            && |play.sent| == 1 && AP.Exchanges(play.sent[0]) == 0
  {
    AP.CallSends(parse, cache, basic, leg.call);
  }
}
