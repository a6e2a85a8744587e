/** What the bearer cache guarantees over a whole pull, and the run on which it does not refresh. */
module AuthProofs {
  import opened Common
  import opened Challenge
  import opened Auth

  // ── One call ──────────────────────────────────────────────────────────────

  /** Whether a call under this cache goes to the token endpoint: the exact condition, checkable on the cache. */
  predicate NeedsExchange(cache: Cache, challenge: BearerChallenge) {
    var key := KeyOf(challenge);
    key !in cache.byKey || Some(cache.byKey[key]) == cache.newest
  }

  function Exchanges(sent: seq<Request>): nat {
    if sent == [] then 0 else (if sent[0].Exchange? then 1 else 0) + Exchanges(sent[1..])
  }

  /**
   A call sends at most three GETs, at most one of them to the token endpoint and
   that one with the credential; the resource is asked for once or twice, first
   with the newest token, then with the token now cached for the challenge.
   */
  lemma CallSends(parse: ParseToken, cache: Cache, basic: Option<string>, call: Call)
    ensures var o := GetAuthed(parse, cache, basic, call);
            && 1 <= |o.sent| <= 3 && o.sent[0] == Resource(Proactive(cache.newest, basic))
            && (|o.sent| == 1 <==> ChallengeIn(call.first).None?)
            && Exchanges(o.sent) <= 1
            && (Exchanges(o.sent) == 1 <==>
                  ChallengeIn(call.first).Some? && NeedsExchange(cache, ChallengeIn(call.first).value))
            && (Exchanges(o.sent) == 1 ==> o.sent[1] == Exchange(ChallengeIn(call.first).value, Credential(basic)))
            && (|o.sent| > 1 && (Exchanges(o.sent) == 0 || Exchanged(parse, call.exchange).Some?) ==>
                  var key := KeyOf(ChallengeIn(call.first).value);
                  key in o.cache.byKey && o.sent[|o.sent| - 1] == Resource(Bearer(o.cache.byKey[key])))
  {
    var sent := GetAuthed(parse, cache, basic, call).sent;
    if |sent| > 1 {
      assert sent[1..][0] == sent[1] && sent[1..][1..] == sent[2..];
      if |sent| > 2 {
        assert sent[2..][0] == sent[2] && sent[2..][1..] == [];
        assert Exchanges(sent[2..]) == Exchanges([]);
      }
    }
  }

  /** What a request shows of the credential: `Basic` with it, or nothing at all when there is none. */
  predicate Presents(a: Authorization, basic: Option<string>) {
    match basic
    case Some(credential) => a == Basic(credential)
    case None => a == Anonymous
  }

  /** A 401 whose header is this Bearer challenge. */
  predicate Challenges(reply: Reply, c: BearerChallenge) {
    reply.Got? && reply.status == 401 && reply.challenge.Some? && ParseBearerChallenge(reply.challenge.value) == Some(c)
  }

  /** Realm, service and scope make the key; an absent service is as an empty one. */
  predicate SameKey(a: BearerChallenge, b: BearerChallenge) {
    a.realm == b.realm && a.scope == b.scope &&
    (a.service == b.service || (a.service.None? && b.service == Some("")) || (b.service.None? && a.service == Some("")))
  }

  lemma KeysAgreeExactly(a: BearerChallenge, b: BearerChallenge)
    ensures KeyOf(a) == KeyOf(b) <==> SameKey(a, b)
  {
  }

  /** A token is minted by a 2xx whose whole body is in bounds and parses to that token, under its name or under its alias. */
  lemma MintsExactly(parse: ParseToken, reply: TokenReply, token: string)
    ensures Exchanged(parse, reply) == Some(token) <==>
              && reply.TokenGot? && 200 <= reply.status <= 299 && !reply.breaks && |Auth.Joined(reply.chunks)| <= 65536
              && token != ""
              && match parse(Auth.Joined(reply.chunks))
                 case None => false
                 case Some(doc) => doc.token == Text(token) || (doc.token == Absent && doc.accessToken == Text(token))
  {
  }

  /** The headers of one call's requests, each by what it carries. */
  ghost predicate WellSent(sent: seq<Request>, newest: Option<string>, basic: Option<string>, call: Call) {
    && sent != [] && sent[0].Resource?
    && (match newest
        case Some(token) => sent[0].authorization == Bearer(token)
        case None => Presents(sent[0].authorization, basic))
    && forall i :: 0 < i < |sent| ==>
         match sent[i]
         case Exchange(c, a) => i == 1 && Presents(a, basic) && Challenges(call.first, c)
         case Resource(a) => i == |sent| - 1 && a.Bearer? && exists c :: Challenges(call.first, c)
  }

  /**
   The first GET carries the newest token, or the credential when there is none
   yet; the token endpoint only ever gets the credential; a retry carries a token.
   What the caller gets is the first reply when it is no challenge, and else the
   last one - or a transport failure, when no token was to be had.
   */
  lemma HeadersSent(parse: ParseToken, cache: Cache, basic: Option<string>, call: Call)
    ensures var o := GetAuthed(parse, cache, basic, call);
            && WellSent(o.sent, cache.newest, basic, call)
            && var reply := if |o.sent| == 1 then call.first else call.retry;
               && (o.result == Returned(reply) <==> o.result != TransportFailed)
               && (o.result == TransportFailed <==> reply == Lost || o.sent[|o.sent| - 1].Exchange?)
               && ((exists c :: Challenges(call.first, c)) <==> |o.sent| > 1)
  {
    match ChallengeIn(call.first)
    case None =>
    case Some(c) => assert Challenges(call.first, c);
  }

  /** `newest` is the current entry of some key, and absent only while nothing is cached. */
  ghost predicate NewestIsCached(cache: Cache) {
    match cache.newest
    case None => cache.byKey == map[]
    case Some(token) => exists key :: key in cache.byKey && cache.byKey[key] == token
  }

  lemma CallKeepsNewestCached(parse: ParseToken, cache: Cache, basic: Option<string>, call: Call)
    requires NewestIsCached(cache)
    ensures NewestIsCached(GetAuthed(parse, cache, basic, call).cache)
  {
    var after := GetAuthed(parse, cache, basic, call).cache;
    if after != cache {
      var key := KeyOf(ChallengeIn(call.first).value);
      assert after.byKey[key] == after.newest.value;
    }
  }

  // ── Whole runs ────────────────────────────────────────────────────────────

  datatype Trace = Trace(cache: Cache, results: seq<Result>, sent: seq<seq<Request>>)

  function Pull(parse: ParseToken, cache: Cache, basic: Option<string>, calls: seq<Call>): Trace
    decreases |calls|
  {
    if calls == [] then Trace(cache, [], [])
    else
      var o := GetAuthed(parse, cache, basic, calls[0]);
      var rest := Pull(parse, o.cache, basic, calls[1..]);
      Trace(rest.cache, [o.result] + rest.results, [o.sent] + rest.sent)
  }

  lemma {:induction false} NewestAlwaysCached(parse: ParseToken, cache: Cache, basic: Option<string>, calls: seq<Call>)
    requires NewestIsCached(cache)
    ensures NewestIsCached(Pull(parse, cache, basic, calls).cache)
    decreases |calls|
  {
    if calls != [] {
      CallKeepsNewestCached(parse, cache, basic, calls[0]);
      NewestAlwaysCached(parse, GetAuthed(parse, cache, basic, calls[0]).cache, basic, calls[1..]);
    }
  }

  /** A token that was cached to begin with. */
  predicate HeldAtFirst(cache: Cache, token: string) {
    cache.newest == Some(token) || token in cache.byKey.Values
  }

  ghost predicate Minted(parse: ParseToken, calls: seq<Call>, token: string) {
    exists call <- calls :: Exchanged(parse, call.exchange) == Some(token)
  }

  /** What the requests of one call among others may carry. */
  ghost predicate Carries(parse: ParseToken, cache: Cache, basic: Option<string>, calls: seq<Call>, r: Request) {
    match r.authorization
    case Bearer(token) => r.Resource? && (HeldAtFirst(cache, token) || Minted(parse, calls, token))
    case _ => Presents(r.authorization, basic)
  }

  lemma CallCarries(parse: ParseToken, cache: Cache, basic: Option<string>, call: Call)
    ensures var o := GetAuthed(parse, cache, basic, call);
            && (forall r <- o.sent :: Carries(parse, cache, basic, [call], r))
            && (forall token :: HeldAtFirst(o.cache, token) ==> HeldAtFirst(cache, token) || Minted(parse, [call], token))
  {
    assert call in [call];
    var o := GetAuthed(parse, cache, basic, call);
    if ChallengeIn(call.first).Some? && Exchanged(parse, call.exchange).Some? {
      assert Minted(parse, [call], Exchanged(parse, call.exchange).value);
    }
  }

  /**
   Over every run: whatever is sent carries the credential, nothing when there is
   none, or - never to the token endpoint - a token that was cached to begin with
   or that the token endpoint minted in this very run.
   */
  lemma {:induction false} PullCarries(parse: ParseToken, cache: Cache, basic: Option<string>, calls: seq<Call>)
    ensures var run := Pull(parse, cache, basic, calls);
            && |run.sent| == |calls|
            && forall i, r :: 0 <= i < |calls| && r in run.sent[i] ==> Carries(parse, cache, basic, calls, r)
    decreases |calls|
  {
    if calls != [] {
      var o := GetAuthed(parse, cache, basic, calls[0]);
      var run := Pull(parse, cache, basic, calls);
      CallCarries(parse, cache, basic, calls[0]);
      PullCarries(parse, o.cache, basic, calls[1..]);
      forall i, r | 0 <= i < |calls| && r in run.sent[i] ensures Carries(parse, cache, basic, calls, r) {
        if i == 0 {
          assert Carries(parse, cache, basic, [calls[0]], r);
        } else {
          assert Carries(parse, o.cache, basic, calls[1..], r) by { assert run.sent[i] == Pull(parse, o.cache, basic, calls[1..]).sent[i - 1]; }
        }
        CarriesMore(parse, cache, o.cache, basic, calls, r);
      }
    }
  }

  lemma CarriesMore(parse: ParseToken, cache: Cache, later: Cache, basic: Option<string>, calls: seq<Call>, r: Request)
    requires calls != []
    requires forall token :: HeldAtFirst(later, token) ==> HeldAtFirst(cache, token) || Minted(parse, [calls[0]], token)
    requires Carries(parse, cache, basic, [calls[0]], r) || Carries(parse, later, basic, calls[1..], r)
    ensures Carries(parse, cache, basic, calls, r)
  {
    if r.authorization.Bearer? {
      var token := r.authorization.token;
      if Minted(parse, [calls[0]], token) {
        assert calls[0] in calls && Exchanged(parse, calls[0].exchange) == Some(token);
      } else if Minted(parse, calls[1..], token) {
        var call :| call in calls[1..] && Exchanged(parse, call.exchange) == Some(token);
        assert call in calls;
      }
    }
  }

  /** The first request of a pull, nothing being cached, shows the credential. */
  lemma FirstShowsCredential(parse: ParseToken, basic: Option<string>, calls: seq<Call>)
    requires calls != []
    ensures var sent := Pull(parse, EMPTY, basic, calls).sent;
            |sent| > 0 && sent[0] != [] && sent[0][0].Resource? && Presents(sent[0][0].authorization, basic)
  {
    HeadersSent(parse, EMPTY, basic, calls[0]);
  }

  // ── One challenge key ─────────────────────────────────────────────────────

  ghost predicate SingleKey(key: Key, calls: seq<Call>) {
    forall call <- calls :: ChallengeIn(call.first).Some? ==> KeyOf(ChallengeIn(call.first).value) == key
  }

  /** The machine a pull of one repository sees: one optional token, replaced whenever it is challenged. */
  function OneToken(parse: ParseToken, token: Option<string>, basic: Option<string>, call: Call): (Option<string>, Result, seq<Request>) {
    var first := Resource(Proactive(token, basic));
    match ChallengeIn(call.first)
    case None => (token, ResultOf(call.first), [first])
    case Some(challenge) =>
      var ask := Exchange(challenge, Credential(basic));
      match Exchanged(parse, call.exchange)
      case None => (token, TransportFailed, [first, ask])
      case Some(minted) => (Some(minted), ResultOf(call.retry), [first, ask, Resource(Bearer(minted))])
  }

  /** The cache state that stands for one optional token. */
  function Holding(key: Key, token: Option<string>): Cache {
    match token case None => EMPTY case Some(t) => Cache(map[key := t], Some(t))
  }

  lemma CallRefinesOneToken(parse: ParseToken, key: Key, token: Option<string>, basic: Option<string>, call: Call)
    requires SingleKey(key, [call])
    ensures var o := GetAuthed(parse, Holding(key, token), basic, call);
            var (next, result, sent) := OneToken(parse, token, basic, call);
            o == Outcome(Holding(key, next), result, sent)
  {
    assert call in [call];
    if ChallengeIn(call.first).Some? && Exchanged(parse, call.exchange).Some? {
      var minted := Exchanged(parse, call.exchange).value;
      assert Holding(key, token).byKey[key := minted] == map[key := minted];
    }
  }

  function OneTokenPull(parse: ParseToken, token: Option<string>, basic: Option<string>, calls: seq<Call>): Trace
    decreases |calls|
  {
    if calls == [] then Trace(Cache(map[], token), [], [])
    else
      var (next, result, sent) := OneToken(parse, token, basic, calls[0]);
      var rest := OneTokenPull(parse, next, basic, calls[1..]);
      Trace(rest.cache, [result] + rest.results, [sent] + rest.sent)
  }

  /** With a single challenge key, map plus `newest` refine one optional token over any run. */
  lemma {:induction false} PullRefinesOneToken(parse: ParseToken, key: Key, token: Option<string>, basic: Option<string>, calls: seq<Call>)
    requires SingleKey(key, calls)
    ensures var run := Pull(parse, Holding(key, token), basic, calls);
            var one := OneTokenPull(parse, token, basic, calls);
            && run.results == one.results && run.sent == one.sent
            && run.cache == Holding(key, one.cache.newest)
    decreases |calls|
  {
    if calls != [] {
      assert calls[0] in calls;
      CallRefinesOneToken(parse, key, token, basic, calls[0]);
      PullRefinesOneToken(parse, key, OneToken(parse, token, basic, calls[0]).0, basic, calls[1..]);
    }
  }

  /** Calls of a run whose exchange succeeded, counted by their third GET. */
  function SuccessfulExchanges(sent: seq<seq<Request>>): nat {
    if sent == [] then 0 else (if |sent[0]| == 3 then 1 else 0) + SuccessfulExchanges(sent[1..])
  }

  /** Calls that opened with a cached bearer and were challenged all the same. */
  function Rejections(sent: seq<seq<Request>>): nat {
    if sent == [] then 0
    else
      (if |sent[0]| > 1 && sent[0][0].Resource? && sent[0][0].authorization.Bearer? then 1 else 0) + Rejections(sent[1..])
  }

  function Missing(token: Option<string>): nat {
    if token.None? then 1 else 0
  }

  lemma {:induction false} OneTokenExchanges(parse: ParseToken, token: Option<string>, basic: Option<string>, calls: seq<Call>)
    ensures var run := OneTokenPull(parse, token, basic, calls);
            SuccessfulExchanges(run.sent) + Missing(run.cache.newest) <= Missing(token) + Rejections(run.sent)
    decreases |calls|
  {
    if calls != [] {
      OneTokenExchanges(parse, OneToken(parse, token, basic, calls[0]).0, basic, calls[1..]);
    }
  }

  /**
   Any stretch of a pull over one key, from whatever token it starts with,
   exchanges successfully at most once per rejected bearer, and once more only if
   it started without a token and ends with one.
   */
  lemma ExchangesBounded(parse: ParseToken, key: Key, token: Option<string>, basic: Option<string>, calls: seq<Call>)
    requires SingleKey(key, calls)
    ensures var run := Pull(parse, Holding(key, token), basic, calls);
            && run.cache == Holding(key, run.cache.newest)
            && SuccessfulExchanges(run.sent) + Missing(run.cache.newest) <= Missing(token) + Rejections(run.sent)
  {
    PullRefinesOneToken(parse, key, token, basic, calls);
    OneTokenExchanges(parse, token, basic, calls);
  }

  // ── Two challenge keys ────────────────────────────────────────────────────

  /** A call answered 401 with this challenge, whatever bearer it carries. */
  function Refused(header: string, exchange: TokenReply): Call {
    Call(Got(401, Some(header)), exchange, Got(401, Some(header)))
  }

  /**
   Once the token cached for a key is not the newest, an expired one is replayed
   on every later call, for ever, and never exchanged again.
   */
  lemma {:induction false} StaleTokenReplayed(parse: ParseToken, cache: Cache, basic: Option<string>, header: string, exchange: TokenReply, n: nat)
    requires ParseBearerChallenge(header).Some?
    requires !NeedsExchange(cache, ParseBearerChallenge(header).value)
    ensures var key := KeyOf(ParseBearerChallenge(header).value);
            var run := Pull(parse, cache, basic, seq(n, _ => Refused(header, exchange)));
            && run.cache == cache && |run.sent| == n && |run.results| == n
            && (forall i :: 0 <= i < n ==> run.results[i] == Returned(Got(401, Some(header))))
            && (forall i :: 0 <= i < n ==>
                  run.sent[i] == [Resource(Proactive(cache.newest, basic)), Resource(Bearer(cache.byKey[key]))])
    decreases n
  {
    if n > 0 {
      var calls := seq(n, _ => Refused(header, exchange));
      assert calls[1..] == seq(n - 1, _ => Refused(header, exchange));
      StaleTokenReplayed(parse, cache, basic, header, exchange, n - 1);
    }
  }

  lemma TwoKeysCached(parse: ParseToken, basic: Option<string>, h1: string, h2: string, t1: TokenReply, t2: TokenReply)
    requires ParseBearerChallenge(h1).Some? && ParseBearerChallenge(h2).Some?
    requires KeyOf(ParseBearerChallenge(h1).value) != KeyOf(ParseBearerChallenge(h2).value)
    requires Exchanged(parse, t1).Some? && Exchanged(parse, t2).Some?
    ensures var k1, k2 := KeyOf(ParseBearerChallenge(h1).value), KeyOf(ParseBearerChallenge(h2).value);
            var v1, v2 := Exchanged(parse, t1).value, Exchanged(parse, t2).value;
            var o1 := GetAuthed(parse, EMPTY, basic, Refused(h1, t1));
            var o2 := GetAuthed(parse, o1.cache, basic, Refused(h2, t2));
            |o1.sent| == |o2.sent| == 3 && o2.cache == Cache(map[k1 := v1, k2 := v2], Some(v2))
  {
  }

  /** Two challenges with different keys and different tokens lead from the empty cache into that trap. */
  lemma TwoKeysReachStale(parse: ParseToken, basic: Option<string>, h1: string, h2: string, t1: TokenReply, t2: TokenReply, n: nat)
    requires ParseBearerChallenge(h1).Some? && ParseBearerChallenge(h2).Some?
    requires KeyOf(ParseBearerChallenge(h1).value) != KeyOf(ParseBearerChallenge(h2).value)
    requires Exchanged(parse, t1).Some? && Exchanged(parse, t2).Some? && Exchanged(parse, t1) != Exchanged(parse, t2)
    ensures var calls := [Refused(h1, t1), Refused(h2, t2)] + seq(n, _ => Refused(h1, t1));
            var run := Pull(parse, EMPTY, basic, calls);
            && |run.sent| == n + 2 && SuccessfulExchanges(run.sent) == 2
            && forall i :: 2 <= i < n + 2 ==>
                 run.sent[i] == [Resource(Bearer(Exchanged(parse, t2).value)), Resource(Bearer(Exchanged(parse, t1).value))]
  {
    var k1, k2 := KeyOf(ParseBearerChallenge(h1).value), KeyOf(ParseBearerChallenge(h2).value);
    var v1, v2 := Exchanged(parse, t1).value, Exchanged(parse, t2).value;
    var again := seq(n, _ => Refused(h1, t1));
    var calls := [Refused(h1, t1), Refused(h2, t2)] + again;
    assert calls[1..] == [Refused(h2, t2)] + again && calls[1..][1..] == again;
    TwoKeysCached(parse, basic, h1, h2, t1, t2);
    var cache2 := Cache(map[k1 := v1, k2 := v2], Some(v2));
    StaleTokenReplayed(parse, cache2, basic, h1, t1, n);
    NoExchanges(Pull(parse, cache2, basic, again).sent);
  }

  lemma {:induction false} NoExchanges(sent: seq<seq<Request>>)
    requires forall i :: 0 <= i < |sent| ==> |sent[i]| == 2
    ensures SuccessfulExchanges(sent) == 0
    decreases |sent|
  {
    if sent != [] {
      NoExchanges(sent[1..]);
    }
  }
}
