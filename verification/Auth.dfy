/**
 The per-pull bearer cache and the authenticated GET of `src/oci_pull_auth.rs`.
 One call is scripted by the replies its up to three GETs would receive; the
 requests actually sent are logged.
 */
module Auth {
  import opened Common
  import opened Challenge

  /** Bound on the body of a token response. */
  const MAX_TOKEN_BODY: nat := 64 * 1024

  datatype Key = Key(realm: string, service: string, scope: Option<string>)

  function KeyOf(c: BearerChallenge): Key {
    Key(c.realm, if c.service.Some? then c.service.value else [], c.scope)
  }

  /** The `Authorization` header of a request. */
  datatype Authorization = Anonymous | Basic(credential: string) | Bearer(token: string)

  datatype Request =
    | Resource(authorization: Authorization)
    | Exchange(challenge: BearerChallenge, authorization: Authorization)

  // ── Replies ───────────────────────────────────────────────────────────────

  datatype Reply = Lost | Got(status: nat, challenge: Option<string>)

  /** A token response body, chunk by chunk; it may break after any chunk. */
  datatype TokenReply = TokenLost | TokenGot(status: nat, chunks: seq<Bytes>, breaks: bool)

  datatype Field = Absent | NotAString | Text(value: string)

  datatype TokenDoc = TokenDoc(token: Field, accessToken: Field)

  type ParseToken = Bytes -> Option<TokenDoc>

  datatype Call = Call(first: Reply, exchange: TokenReply, retry: Reply)

  function Joined(chunks: seq<Bytes>): Bytes {
    if chunks == [] then [] else chunks[0] + Joined(chunks[1..])
  }

  /** The whole body, unless it breaks or outgrows the cap. */
  function BodyOf(chunks: seq<Bytes>, breaks: bool): Option<Bytes> {
    if breaks || |Joined(chunks)| > MAX_TOKEN_BODY then None else Some(Joined(chunks))
  }

  /** `token`, else its alias; an alias does not stand in for a `token` of the wrong type. */
  function TokenOf(doc: TokenDoc): Option<string> {
    var field := if doc.token.Absent? then doc.accessToken else doc.token;
    if field.Text? && field.value != [] then Some(field.value) else None
  }

  function Exchanged(parse: ParseToken, reply: TokenReply): Option<string> {
    if reply.TokenLost? || !(200 <= reply.status < 300) then None
    else match BodyOf(reply.chunks, reply.breaks)
      case None => None
      case Some(body) =>
        match parse(body) case None => None case Some(doc) => TokenOf(doc)
  }

  lemma {:induction false} JoinedPrefix(chunks: seq<Bytes>, i: nat)
    requires i < |chunks|
    ensures Joined(chunks[..i + 1]) == Joined(chunks[..i]) + chunks[i]
    ensures |Joined(chunks[..i + 1])| <= |Joined(chunks)|
  {
    if i == 0 {
      assert chunks[..1] == [chunks[0]];
    } else {
      assert chunks[..i + 1][1..] == chunks[1..][..i] && chunks[..i][1..] == chunks[1..][..i - 1];
      JoinedPrefix(chunks[1..], i - 1);
    }
  }

  /** Drain the body, giving up as soon as the cap is exceeded. */
  method ReadBody(chunks: seq<Bytes>, breaks: bool) returns (body: Option<Bytes>)
    ensures body == BodyOf(chunks, breaks)
  {
    var out: Bytes := [];
    for i := 0 to |chunks|
      invariant out == Joined(chunks[..i]) && |out| <= MAX_TOKEN_BODY
    {
      JoinedPrefix(chunks, i);
      if |out| + |chunks[i]| > MAX_TOKEN_BODY {
        return None;
      }
      out := out + chunks[i];
    }
    assert chunks[..|chunks|] == chunks;
    body := if breaks then None else Some(out);
  }

  // ── One authenticated GET ─────────────────────────────────────────────────

  datatype Cache = Cache(byKey: map<Key, string>, newest: Option<string>)

  const EMPTY := Cache(map[], None)

  datatype Result = TransportFailed | Returned(reply: Reply)

  datatype Outcome = Outcome(cache: Cache, result: Result, sent: seq<Request>)

  function Proactive(newest: Option<string>, basic: Option<string>): Authorization {
    if newest.Some? then Bearer(newest.value) else Credential(basic)
  }

  function Credential(basic: Option<string>): Authorization {
    if basic.Some? then Basic(basic.value) else Anonymous
  }

  /** The Bearer challenge a reply carries, if it is a 401 with one. */
  function ChallengeIn(reply: Reply): Option<BearerChallenge> {
    if reply.Got? && reply.status == 401 && reply.challenge.Some? then ParseBearerChallenge(reply.challenge.value) else None
  }

  function ResultOf(reply: Reply): Result {
    if reply.Lost? then TransportFailed else Returned(reply)
  }

  function GetAuthed(parse: ParseToken, cache: Cache, basic: Option<string>, call: Call): Outcome {
    var first := Resource(Proactive(cache.newest, basic));
    match ChallengeIn(call.first)
    case None => Outcome(cache, ResultOf(call.first), [first])
    case Some(challenge) =>
      var key := KeyOf(challenge);
      if key in cache.byKey && Some(cache.byKey[key]) != cache.newest then
        Outcome(cache, ResultOf(call.retry), [first, Resource(Bearer(cache.byKey[key]))])
      else
        var ask := Exchange(challenge, Credential(basic));
        match Exchanged(parse, call.exchange)
        case None => Outcome(cache, TransportFailed, [first, ask])
        case Some(token) =>
          Outcome(Cache(cache.byKey[key := token], Some(token)), ResultOf(call.retry), [first, ask, Resource(Bearer(token))])
  }

  /** The cache shared by a whole pull, updated in place. */
  class BearerCache {
    var byKey: map<Key, string>
    var newest: Option<string>

    constructor ()
      ensures State() == EMPTY
    {
      byKey, newest := map[], None;
    }

    function State(): Cache
      reads this
    {
      Cache(byKey, newest)
    }

    method Store(key: Key, token: string)
      modifies this
      ensures State() == Cache(old(byKey)[key := token], Some(token))
    {
      byKey := byKey[key := token];
      newest := Some(token);
    }

    /** Send, exchange at most once, retry at most once. */
    method GetAuthedWith(parse: ParseToken, basic: Option<string>, call: Call) returns (result: Result, sent: seq<Request>)
      modifies this
      ensures Outcome(State(), result, sent) == GetAuthed(parse, old(State()), basic, call)
    {
      var proactive := newest;
      sent := [Resource(Proactive(proactive, basic))];
      var challenge := ChallengeIn(call.first);
      if challenge.None? {
        return ResultOf(call.first), sent;
      }
      var key := KeyOf(challenge.value);
      var token;
      if key in byKey && Some(byKey[key]) != proactive {
        token := byKey[key];
      } else {
        sent := sent + [Exchange(challenge.value, Credential(basic))];
        var minted := ExchangeToken(parse, call.exchange);
        if minted.None? {
          return TransportFailed, sent;
        }
        token := minted.value;
        Store(key, token);
      }
      sent := sent + [Resource(Bearer(token))];
      result := ResultOf(call.retry);
    }
  }

  method ExchangeToken(parse: ParseToken, reply: TokenReply) returns (token: Option<string>)
    ensures token == Exchanged(parse, reply)
  {
    if reply.TokenLost? || !(200 <= reply.status < 300) {
      return None;
    }
    var body := ReadBody(reply.chunks, reply.breaks);
    if body.None? {
      return None;
    }
    var doc := parse(body.value);
    token := if doc.None? then None else TokenOf(doc.value);
  }
}
