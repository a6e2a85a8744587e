/**
 The `WWW-Authenticate: Bearer` challenge and the token URL of
 `src/oci_pull_auth.rs`: a tokeniser that walks an index over the header, and a
 query printer that percent-encodes byte by byte.
 */
module Challenge {
  import opened Common
  import opened Text

  datatype BearerChallenge = BearerChallenge(realm: string, service: Option<string>, scope: Option<string>)

  // ── Characters ────────────────────────────────────────────────────────────

  /** Unicode white space, as trimming understands it. */
  predicate IsWhitespace(c: char) {
    var u := c as int;
    || 9 <= u <= 13 || u == 32 || u == 0x85 || u == 0xA0 || u == 0x1680
    || 0x2000 <= u <= 0x200A || u == 0x2028 || u == 0x2029 || u == 0x202F || u == 0x205F || u == 0x3000
  }

  function TrimStart(s: string): string {
    if s != [] && IsWhitespace(s[0]) then TrimStart(s[1..]) else s
  }

  function TrimEnd(s: string): string {
    if s != [] && IsWhitespace(s[|s| - 1]) then TrimEnd(s[..|s| - 1]) else s
  }

  function Trim(s: string): string {
    TrimEnd(TrimStart(s))
  }

  function AsciiLower(c: char): char {
    if 'A' <= c <= 'Z' then (c as int + 32) as char else c
  }

  predicate EqIgnoreCase(a: string, b: string) {
    |a| == |b| && forall i :: 0 <= i < |a| ==> AsciiLower(a[i]) == AsciiLower(b[i])
  }

  predicate IsSeparator(c: char) {
    c == ' ' || c == ',' || c == '\t'
  }

  // ── The tokeniser, as a function of the remaining text ────────────────────

  function SkipSeparators(s: string): (r: string)
    ensures |r| <= |s|
  {
    if s != [] && IsSeparator(s[0]) then SkipSeparators(s[1..]) else s
  }

  /** Text up to the first '=' or ','. */
  function TakeKey(s: string): (r: (string, string))
    ensures |r.1| <= |s|
  {
    if s == [] || s[0] == '=' || s[0] == ',' then ([], s)
    else var (key, rest) := TakeKey(s[1..]); ([s[0]] + key, rest)
  }

  /** A value after its opening quote: escapes resolved, closing quote consumed. */
  function TakeQuoted(s: string): (r: (string, string))
    ensures |r.1| <= |s|
  {
    if s == [] then ([], [])
    else if s[0] == '"' then ([], s[1..])
    else if s[0] == '\\' && |s| > 1 then
      var (value, rest) := TakeQuoted(s[2..]); ([s[1]] + value, rest)
    else
      var (value, rest) := TakeQuoted(s[1..]); ([s[0]] + value, rest)
  }

  function TakeBare(s: string): (r: (string, string))
    ensures |r.1| <= |s|
  {
    if s == [] || s[0] == ',' then ([], s)
    else var (value, rest) := TakeBare(s[1..]); ([s[0]] + value, rest)
  }

  function TakeValue(s: string): (r: (string, string))
    ensures |r.1| <= |s|
  {
    if s != [] && s[0] == '"' then TakeQuoted(s[1..]) else TakeBare(s)
  }

  function Entry(key: string, value: string): seq<(string, string)> {
    if Trim(key) == [] then [] else [(Trim(key), Trim(value))]
  }

  function ParseAuthParams(s: string): seq<(string, string)>
    decreases |s|
  {
    var (key, rest) := TakeKey(SkipSeparators(s));
    if rest == [] || rest[0] != '=' then []
    else
      var (value, after) := TakeValue(rest[1..]);
      Entry(key, value) + ParseAuthParams(after)
  }

  /** The value of the first parameter of that name. */
  function FindParam(params: seq<(string, string)>, name: string): Option<string> {
    if params == [] then None
    else if EqIgnoreCase(params[0].0, name) then Some(params[0].1)
    else FindParam(params[1..], name)
  }

  function NonEmpty(v: Option<string>): Option<string> {
    if v == Some([]) then None else v
  }

  const SCHEME := "Bearer"

  function ChallengeOf(params: seq<(string, string)>): Option<BearerChallenge> {
    match NonEmpty(FindParam(params, "realm"))
    case None => None
    case Some(realm) =>
      Some(BearerChallenge(realm, NonEmpty(FindParam(params, "service")), NonEmpty(FindParam(params, "scope"))))
  }

  function ParseBearerChallenge(header: string): Option<BearerChallenge> {
    var trimmed := TrimStart(header);
    if |trimmed| < |SCHEME| || !EqIgnoreCase(trimmed[..|SCHEME|], SCHEME) then None
    else ChallengeOf(ParseAuthParams(trimmed[|SCHEME|..]))
  }

  // ── The tokeniser, as the source's index loops ────────────────────────────

  method SkipLoop(s: string, start: nat) returns (i: nat)
    requires start <= |s|
    ensures start <= i <= |s| && s[i..] == SkipSeparators(s[start..])
  {
    i := start;
    while i < |s| && IsSeparator(s[i])
      invariant start <= i <= |s| && SkipSeparators(s[i..]) == SkipSeparators(s[start..])
    {
      i := i + 1;
    }
  }

  method KeyLoop(s: string, start: nat) returns (key: string, i: nat)
    requires start <= |s|
    ensures start <= i <= |s| && (key, s[i..]) == TakeKey(s[start..])
  {
    key, i := [], start;
    assert key + TakeKey(s[i..]).0 == TakeKey(s[i..]).0;
    while i < |s| && s[i] != '=' && s[i] != ','
      invariant start <= i <= |s|
      invariant key + TakeKey(s[i..]).0 == TakeKey(s[start..]).0 && TakeKey(s[i..]).1 == TakeKey(s[start..]).1
    {
      assert s[i..][1..] == s[i + 1..];
      assert key + ([s[i]] + TakeKey(s[i + 1..]).0) == key + [s[i]] + TakeKey(s[i + 1..]).0;
      key := key + [s[i]];
      i := i + 1;
    }
    assert key + [] == key;
  }

  method QuotedLoop(s: string, start: nat) returns (value: string, end: nat)
    requires start <= |s|
    ensures start <= end <= |s| && (value, s[end..]) == TakeQuoted(s[start..])
  {
    value := [];
    var i := start;
    assert value + TakeQuoted(s[i..]).0 == TakeQuoted(s[i..]).0;
    while i < |s| && s[i] != '"'
      invariant start <= i <= |s|
      invariant value + TakeQuoted(s[i..]).0 == TakeQuoted(s[start..]).0 && TakeQuoted(s[i..]).1 == TakeQuoted(s[start..]).1
      decreases |s| - i
    {
      assert s[i..][1..] == s[i + 1..];
      if s[i] == '\\' && i + 1 < |s| {
        assert s[i..][2..] == s[i + 2..];
        i := i + 1;
      }
      assert value + ([s[i]] + TakeQuoted(s[i + 1..]).0) == value + [s[i]] + TakeQuoted(s[i + 1..]).0;
      value := value + [s[i]];
      i := i + 1;
    }
    assert value + [] == value;
    end := if i < |s| then i + 1 else i;
  }

  method BareLoop(s: string, start: nat) returns (value: string, i: nat)
    requires start <= |s|
    ensures start <= i <= |s| && (value, s[i..]) == TakeBare(s[start..])
  {
    value, i := [], start;
    assert value + TakeBare(s[i..]).0 == TakeBare(s[i..]).0;
    while i < |s| && s[i] != ','
      invariant start <= i <= |s|
      invariant value + TakeBare(s[i..]).0 == TakeBare(s[start..]).0 && TakeBare(s[i..]).1 == TakeBare(s[start..]).1
    {
      assert s[i..][1..] == s[i + 1..];
      assert value + ([s[i]] + TakeBare(s[i + 1..]).0) == value + [s[i]] + TakeBare(s[i + 1..]).0;
      value := value + [s[i]];
      i := i + 1;
    }
    assert value + [] == value;
  }

  method ValueLoop(s: string, start: nat) returns (value: string, i: nat)
    requires start <= |s|
    ensures start <= i <= |s| && (value, s[i..]) == TakeValue(s[start..])
  {
    if start < |s| && s[start] == '"' {
      assert s[start..][1..] == s[start + 1..];
      value, i := QuotedLoop(s, start + 1);
    } else {
      value, i := BareLoop(s, start);
    }
  }

  /** One turn of the walk: at most one entry, or the end. */
  method TakeParam(s: string, start: nat) returns (more: bool, entry: seq<(string, string)>, i: nat)
    requires start <= |s|
    ensures !more ==> ParseAuthParams(s[start..]) == []
    ensures more ==> start < i <= |s| && ParseAuthParams(s[start..]) == entry + ParseAuthParams(s[i..])
  {
    var j := SkipLoop(s, start);
    var key, k := KeyLoop(s, j);
    if k >= |s| || s[k] != '=' {
      return false, [], k;
    }
    assert s[k..][1..] == s[k + 1..];
    var value;
    value, i := ValueLoop(s, k + 1);
    more, entry := true, Entry(key, value);
  }

  /** The whole index walk; it always terminates, since every turn consumes a '='. */
  method TokeniseAuthParams(s: string) returns (out: seq<(string, string)>)
    ensures out == ParseAuthParams(s)
  {
    out := [];
    var i := 0;
    assert s[0..] == s;
    while true
      invariant 0 <= i <= |s| && out + ParseAuthParams(s[i..]) == ParseAuthParams(s)
      decreases |s| - i
    {
      var more, entry, next := TakeParam(s, i);
      if !more {
        return;
      }
      assert out + (entry + ParseAuthParams(s[next..])) == out + entry + ParseAuthParams(s[next..]);
      out, i := out + entry, next;
    }
  }

  // ── The token URL ─────────────────────────────────────────────────────────

  /** The unreserved octets (section 2.3 of RFC 3986). */
  predicate IsUnreserved(b: Byte) {
    || 'A' as int <= b <= 'Z' as int || 'a' as int <= b <= 'z' as int || '0' as int <= b <= '9' as int
    || b == '-' as int || b == '_' as int || b == '.' as int || b == '~' as int
  }

  function HexDigit(n: nat): char
    requires n < 16
  {
    if n < 10 then ('0' as int + n) as char else ('A' as int + n - 10) as char
  }

  function EncodeByte(b: Byte): string {
    if IsUnreserved(b) then [b as char] else ['%', HexDigit(b / 16), HexDigit(b % 16)]
  }

  function PercentEncode(bytes: Bytes): string {
    if bytes == [] then [] else EncodeByte(bytes[0]) + PercentEncode(bytes[1..])
  }

  lemma {:induction false} PercentEncodeConcat(a: Bytes, b: Bytes)
    ensures PercentEncode(a + b) == PercentEncode(a) + PercentEncode(b)
  {
    if a == [] {
      assert a + b == b;
    } else {
      assert (a + b)[1..] == a[1..] + b;
      PercentEncodeConcat(a[1..], b);
    }
  }

  method EncodeLoop(bytes: Bytes) returns (out: string)
    ensures out == PercentEncode(bytes)
  {
    out := [];
    for i := 0 to |bytes|
      invariant out == PercentEncode(bytes[..i])
    {
      assert bytes[..i + 1] == bytes[..i] + [bytes[i]];
      PercentEncodeConcat(bytes[..i], [bytes[i]]);
      assert PercentEncode([bytes[i]]) == EncodeByte(bytes[i]) + PercentEncode([]);
      out := out + EncodeByte(bytes[i]);
    }
    assert bytes[..|bytes|] == bytes;
  }

  function QueryParam(name: string, value: Option<Bytes>): seq<string> {
    match value case None => [] case Some(v) => [name + ['='] + PercentEncode(v)]
  }

  function Joined(parts: seq<string>): string
    requires parts != []
  {
    if |parts| == 1 then parts[0] else parts[0] + ['&'] + Joined(parts[1..])
  }

  /** The URL of the token GET, for the UTF-8 bytes of the service and the scope. */
  function TokenUrl(realm: string, service: Option<Bytes>, scope: Option<Bytes>): string {
    var params := QueryParam("service", service) + QueryParam("scope", scope);
    if params == [] then realm
    else realm + [if '?' in realm then '&' else '?'] + Joined(params)
  }
}
