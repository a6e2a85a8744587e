/** Round trips of the challenge (RFC 7235 section 2.1, RFC 6750 section 3) and of the token URL (RFC 3986 sections 2.1, 2.3). */
module ChallengeProofs {
  import opened Common
  import opened Text
  import opened Challenge

  // ── Printing a challenge ──────────────────────────────────────────────────

  /** A quoted-string's content: quotes and backslashes escaped, everything else verbatim. */
  function Escape(v: string): string {
    if v == [] then []
    else (if v[0] == '"' || v[0] == '\\' then ['\\', v[0]] else [v[0]]) + Escape(v[1..])
  }

  /** One parameter on the wire, after any run of separators. */
  datatype Param = Param(gap: string, name: string, value: string, quoted: bool)

  function PrintValue(p: Param): string {
    if p.quoted then ['"'] + (Escape(p.value) + ['"']) else p.value
  }

  function PrintParam(p: Param): string {
    p.gap + p.name + ['='] + PrintValue(p)
  }

  function PrintParams(ps: seq<Param>): string {
    if ps == [] then [] else PrintParam(ps[0]) + PrintParams(ps[1..])
  }

  /** Blanks, tabs and commas. */
  predicate IsGap(s: string) {
    forall c <- s :: c in " \t,"
  }

  predicate IsName(s: string) {
    s != [] && s[0] !in " \t," && Trim(s) == s && '=' !in s && ',' !in s
  }

  predicate Printable(ps: seq<Param>) {
    forall p <- ps :: IsGap(p.gap) && IsName(p.name)
  }

  /** A value that may go without quotes. */
  predicate Bareable(value: string) {
    ',' !in value && (value == [] || value[0] != '"')
  }

  predicate EndsBare(rest: string) {
    rest == [] || rest[0] == ','
  }

  /** Every parameter is quoted, or bareable and followed by a comma or by nothing. */
  predicate Delimited(ps: seq<Param>, tail: string) {
    ps == [] || (
      && (ps[0].quoted || (Bareable(ps[0].value) && EndsBare(PrintParams(ps[1..]) + tail)))
      && Delimited(ps[1..], tail))
  }

  function Trimmed(ps: seq<Param>): seq<(string, string)> {
    if ps == [] then [] else [(ps[0].name, Trim(ps[0].value))] + Trimmed(ps[1..])
  }

  lemma {:induction false} GapSkipped(gap: string, rest: string)
    requires IsGap(gap) && (rest == [] || rest[0] !in " \t,")
    ensures SkipSeparators(gap + rest) == rest
  {
    if gap == [] {
      assert gap + rest == rest;
    } else {
      assert gap[0] in gap && (gap + rest)[1..] == gap[1..] + rest;
      GapSkipped(gap[1..], rest);
    }
  }

  lemma {:induction false} KeyTaken(name: string, rest: string)
    requires '=' !in name && ',' !in name && rest != [] && rest[0] == '='
    ensures TakeKey(name + rest) == (name, rest)
  {
    if name == [] {
      assert name + rest == rest;
    } else {
      assert name[0] in name && (name + rest)[1..] == name[1..] + rest;
      KeyTaken(name[1..], rest);
      assert [name[0]] + name[1..] == name;
    }
  }

  lemma EscapedTaken(c: char, tail: string)
    ensures TakeQuoted(['\\', c] + tail) == ([c] + TakeQuoted(tail).0, TakeQuoted(tail).1)
  {
    assert (['\\', c] + tail)[2..] == tail;
  }

  lemma PlainTaken(c: char, tail: string)
    requires c != '"' && c != '\\'
    ensures TakeQuoted([c] + tail) == ([c] + TakeQuoted(tail).0, TakeQuoted(tail).1)
  {
    assert ([c] + tail)[1..] == tail;
  }

  /** Escaping is undone, and reading stops at the closing quote. */
  lemma {:induction false} QuotedTaken(value: string, rest: string)
    ensures TakeQuoted(Escape(value) + ['"'] + rest) == (value, rest)
  {
    if value == [] {
      assert Escape(value) + ['"'] + rest == ['"'] + rest && (['"'] + rest)[1..] == rest;
    } else {
      var c, tail := value[0], Escape(value[1..]) + ['"'] + rest;
      QuotedTaken(value[1..], rest);
      assert [c] + value[1..] == value;
      if c == '"' || c == '\\' {
        assert Escape(value) + ['"'] + rest == ['\\', c] + tail;
        EscapedTaken(c, tail);
      } else {
        assert Escape(value) + ['"'] + rest == [c] + tail;
        PlainTaken(c, tail);
      }
    }
  }

  lemma PlainEnd()
    ensures TakeQuoted(['\\']) == (['\\'], [])
  {
    assert (['\\'])[1..] == [];
    assert ['\\'] + [] == ['\\'];
  }

  /** Without a closing quote the value goes on to the end, a last lone backslash included. */
  lemma {:induction false} UnclosedTaken(value: string)
    ensures TakeQuoted(Escape(value)) == (value, [])
    ensures TakeQuoted(Escape(value) + ['\\']) == (value + ['\\'], [])
  {
    if value == [] {
      assert Escape(value) + ['\\'] == value + ['\\'] == ['\\'];
      PlainEnd();
    } else {
      var c, tail := value[0], Escape(value[1..]);
      UnclosedTaken(value[1..]);
      assert [c] + value[1..] == value && [c] + (value[1..] + ['\\']) == value + ['\\'];
      if c == '"' || c == '\\' {
        EscapedTaken(c, tail);
        EscapedTaken(c, tail + ['\\']);
        assert Escape(value) + ['\\'] == ['\\', c] + (tail + ['\\']);
      } else {
        PlainTaken(c, tail);
        PlainTaken(c, tail + ['\\']);
        assert Escape(value) + ['\\'] == [c] + (tail + ['\\']);
      }
    }
  }

  lemma {:induction false} BareTaken(value: string, rest: string)
    requires ',' !in value && EndsBare(rest)
    ensures TakeBare(value + rest) == (value, rest)
  {
    if value == [] {
      assert value + rest == rest;
    } else {
      assert value[0] in value && (value + rest)[1..] == value[1..] + rest;
      BareTaken(value[1..], rest);
      assert [value[0]] + value[1..] == value;
    }
  }

  /** What is read never exceeds what was there, and a bare value stops at a comma or at the end only. */
  lemma {:induction false} BareStops(s: string)
    ensures var (value, rest) := TakeBare(s); s == value + rest && ',' !in value && EndsBare(rest)
  {
    if s != [] && s[0] != ',' {
      BareStops(s[1..]);
      var (value, rest) := TakeBare(s[1..]);
      assert s == [s[0]] + value + rest;
    }
  }

  /**
   A bare value is read back exactly when a comma or the end follows it: unlike
   between quoted values, white space alone separates nothing.
   */
  lemma BareValueExactly(value: string, rest: string)
    requires Bareable(value)
    ensures TakeValue(value + rest) == (value, rest) <==> EndsBare(rest)
  {
    if EndsBare(rest) {
      BareTaken(value, rest);
      assert value == [] ==> value + rest == rest;
    } else if value + rest != [] && (value + rest)[0] != '"' {
      BareStops(value + rest);
    } else {
      assert value == [] && value + rest == rest;
    }
  }

  lemma ValueTaken(p: Param, rest: string)
    requires p.quoted || (Bareable(p.value) && EndsBare(rest))
    ensures TakeValue(PrintValue(p) + rest) == (p.value, rest)
  {
    if p.quoted {
      var content := Escape(p.value) + ['"'] + rest;
      assert PrintValue(p) + rest == ['"'] + content && (['"'] + content)[1..] == content;
      QuotedTaken(p.value, rest);
    } else {
      BareValueExactly(p.value, rest);
    }
  }

  lemma ParamTaken(p: Param, rest: string)
    requires IsGap(p.gap) && IsName(p.name)
    requires p.quoted || (Bareable(p.value) && EndsBare(rest))
    ensures ParseAuthParams(PrintParam(p) + rest) == [(p.name, Trim(p.value))] + ParseAuthParams(rest)
  {
    var value := PrintValue(p) + rest;
    var s := PrintParam(p) + rest;
    assert s == p.gap + (p.name + (['='] + value));
    GapSkipped(p.gap, p.name + (['='] + value));
    KeyTaken(p.name, ['='] + value);
    assert TakeKey(SkipSeparators(s)) == (p.name, ['='] + value);
    assert (['='] + value)[1..] == value;
    ValueTaken(p, rest);
  }

  /** A name without a value ends the list: what follows it is not read. */
  lemma FlagEnds(gap: string, name: string, rest: string)
    requires IsGap(gap) && IsName(name) && EndsBare(rest)
    ensures ParseAuthParams(gap + name + rest) == []
  {
    var s := gap + name + rest;
    assert s == gap + (name + rest);
    GapSkipped(gap, name + rest);
    FlagTaken(name, rest);
  }

  lemma {:induction false} FlagTaken(name: string, rest: string)
    requires '=' !in name && ',' !in name && EndsBare(rest)
    ensures TakeKey(name + rest) == (name, rest)
  {
    if name == [] {
      assert name + rest == rest;
    } else {
      assert name[0] in name && (name + rest)[1..] == name[1..] + rest;
      FlagTaken(name[1..], rest);
      assert [name[0]] + name[1..] == name;
    }
  }

  /** A value without a name is passed over. */
  lemma UnnamedSkipped(p: Param, rest: string)
    requires IsGap(p.gap) && p.name == [] && (p.quoted || (Bareable(p.value) && EndsBare(rest)))
    ensures ParseAuthParams(PrintParam(p) + rest) == ParseAuthParams(rest)
  {
    var value := PrintValue(p) + rest;
    var s := PrintParam(p) + rest;
    assert s == p.gap + (['='] + value);
    GapSkipped(p.gap, ['='] + value);
    KeyTaken([], ['='] + value);
    assert [] + (['='] + value) == ['='] + value;
    assert (['='] + value)[1..] == value;
    ValueTaken(p, rest);
  }

  /** Any list of parameters, in any order, quoted or bare and with any separators, is read back with trimmed values. */
  lemma {:induction false} ParamsRoundTrip(ps: seq<Param>, tail: string)
    requires Printable(ps) && IsGap(tail) && Delimited(ps, tail)
    ensures ParseAuthParams(PrintParams(ps) + tail) == Trimmed(ps)
  {
    if ps == [] {
      assert PrintParams(ps) + tail == tail + [];
      GapSkipped(tail, []);
    } else {
      assert PrintParams(ps) + tail == PrintParam(ps[0]) + (PrintParams(ps[1..]) + tail);
      ParamTaken(ps[0], PrintParams(ps[1..]) + tail);
      ParamsRoundTrip(ps[1..], tail);
    }
  }

  // ── From parameters to the challenge ──────────────────────────────────────

  function ParamsOf(c: BearerChallenge): seq<(string, string)> {
    [("realm", c.realm)]
    + (if c.service.Some? then [("service", c.service.value)] else [])
    + (if c.scope.Some? then [("scope", c.scope.value)] else [])
  }

  function Pairs(ps: seq<Param>): seq<(string, string)> {
    seq(|ps|, i requires 0 <= i < |ps| => (ps[i].name, ps[i].value))
  }

  /** `ps` carries exactly the challenge's parameters, in some order. */
  ghost predicate Arranges(ps: seq<Param>, c: BearerChallenge) {
    multiset(Pairs(ps)) == multiset(ParamsOf(c)) && forall p <- ps :: IsGap(p.gap)
  }

  function TrimmedValue(v: Option<string>): Option<string> {
    match v case None => None case Some(s) => NonEmpty(Some(Trim(s)))
  }

  /** What a challenge with arbitrary values turns into: values trimmed, empty ones absent, an empty realm fatal. */
  function Normalised(c: BearerChallenge): Option<BearerChallenge> {
    if Trim(c.realm) == [] then None
    else Some(BearerChallenge(Trim(c.realm), TrimmedValue(c.service), TrimmedValue(c.scope)))
  }

  /** Non-empty values without white space at either end; the realm is required. */
  predicate WellFormed(c: BearerChallenge) {
    && c.realm != [] && Trim(c.realm) == c.realm
    && (c.service.Some? ==> c.service.value != [] && Trim(c.service.value) == c.service.value)
    && (c.scope.Some? ==> c.scope.value != [] && Trim(c.scope.value) == c.scope.value)
  }

  lemma {:induction false} FindInTrimmed(ps: seq<Param>, name: string, value: Option<string>)
    requires forall p <- ps :: EqIgnoreCase(p.name, name) ==> Some(p.value) == value
    requires value.Some? ==> exists p <- ps :: EqIgnoreCase(p.name, name)
    ensures FindParam(Trimmed(ps), name) == if value.Some? then Some(Trim(value.value)) else None
  {
    if ps != [] {
      assert ps[0] in ps;
      assert Trimmed(ps)[1..] == Trimmed(ps[1..]);
      if !EqIgnoreCase(ps[0].name, name) {
        if value.Some? {
          var p :| p in ps && EqIgnoreCase(p.name, name);
          assert p in ps[1..];
        }
        FindInTrimmed(ps[1..], name, value);
      }
    }
  }

  lemma NamesDiffer()
    ensures IsName("realm") && IsName("service") && IsName("scope")
    ensures !EqIgnoreCase("realm", "scope") && !EqIgnoreCase("scope", "realm")
  {
    assert AsciiLower("realm"[0]) != AsciiLower("scope"[0]);
    assert TrimStart("realm") == "realm" && TrimStart("service") == "service" && TrimStart("scope") == "scope";
  }

  lemma PairMembers(ps: seq<Param>, c: BearerChallenge)
    requires Arranges(ps, c)
    ensures forall p <- ps :: (p.name, p.value) in ParamsOf(c)
    ensures forall q <- ParamsOf(c) :: exists p <- ps :: (p.name, p.value) == q
  {
    forall p <- ps ensures (p.name, p.value) in ParamsOf(c) {
      var i :| 0 <= i < |ps| && ps[i] == p;
      assert Pairs(ps)[i] == (p.name, p.value);
      assert (p.name, p.value) in multiset(Pairs(ps));
    }
    forall q <- ParamsOf(c) ensures exists p <- ps :: (p.name, p.value) == q {
      assert q in multiset(ParamsOf(c));
      var i :| 0 <= i < |Pairs(ps)| && Pairs(ps)[i] == q;
      assert ps[i] in ps;
    }
  }

  lemma ArrangedPrintable(ps: seq<Param>, c: BearerChallenge)
    requires Arranges(ps, c)
    ensures Printable(ps)
  {
    PairMembers(ps, c);
    NamesDiffer();
    forall p <- ps ensures IsName(p.name) {
      assert (p.name, p.value) in ParamsOf(c);
    }
  }

  /** Reading back the parameters of a challenge, whatever their order. */
  lemma ParamsReadBack(c: BearerChallenge, ps: seq<Param>, tail: string)
    requires Arranges(ps, c) && IsGap(tail) && Delimited(ps, tail)
    ensures var params := ParseAuthParams(PrintParams(ps) + tail);
            && FindParam(params, "realm") == Some(Trim(c.realm))
            && FindParam(params, "service") == (if c.service.Some? then Some(Trim(c.service.value)) else None)
            && FindParam(params, "scope") == (if c.scope.Some? then Some(Trim(c.scope.value)) else None)
  {
    ArrangedPrintable(ps, c);
    ParamsRoundTrip(ps, tail);
    FindByName(ps, c, "realm", Some(c.realm));
    FindByName(ps, c, "service", c.service);
    FindByName(ps, c, "scope", c.scope);
  }

  /** Among a challenge's parameters a name, in any casing, stands for its own value only. */
  lemma NamedValue(c: BearerChallenge, pair: (string, string), name: string, value: Option<string>)
    requires pair in ParamsOf(c) && EqIgnoreCase(pair.0, name)
    requires (name, value) in [("realm", Some(c.realm)), ("service", c.service), ("scope", c.scope)]
    ensures Some(pair.1) == value
  {
    NamesDiffer();
    assert |"realm"| == 5 && |"service"| == 7 && |"scope"| == 5;
  }

  lemma FindByName(ps: seq<Param>, c: BearerChallenge, name: string, value: Option<string>)
    requires Arranges(ps, c)
    requires (name, value) in [("realm", Some(c.realm)), ("service", c.service), ("scope", c.scope)]
    ensures FindParam(Trimmed(ps), name) == if value.Some? then Some(Trim(value.value)) else None
  {
    PairMembers(ps, c);
    forall p <- ps | EqIgnoreCase(p.name, name) ensures Some(p.value) == value {
      NamedValue(c, (p.name, p.value), name, value);
    }
    if value.Some? {
      assert (name, value.value) in ParamsOf(c);
      var p :| p in ps && (p.name, p.value) == (name, value.value);
      assert EqIgnoreCase(p.name, name);
    }
    FindInTrimmed(ps, name, value);
  }

  predicate IsBlank(s: string) {
    forall c <- s :: IsWhitespace(c)
  }

  lemma {:induction false} StartTrimmed(s: string)
    ensures exists blank :: IsBlank(blank) && s == blank + TrimStart(s)
    ensures TrimStart(s) == [] || !IsWhitespace(TrimStart(s)[0])
  {
    if s != [] && IsWhitespace(s[0]) {
      StartTrimmed(s[1..]);
      var blank :| IsBlank(blank) && s[1..] == blank + TrimStart(s[1..]);
      assert IsBlank([s[0]] + blank) && s == [s[0]] + blank + TrimStart(s);
    } else {
      assert IsBlank([]) && s == [] + TrimStart(s);
    }
  }

  lemma {:induction false} EndTrimmed(s: string)
    ensures exists blank :: IsBlank(blank) && s == TrimEnd(s) + blank
    ensures TrimEnd(s) == [] || !IsWhitespace(TrimEnd(s)[|TrimEnd(s)| - 1])
  {
    if s != [] && IsWhitespace(s[|s| - 1]) {
      var front, last := s[..|s| - 1], s[|s| - 1];
      EndTrimmed(front);
      var blank :| IsBlank(blank) && front == TrimEnd(front) + blank;
      assert IsBlank(blank + [last]) && s == TrimEnd(s) + (blank + [last]);
    } else {
      assert IsBlank([]) && s == TrimEnd(s) + [];
    }
  }

  /** Trimming takes white space off both ends, and all of it. */
  lemma TrimExactly(s: string)
    ensures exists left, right :: IsBlank(left) && IsBlank(right) && s == left + Trim(s) + right
    ensures Trim(s) == [] || (!IsWhitespace(Trim(s)[0]) && !IsWhitespace(Trim(s)[|Trim(s)| - 1]))
  {
    StartTrimmed(s);
    EndTrimmed(TrimStart(s));
    var left :| IsBlank(left) && s == left + TrimStart(s);
    var right :| IsBlank(right) && TrimStart(s) == Trim(s) + right;
    assert s == left + Trim(s) + right;
    assert Trim(s) != [] ==> Trim(s)[0] == TrimStart(s)[0];
  }

  /** The same letter but for its case. */
  predicate SameLetter(a: char, b: char) {
    || a == b
    || ('A' <= a <= 'Z' && b as int == a as int + 32)
    || ('A' <= b <= 'Z' && a as int == b as int + 32)
  }

  lemma CasingExactly(a: string, b: string)
    ensures EqIgnoreCase(a, b) <==> |a| == |b| && forall i :: 0 <= i < |a| ==> SameLetter(a[i], b[i])
  {
    forall c: char, d: char ensures AsciiLower(c) == AsciiLower(d) <==> SameLetter(c, d) {
    }
  }

  lemma {:induction false} BlankSkipped(blank: string, rest: string)
    requires IsBlank(blank) && (rest == [] || !IsWhitespace(rest[0]))
    ensures TrimStart(blank + rest) == rest
  {
    if blank == [] {
      assert blank + rest == rest;
    } else {
      assert blank[0] in blank && (blank + rest)[1..] == blank[1..] + rest;
      BlankSkipped(blank[1..], rest);
    }
  }

  /** White space in front is skipped, and any scheme but Bearer, in whatever casing, is no challenge. */
  lemma OnlyBearer(blank: string, header: string)
    requires IsBlank(blank) && (header == [] || !IsWhitespace(header[0]))
    ensures ParseBearerChallenge(blank + header) == ParseBearerChallenge(header)
    ensures ParseBearerChallenge(header).Some? ==> |header| >= 6 && forall i :: 0 <= i < 6 ==> SameLetter(header[i], "Bearer"[i])
  {
    BlankSkipped(blank, header);
    BlankSkipped([], header);
    assert [] + header == header;
    if ParseBearerChallenge(header).Some? {
      CasingExactly(header[..6], "Bearer");
    }
  }

  /** Of several parameters of one name the first counts. */
  lemma {:induction false} FirstOfName(params: seq<(string, string)>, name: string, i: nat)
    requires i < |params| && EqIgnoreCase(params[i].0, name)
    requires forall j :: 0 <= j < i ==> !EqIgnoreCase(params[j].0, name)
    ensures FindParam(params, name) == Some(params[i].1)
  {
    if i > 0 {
      FirstOfName(params[1..], name, i - 1);
    }
  }

  /** The scheme, in any casing, is cut off; what remains is tokenised. */
  lemma SchemeCut(scheme: string, rest: string)
    requires EqIgnoreCase(scheme, SCHEME)
    ensures ParseBearerChallenge(scheme + rest) == ChallengeOf(ParseAuthParams(rest))
  {
    var header := scheme + rest;
    assert AsciiLower(header[0]) == AsciiLower('B');
    assert TrimStart(header) == header;
    assert header[..|SCHEME|] == scheme && header[|SCHEME|..] == rest;
  }

  /** Printed with any casing of the scheme, any parameter order, quoting and separators, a challenge reads back normalised. */
  lemma ChallengeReadsBack(c: BearerChallenge, ps: seq<Param>, scheme: string, tail: string)
    requires Arranges(ps, c) && EqIgnoreCase(scheme, SCHEME) && IsGap(tail) && Delimited(ps, tail)
    ensures ParseBearerChallenge(scheme + (PrintParams(ps) + tail)) == Normalised(c)
  {
    SchemeCut(scheme, PrintParams(ps) + tail);
    ParamsReadBack(c, ps, tail);
  }

  lemma NormalisedExactly(c: BearerChallenge)
    ensures Normalised(c) == Some(c) <==> WellFormed(c)
  {
  }

  /** The round trip is the identity exactly on well-formed challenges. */
  lemma ChallengeRoundTrip(c: BearerChallenge, ps: seq<Param>, scheme: string, tail: string)
    requires Arranges(ps, c) && EqIgnoreCase(scheme, SCHEME) && IsGap(tail) && Delimited(ps, tail)
    ensures ParseBearerChallenge(scheme + (PrintParams(ps) + tail)) == Some(c) <==> WellFormed(c)
  {
    ChallengeReadsBack(c, ps, scheme, tail);
    NormalisedExactly(c);
  }

  // ── The token URL ─────────────────────────────────────────────────────────

  function HexValue(c: char): Option<nat> {
    if '0' <= c <= '9' then Some(c as int - '0' as int)
    else if 'A' <= c <= 'F' then Some(c as int - 'A' as int + 10)
    else if 'a' <= c <= 'f' then Some(c as int - 'a' as int + 10)
    else None
  }

  /** Percent-decoding (section 2.1 of RFC 3986); `None` on a malformed escape or a non-octet. */
  function PercentDecode(s: string): Option<Bytes> {
    if s == [] then Some([])
    else if s[0] != '%' then
      if s[0] as int >= 256 then None
      else match PercentDecode(s[1..])
        case None => None
        case Some(rest) => Some([s[0] as int] + rest)
    else if |s| < 3 || HexValue(s[1]).None? || HexValue(s[2]).None? then None
    else match PercentDecode(s[3..])
      case None => None
      case Some(rest) => Some([16 * HexValue(s[1]).value + HexValue(s[2]).value] + rest)
  }

  /** One encoded byte in front is decoded first. */
  lemma ByteDecodes(b: Byte, rest: string)
    ensures PercentDecode(EncodeByte(b) + rest) ==
            match PercentDecode(rest) case None => None case Some(bytes) => Some([b] + bytes)
  {
    var s := EncodeByte(b) + rest;
    if IsUnreserved(b) {
      assert s[0] == b as char && s[1..] == rest;
    } else {
      assert HexValue(HexDigit(b / 16)) == Some(b / 16) && HexValue(HexDigit(b % 16)) == Some(b % 16);
      assert s[0] == '%' && s[1] == HexDigit(b / 16) && s[2] == HexDigit(b % 16) && s[3..] == rest;
    }
  }

  lemma {:induction false} PercentRoundTrip(bytes: Bytes)
    ensures PercentDecode(PercentEncode(bytes)) == Some(bytes)
  {
    if bytes != [] {
      PercentRoundTrip(bytes[1..]);
      ByteDecodes(bytes[0], PercentEncode(bytes[1..]));
      assert [bytes[0]] + bytes[1..] == bytes;
    }
  }

  /** Hence different byte strings are encoded differently. */
  lemma PercentEncodeInjective(a: Bytes, b: Bytes)
    requires PercentEncode(a) == PercentEncode(b)
    ensures a == b
  {
    PercentRoundTrip(a);
    PercentRoundTrip(b);
  }

  /** The unreserved octets, and only they, stand for themselves. */
  lemma EncodesExactly(b: Byte)
    ensures var c := b as char;
            EncodeByte(b) == [c] <==> 'A' <= c <= 'Z' || 'a' <= c <= 'z' || '0' <= c <= '9' || c in "-_.~"
  {
    assert "-_.~" == ['-', '_', '.', '~'];
  }

  predicate IsUpperHex(c: char) {
    '0' <= c <= '9' || 'A' <= c <= 'F'
  }

  /** Only unreserved characters and `%XX` with upper-case hex digits. */
  predicate WellEncoded(s: string)
    decreases |s|
  {
    s == [] ||
    if s[0] == '%' then |s| >= 3 && IsUpperHex(s[1]) && IsUpperHex(s[2]) && WellEncoded(s[3..])
    else (s[0] as int) < 256 && IsUnreserved(s[0] as int) && WellEncoded(s[1..])
  }

  lemma {:induction false} PercentEncodeEmits(bytes: Bytes)
    ensures WellEncoded(PercentEncode(bytes))
    ensures forall c <- PercentEncode(bytes) :: c !in "&=?#/ "
  {
    if bytes != [] {
      var s, rest := PercentEncode(bytes), PercentEncode(bytes[1..]);
      PercentEncodeEmits(bytes[1..]);
      assert s == EncodeByte(bytes[0]) + rest;
      assert if IsUnreserved(bytes[0]) then s[1..] == rest else s[3..] == rest;
    }
  }

  /** The pieces of a query between '&'s. */
  function Pieces(query: string): seq<string>
    decreases |query|
  {
    match SplitFirst(query, '&')
    case None => [query]
    case Some((piece, rest)) =>
      FirstSplits(query, '&');
      [piece] + Pieces(rest)
  }

  /** A piece split at its first '=', the value percent-decoded; a piece without '=' has no value. */
  function DecodePiece(piece: string): (string, Option<Bytes>) {
    match SplitFirst(piece, '=') case None => (piece, None) case Some((name, value)) => (name, PercentDecode(value))
  }

  function DecodePieces(pieces: seq<string>): seq<(string, Option<Bytes>)> {
    seq(|pieces|, i requires 0 <= i < |pieces| => DecodePiece(pieces[i]))
  }

  /** A URL without its fragment (section 3.5 of RFC 3986). */
  function BeforeFragment(url: string): string {
    match SplitFirst(url, '#') case None => url case Some((front, _)) => front
  }

  /** Every parameter of the query of a URL without fragment, in order. */
  function ParamsIn(front: string): seq<(string, Option<Bytes>)> {
    match SplitFirst(front, '?') case None => [] case Some((_, query)) => DecodePieces(Pieces(query))
  }

  /** Every parameter of a URL's query, in order. */
  function QueryParams(url: string): seq<(string, Option<Bytes>)> {
    ParamsIn(BeforeFragment(url))
  }

  function Sent(name: string, value: Option<Bytes>): seq<(string, Option<Bytes>)> {
    if value.Some? then [(name, value)] else []
  }

  lemma {:induction false} PiecesConcat(a: string, b: string)
    ensures Pieces(a + ['&'] + b) == Pieces(a) + Pieces(b)
    decreases |a|
  {
    FirstSplits(a, '&');
    match SplitFirst(a, '&')
    case None => FirstOf(a, '&', b);
    case Some((piece, rest)) =>
      assert a + ['&'] + b == piece + ['&'] + (rest + ['&'] + b);
      FirstOf(piece, '&', rest + ['&'] + b);
      PiecesConcat(rest, b);
  }

  lemma ParamPiece(name: string, value: Bytes)
    requires '=' !in name && '&' !in name
    ensures var piece := name + ['='] + PercentEncode(value);
            Pieces(piece) == [piece] && DecodePiece(piece) == (name, Some(value))
  {
    var piece := name + ['='] + PercentEncode(value);
    PercentEncodeEmits(value);
    assert '&' in "&=?#/ ";
    assert '&' !in piece;
    FirstSplits(piece, '&');
    FirstOf(name, '=', PercentEncode(value));
    PercentRoundTrip(value);
  }

  lemma JoinedDecodes(service: Option<Bytes>, scope: Option<Bytes>)
    requires service.Some? || scope.Some?
    ensures DecodePieces(Pieces(Joined(QueryParam("service", service) + QueryParam("scope", scope))))
         == Sent("service", service) + Sent("scope", scope)
  {
    if service.Some? { ParamPiece("service", service.value); }
    if scope.Some? { ParamPiece("scope", scope.value); }
    if service.Some? && scope.Some? {
      var a, b := "service" + ['='] + PercentEncode(service.value), "scope" + ['='] + PercentEncode(scope.value);
      assert QueryParam("service", service) + QueryParam("scope", scope) == [a, b];
      assert [a, b][1..] == [b];
      PiecesConcat(a, b);
    }
  }

  lemma DecodeConcat(a: seq<string>, b: seq<string>)
    ensures DecodePieces(a + b) == DecodePieces(a) + DecodePieces(b)
  {
  }

  /** Appending a joined query to a realm appends its parameters to the realm's own. */
  lemma QueryAppended(realm: string, joined: string)
    ensures ParamsIn(realm + [if '?' in realm then '&' else '?'] + joined) == ParamsIn(realm) + DecodePieces(Pieces(joined))
  {
    FirstSplits(realm, '?');
    match SplitFirst(realm, '?')
    case None => FirstOf(realm, '?', joined);
    case Some((base, query)) =>
      assert realm + ['&'] + joined == base + ['?'] + (query + ['&'] + joined);
      FirstOf(base, '?', query + ['&'] + joined);
      PiecesConcat(query, joined);
      DecodeConcat(Pieces(query), Pieces(joined));
  }

  lemma NoFragment(url: string)
    requires '#' !in url
    ensures QueryParams(url) == ParamsIn(url)
  {
    FirstSplits(url, '#');
  }

  /** What follows a fragment is part of it. */
  lemma FragmentSwallows(realm: string, tail: string)
    requires '#' in realm
    ensures QueryParams(realm + tail) == QueryParams(realm)
  {
    FirstSplits(realm, '#');
    var (front, back) := SplitFirst(realm, '#').value;
    assert realm + tail == front + ['#'] + (back + tail);
    FirstOf(front, '#', back + tail);
  }

  lemma ParamPlain(name: string, value: Bytes)
    requires '#' !in name
    ensures '#' !in name + ['='] + PercentEncode(value)
  {
    PercentEncodeEmits(value);
    assert '#' in "&=?#/ ";
  }

  lemma JoinedPlain(service: Option<Bytes>, scope: Option<Bytes>)
    requires service.Some? || scope.Some?
    ensures '#' !in Joined(QueryParam("service", service) + QueryParam("scope", scope))
  {
    if service.Some? { ParamPlain("service", service.value); }
    if scope.Some? { ParamPlain("scope", scope.value); }
    if service.Some? && scope.Some? {
      var a, b := "service" + ['='] + PercentEncode(service.value), "scope" + ['='] + PercentEncode(scope.value);
      assert QueryParam("service", service) + QueryParam("scope", scope) == [a, b];
      assert [a, b][1..] == [b];
    }
  }

  /**
   Token URL round trip, exactly.  Reading the query of the token URL gives the
   realm's own parameters, if it had any, followed by exactly the service and the
   scope - if and only if the realm has no fragment, or there is nothing to send.
   */
  lemma TokenUrlRoundTrip(realm: string, service: Option<Bytes>, scope: Option<Bytes>)
    ensures QueryParams(TokenUrl(realm, service, scope))
         == QueryParams(realm) + (Sent("service", service) + Sent("scope", scope))
       <==> '#' !in realm || (service.None? && scope.None?)
  {
    if service.Some? || scope.Some? {
      var joined := Joined(QueryParam("service", service) + QueryParam("scope", scope));
      if '#' in realm {
        var tail := [if '?' in realm then '&' else '?'] + joined;
        assert TokenUrl(realm, service, scope) == realm + tail;
        FragmentSwallows(realm, tail);
        assert |Sent("service", service) + Sent("scope", scope)| > 0;
      } else {
        JoinedPlain(service, scope);
        JoinedDecodes(service, scope);
        QueryAppended(realm, joined);
        NoFragment(realm);
        NoFragment(TokenUrl(realm, service, scope));
      }
    }
  }
}
