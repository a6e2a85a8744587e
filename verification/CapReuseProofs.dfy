/** No token ever leads to two repositories, and a repository keeps its token for as long as the record lives. */
module CapReuseProofs {
  import opened Common
  import opened DevSessions
  import opened DevSessionsProofs
  import opened CapReuse

  lemma {:induction false} PriorIsRow(rows: seq<WorkspaceCap>, url: string)
    ensures match PriorRepoCap(rows, url)
            case Some(cap) => WorkspaceCap(cap, url) in rows && IsCapToken(cap)
            case None => forall row <- rows :: row.repoUrl == url ==> !IsCapToken(row.cap)
  {
    if rows != [] && !(rows[0].repoUrl == url && IsCapToken(rows[0].cap)) {
      PriorIsRow(rows[1..], url);
    }
  }

  /** A capability token: 64 lower-case hexadecimal digits. */
  predicate TokenShaped(s: string) {
    |s| == 64 && forall c <- s :: c in "0123456789abcdef"
  }

  lemma HexDigits(c: char)
    ensures IsLowerHex(c) <==> c in "0123456789abcdef"
  {
    var digits := "0123456789abcdef";
    assert forall i :: 0 <= i < 10 ==> digits[i] as int == '0' as int + i;
    assert forall i :: 10 <= i < 16 ==> digits[i] as int == 'a' as int + i - 10;
    if '0' <= c <= '9' {
      assert digits[c as int - '0' as int] == c;
    } else if 'a' <= c <= 'f' {
      assert digits[c as int - 'a' as int + 10] == c;
    }
  }

  lemma ShapeExactly(s: string)
    ensures IsCapToken(s) <==> TokenShaped(s)
  {
    forall c ensures IsLowerHex(c) <==> c in "0123456789abcdef" {
      HexDigits(c);
    }
  }

  /** The token of a repository: that of its first token-shaped row. */
  ghost predicate HoldsToken(rows: seq<WorkspaceCap>, url: string, cap: string) {
    exists j :: 0 <= j < |rows| && rows[j] == WorkspaceCap(cap, url) && TokenShaped(cap)
      && forall k :: 0 <= k < j ==> !(rows[k].repoUrl == url && TokenShaped(rows[k].cap))
  }

  ghost predicate HoldsNone(rows: seq<WorkspaceCap>, url: string) {
    forall row <- rows :: row.repoUrl == url ==> !TokenShaped(row.cap)
  }

  lemma {:induction false} PriorExactly(rows: seq<WorkspaceCap>, url: string)
    ensures match PriorRepoCap(rows, url)
            case Some(cap) => HoldsToken(rows, url, cap)
            case None => HoldsNone(rows, url)
  {
    if rows != [] {
      ShapeExactly(rows[0].cap);
      if rows[0].repoUrl == url && TokenShaped(rows[0].cap) {
        assert rows[0] == WorkspaceCap(rows[0].cap, url);
      } else {
        PriorExactly(rows[1..], url);
        if PriorRepoCap(rows[1..], url).Some? {
          var cap := PriorRepoCap(rows[1..], url).value;
          var j :| 0 <= j < |rows[1..]| && rows[1..][j] == WorkspaceCap(cap, url) && TokenShaped(cap)
            && forall k :: 0 <= k < j ==> !(rows[1..][k].repoUrl == url && TokenShaped(rows[1..][k].cap));
          assert rows[j + 1] == WorkspaceCap(cap, url);
          assert forall k :: 0 < k < j + 1 ==> rows[k] == rows[1..][k - 1];
        }
      }
    }
  }

  /** One row as issued for a request: the repository's token if it holds one, and otherwise the fresh mint. */
  ghost predicate IssuedFor(prior: seq<WorkspaceCap>, w: Wanted, row: WorkspaceCap) {
    row.repoUrl == w.url && (HoldsToken(prior, w.url, row.cap) || (HoldsNone(prior, w.url) && row.cap == w.mint))
  }

  lemma {:induction false} RowsForExactly(prior: seq<WorkspaceCap>, wanted: seq<Wanted>)
    ensures |RowsFor(prior, wanted)| == |wanted|
    ensures forall i :: 0 <= i < |wanted| ==> IssuedFor(prior, wanted[i], RowsFor(prior, wanted)[i])
  {
    if wanted != [] {
      PriorExactly(prior, wanted[0].url);
      RowsForExactly(prior, wanted[1..]);
    }
  }

  lemma {:induction false} CarriedExactly(prior: seq<WorkspaceCap>, wanted: seq<Wanted>)
    ensures forall row :: row in Carried(prior, wanted) <==> row in prior && forall w <- wanted :: w.url != row.repoUrl
  {
    if prior != [] {
      CarriedExactly(prior[1..], wanted);
    }
  }

  /**
   A generation hands out one row for each request, in order: with the token the
   repository holds in the record, if that could be read, and else with the mint.
   An ensure that is saved records these rows and the old ones of repositories it
   does not mention; an added repository is recorded once, if it is stored.
   */
  lemma IssuedExactly(rows: seq<WorkspaceCap>, g: Generation)
    ensures var prior := if g.Removed? || !g.loaded then [] else rows;
            && |Issued(rows, g)| == |MintsOf(g)|
            && (forall i :: 0 <= i < |MintsOf(g)| ==> IssuedFor(prior, MintsOf(g)[i], Issued(rows, g)[i]))
            && match g
               case Ensure(_, saved, wanted) =>
                 if !saved then Next(rows, g) == rows
                 else forall row :: row in Next(rows, g) <==>
                        row in Issued(rows, g) || (row in prior && forall w <- wanted :: w.url != row.repoUrl)
               case AddRepo(_, stored, w) =>
                 Next(rows, g) == if stored && HoldsNone(prior, w.url) then rows + Issued(rows, g) else rows
               case Removed => Next(rows, g) == []
  {
    match g
    case Ensure(_, _, wanted) =>
      RowsForExactly(Seen(rows, g), wanted);
      CarriedExactly(Seen(rows, g), wanted);
    case AddRepo(_, _, w) =>
      PriorExactly(Seen(rows, g), w.url);
      ShapeExactly(RowFor(Seen(rows, g), w).cap);
    case Removed =>
  }

  lemma {:induction false} PriorOfConcat(a: seq<WorkspaceCap>, b: seq<WorkspaceCap>, url: string)
    ensures PriorRepoCap(a + b, url) == if PriorRepoCap(a, url).Some? then PriorRepoCap(a, url) else PriorRepoCap(b, url)
  {
    if a == [] {
      assert a + b == b;
    } else {
      assert (a + b)[1..] == a[1..] + b;
      PriorOfConcat(a[1..], b, url);
    }
  }

  lemma {:induction false} PriorOfRows(prior: seq<WorkspaceCap>, wanted: seq<Wanted>, url: string)
    requires PriorRepoCap(prior, url).Some?
    ensures PriorRepoCap(RowsFor(prior, wanted), url) == if Requests(wanted, url) then PriorRepoCap(prior, url) else None
  {
    PriorIsRow(prior, url);
    if wanted != [] {
      assert RowsFor(prior, wanted)[1..] == RowsFor(prior, wanted[1..]);
      PriorOfRows(prior, wanted[1..], url);
      assert wanted == [wanted[0]] + wanted[1..];
    }
  }

  lemma {:induction false} PriorOfCarried(prior: seq<WorkspaceCap>, wanted: seq<Wanted>, url: string)
    requires !Requests(wanted, url)
    ensures PriorRepoCap(Carried(prior, wanted), url) == PriorRepoCap(prior, url)
  {
    if prior != [] {
      PriorOfCarried(prior[1..], wanted, url);
      PriorOfConcat(if Requests(wanted, prior[0].repoUrl) then [] else [prior[0]], Carried(prior[1..], wanted), url);
    }
  }

  /** Tokens are dropped by a removal, and by an ensure that cannot read the prior record and then replaces it. */
  predicate KeepsRecord(g: Generation) {
    !g.Removed? && (g.Ensure? ==> g.loaded || !g.saved)
  }

  lemma NextKeepsToken(rows: seq<WorkspaceCap>, g: Generation, url: string)
    requires PriorRepoCap(rows, url).Some? && KeepsRecord(g)
    ensures PriorRepoCap(Next(rows, g), url) == PriorRepoCap(rows, url)
  {
    match g
    case Ensure(_, saved, wanted) =>
      if saved {
        PriorOfRows(rows, wanted, url);
        PriorOfConcat(RowsFor(rows, wanted), Carried(rows, wanted), url);
        if !Requests(wanted, url) {
          PriorOfCarried(rows, wanted, url);
        }
      }
    case AddRepo(_, _, w) => PriorOfConcat(rows, Issued(rows, g), url);
  }

  // ── No token for two repositories ─────────────────────────────────────────

  function MintsOf(g: Generation): seq<Wanted> {
    match g case Ensure(_, _, wanted) => wanted case AddRepo(_, _, w) => [w] case Removed => []
  }

  /** Mints never repeat a token: not one seen before, and not one another repository got in the same request. */
  ghost predicate FreshMints(seen: seq<WorkspaceCap>, g: Generation) {
    && (forall w <- MintsOf(g), row <- seen :: w.mint != row.cap)
    && (forall w <- MintsOf(g), v <- MintsOf(g) :: w.mint == v.mint ==> w.url == v.url)
  }

  /** Every row seen once a generation is over. */
  function Known(seen: seq<WorkspaceCap>, rows: seq<WorkspaceCap>, g: Generation): seq<WorkspaceCap> {
    seen + Issued(rows, g) + Next(rows, g)
  }

  ghost predicate FreshChain(seen: seq<WorkspaceCap>, rows: seq<WorkspaceCap>, gs: seq<Generation>)
    decreases |gs|
  {
    gs != [] ==> FreshMints(seen, gs[0]) && FreshChain(Known(seen, rows, gs[0]), Next(rows, gs[0]), gs[1..])
  }

  lemma {:induction false} RowsForOrigin(prior: seq<WorkspaceCap>, wanted: seq<Wanted>)
    ensures forall row <- RowsFor(prior, wanted) :: row in prior || exists w <- wanted :: row == WorkspaceCap(w.mint, w.url)
  {
    if wanted != [] {
      RowsForOrigin(prior, wanted[1..]);
      PriorIsRow(prior, wanted[0].url);
      assert wanted[0] in wanted;
    }
  }

  lemma {:induction false} CarriedOrigin(prior: seq<WorkspaceCap>, wanted: seq<Wanted>)
    ensures forall row <- Carried(prior, wanted) :: row in prior
  {
    if prior != [] {
      CarriedOrigin(prior[1..], wanted);
    }
  }

  /** Every row handed out or recorded by a new generation is an old row or a fresh mint. */
  lemma NextOrigin(rows: seq<WorkspaceCap>, g: Generation)
    ensures forall row <- Issued(rows, g) + Next(rows, g) :: row in rows || exists w <- MintsOf(g) :: row == WorkspaceCap(w.mint, w.url)
  {
    match g
    case Ensure(_, _, wanted) =>
      RowsForOrigin(Seen(rows, g), wanted);
      CarriedOrigin(Seen(rows, g), wanted);
    case AddRepo(_, _, w) =>
      PriorIsRow(Seen(rows, g), w.url);
      assert w in MintsOf(g);
    case Removed =>
  }

  lemma KnownUnambiguous(seen: seq<WorkspaceCap>, rows: seq<WorkspaceCap>, g: Generation)
    requires Unambiguous(seen) && (forall row <- rows :: row in seen) && FreshMints(seen, g)
    ensures Unambiguous(Known(seen, rows, g))
  {
    NextOrigin(rows, g);
    forall row <- Known(seen, rows, g) ensures row in seen || exists w <- MintsOf(g) :: row == WorkspaceCap(w.mint, w.url) {
      assert row in seen || row in Issued(rows, g) + Next(rows, g);
    }
  }

  lemma {:induction false} HistoryUnambiguous(seen: seq<WorkspaceCap>, rows: seq<WorkspaceCap>, gs: seq<Generation>)
    requires Unambiguous(seen) && (forall row <- rows :: row in seen) && FreshChain(seen, rows, gs)
    ensures Unambiguous(seen + History(rows, gs))
    decreases |gs|
  {
    if gs == [] {
      assert forall row <- seen + History(rows, gs) :: row in seen;
    } else {
      var known, next := Known(seen, rows, gs[0]), Next(rows, gs[0]);
      KnownUnambiguous(seen, rows, gs[0]);
      HistoryUnambiguous(known, next, gs[1..]);
      assert forall row <- seen + History(rows, gs) :: row in known + History(next, gs[1..]);
    }
  }

  // ── Token stability ───────────────────────────────────────────────────────

  /** A token that was seen and is in no row any more never comes back. */
  lemma {:induction false} NeverAgain(seen: seq<WorkspaceCap>, rows: seq<WorkspaceCap>, gs: seq<Generation>, lost: WorkspaceCap)
    requires lost in seen && (forall row <- rows :: row.cap != lost.cap) && FreshChain(seen, rows, gs)
    ensures forall row <- Chain(rows, gs) :: row.cap != lost.cap
    decreases |gs|
  {
    if gs != [] {
      NextOrigin(rows, gs[0]);
      forall row <- Next(rows, gs[0]) ensures row.cap != lost.cap {
        assert row in Issued(rows, gs[0]) + Next(rows, gs[0]);
      }
      NeverAgain(Known(seen, rows, gs[0]), Next(rows, gs[0]), gs[1..], lost);
    }
  }

  /** A removal leaves no row, and an ensure that replaces a record it could not read fresh mints only. */
  lemma RecordLostRotates(seen: seq<WorkspaceCap>, rows: seq<WorkspaceCap>, g: Generation)
    requires !KeepsRecord(g) && FreshMints(seen, g)
    ensures forall row <- Next(rows, g), s <- seen :: row.cap != s.cap
  {
    if g.Ensure? {
      RowsForOrigin([], g.wanted);
    }
  }

  /**
   Token stability, exactly: over any chain of generations a repository keeps the
   token it has if and only if the record was never removed, nor replaced by an
   ensure that could not read it; after either, the token never returns.
   */
  lemma {:induction false} TokenStable(seen: seq<WorkspaceCap>, rows: seq<WorkspaceCap>, gs: seq<Generation>, url: string)
    requires PriorRepoCap(rows, url).Some? && (forall row <- rows :: row in seen) && FreshChain(seen, rows, gs)
    ensures PriorRepoCap(Chain(rows, gs), url) == PriorRepoCap(rows, url) <==> forall g <- gs :: KeepsRecord(g)
    decreases |gs|
  {
    if gs != [] {
      var g, next := gs[0], Next(rows, gs[0]);
      assert gs == [g] + gs[1..];
      if KeepsRecord(g) {
        NextKeepsToken(rows, g, url);
        TokenStable(Known(seen, rows, g), next, gs[1..], url);
      } else {
        PriorIsRow(rows, url);
        var kept := WorkspaceCap(PriorRepoCap(rows, url).value, url);
        RecordLostRotates(seen, rows, g);
        NeverAgain(Known(seen, rows, g), next, gs[1..], kept);
        PriorIsRow(Chain(rows, gs), url);
        assert g in gs;
      }
    }
  }

  /** A generation hands out the token a repository has if and only if it could read the record. */
  lemma ReissuedExactly(seen: seq<WorkspaceCap>, rows: seq<WorkspaceCap>, g: Generation, w: Wanted)
    requires PriorRepoCap(rows, w.url).Some? && (forall row <- rows :: row in seen) && FreshMints(seen, g) && w in MintsOf(g)
    ensures Some(RowFor(Seen(rows, g), w).cap) == PriorRepoCap(rows, w.url) <==> g.loaded
  {
    PriorIsRow(rows, w.url);
  }

  /** Over any chain of generations, no token is ever attached to two repositories. */
  lemma NoTokenForTwoRepos(gs: seq<Generation>)
    requires FreshChain([], [], gs)
    ensures Unambiguous(History([], gs))
  {
    HistoryUnambiguous([], [], gs);
    assert [] + History([], gs) == History([], gs);
  }

  lemma {:induction false} ChainInHistory(rows: seq<WorkspaceCap>, gs: seq<Generation>)
    ensures forall row <- Chain(rows, gs) :: row in History(rows, gs)
    decreases |gs|
  {
    if gs != [] {
      ChainInHistory(Next(rows, gs[0]), gs[1..]);
    }
  }

  /** So registering the record of any generation leads each of its tokens to its own repository. */
  lemma RegisteringNeverRedirects(gs: seq<Generation>, grants: map<string, Grant>, clock: Clock)
    requires FreshChain([], [], gs)
    ensures forall row <- Chain([], gs) ::
              Get(RegisterAll(grants, Chain([], gs), clock), row.cap) == Some(Placeholder(row.repoUrl, clock))
  {
    NoTokenForTwoRepos(gs);
    ChainInHistory([], gs);
    RegisterAllLeads(grants, Chain([], gs), clock);
  }
}
