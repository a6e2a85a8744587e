/**
 Capability tokens across the generations of a workspace record: the reuse rule
 of `src/api/workspace_cap_reuse.rs` and the two operations of `workspaces.rs`
 that write the record.
 */
module CapReuse {
  import opened Common
  import opened DevSessions

  predicate IsLowerHex(c: char) {
    '0' <= c <= '9' || 'a' <= c <= 'f'
  }

  predicate IsCapToken(s: string) {
    |s| == 64 && forall i :: 0 <= i < |s| ==> IsLowerHex(s[i])
  }

  /** The token of the first cap-shaped row for exactly this repository. */
  function PriorRepoCap(rows: seq<WorkspaceCap>, url: string): Option<string> {
    if rows == [] then None
    else if rows[0].repoUrl == url && IsCapToken(rows[0].cap) then Some(rows[0].cap)
    else PriorRepoCap(rows[1..], url)
  }

  /** One requested repository, and the token a mint would yield for it. */
  datatype Wanted = Wanted(url: string, mint: string)

  function RowFor(prior: seq<WorkspaceCap>, w: Wanted): WorkspaceCap {
    var reused := PriorRepoCap(prior, w.url);
    WorkspaceCap(if reused.Some? then reused.value else w.mint, w.url)
  }

  function RowsFor(prior: seq<WorkspaceCap>, wanted: seq<Wanted>): seq<WorkspaceCap> {
    if wanted == [] then [] else [RowFor(prior, wanted[0])] + RowsFor(prior, wanted[1..])
  }

  predicate Requests(wanted: seq<Wanted>, url: string) {
    exists w <- wanted :: w.url == url
  }

  /** Prior rows whose repository the request does not mention. */
  function Carried(prior: seq<WorkspaceCap>, wanted: seq<Wanted>): seq<WorkspaceCap> {
    if prior == [] then []
    else (if Requests(wanted, prior[0].repoUrl) then [] else [prior[0]]) + Carried(prior[1..], wanted)
  }

  /**
   What happens to a record: a whole ensure, one added repository, or its removal -
   by a failed deploy, by a delete, or by a re-adoption that takes it for an orphan.
   `loaded`: the prior record could be read and parsed; when not, it counts as
   none.  `saved`, `stored`: the new record, or the appended row, reached the disk.
   */
  datatype Generation =
    | Ensure(loaded: bool, saved: bool, wanted: seq<Wanted>)
    | AddRepo(loaded: bool, stored: bool, added: Wanted)
    | Removed

  /** The prior rows as the generation sees them. */
  function Seen(rows: seq<WorkspaceCap>, g: Generation): seq<WorkspaceCap> {
    if !g.Removed? && g.loaded then rows else []
  }

  /** The rows a generation hands out and registers. */
  function Issued(rows: seq<WorkspaceCap>, g: Generation): seq<WorkspaceCap> {
    match g
    case Ensure(_, _, wanted) => RowsFor(Seen(rows, g), wanted)
    case AddRepo(_, _, w) => [RowFor(Seen(rows, g), w)]
    case Removed => []
  }

  /** The record on disk afterwards. */
  function Next(rows: seq<WorkspaceCap>, g: Generation): seq<WorkspaceCap> {
    match g
    case Ensure(_, saved, wanted) => if saved then Issued(rows, g) + Carried(Seen(rows, g), wanted) else rows
    case AddRepo(_, stored, w) => if PriorRepoCap(Seen(rows, g), w.url).Some? || !stored then rows else rows + Issued(rows, g)
    case Removed => []
  }

  function Chain(rows: seq<WorkspaceCap>, gs: seq<Generation>): seq<WorkspaceCap>
    decreases |gs|
  {
    if gs == [] then rows else Chain(Next(rows, gs[0]), gs[1..])
  }

  /** Every row that any generation recorded or registered. */
  function History(rows: seq<WorkspaceCap>, gs: seq<Generation>): seq<WorkspaceCap>
    decreases |gs|
  {
    rows + if gs == [] then [] else Issued(rows, gs[0]) + History(Next(rows, gs[0]), gs[1..])
  }
}
