/**
 The two independent splitters of an OCI reference: `parse_ref` of the puller
 (`src/oci_pull.rs`) and `lowercase_oci_repo` of the builder (`src/oras.rs`).
 */
module OciRef {
  import opened Common
  import opened Text

  datatype ParsedRef = ParsedRef(host: string, repo: string, reference: string, isDigest: bool)

  datatype Parsed = Good(ref: ParsedRef) | NoSlash | NotSha256

  // ── Splitting ─────────────────────────────────────────────────────────────

  /** The text up to and including the last '/', and the last path segment. */
  function LastSegment(s: string): (string, string) {
    match SplitLast(s, '/') case None => ([], s) case Some(p) => (p.0 + ['/'], p.1)
  }

  predicate IsMark(c: char) {
    c == '@' || c == ':'
  }

  /** A segment's name, and the rest from its first '@' or ':' on. */
  function NameAndMark(segment: string): (string, string) {
    if segment == [] || IsMark(segment[0]) then ([], segment)
    else var (name, mark) := NameAndMark(segment[1..]); ([segment[0]] + name, mark)
  }

  // ── parse_ref ─────────────────────────────────────────────────────────────

  const SHA256_PREFIX := "sha256:"

  function ParseRef(reff: string): Parsed {
    match SplitFirst(reff, '/')
    case None => NoSlash
    case Some((host, rest)) => ParseRest(host, rest)
  }

  function ParseRest(host: string, rest: string): Parsed {
    match SplitLast(rest, '@')
    case Some((repo, digest)) =>
      if SHA256_PREFIX <= digest then Good(ParsedRef(host, repo, digest, true)) else NotSha256
    case None =>
      var (dirs, segment) := LastSegment(rest);
      match SplitFirst(segment, ':')
      case Some((name, tag)) => Good(ParsedRef(host, dirs + name, tag, false))
      case None => Good(ParsedRef(host, rest, "latest", false))
  }

  /** The digest a fetched manifest must hash to, when the reference pins one. */
  function ExpectedDigest(ref: ParsedRef): Option<string> {
    if ref.isDigest then Some(ref.reference) else None
  }

  /** A parsed reference written out again. */
  function PrintRef(ref: ParsedRef): string {
    ref.host + ['/'] + ref.repo + [if ref.isDigest then '@' else ':'] + ref.reference
  }

  // ── lowercase_oci_repo ────────────────────────────────────────────────────

  /** The lowercasing of ASCII text. */
  function LowerChar(c: char): char {
    if 'A' <= c <= 'Z' then (c as int + 32) as char else c
  }

  function Lower(s: string): string {
    if s == [] then [] else [LowerChar(s[0])] + Lower(s[1..])
  }

  /** `low` is the lowercasing of whole text; for non-ASCII letters it may depend on what surrounds them. */
  function LowercaseOciRepo(low: string -> string, reff: string): string {
    var (dirs, segment) := LastSegment(reff);
    var (name, mark) := NameAndMark(segment);
    low(dirs + name) + mark
  }
}
