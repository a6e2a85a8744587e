/** When the two reference splitters agree, and that a parsed reference survives printing. */
module OciRefProofs {
  import opened Common
  import opened Text
  import opened OciRef

  // ── Segments and names ────────────────────────────────────────────────────

  /** `dirs` is empty or ends in '/'. */
  predicate IsDirs(dirs: string) {
    dirs == [] || dirs[|dirs| - 1] == '/'
  }

  lemma SegmentSplits(s: string)
    ensures var (dirs, segment) := LastSegment(s); s == dirs + segment && IsDirs(dirs) && '/' !in segment
  {
    LastSplits(s, '/');
  }

  lemma SegmentOf(dirs: string, segment: string)
    requires IsDirs(dirs) && '/' !in segment
    ensures LastSegment(dirs + segment) == (dirs, segment)
  {
    if dirs == [] {
      assert dirs + segment == segment;
      LastSplits(segment, '/');
    } else {
      var front := dirs[..|dirs| - 1];
      assert front + ['/'] == dirs;
      LastOf(front, '/', segment);
    }
  }

  predicate Unmarked(s: string) {
    '@' !in s && ':' !in s
  }

  lemma {:induction false} NameSplits(segment: string)
    ensures var (name, mark) := NameAndMark(segment);
            segment == name + mark && Unmarked(name) && (mark == [] || IsMark(mark[0]))
  {
    if segment != [] && !IsMark(segment[0]) {
      var c, rest := segment[0], segment[1..];
      NameSplits(rest);
      NameGrows(c, NameAndMark(rest).0);
      assert segment == [c] + rest;
    }
  }

  lemma NameGrows(c: char, name: string)
    requires !IsMark(c) && Unmarked(name)
    ensures Unmarked([c] + name)
  {
  }

  lemma {:induction false} NameOf(name: string, mark: string)
    requires Unmarked(name) && (mark == [] || IsMark(mark[0]))
    ensures NameAndMark(name + mark) == (name, mark)
  {
    if name == [] {
      assert name + mark == mark;
    } else {
      assert (name + mark)[1..] == name[1..] + mark;
      NameOf(name[1..], mark);
      assert [name[0]] + name[1..] == name;
    }
  }

  // ── Lowercasing ───────────────────────────────────────────────────────────

  lemma {:induction false} LowerConcat(a: string, b: string)
    ensures Lower(a + b) == Lower(a) + Lower(b)
  {
    if a == [] {
      assert a + b == b;
    } else {
      assert (a + b)[1..] == a[1..] + b;
      LowerConcat(a[1..], b);
    }
  }

  lemma {:induction false} LowerShape(s: string)
    ensures |Lower(s)| == |s|
    ensures forall i :: 0 <= i < |s| ==> Lower(s)[i] == LowerChar(s[i])
  {
    if s != [] {
      LowerShape(s[1..]);
    }
  }

  /**
   What is needed of lowercasing, ASCII or Unicode: it is idempotent, neither makes
   nor loses a separator, and works apart on the two sides of '/' and of '@'.  (Not
   of ':', which Unicode looks through when it decides on a final sigma.)
   */
  ghost predicate Lowering(low: string -> string) {
    && low([]) == []
    && (forall s :: low(low(s)) == low(s))
    && (forall s :: ('/' in low(s) <==> '/' in s) && ('@' in low(s) <==> '@' in s) && (':' in low(s) <==> ':' in s))
    && (forall a, b :: low(a + ['/'] + b) == low(a) + ['/'] + low(b) && low(a + ['@'] + b) == low(a) + ['@'] + low(b))
  }

  /** Lowercasing ASCII is one. */
  lemma AsciiLowering()
    ensures Lowering(Lower)
  {
    forall s ensures Lower(Lower(s)) == Lower(s) {
      LowerShape(s);
      LowerShape(Lower(s));
    }
    forall s ensures ('/' in Lower(s) <==> '/' in s) && ('@' in Lower(s) <==> '@' in s) && (':' in Lower(s) <==> ':' in s) {
      LowerKeeps(s, '/');
      LowerKeeps(s, '@');
      LowerKeeps(s, ':');
    }
    forall a, b ensures Lower(a + ['/'] + b) == Lower(a) + ['/'] + Lower(b) && Lower(a + ['@'] + b) == Lower(a) + ['@'] + Lower(b) {
      LowerAround(a, '/', b);
      LowerAround(a, '@', b);
    }
  }

  lemma LowerKeeps(s: string, c: char)
    requires c in ['/', '@', ':']
    ensures c in Lower(s) <==> c in s
  {
    LowerShape(s);
    if c in s {
      var i :| 0 <= i < |s| && s[i] == c;
      assert Lower(s)[i] == c;
    }
  }

  lemma LowerAround(a: string, c: char, b: string)
    requires c == '/' || c == '@'
    ensures Lower(a + [c] + b) == Lower(a) + [c] + Lower(b)
  {
    LowerConcat(a + [c], b);
    LowerConcat(a, [c]);
    assert Lower([c]) == [c] + Lower([]);
  }

  /** Two texts, the first ending in '/' if it is not empty, are lowered apart. */
  lemma LowDirs(low: string -> string, dirs: string, rest: string)
    requires Lowering(low) && IsDirs(dirs)
    ensures low(dirs + rest) == low(dirs) + low(rest) && IsDirs(low(dirs))
  {
    if dirs == [] {
      assert dirs + rest == rest && low(dirs) + low(rest) == low(rest);
    } else {
      var front := dirs[..|dirs| - 1];
      assert dirs == front + ['/'] && dirs == front + ['/'] + [] && dirs + rest == front + ['/'] + rest;
      assert low(dirs) == low(front) + ['/'] + low([]) == low(front) + ['/'];
    }
  }

  // ── The parts of a reference ──────────────────────────────────────────────

  /** A reference taken apart: `host/dirs name mark`, the mark beginning at the builder's cut. */
  datatype Parts = Parts(host: string, dirs: string, name: string, mark: string) {
    ghost predicate Proper() {
      && '/' !in host && IsDirs(dirs) && Unmarked(name) && '/' !in name + mark
      && (mark == [] || IsMark(mark[0]))
    }

    function Path(): string {
      dirs + name
    }

    function Rest(): string {
      dirs + name + mark
    }

    function Text(): string {
      host + ['/'] + Rest()
    }

    function Lowered(low: string -> string): Parts {
      Parts(low(host), low(dirs), low(name), mark)
    }
  }

  function PartsOf(host: string, rest: string): Parts {
    var (dirs, segment) := LastSegment(rest);
    var (name, mark) := NameAndMark(segment);
    Parts(host, dirs, name, mark)
  }

  lemma PartsSplit(host: string, rest: string)
    requires '/' !in host
    ensures PartsOf(host, rest).Proper() && PartsOf(host, rest).Rest() == rest
  {
    SegmentSplits(rest);
    NameSplits(LastSegment(rest).1);
  }

  lemma LoweredProper(low: string -> string, p: Parts)
    requires Lowering(low) && p.Proper()
    ensures p.Lowered(low).Proper()
  {
    LowDirs(low, p.dirs, []);
    assert Unmarked(low(p.name)) && '/' !in low(p.name) && '/' !in low(p.host);
  }

  /** The builder's lowercasing of any text, given its segment and its cut. */
  lemma LowercaseCut(low: string -> string, front: string, name: string, mark: string)
    requires IsDirs(front) && Unmarked(name) && '/' !in name + mark && (mark == [] || IsMark(mark[0]))
    ensures LowercaseOciRepo(low, front + (name + mark)) == low(front + name) + mark
  {
    SegmentOf(front, name + mark);
    NameOf(name, mark);
  }

  lemma LoweredText(low: string -> string, p: Parts)
    requires Lowering(low) && p.Proper()
    ensures p.Lowered(low).Text() == low(p.host + ['/'] + p.Path()) + p.mark
    ensures p.Lowered(low).Path() == low(p.Path())
  {
    LowDirs(low, p.dirs, p.name);
  }

  /** The builder's lowercasing, part by part. */
  lemma LowercaseParts(low: string -> string, p: Parts)
    requires Lowering(low) && p.Proper()
    ensures LowercaseOciRepo(low, p.Text()) == p.Lowered(low).Text()
  {
    var front := p.host + ['/'] + p.dirs;
    assert p.Text() == front + (p.name + p.mark);
    assert front + p.name == p.host + ['/'] + p.Path();
    LowercaseCut(low, front, p.name, p.mark);
    LoweredText(low, p);
  }

  lemma ParseParts(p: Parts)
    requires p.Proper()
    ensures ParseRef(p.Text()) == ParseRest(p.host, p.Rest())
  {
    FirstOf(p.host, '/', p.Rest());
  }

  /** Lowercasing twice is lowercasing once. */
  lemma LowercaseIdempotent(low: string -> string, reff: string)
    requires Lowering(low)
    ensures LowercaseOciRepo(low, LowercaseOciRepo(low, reff)) == LowercaseOciRepo(low, reff)
  {
    SegmentSplits(reff);
    var (dirs, segment) := LastSegment(reff);
    NameSplits(segment);
    var (name, mark) := NameAndMark(segment);
    LowercaseCut(low, dirs, name, mark);
    CutTwice(low, dirs, name, mark);
  }

  lemma CutTwice(low: string -> string, front: string, name: string, mark: string)
    requires Lowering(low)
    requires IsDirs(front) && Unmarked(name) && '/' !in name + mark && (mark == [] || IsMark(mark[0]))
    ensures LowercaseOciRepo(low, low(front + name) + mark) == low(front + name) + mark
  {
    LoweredProper(low, Parts("", front, name, mark));
    LowDirs(low, front, name);
    assert low(front + name) + mark == low(front) + (low(name) + mark);
    LowercaseCut(low, low(front), low(name), mark);
    assert low(front) + low(name) == low(front + name);
  }

  // ── Agreement ─────────────────────────────────────────────────────────────

  function LoweredParse(low: string -> string, p: Parsed): Parsed {
    match p
    case Good(ref) => Good(ParsedRef(low(ref.host), low(ref.repo), ref.reference, ref.isDigest))
    case _ => p
  }

  /**
   What a caller can check on the parts of a reference.  With the '@' in the mark,
   whatever precedes it there must be left alone when the path is lowered with it;
   with the '@' in an earlier segment, the digest must survive lowercasing, or be
   rejected either way.
   */
  predicate CutsAgree(low: string -> string, p: Parts) {
    match SplitLast(p.mark, '@')
    case Some((tag, digest)) => SHA256_PREFIX <= digest ==> low(p.Path() + tag) == low(p.Path()) + tag
    case None =>
      match SplitLast(p.dirs, '@')
      case Some((_, tail)) =>
        if SHA256_PREFIX <= tail + p.name + p.mark then low(tail + p.name) == tail + p.name
        else !(SHA256_PREFIX <= low(tail + p.name) + p.mark)
      case None => true
  }

  lemma AtInMark(p: Parts, tag: string, digest: string)
    requires p.Proper() && SplitLast(p.mark, '@') == Some((tag, digest))
    ensures ParseRest(p.host, p.Rest()) ==
              if SHA256_PREFIX <= digest then Good(ParsedRef(p.host, p.Path() + tag, digest, true)) else NotSha256
  {
    LastSplits(p.mark, '@');
    assert p.Rest() == (p.Path() + tag) + ['@'] + digest;
    LastOf(p.Path() + tag, '@', digest);
  }

  lemma AtInDirs(p: Parts, repo: string, tail: string)
    requires p.Proper() && '@' !in p.mark && SplitLast(p.dirs, '@') == Some((repo, tail))
    ensures var digest := tail + p.name + p.mark;
            ParseRest(p.host, p.Rest()) ==
              if SHA256_PREFIX <= digest then Good(ParsedRef(p.host, repo, digest, true)) else NotSha256
  {
    LastSplits(p.dirs, '@');
    assert p.Rest() == repo + ['@'] + (tail + p.name + p.mark);
    LastOf(repo, '@', tail + p.name + p.mark);
  }

  lemma NoMark(p: Parts)
    requires p.Proper() && p.mark == [] && '@' !in p.dirs
    ensures ParseRest(p.host, p.Rest()) == Good(ParsedRef(p.host, p.Path(), "latest", false))
  {
    assert p.Rest() == p.Path();
    assert p.name + p.mark == p.name;
    LastSplits(p.Path(), '@');
    SegmentOf(p.dirs, p.name);
    FirstSplits(p.name, ':');
  }

  lemma TagMark(p: Parts)
    requires p.Proper() && p.mark != [] && '@' !in p.mark && '@' !in p.dirs
    ensures ParseRest(p.host, p.Rest()) == Good(ParsedRef(p.host, p.Path(), p.mark[1..], false))
  {
    assert p.mark[0] in p.mark;
    var segment := p.name + p.mark;
    assert p.Rest() == p.dirs + segment && segment == p.name + [':'] + p.mark[1..];
    LastSplits(p.Rest(), '@');
    SegmentOf(p.dirs, segment);
    FirstOf(p.name, ':', p.mark[1..]);
  }

  lemma NoAt(p: Parts)
    requires p.Proper() && '@' !in p.mark && '@' !in p.dirs
    ensures ParseRest(p.host, p.Rest()) ==
              Good(ParsedRef(p.host, p.Path(), if p.mark == [] then "latest" else p.mark[1..], false))
  {
    if p.mark == [] {
      NoMark(p);
    } else {
      TagMark(p);
    }
  }

  /** The split of lowered directories, at the same '@'. */
  lemma LowerSplitLast(low: string -> string, s: string)
    requires Lowering(low)
    ensures SplitLast(low(s), '@') ==
            match SplitLast(s, '@') case None => None case Some(p) => Some((low(p.0), low(p.1)))
  {
    LastSplits(s, '@');
    match SplitLast(s, '@')
    case None => LastSplits(low(s), '@');
    case Some(p) => LastOf(low(p.0), '@', low(p.1));
  }

  /** Directories after their last '@' still end in '/'. */
  lemma TailIsDirs(dirs: string, repo: string, tail: string)
    requires IsDirs(dirs) && SplitLast(dirs, '@') == Some((repo, tail))
    ensures IsDirs(tail)
  {
    LastSplits(dirs, '@');
    assert dirs[|dirs| - 1] == if tail == [] then '@' else tail[|tail| - 1];
  }

  lemma AgreeInMark(low: string -> string, p: Parts, tag: string, digest: string)
    requires Lowering(low) && p.Proper() && SplitLast(p.mark, '@') == Some((tag, digest))
    ensures ParseRest(low(p.host), p.Lowered(low).Rest()) == LoweredParse(low, ParseRest(p.host, p.Rest())) <==> CutsAgree(low, p)
  {
    LoweredProper(low, p);
    LoweredText(low, p);
    AtInMark(p, tag, digest);
    AtInMark(p.Lowered(low), tag, digest);
  }

  lemma AgreeInDirs(low: string -> string, p: Parts, repo: string, tail: string)
    requires Lowering(low) && p.Proper() && '@' !in p.mark && SplitLast(p.dirs, '@') == Some((repo, tail))
    ensures ParseRest(low(p.host), p.Lowered(low).Rest()) == LoweredParse(low, ParseRest(p.host, p.Rest())) <==> CutsAgree(low, p)
  {
    LoweredProper(low, p);
    LastSplits(p.mark, '@');
    LowerSplitLast(low, p.dirs);
    AtInDirs(p, repo, tail);
    AtInDirs(p.Lowered(low), low(repo), low(tail));
    TailIsDirs(p.dirs, repo, tail);
    LowDirs(low, tail, p.name);
    SuffixCancels(low(tail + p.name), tail + p.name, p.mark);
  }

  lemma SuffixCancels(a: string, b: string, suffix: string)
    ensures a + suffix == b + suffix <==> a == b
  {
    if a + suffix == b + suffix {
      assert |a| == |b|;
      assert a == (a + suffix)[..|a|] && b == (b + suffix)[..|b|];
    }
  }

  /** The splitters agree on a reference exactly when their cuts do. */
  lemma PartsAgreeExactly(low: string -> string, p: Parts)
    requires Lowering(low) && p.Proper()
    ensures ParseRef(LowercaseOciRepo(low, p.Text())) == LoweredParse(low, ParseRef(p.Text())) <==> CutsAgree(low, p)
  {
    LoweredProper(low, p);
    LowercaseParts(low, p);
    ParseParts(p);
    ParseParts(p.Lowered(low));
    LastSplits(p.mark, '@');
    LastSplits(p.dirs, '@');
    if '@' in p.mark {
      AgreeInMark(low, p, SplitLast(p.mark, '@').value.0, SplitLast(p.mark, '@').value.1);
    } else if '@' in p.dirs {
      AgreeInDirs(low, p, SplitLast(p.dirs, '@').value.0, SplitLast(p.dirs, '@').value.1);
    } else {
      NoAt(p);
      NoAt(p.Lowered(low));
      LoweredText(low, p);
    }
  }

  /** Every reference is rejected by both splitters for want of a '/', or has parts that decide. */
  lemma SplittersAgreeExactly(low: string -> string, reff: string)
    requires Lowering(low)
    ensures ParseRef(LowercaseOciRepo(low, reff)) == LoweredParse(low, ParseRef(reff)) <==>
            match SplitFirst(reff, '/') case None => true case Some((host, rest)) => CutsAgree(low, PartsOf(host, rest))
  {
    FirstSplits(reff, '/');
    match SplitFirst(reff, '/')
    case Some((host, rest)) =>
      PartsSplit(host, rest);
      assert PartsOf(host, rest).Text() == reff;
      PartsAgreeExactly(low, PartsOf(host, rest));
    case None =>
      SegmentSplits(reff);
      NameSplits(LastSegment(reff).1);
      assert '/' !in low(LastSegment(reff).0 + NameAndMark(LastSegment(reff).1).0);
      FirstSplits(LowercaseOciRepo(low, reff), '/');
  }

  /** At most a digest or a tag, not both, in the last segment and nowhere else. */
  ghost predicate TagOrDigest(reff: string) {
    SplitFirst(reff, '/').Some? ==>
      var p := PartsOf(SplitFirst(reff, '/').value.0, SplitFirst(reff, '/').value.1);
      '@' !in p.dirs && ('@' in p.mark ==> p.mark[0] == '@' && '@' !in p.mark[1..])
  }

  lemma AtFirst(mark: string)
    requires mark != [] && mark[0] == '@' && '@' !in mark[1..]
    ensures SplitLast(mark, '@') == Some(([], mark[1..]))
  {
    assert mark == [] + ['@'] + mark[1..];
    LastOf([], '@', mark[1..]);
  }

  /** On every such reference the two splitters agree. */
  lemma SplittersAgree(low: string -> string, reff: string)
    requires Lowering(low) && TagOrDigest(reff)
    ensures ParseRef(LowercaseOciRepo(low, reff)) == LoweredParse(low, ParseRef(reff))
  {
    SplittersAgreeExactly(low, reff);
    if SplitFirst(reff, '/').Some? {
      var p := PartsOf(SplitFirst(reff, '/').value.0, SplitFirst(reff, '/').value.1);
      LastSplits(p.dirs, '@');
      if '@' in p.mark {
        AtFirst(p.mark);
        assert p.Path() + [] == p.Path() && low(p.Path()) + [] == low(p.Path());
      } else {
        LastSplits(p.mark, '@');
      }
    }
  }

  /** A tag together with a digest is outside that class, and the claim fails for every tag that is not left alone. */
  lemma TagAndDigestDisagree(low: string -> string, p: Parts, tag: string, digest: string)
    requires Lowering(low) && p.Proper() && p.mark == [':'] + tag + ['@'] + digest
    requires SHA256_PREFIX <= digest && '@' !in digest && low(p.Path() + ([':'] + tag)) != low(p.Path()) + ([':'] + tag)
    ensures ParseRef(LowercaseOciRepo(low, p.Text())) != LoweredParse(low, ParseRef(p.Text()))
  {
    LastOf([':'] + tag, '@', digest);
    PartsAgreeExactly(low, p);
  }

  /** ASCII lowers a path and a mark apart, so there it fails for every tag with a capital. */
  lemma AsciiTagWithDigestDisagrees(p: Parts, tag: string, digest: string)
    requires p.Proper() && p.mark == [':'] + tag + ['@'] + digest
    requires SHA256_PREFIX <= digest && '@' !in digest && Lower(tag) != tag
    ensures ParseRef(LowercaseOciRepo(Lower, p.Text())) != LoweredParse(Lower, ParseRef(p.Text()))
  {
    AsciiLowering();
    var front, x := Lower(p.Path()), [':'] + tag;
    LowerConcat(p.Path(), x);
    LowerConcat([':'], tag);
    assert Lower([':']) == [':'] + Lower([]);
    assert (front + x)[|front|..] == x && (front + Lower(x))[|front|..] == Lower(x);
    assert x[1..] == tag && Lower(x)[1..] == Lower(tag);
    TagAndDigestDisagree(Lower, p, tag, digest);
  }

  /** For one: `h/r:T@sha256:`. */
  lemma CapitalTagWithDigest()
    ensures var reff := "h/r" + ([':'] + ['T'] + ['@'] + SHA256_PREFIX);
            ParseRef(LowercaseOciRepo(Lower, reff)) != LoweredParse(Lower, ParseRef(reff))
  {
    var p := Parts(['h'], [], ['r'], [':'] + ['T'] + ['@'] + SHA256_PREFIX);
    assert p.Text() == "h/r" + p.mark;
    assert Lower(['T']) == ['t'] + Lower([]);
    AsciiTagWithDigestDisagrees(p, ['T'], SHA256_PREFIX);
  }

  /** A repository and a tag joined by ':' are told apart again. */
  lemma TagAgain(p: Parts, tag: string)
    requires p.Proper() && '@' !in p.dirs && '@' !in tag && '/' !in tag
    ensures ParseRest(p.host, p.Path() + [':'] + tag) == Good(ParsedRef(p.host, p.Path(), tag, false))
  {
    var q := p.(mark := [':'] + tag);
    assert q.Rest() == p.Path() + [':'] + tag;
    NoAt(q);
  }

  /** The parts of what parses as a tag reference. */
  lemma TagParts(host: string, rest: string)
    requires '/' !in host && '@' !in rest
    ensures var p := PartsOf(host, rest);
            && p.Proper() && '@' !in p.dirs && '@' !in p.mark
            && ParseRest(host, rest) == Good(ParsedRef(host, p.Path(), if p.mark == [] then "latest" else p.mark[1..], false))
  {
    PartsSplit(host, rest);
    var p := PartsOf(host, rest);
    forall c <- p.dirs + p.name + p.mark ensures c != '@' {
      assert c in p.Rest();
    }
    assert forall c <- p.dirs :: c in p.dirs + p.name + p.mark;
    assert forall c <- p.mark :: c in p.dirs + p.name + p.mark;
    NoAt(p);
  }

  /** Printing a parsed reference and parsing it again gives the same reference. */
  lemma PrintThenParse(reff: string)
    requires ParseRef(reff).Good?
    ensures ParseRef(PrintRef(ParseRef(reff).ref)) == ParseRef(reff)
  {
    FirstSplits(reff, '/');
    var (host, rest) := SplitFirst(reff, '/').value;
    var ref := ParseRef(reff).ref;
    var tail := ref.repo + [if ref.isDigest then '@' else ':'] + ref.reference;
    assert PrintRef(ref) == host + ['/'] + tail;
    FirstOf(host, '/', tail);
    LastSplits(rest, '@');
    if ref.isDigest {
      assert tail == rest;
    } else {
      TagParts(host, rest);
      TagAgain(PartsOf(host, rest), ref.reference);
    }
  }

  /** A digest is pinned exactly by an '@' after the host: it is what follows the last one.  A tag pins nothing. */
  lemma PinsExactly(host: string, rest: string)
    requires '/' !in host && ParseRef(host + ['/'] + rest).Good?
    ensures var ref := ParseRef(host + ['/'] + rest).ref;
            match ExpectedDigest(ref)
            case None => '@' !in rest
            case Some(digest) => rest == ref.repo + ['@'] + digest && '@' !in digest && "sha256:" <= digest
  {
    FirstOf(host, '/', rest);
    LastSplits(rest, '@');
  }
}
