/** What a pull guarantees about blobs, manifests and the layout directory. */
module OciPullProofs {
  import opened Common
  import opened Transport
  import opened ResumeProofs
  import opened OciPull
  import OciRef

  // ── Blobs ─────────────────────────────────────────────────────────────────

  lemma {:induction false} RepullBounds(sha: Bytes -> string, file: Option<Bytes>, hex: string, passes: seq<Pass>, attempt: nat)
    requires 1 <= attempt <= VERIFY_REPULL_ATTEMPTS + 1
    ensures var r := Repull(sha, file, hex, passes, attempt);
            && r.downloads <= VERIFY_REPULL_ATTEMPTS + 1 - attempt
            && (r.verdict == Pulled ==> Verified(sha, r.file, hex) && r.downloads > 0)
    decreases |passes|
  {
    if attempt <= VERIFY_REPULL_ATTEMPTS && passes != [] {
      var (after, end) := OnePass(sha, file, hex, passes[0]);
      if end == Mismatched {
        RepullBounds(sha, after, hex, passes[1..], attempt + 1);
      }
    }
  }

  /** Against any registry at all: Ok means the stored file hashes to the digest, after at most three downloads. */
  lemma BlobIntegrity(sha: Bytes -> string, file: Option<Bytes>, hex: string, script: BlobScript)
    ensures var r := PullBlob(sha, file, hex, script);
            && r.downloads <= VERIFY_REPULL_ATTEMPTS
            && (r.verdict == Pulled ==> Verified(sha, r.file, hex))
            && (r.verdict == Pulled && r.downloads == 0 ==> r.file == file)
  {
    RepullBounds(sha, file, hex, script.passes, 1);
  }

  /** Distinct from the blob means told apart by the hash: all that self-healing needs of it. */
  ghost predicate TellsApart(sha: Bytes -> string, blob: Bytes) {
    forall x :: sha(x) == sha(blob) ==> x == blob
  }

  /** An honest registry, downloads that return Ok and files that can be read, for as long as the loop runs. */
  ghost predicate HonestPasses(sha: Bytes -> string, blob: Bytes, file: Option<Bytes>, passes: seq<Pass>)
    decreases |passes|
  {
    passes != [] ==>
      && passes[0].readable
      && HonestRun(blob, file, 0, passes[0].turns) && Download(file, passes[0].turns).outcome == Complete
      && var (after, end) := OnePass(sha, file, sha(blob), passes[0]);
         end == Mismatched ==> HonestPasses(sha, blob, after, passes[1..])
  }

  /** The download lost nothing of its tail, and resumed a prefix or restarted from byte 0. */
  predicate Heals(blob: Bytes, file: Option<Bytes>, pass: Pass) {
    LostTail(file, 0, pass.turns) == 0 && (RunRestarts(file, 0, pass.turns) || Content(file) <= blob)
  }

  /** What the next pass finds after one that did not heal. */
  function LeftBy(file: Option<Bytes>, pass: Pass): Option<Bytes> {
    if pass.discarded then None else Download(file, pass.turns).file
  }

  predicate HealsWithin(blob: Bytes, file: Option<Bytes>, passes: seq<Pass>, n: nat)
    decreases n
  {
    n > 0 && passes != [] &&
    (Heals(blob, file, passes[0]) || HealsWithin(blob, LeftBy(file, passes[0]), passes[1..], n - 1))
  }

  /** One pass ends with exactly the blob if it heals, and otherwise fails verification. */
  lemma PassHealsExactly(sha: Bytes -> string, blob: Bytes, file: Option<Bytes>, pass: Pass)
    requires TellsApart(sha, blob) && HonestPasses(sha, blob, file, [pass])
    ensures OnePass(sha, file, sha(blob), pass) ==
              if Heals(blob, file, pass) then (Some(blob), Matched) else (LeftBy(file, pass), Mismatched)
  {
    StaleFileExact(blob, file, pass.turns);
  }

  lemma {:induction false} RepullHealsExactly(sha: Bytes -> string, blob: Bytes, file: Option<Bytes>, passes: seq<Pass>, attempt: nat)
    requires TellsApart(sha, blob) && HonestPasses(sha, blob, file, passes)
    requires 1 <= attempt <= VERIFY_REPULL_ATTEMPTS + 1 && |passes| >= VERIFY_REPULL_ATTEMPTS + 1 - attempt
    ensures var r := Repull(sha, file, sha(blob), passes, attempt);
            if HealsWithin(blob, file, passes, VERIFY_REPULL_ATTEMPTS + 1 - attempt) then r.verdict == Pulled && r.file == Some(blob)
            else r.verdict == Failed
    decreases |passes|
  {
    if attempt <= VERIFY_REPULL_ATTEMPTS {
      assert HonestPasses(sha, blob, file, [passes[0]]) by { assert [passes[0]][1..] == []; }
      PassHealsExactly(sha, blob, file, passes[0]);
      if !Heals(blob, file, passes[0]) {
        RepullHealsExactly(sha, blob, LeftBy(file, passes[0]), passes[1..], attempt + 1);
      }
    }
  }

  /**
   Self-healing, exactly: whatever bytes are on disk beforehand, with an honest
   registry and downloads that return Ok, the pull ends with exactly the blob if
   it was there or one of three passes heals, and otherwise fails.
   */
  lemma BlobSelfHeals(sha: Bytes -> string, blob: Bytes, file: Option<Bytes>, script: BlobScript)
    requires TellsApart(sha, blob) && script.readable
    requires HonestPasses(sha, blob, file, script.passes) && |script.passes| >= VERIFY_REPULL_ATTEMPTS
    ensures var r := PullBlob(sha, file, sha(blob), script);
            if file == Some(blob) || HealsWithin(blob, file, script.passes, VERIFY_REPULL_ATTEMPTS)
            then r.verdict == Pulled && r.file == Some(blob)
            else r.verdict == Failed
  {
    RepullHealsExactly(sha, blob, file, script.passes, 1);
  }

  /** A download into nothing heals exactly when its last flush lost nothing. */
  lemma FreshPassHeals(blob: Bytes, pass: Pass)
    ensures Heals(blob, None, pass) <==> LostTail(None, 0, pass.turns) == 0
  {
  }

  /**
   So two downloads do when the first discards what it could not verify and the
   second loses nothing; three when the second discards and the third loses nothing.
   */
  lemma DiscardHeals(sha: Bytes -> string, blob: Bytes, file: Option<Bytes>, script: BlobScript)
    requires TellsApart(sha, blob) && script.readable
    requires HonestPasses(sha, blob, file, script.passes) && |script.passes| >= VERIFY_REPULL_ATTEMPTS
    requires var p := script.passes;
             || (p[0].discarded && LostTail(None, 0, p[1].turns) == 0)
             || (p[1].discarded && LostTail(None, 0, p[2].turns) == 0)
    ensures var r := PullBlob(sha, file, sha(blob), script);
            && r.verdict == Pulled && r.file == Some(blob)
            && (script.passes[0].discarded && LostTail(None, 0, script.passes[1].turns) == 0 ==> r.downloads <= 2)
  {
    var p := script.passes;
    FreshPassHeals(blob, p[1]);
    FreshPassHeals(blob, p[2]);
    var second := LeftBy(file, p[0]);
    assert p[1..][0] == p[1] && p[1..][1..][0] == p[2];
    assert HealsWithin(blob, file, p, 3) ==
           (Heals(blob, file, p[0]) || HealsWithin(blob, second, p[1..], 2));
    assert HealsWithin(blob, second, p[1..], 2) ==
           (Heals(blob, second, p[1]) || HealsWithin(blob, LeftBy(second, p[1]), p[1..][1..], 1));
    BlobSelfHeals(sha, blob, file, script);
    if p[0].discarded && LostTail(None, 0, p[1].turns) == 0 {
      TwoDownloads(sha, blob, file, p);
    }
  }

  lemma TwoDownloads(sha: Bytes -> string, blob: Bytes, file: Option<Bytes>, passes: seq<Pass>)
    requires TellsApart(sha, blob) && HonestPasses(sha, blob, file, passes) && |passes| >= 2
    requires passes[0].discarded && LostTail(None, 0, passes[1].turns) == 0
    ensures Repull(sha, file, sha(blob), passes, 1).downloads <= 2
  {
    assert HonestPasses(sha, blob, file, [passes[0]]) by { assert [passes[0]][1..] == []; }
    PassHealsExactly(sha, blob, file, passes[0]);
    if !Heals(blob, file, passes[0]) {
      var rest := passes[1..];
      assert HonestPasses(sha, blob, None, [rest[0]]) by { assert [rest[0]][1..] == []; }
      PassHealsExactly(sha, blob, None, rest[0]);
    }
  }

  // ── When the discard fails ────────────────────────────────────────────────

  /** Every download honours ranges and loses nothing of its tail, for as long as none heals. */
  ghost predicate SteadyPasses(blob: Bytes, file: Option<Bytes>, passes: seq<Pass>)
    decreases |passes|
  {
    passes != [] ==>
      && RangesHonoured(file, 0, passes[0].turns) && LostTail(file, 0, passes[0].turns) == 0
      && (!Heals(blob, file, passes[0]) ==> SteadyPasses(blob, LeftBy(file, passes[0]), passes[1..]))
  }

  lemma {:induction false} HonouredNeverRestarts(file: Option<Bytes>, stall: nat, turns: seq<Turn>)
    requires Content(file) != [] && RangesHonoured(file, stall, turns)
    ensures !RunRestarts(file, stall, turns)
    decreases |turns|
  {
    if turns != [] && Step(file, stall, turns[0]).outcome.Running? {
      var next := Step(file, stall, turns[0]);
      HonouredNeverRestarts(next.file, next.outcome.stall, turns[1..]);
    }
  }

  /** Bytes that are no prefix are kept by a steady pass, and what it leaves is no prefix either. */
  lemma JunkStays(blob: Bytes, file: Option<Bytes>, pass: Pass)
    requires HonestRun(blob, file, 0, pass.turns) && Download(file, pass.turns).outcome == Complete
    requires RangesHonoured(file, 0, pass.turns) && LostTail(file, 0, pass.turns) == 0 && !(Content(file) <= blob)
    ensures !Heals(blob, file, pass) && Download(file, pass.turns).file == Some(Spliced(Content(file), blob))
    ensures !(Content(Download(file, pass.turns).file) <= blob)
  {
    HonouredNeverRestarts(file, 0, pass.turns);
    StaleFileExact(blob, file, pass.turns);
  }

  /** Junk is healed over steady passes exactly when one of them but the last discards it. */
  lemma {:induction false} JunkHealsExactly(sha: Bytes -> string, blob: Bytes, file: Option<Bytes>, passes: seq<Pass>, n: nat)
    requires TellsApart(sha, blob) && HonestPasses(sha, blob, file, passes) && SteadyPasses(blob, file, passes)
    requires n <= |passes| && !(Content(file) <= blob)
    ensures HealsWithin(blob, file, passes, n) <==> exists i :: 0 <= i < n - 1 && passes[i].discarded
    decreases n
  {
    if n > 0 {
      JunkStays(blob, file, passes[0]);
      assert HonestPasses(sha, blob, file, [passes[0]]) by { assert [passes[0]][1..] == []; }
      PassHealsExactly(sha, blob, file, passes[0]);
      if n > 1 && passes[0].discarded {
        FreshPassHeals(blob, passes[1]);
        assert passes[1..][0] == passes[1];
      } else if n > 1 {
        JunkHealsExactly(sha, blob, LeftBy(file, passes[0]), passes[1..], n - 1);
        assert forall i :: 0 <= i < n - 2 ==> passes[1..][i] == passes[i + 1];
        if i :| 0 <= i < n - 1 && passes[i].discarded {
          assert passes[1..][i - 1].discarded;
        }
      }
    }
  }

  /**
   Over steady passes the discards decide: the pull succeeds exactly when the old
   bytes were a prefix, or one of the first two failed files could be unlinked.
   */
  lemma DiscardDecides(sha: Bytes -> string, blob: Bytes, file: Option<Bytes>, script: BlobScript)
    requires TellsApart(sha, blob) && script.readable
    requires HonestPasses(sha, blob, file, script.passes) && |script.passes| >= VERIFY_REPULL_ATTEMPTS
    requires SteadyPasses(blob, file, script.passes)
    ensures PullBlob(sha, file, sha(blob), script).verdict == Pulled <==>
              Content(file) <= blob || script.passes[0].discarded || script.passes[1].discarded
  {
    BlobSelfHeals(sha, blob, file, script);
    if Content(file) <= blob {
      assert Heals(blob, file, script.passes[0]);
    } else {
      JunkHealsExactly(sha, blob, file, script.passes, VERIFY_REPULL_ATTEMPTS);
    }
  }

  /** An honest registry, asked for bytes past the end, three times, with no file ever unlinked. */
  const REFUSED_THRICE := BlobScript(true, seq(3, _ => Pass([Turn(Response(416, Body(true, [], true, 0)), 0)], true, false)))

  /** For one: any junk at least as long as the blob survives three honest downloads when unlinking fails. */
  lemma UnlinkFailureKeepsJunk(sha: Bytes -> string, blob: Bytes, junk: Bytes)
    requires TellsApart(sha, blob) && junk != blob && junk != [] && |junk| >= |blob|
    ensures HonestPasses(sha, blob, Some(junk), REFUSED_THRICE.passes)
    ensures PullBlob(sha, Some(junk), sha(blob), REFUSED_THRICE) == BlobRun(Some(junk), Failed, 3)
  {
    var p := REFUSED_THRICE.passes;
    var pass := p[0];
    assert OnePass(sha, Some(junk), sha(blob), pass) == (Some(junk), Mismatched);
    assert p[1..] == [pass, pass] && p[1..][1..] == [pass] && p[1..][1..][1..] == [];
    assert HonestRun(blob, Some(junk), 0, pass.turns);
    assert HonestPasses(sha, blob, Some(junk), p[1..][1..]);
    assert HonestPasses(sha, blob, Some(junk), p[1..]);
    assert Repull(sha, Some(junk), sha(blob), [], 4) == BlobRun(Some(junk), Failed, 0);
    assert Repull(sha, Some(junk), sha(blob), p[1..][1..], 3) == BlobRun(Some(junk), Failed, 1);
    assert Repull(sha, Some(junk), sha(blob), p[1..], 2) == BlobRun(Some(junk), Failed, 2);
  }

  // ── Manifests ─────────────────────────────────────────────────────────────

  /** A returned manifest is stored under its own hash, and it is the pinned one if a digest was pinned. */
  lemma ManifestIntegrity(sha: Bytes -> string, files: map<string, Bytes>, expected: Option<string>, fetch: Fetch)
    ensures var (after, m) := FetchManifest(sha, files, expected, fetch);
            m.Fetched? ==>
              && m.hex == sha(m.bytes) && Get(after, m.hex) == Some(m.bytes)
              && (expected.Some? ==> expected.value == Digest(sha(m.bytes)))
  {
  }

  /** Equal digests are equal hex names. */
  lemma DigestInjective(a: string, b: string)
    requires Digest(a) == Digest(b)
    ensures a == b
  {
    assert Digest(a)[|OciRef.SHA256_PREFIX|..] == a;
    assert Digest(b)[|OciRef.SHA256_PREFIX|..] == b;
  }

  /**
   For a tag nothing pins the bytes: the served document comes back exactly when
   the scratch file had been absent, empty or a prefix of it, or a reply
   restarted from byte 0, and the last flush lost nothing; otherwise the stale
   bytes are spliced in.
   */
  lemma TagManifestExact(sha: Bytes -> string, files: map<string, Bytes>, doc: Bytes, fetch: Fetch)
    requires HonestRun(doc, Get(files, SCRATCH), 0, fetch.turns)
    requires FetchManifest(sha, files, None, fetch).1.Fetched?
    ensures var scratch := Get(files, SCRATCH);
            var bytes := FetchManifest(sha, files, None, fetch).1.bytes;
            && (bytes == doc <==>
                  LostTail(scratch, 0, fetch.turns) == 0 && (RunRestarts(scratch, 0, fetch.turns) || Content(scratch) <= doc))
            && (!RunRestarts(scratch, 0, fetch.turns) && LostTail(scratch, 0, fetch.turns) == 0 ==>
                  bytes == Spliced(Content(scratch), doc))
  {
    StaleFileExact(doc, Get(files, SCRATCH), fetch.turns);
  }

  /** The one reply an honest, range-honouring registry needs to finish off a stale scratch file. */
  function FinishStale(stale: Bytes, doc: Bytes): Turn {
    if |stale| < |doc|
    then Turn(Response(206, Body(true, [Stored(doc[|stale|..])], true, 0)), 0)
    else Turn(Response(416, Body(true, [], true, 0)), 0)
  }

  /** Every stale scratch file that is no prefix of the document yields a splice, at the first reply. */
  lemma StaleScratchSplices(sha: Bytes -> string, files: map<string, Bytes>, doc: Bytes)
    requires SCRATCH in files && !(files[SCRATCH] <= doc)
    ensures var fetch := Fetch([FinishStale(files[SCRATCH], doc)], true, Renamed, true);
            var (_, m) := FetchManifest(sha, files, None, fetch);
            && HonestRun(doc, Get(files, SCRATCH), 0, fetch.turns) && RangesHonoured(Get(files, SCRATCH), 0, fetch.turns)
            && m.Fetched? && m.bytes == Spliced(files[SCRATCH], doc) != doc
  {
    var stale := files[SCRATCH];
    SplicedPrefix(stale, doc);
    if |stale| < |doc| {
      var chunks := [Stored(doc[|stale|..])];
      assert Served(chunks) == doc[|stale|..] + Served([]) == doc[|stale|..];
      assert Accepted(chunks) == doc[|stale|..] + Accepted([]) == doc[|stale|..];
    }
  }

  /**
   What a fetch leaves of the scratch file: nothing after a rename, or when a
   mismatched download could be unlinked, and otherwise all that was downloaded.
   The copy that replaces a failed rename leaves it, too.
   */
  lemma ScratchLeft(sha: Bytes -> string, files: map<string, Bytes>, expected: Option<string>, fetch: Fetch)
    requires forall x :: sha(x) != SCRATCH
    ensures var (after, m) := FetchManifest(sha, files, expected, fetch);
            var t := Download(Get(files, SCRATCH), fetch.turns);
            var mismatched := t.outcome == Complete && t.file.Some? && fetch.readable
                              && expected.Some? && expected.value != "sha256:" + sha(t.file.value);
            Get(after, SCRATCH) == if (mismatched && fetch.unlinked) || (m.Fetched? && fetch.persist.Renamed?) then None else t.file
  {
  }

  /** So the tag fetch after a renamed one returns what is served, whatever was there before the first, if its own last flush loses nothing. */
  lemma RenamedThenTag(sha: Bytes -> string, files: map<string, Bytes>, expected: Option<string>, first: Fetch, doc: Bytes, second: Fetch)
    requires forall x :: sha(x) != SCRATCH
    requires FetchManifest(sha, files, expected, first).1.Fetched? && first.persist.Renamed?
    requires HonestRun(doc, None, 0, second.turns)
    requires FetchManifest(sha, FetchManifest(sha, files, expected, first).0, None, second).1.Fetched?
    ensures FetchManifest(sha, FetchManifest(sha, files, expected, first).0, None, second).1.bytes == doc
            <==> LostTail(None, 0, second.turns) == 0
  {
    ScratchLeft(sha, files, expected, first);
    TagManifestExact(sha, FetchManifest(sha, files, expected, first).0, doc, second);
  }

  /** After a copied one, though, a tag that has moved on to any document the old one is no prefix of yields a splice of the two. */
  lemma CopiedThenTagSplices(sha: Bytes -> string, files: map<string, Bytes>, expected: Option<string>, first: Fetch, doc: Bytes)
    requires forall x :: sha(x) != SCRATCH
    requires FetchManifest(sha, files, expected, first).1.Fetched? && first.persist.Copied?
    requires !(FetchManifest(sha, files, expected, first).1.bytes <= doc)
    ensures var (after, m) := FetchManifest(sha, files, expected, first);
            var second := Fetch([FinishStale(m.bytes, doc)], true, Renamed, true);
            var again := FetchManifest(sha, after, None, second).1;
            HonestRun(doc, Get(after, SCRATCH), 0, second.turns) && again.Fetched? && again.bytes == Spliced(m.bytes, doc) != doc
  {
    ScratchLeft(sha, files, expected, first);
    StaleScratchSplices(sha, FetchManifest(sha, files, expected, first).0, doc);
  }

  // ── Image indexes ─────────────────────────────────────────────────────────

  /** A child for this architecture, and for Linux or for no particular system. */
  predicate ForHost(child: Child, arch: string) {
    child.architecture == Some(arch) && (child.os == None || child.os == Some("linux"))
  }

  /** `child` is the first one for this host, or the very first when there is none. */
  ghost predicate IsPick(children: seq<Child>, arch: string, child: Child) {
    exists i :: 0 <= i < |children| && children[i] == child &&
      if ForHost(child, arch) then forall j :: 0 <= j < i ==> !ForHost(children[j], arch)
      else i == 0 && forall other <- children :: !ForHost(other, arch)
  }

  lemma {:induction false} FirstForHostIs(children: seq<Child>, arch: string)
    ensures match FirstForHost(children, arch)
            case Some(c) => ForHost(c, arch) && IsPick(children, arch, c)
            case None => forall other <- children :: !ForHost(other, arch)
  {
    if children != [] {
      if ForHost(children[0], arch) {
        assert IsPick(children, arch, children[0]);
      } else {
        FirstForHostIs(children[1..], arch);
        if FirstForHost(children[1..], arch).Some? {
          var c := FirstForHost(children[1..], arch).value;
          var i :| 0 <= i < |children[1..]| && children[1..][i] == c && forall j :: 0 <= j < i ==> !ForHost(children[1..][j], arch);
          assert children[i + 1] == c;
          assert forall j :: 0 < j < i + 1 ==> children[j] == children[1..][j - 1];
        }
      }
    }
  }

  /**
   A document is an index exactly when it lists manifests and no layers; the
   selected digest is then that of the pick, and only an index without children,
   or one whose pick has no digest, cannot be selected from.
   */
  lemma ChildSelection(env: Env, bytes: Bytes)
    requires env.parse(bytes).Some?
    ensures var doc := env.parse(bytes).value;
            match SelectIndexChild(env, bytes)
            case NotAnIndex => !doc.layers.NoLayers? || doc.manifests.None?
            case Selected(digest) =>
              && doc.layers.NoLayers? && doc.manifests.Some?
              && exists child <- doc.manifests.value :: IsPick(doc.manifests.value, env.arch, child) && child.digest == Some(digest)
            case Unselectable =>
              && doc.layers.NoLayers? && doc.manifests.Some?
              && (doc.manifests.value == [] ||
                  exists child <- doc.manifests.value :: IsPick(doc.manifests.value, env.arch, child) && child.digest == None)
  {
    var doc := env.parse(bytes).value;
    if doc.manifests.Some? {
      var children := doc.manifests.value;
      FirstForHostIs(children, env.arch);
      if FirstForHost(children, env.arch).None? && children != [] {
        assert IsPick(children, env.arch, children[0]);
      }
    }
  }

  // ── The layout directory ──────────────────────────────────────────────────

  /** The file named by a hash has that hash. */
  predicate Intact(env: Env, files: map<string, Bytes>, hex: string) {
    hex in files && env.sha(files[hex]) == hex
  }

  predicate IntactDigest(env: Env, files: map<string, Bytes>, digest: Option<string>) {
    digest.Some? && HexOf(digest.value).Some? && Intact(env, files, HexOf(digest.value).value)
  }

  /** What an image manifest lists: its config, and its layers when they are an array. */
  predicate Lists(doc: Doc, digest: Option<string>) {
    digest == doc.config || (doc.layers.Layers? && digest in doc.layers.digests)
  }

  /** The manifest named `hex`, its config and every layer it lists are present and hash to their names. */
  ghost predicate WholeImage(env: Env, files: map<string, Bytes>, hex: string) {
    && Intact(env, files, hex)
    && env.parse(files[hex]).Some?
    && var doc := env.parse(files[hex]).value;
       && IntactDigest(env, files, doc.config)
       && (doc.layers.Layers? ==> forall d <- doc.layers.digests :: IntactDigest(env, files, d))
  }

  /** A digest names the file `hex` exactly when it is `sha256:` and that. */
  lemma HexOfDigest(digest: string, hex: string)
    ensures HexOf(digest) == Some(hex) <==> digest == "sha256:" + hex
    ensures Digest(hex) == "sha256:" + hex
  {
    assert |OciRef.SHA256_PREFIX| == 7;
    if OciRef.SHA256_PREFIX <= digest {
      assert digest == digest[..7] + digest[7..];
    }
  }

  /** The blobs to pull are exactly those listed. */
  lemma BlobsAreListed(doc: Doc)
    ensures BlobsOf(doc).Some? <==> doc.config.Some?
    ensures BlobsOf(doc).Some? ==> forall d :: d in BlobsOf(doc).value <==> Lists(doc, d)
  {
  }

  lemma WholeLists(env: Env, files: map<string, Bytes>, hex: string)
    requires Intact(env, files, hex) && env.parse(files[hex]).Some?
    ensures WholeImage(env, files, hex) <==>
              var doc := env.parse(files[hex]).value;
              BlobsOf(doc).Some? && forall d <- BlobsOf(doc).value :: IntactDigest(env, files, d)
  {
    var doc := env.parse(files[hex]).value;
    BlobsAreListed(doc);
    if doc.config.Some? {
      assert doc.config in BlobsOf(doc).value by { assert Lists(doc, doc.config); }
      if doc.layers.Layers? {
        forall d <- doc.layers.digests ensures d in BlobsOf(doc).value {
          assert Lists(doc, d);
        }
      }
    }
  }

  /** No index, or one that names a whole image with the marker in place; a torn index is neither. */
  ghost predicate Closed(env: Env, layout: Layout) {
    match layout.index
    case NoIndex => true
    case TornIndex => false
    case Names(_, hex, size) =>
      layout.marker == Marked && WholeImage(env, layout.files, hex) && size == |layout.files[hex]|
  }

  /** Intact files stay, with their content. */
  ghost predicate Keeps(env: Env, before: map<string, Bytes>, after: map<string, Bytes>) {
    forall hex <- before :: Intact(env, before, hex) ==> hex in after && after[hex] == before[hex]
  }

  lemma {:induction false} PullBlobsKeeps(env: Env, files: map<string, Bytes>, digests: seq<Option<string>>, scripts: seq<BlobScript>)
    ensures var r := PullBlobs(env.sha, files, digests, scripts);
            && Keeps(env, files, r.files)
            && (r.verdict == Pulled ==> forall d <- digests :: IntactDigest(env, r.files, d))
    decreases |digests|
  {
    if digests != [] && digests[0].Some? && HexOf(digests[0].value).Some? {
      var hex := HexOf(digests[0].value).value;
      var script := if scripts == [] then NOTHING_YET else scripts[0];
      BlobIntegrity(env.sha, Get(files, hex), hex, script);
      var blob := PullBlob(env.sha, Get(files, hex), hex, script);
      var after := Put(files, hex, blob.file);
      assert Keeps(env, files, after);
      if blob.verdict == Pulled {
        PullBlobsKeeps(env, after, digests[1..], if scripts == [] then [] else scripts[1..]);
        assert Intact(env, after, hex);
      }
    }
  }

  /** Blobs that are all intact are not downloaded again, and nothing changes; only a failing read can stop the pull. */
  lemma {:induction false} IntactBlobsNotPulled(env: Env, files: map<string, Bytes>, digests: seq<Option<string>>, scripts: seq<BlobScript>)
    requires forall d <- digests :: IntactDigest(env, files, d)
    ensures var r := PullBlobs(env.sha, files, digests, scripts);
            && r.files == files && r.downloads == 0 && r.verdict != Pending
            && ((forall s <- scripts :: s.readable) ==> r.verdict == Pulled)
    decreases |digests|
  {
    if digests != [] {
      assert IntactDigest(env, files, digests[0]);
      var hex := HexOf(digests[0].value).value;
      assert Put(files, hex, Get(files, hex)) == files;
      IntactBlobsNotPulled(env, files, digests[1..], if scripts == [] then [] else scripts[1..]);
    }
  }

  /** The file of this name is none of the listed blobs. */
  predicate Unnamed(digests: seq<Option<string>>, hex: string) {
    Some(Digest(hex)) !in digests
  }

  lemma PullOneKeeps(env: Env, files: map<string, Bytes>, digest: string, hex: string, script: BlobScript)
    requires HexOf(digest) == Some(hex)
    ensures var blob := PullBlob(env.sha, Get(files, hex), hex, script);
            var after := Put(files, hex, blob.file);
            && (blob.verdict == Pulled ==> IntactDigest(env, after, Some(digest)))
            && forall name :: Unnamed([Some(digest)], name) ==> Get(after, name) == Get(files, name)
  {
    BlobIntegrity(env.sha, Get(files, hex), hex, script);
    HexOfDigest(digest, hex);
  }

  /** The pull stopped at blob `k`: every earlier one is intact, and of the later ones none was touched. */
  ghost predicate StoppedAt(env: Env, before: map<string, Bytes>, after: map<string, Bytes>, digests: seq<Option<string>>, k: nat) {
    && k < |digests|
    && (forall d <- digests[..k] :: IntactDigest(env, after, d))
    && (forall name :: Unnamed(digests[..k + 1], name) ==> Get(after, name) == Get(before, name))
  }

  /** Blobs are pulled in the listed order. */
  lemma {:induction false} StopsInOrder(env: Env, files: map<string, Bytes>, digests: seq<Option<string>>, scripts: seq<BlobScript>)
    requires PullBlobs(env.sha, files, digests, scripts).verdict != Pulled
    ensures exists k :: StoppedAt(env, files, PullBlobs(env.sha, files, digests, scripts).files, digests, k)
    decreases |digests|
  {
    var after := PullBlobs(env.sha, files, digests, scripts).files;
    var script := if scripts == [] then NOTHING_YET else scripts[0];
    var first := digests[0];
    assert digests[..1] == [first];
    if first.None? || HexOf(first.value).None? {
      assert StoppedAt(env, files, after, digests, 0);
    } else {
      var hex := HexOf(first.value).value;
      PullOneKeeps(env, files, first.value, hex, script);
      var blob := PullBlob(env.sha, Get(files, hex), hex, script);
      var mid := Put(files, hex, blob.file);
      if blob.verdict != Pulled {
        assert StoppedAt(env, files, after, digests, 0);
      } else {
        var later := if scripts == [] then [] else scripts[1..];
        StopsInOrder(env, mid, digests[1..], later);
        PullBlobsKeeps(env, mid, digests[1..], later);
        var k: nat :| StoppedAt(env, mid, after, digests[1..], k);
        assert IntactDigest(env, after, first);
        assert digests[..k + 1] == [first] + digests[1..][..k] && digests[..k + 2] == [first] + digests[1..][..k + 1];
        forall name | Unnamed(digests[..k + 2], name) ensures Get(after, name) == Get(files, name) {
          assert Unnamed([first], name) && Unnamed(digests[1..][..k + 1], name);
        }
        assert StoppedAt(env, files, after, digests, k + 1);
      }
    }
  }

  lemma FirstThenRest(env: Env, files: map<string, Bytes>, first: string, rest: seq<Option<string>>, scripts: seq<BlobScript>)
    requires HexOf(first).Some?
    ensures var name := HexOf(first).value;
            var blob := PullBlob(env.sha, Get(files, name), name, if scripts == [] then NOTHING_YET else scripts[0]);
            var after := Put(files, name, blob.file);
            PullBlobs(env.sha, files, [Some(first)] + rest, scripts) ==
              if blob.verdict != Pulled then BlobsRun(after, blob.verdict, blob.downloads)
              else
                var later := PullBlobs(env.sha, after, rest, if scripts == [] then [] else scripts[1..]);
                later.(downloads := blob.downloads + later.downloads)
  {
    assert ([Some(first)] + rest)[1..] == rest;
  }

  /** The config is pulled first; only once it is there follow the layers, in the order listed, and only then marker and index. */
  lemma ConfigThenLayers(env: Env, layout: Layout, bytes: Bytes, hex: string, script: Script)
    requires env.parse(bytes).Some? && IsDigest(env.parse(bytes).value.config)
    ensures var doc := env.parse(bytes).value;
            var name := HexOf(doc.config.value).value;
            var config := PullBlob(env.sha, Get(layout.files, name), name, if script.blobs == [] then NOTHING_YET else script.blobs[0]);
            var files := Put(layout.files, name, config.file);
            var r := PullContents(env, layout, bytes, hex, script);
            if config.verdict != Pulled then r == ImageRun(layout.(files := files), config.verdict, config.downloads)
            else
              var layers := PullBlobs(env.sha, files, if doc.layers.Layers? then doc.layers.digests else [], if script.blobs == [] then [] else script.blobs[1..]);
              && r.layout.files == layers.files && r.downloads == config.downloads + layers.downloads
              && (layers.verdict != Pulled ==> r.verdict == layers.verdict && r.layout == layout.(files := layers.files))
  {
    var doc := env.parse(bytes).value;
    var listed := if doc.layers.Layers? then doc.layers.digests else [];
    assert BlobsOf(doc).value == [Some(doc.config.value)] + listed;
    FirstThenRest(env, layout.files, doc.config.value, listed, script.blobs);
  }

  predicate IsDigest(digest: Option<string>) {
    digest.Some? && HexOf(digest.value).Some?
  }

  /** The writes after the manifest are reached: it parses, and config and layers are all pulled. */
  predicate AllPulled(env: Env, layout: Layout, bytes: Bytes, script: Script) {
    env.parse(bytes).Some? && BlobsOf(env.parse(bytes).value).Some? &&
    PullBlobs(env.sha, layout.files, BlobsOf(env.parse(bytes).value).value, script.blobs).verdict == Pulled
  }

  /** Contents pulled on top of a stored manifest: what they do to the marker, to the index and to whole images. */
  lemma ContentsLeave(env: Env, layout: Layout, bytes: Bytes, script: Script)
    requires Get(layout.files, env.sha(bytes)) == Some(bytes)
    ensures var r := PullContents(env, layout, bytes, env.sha(bytes), script);
            && Keeps(env, layout.files, r.layout.files)
            && (r.verdict == Pulled <==> AllPulled(env, layout, bytes, script) && script.marker.Written? && script.index.Written?)
            && (r.verdict == Pulled ==> WholeImage(env, r.layout.files, env.sha(bytes)))
            && r.layout.marker ==
                 (if !AllPulled(env, layout, bytes, script) || script.marker.Unopened? then layout.marker
                  else if script.marker.Torn? then TornMark else Marked)
            && r.layout.index ==
                 (if !AllPulled(env, layout, bytes, script) || !script.marker.Written? || script.index.Unopened? then layout.index
                  else if script.index.Torn? then TornIndex
                  else Names(MediaTypeOf(env.parse(bytes).value), env.sha(bytes), |bytes|))
  {
    if env.parse(bytes).Some? && BlobsOf(env.parse(bytes).value).Some? {
      var digests := BlobsOf(env.parse(bytes).value).value;
      PullBlobsKeeps(env, layout.files, digests, script.blobs);
      assert Intact(env, layout.files, env.sha(bytes));
    }
  }

  /** Of a closed layout they make an open one exactly by tearing the index, or the marker of an existing index. */
  lemma ContentsClosedExactly(env: Env, layout: Layout, bytes: Bytes, script: Script)
    requires Get(layout.files, env.sha(bytes)) == Some(bytes)
    ensures var r := PullContents(env, layout, bytes, env.sha(bytes), script);
            && (r.verdict == Pulled ==> Closed(env, r.layout))
            && (Closed(env, layout) ==>
                  (Closed(env, r.layout) <==>
                     !(AllPulled(env, layout, bytes, script) &&
                       ((script.marker.Torn? && layout.index.Names?) || (script.marker.Written? && script.index.Torn?)))))
  {
    ContentsLeave(env, layout, bytes, script);
    if Closed(env, layout) && layout.index.Names? {
      KeepsWhole(env, layout.files, PullContents(env, layout, bytes, env.sha(bytes), script).layout.files, layout.index.hex);
    }
  }

  lemma KeepsWhole(env: Env, before: map<string, Bytes>, after: map<string, Bytes>, hex: string)
    requires WholeImage(env, before, hex) && Keeps(env, before, after)
    ensures WholeImage(env, after, hex) && after[hex] == before[hex]
  {
    forall d | Lists(env.parse(before[hex]).value, d) ensures IntactDigest(env, after, d) {
      assert IntactDigest(env, before, d);
    }
  }

  lemma ResolvedStored(env: Env, files: map<string, Bytes>, expected: Option<string>, script: Script)
    ensures var (after, m) := ResolveManifest(env, files, expected, script);
            m.Fetched? ==> m.hex == env.sha(m.bytes) && Get(after, m.hex) == Some(m.bytes)
  {
  }

  /** The pull gets to the marker: manifest, config and layers are all on disk. */
  predicate ReachesMarker(env: Env, layout: Layout, ref: OciRef.ParsedRef, script: Script) {
    var (files, m) := ResolveManifest(env, layout.files, OciRef.ExpectedDigest(ref), script);
    m.Fetched? && AllPulled(env, layout.(files := files), m.bytes, script)
  }

  predicate TearsMarker(env: Env, layout: Layout, ref: OciRef.ParsedRef, script: Script) {
    ReachesMarker(env, layout, ref, script) && script.marker.Torn?
  }

  predicate TearsIndex(env: Env, layout: Layout, ref: OciRef.ParsedRef, script: Script) {
    ReachesMarker(env, layout, ref, script) && script.marker.Written? && script.index.Torn?
  }

  /**
   Layout closure.  Into a directory without an index, every pull leaves, at
   whatever point it stops or crashes, an index whose manifest, config and layers
   are all present and hash to their names if it returned Ok, a torn index if the
   write of index.json was reached and cut short, and none in all other cases.
   */
  lemma LayoutClosure(env: Env, layout: Layout, ref: OciRef.ParsedRef, script: Script)
    requires layout.index.NoIndex?
    ensures var r := PullImage(env, layout, ref, script);
            && (r.layout.index.Names? <==> r.verdict == Pulled)
            && (r.layout.index.TornIndex? <==> TearsIndex(env, layout, ref, script))
            && (Closed(env, r.layout) <==> !TearsIndex(env, layout, ref, script))
  {
    var (files, m) := ResolveManifest(env, layout.files, OciRef.ExpectedDigest(ref), script);
    if m.Fetched? {
      ResolvedStored(env, layout.files, OciRef.ExpectedDigest(ref), script);
      ContentsLeave(env, layout.(files := files), m.bytes, script);
      ContentsClosedExactly(env, layout.(files := files), m.bytes, script);
    }
  }

  lemma FetchPending(sha: Bytes -> string, files: map<string, Bytes>, expected: Option<string>, fetch: Fetch)
    ensures FetchManifest(sha, files, expected, fetch).1.Fetching? <==> Download(Get(files, SCRATCH), fetch.turns).outcome.Running?
  {
  }

  lemma ContentsPending(env: Env, layout: Layout, bytes: Bytes, hex: string, script: Script)
    ensures PullContents(env, layout, bytes, hex, script).verdict == Pending <==>
              && env.parse(bytes).Some? && env.parse(bytes).value.config.Some?
              && PullBlobs(env.sha, layout.files, BlobsOf(env.parse(bytes).value).value, script.blobs).verdict == Pending
  {
  }

  /** A pull is pending exactly while one of its downloads has not returned: of the manifest, of the child an index selects, or of a blob. */
  lemma PendingExactly(env: Env, layout: Layout, ref: OciRef.ParsedRef, script: Script)
    ensures var expected := OciRef.ExpectedDigest(ref);
            var (files1, top) := FetchManifest(env.sha, layout.files, expected, script.top);
            var (files, m) := ResolveManifest(env, layout.files, expected, script);
            PullImage(env, layout, ref, script).verdict == Pending <==>
              || Download(Get(layout.files, SCRATCH), script.top.turns).outcome.Running?
              || (top.Fetched? && SelectIndexChild(env, top.bytes).Selected?
                  && Download(Get(files1, SCRATCH), script.child.turns).outcome.Running?)
              || (m.Fetched? && env.parse(m.bytes).Some? && env.parse(m.bytes).value.config.Some?
                  && PullBlobs(env.sha, files, BlobsOf(env.parse(m.bytes).value).value, script.blobs).verdict == Pending)
  {
    var expected := OciRef.ExpectedDigest(ref);
    var (files1, top) := FetchManifest(env.sha, layout.files, expected, script.top);
    var (files, m) := ResolveManifest(env, layout.files, expected, script);
    ChildChosen(env, layout.files, expected, script);
    FetchPending(env.sha, layout.files, expected, script.top);
    if top.Fetched? && SelectIndexChild(env, top.bytes).Selected? {
      FetchPending(env.sha, files1, Some(SelectIndexChild(env, top.bytes).digest), script.child);
    }
    if m.Fetched? {
      ContentsPending(env, layout.(files := files), m.bytes, m.hex, script);
    }
  }

  lemma ChildChosen(env: Env, files: map<string, Bytes>, expected: Option<string>, script: Script)
    ensures var (files1, top) := FetchManifest(env.sha, files, expected, script.top);
            ResolveManifest(env, files, expected, script) ==
              if top.Fetched? && SelectIndexChild(env, top.bytes).Selected? then
                FetchManifest(env.sha, files1, Some(SelectIndexChild(env, top.bytes).digest), script.child)
              else (files1, if top.Fetched? && SelectIndexChild(env, top.bytes).Unselectable? then FetchFailed else top)
  {
  }

  /** Ok repairs everything: whatever the directory was - torn index, torn marker, broken blobs - it is closed and has an index. */
  lemma PullOkCloses(env: Env, layout: Layout, ref: OciRef.ParsedRef, script: Script)
    requires PullImage(env, layout, ref, script).verdict == Pulled
    ensures var r := PullImage(env, layout, ref, script);
            Closed(env, r.layout) && r.layout.index.Names? && r.layout.marker == Marked
  {
    var (files, m) := ResolveManifest(env, layout.files, OciRef.ExpectedDigest(ref), script);
    ResolvedStored(env, layout.files, OciRef.ExpectedDigest(ref), script);
    ContentsLeave(env, layout.(files := files), m.bytes, script);
    ContentsClosedExactly(env, layout.(files := files), m.bytes, script);
  }

  // ── Further pulls into the same directory ─────────────────────────────────

  /** Stated only where used: distinct contents have distinct hashes, and no hash is the scratch name. */
  ghost predicate GoodHash(sha: Bytes -> string) {
    && (forall x, y :: sha(x) == sha(y) ==> x == y)
    && (forall x :: sha(x) != SCRATCH)
  }

  /** The manifest file a fetch cuts short: it gets as far as the copy that replaces a failed rename, and that stops early. */
  function TornCopy(sha: Bytes -> string, files: map<string, Bytes>, expected: Option<string>, fetch: Fetch): Option<string> {
    var t := Download(Get(files, SCRATCH), fetch.turns);
    if t.outcome != Complete || t.file.None? || !fetch.readable then None
    else
      var bytes := t.file.value;
      if expected.Some? && expected.value != Digest(sha(bytes)) then None
      else if fetch.persist.CopyFailed? && fetch.persist.kept.Some? && fetch.persist.kept.value < |bytes| then Some(sha(bytes))
      else None
  }

  function TornManifest(env: Env, files: map<string, Bytes>, expected: Option<string>, script: Script): Option<string> {
    var torn := TornCopy(env.sha, files, expected, script.top);
    var (files1, top) := FetchManifest(env.sha, files, expected, script.top);
    if torn.Some? then torn
    else if top.Fetched? && SelectIndexChild(env, top.bytes).Selected? then
      TornCopy(env.sha, files1, Some(SelectIndexChild(env, top.bytes).digest), script.child)
    else None
  }

  /** Every intact file stays, but for the torn one, which no longer hashes to its name. */
  ghost predicate KeepsAllBut(env: Env, before: map<string, Bytes>, after: map<string, Bytes>, torn: Option<string>) {
    && (forall hex <- before :: Intact(env, before, hex) && torn != Some(hex) ==> hex in after && after[hex] == before[hex])
    && (torn.Some? ==> !Intact(env, after, torn.value))
  }

  lemma FetchKeepsAllBut(env: Env, files: map<string, Bytes>, expected: Option<string>, fetch: Fetch)
    requires GoodHash(env.sha)
    ensures var (after, m) := FetchManifest(env.sha, files, expected, fetch);
            && KeepsAllBut(env, files, after, TornCopy(env.sha, files, expected, fetch))
            && (TornCopy(env.sha, files, expected, fetch).Some? ==> m == FetchFailed)
  {
    var after := FetchManifest(env.sha, files, expected, fetch).0;
    var torn := TornCopy(env.sha, files, expected, fetch);
    forall hex <- files | Intact(env, files, hex) && torn != Some(hex) ensures hex in after && after[hex] == files[hex] {
      assert env.sha(files[hex]) != SCRATCH;
      var t := Download(Get(files, SCRATCH), fetch.turns);
      if t.file.Some? && env.sha(t.file.value) == hex {
        assert t.file.value == files[hex];
        assert t.file.value[..|t.file.value|] == t.file.value;
      }
    }
    if torn.Some? {
      assert |after[torn.value]| < |Download(Get(files, SCRATCH), fetch.turns).file.value|;
    }
  }

  /** A fetch keeps every intact file exactly when it does not cut one short. */
  lemma FetchKeepsExactly(env: Env, files: map<string, Bytes>, expected: Option<string>, fetch: Fetch)
    requires GoodHash(env.sha)
    ensures var torn := TornCopy(env.sha, files, expected, fetch);
            Keeps(env, files, FetchManifest(env.sha, files, expected, fetch).0) <==> !(torn.Some? && Intact(env, files, torn.value))
  {
    FetchKeepsAllBut(env, files, expected, fetch);
  }

  lemma ResolveKeepsAllBut(env: Env, files: map<string, Bytes>, expected: Option<string>, script: Script)
    requires GoodHash(env.sha)
    ensures var (after, m) := ResolveManifest(env, files, expected, script);
            && KeepsAllBut(env, files, after, TornManifest(env, files, expected, script))
            && (TornManifest(env, files, expected, script).Some? ==> !m.Fetched?)
  {
    FetchKeepsAllBut(env, files, expected, script.top);
    var (files1, top) := FetchManifest(env.sha, files, expected, script.top);
    if top.Fetched? && SelectIndexChild(env, top.bytes).Selected? {
      FetchKeepsAllBut(env, files1, Some(SelectIndexChild(env, top.bytes).digest), script.child);
    }
  }

  /** The index of the layout needs this file: its manifest, or a blob that lists. */
  ghost predicate Needed(env: Env, layout: Layout, hex: string) {
    layout.index.Names? &&
    (hex == layout.index.hex ||
     (layout.index.hex in layout.files && env.parse(layout.files[layout.index.hex]).Some? &&
      Lists(env.parse(layout.files[layout.index.hex]).value, Some(Digest(hex)))))
  }

  /** A named image survives a change of the files exactly when it does not need the torn one. */
  lemma WholeAllBut(env: Env, layout: Layout, after: map<string, Bytes>, torn: Option<string>)
    requires layout.index.Names? && WholeImage(env, layout.files, layout.index.hex) && KeepsAllBut(env, layout.files, after, torn)
    ensures WholeImage(env, after, layout.index.hex) <==> !(torn.Some? && Needed(env, layout, torn.value))
    ensures WholeImage(env, after, layout.index.hex) ==> after[layout.index.hex] == layout.files[layout.index.hex]
  {
    var hex := layout.index.hex;
    if torn != Some(hex) {
      var doc := env.parse(layout.files[hex]).value;
      assert after[hex] == layout.files[hex];
      if torn.Some? && Needed(env, layout, torn.value) {
        var d := Some(Digest(torn.value));
        HexOfDigest(d.value, torn.value);
        assert Lists(doc, d) && !IntactDigest(env, after, d);
      } else {
        forall d | Lists(doc, d) ensures IntactDigest(env, after, d) {
          assert IntactDigest(env, layout.files, d);
          HexOfDigest(d.value, HexOf(d.value).value);
        }
      }
    }
  }

  /**
   A closed layout stays closed through any further pull of any reference,
   wherever it stops, exactly unless the pull cuts short index.json, the marker of
   an existing index, or the copy of a manifest that the existing index needs.
   */
  lemma ClosedStaysClosed(env: Env, layout: Layout, ref: OciRef.ParsedRef, script: Script)
    requires GoodHash(env.sha) && Closed(env, layout)
    ensures var torn := TornManifest(env, layout.files, OciRef.ExpectedDigest(ref), script);
            Closed(env, PullImage(env, layout, ref, script).layout) <==>
              && !TearsIndex(env, layout, ref, script)
              && !(layout.index.Names? && TearsMarker(env, layout, ref, script))
              && !(torn.Some? && Needed(env, layout, torn.value))
  {
    var expected := OciRef.ExpectedDigest(ref);
    var (files, m) := ResolveManifest(env, layout.files, expected, script);
    var torn := TornManifest(env, layout.files, expected, script);
    var resolved := layout.(files := files);
    ResolveKeepsAllBut(env, layout.files, expected, script);
    ResolvedStored(env, layout.files, expected, script);
    if layout.index.Names? {
      WholeAllBut(env, layout, files, torn);
    }
    if m.Fetched? {
      ContentsClosedExactly(env, resolved, m.bytes, script);
    }
  }

  /** A full reply that delivers the whole of `bytes` at once. */
  function Whole(bytes: Bytes): Turn {
    Turn(Response(200, Body(true, [Stored(bytes)], true, 0)), 0)
  }

  lemma WholeArrives(file: Option<Bytes>, bytes: Bytes)
    ensures Download(file, [Whole(bytes)]) == Transfer(Some(bytes), Complete)
  {
    var turn := Whole(bytes);
    assert Accepted([Stored(bytes)]) == bytes + Accepted([]) == bytes;
    assert Pumped(turn.reply.body) == bytes;
    assert [] + bytes == bytes;
  }

  /** A digest reference to what the layout's index names. */
  function SelfRef(layout: Layout): OciRef.ParsedRef
    requires layout.index.Names?
  {
    OciRef.ParsedRef("h", "r", Digest(layout.index.hex), true)
  }

  /** Pulling again what the index names, with the rename failing and the copy cut short at its start, breaks every closed layout. */
  lemma TornCopyBreaks(env: Env, layout: Layout)
    requires GoodHash(env.sha) && Closed(env, layout) && layout.index.Names? && layout.files[layout.index.hex] != []
    ensures var bytes := layout.files[layout.index.hex];
            var script := Script(Fetch([Whole(bytes)], true, CopyFailed(Some(0)), true), Fetch([], true, Renamed, true), [], Written, Written);
            !Closed(env, PullImage(env, layout, SelfRef(layout), script).layout)
  {
    var bytes := layout.files[layout.index.hex];
    var script := Script(Fetch([Whole(bytes)], true, CopyFailed(Some(0)), true), Fetch([], true, Renamed, true), [], Written, Written);
    WholeArrives(Get(layout.files, SCRATCH), bytes);
    assert env.sha(bytes) == layout.index.hex;
    ClosedStaysClosed(env, layout, SelfRef(layout), script);
  }

  /** Pulling again what a closed layout names, delivered whole and renamed, keeps all of it. */
  lemma NamedAgain(env: Env, layout: Layout, script: Script)
    requires GoodHash(env.sha) && Closed(env, layout) && layout.index.Names?
    requires SelectIndexChild(env, layout.files[layout.index.hex]).NotAnIndex?
    requires script.top == Fetch([Whole(layout.files[layout.index.hex])], true, Renamed, true)
    ensures var bytes := layout.files[layout.index.hex];
            var (files, m) := ResolveManifest(env, layout.files, OciRef.ExpectedDigest(SelfRef(layout)), script);
            m == Fetched(bytes, layout.index.hex) && WholeImage(env, files, layout.index.hex) && files[layout.index.hex] == bytes
  {
    WholeArrives(Get(layout.files, SCRATCH), layout.files[layout.index.hex]);
    assert env.sha(layout.files[layout.index.hex]) == layout.index.hex;
    ResolveKeepsAllBut(env, layout.files, OciRef.ExpectedDigest(SelfRef(layout)), script);
    WholeAllBut(env, layout, ResolveManifest(env, layout.files, OciRef.ExpectedDigest(SelfRef(layout)), script).0, None);
  }

  /** So does pulling again what the index names without any failure but a write of index.json that is cut short. */
  lemma TornIndexBreaks(env: Env, layout: Layout)
    requires GoodHash(env.sha) && Closed(env, layout) && layout.index.Names?
    requires SelectIndexChild(env, layout.files[layout.index.hex]).NotAnIndex?
    ensures var bytes := layout.files[layout.index.hex];
            var script := Script(Fetch([Whole(bytes)], true, Renamed, true), Fetch([], true, Renamed, true), [], Written, Torn);
            PullImage(env, layout, SelfRef(layout), script).layout.index == TornIndex
  {
    var bytes := layout.files[layout.index.hex];
    var script := Script(Fetch([Whole(bytes)], true, Renamed, true), Fetch([], true, Renamed, true), [], Written, Torn);
    NamedAgain(env, layout, script);
    var files := ResolveManifest(env, layout.files, OciRef.ExpectedDigest(SelfRef(layout)), script).0;
    IntactBlobsNotPulled(env, files, BlobsOf(env.parse(bytes).value).value, []);
    ContentsLeave(env, layout.(files := files), bytes, script);
  }

  lemma PinnedFetchUnique(sha: Bytes -> string, expected: string, f1: map<string, Bytes>, f2: map<string, Bytes>, s1: Fetch, s2: Fetch)
    requires GoodHash(sha)
    requires FetchManifest(sha, f1, Some(expected), s1).1.Fetched? && FetchManifest(sha, f2, Some(expected), s2).1.Fetched?
    ensures FetchManifest(sha, f1, Some(expected), s1).1 == FetchManifest(sha, f2, Some(expected), s2).1
  {
    ManifestIntegrity(sha, f1, Some(expected), s1);
    ManifestIntegrity(sha, f2, Some(expected), s2);
    var m1, m2 := FetchManifest(sha, f1, Some(expected), s1).1, FetchManifest(sha, f2, Some(expected), s2).1;
    DigestInjective(sha(m1.bytes), sha(m2.bytes));
  }

  /** Two resolutions of the same pinned digest that both return, return the same manifest. */
  lemma PinnedManifestUnique(env: Env, expected: string, f1: map<string, Bytes>, f2: map<string, Bytes>, s1: Script, s2: Script)
    requires GoodHash(env.sha)
    requires ResolveManifest(env, f1, Some(expected), s1).1.Fetched?
    requires ResolveManifest(env, f2, Some(expected), s2).1.Fetched?
    ensures ResolveManifest(env, f1, Some(expected), s1).1 == ResolveManifest(env, f2, Some(expected), s2).1
  {
    PinnedFetchUnique(env.sha, expected, f1, f2, s1.top, s2.top);
    var (g1, top) := FetchManifest(env.sha, f1, Some(expected), s1.top);
    var g2 := FetchManifest(env.sha, f2, Some(expected), s2.top).0;
    match SelectIndexChild(env, top.bytes)
    case Selected(digest) => PinnedFetchUnique(env.sha, digest, g1, g2, s1.child, s2.child);
    case _ =>
  }

  /**
   After an Ok pull the manifest resolved, and everything it lists, is intact on
   disk, and index.json names it by hash, size and media type.
   */
  lemma PulledIntact(env: Env, layout: Layout, ref: OciRef.ParsedRef, script: Script)
    requires PullImage(env, layout, ref, script).verdict == Pulled
    ensures var m := ResolveManifest(env, layout.files, OciRef.ExpectedDigest(ref), script).1;
            var r := PullImage(env, layout, ref, script).layout;
            && m.Fetched? && Get(r.files, m.hex) == Some(m.bytes) && env.parse(m.bytes).Some?
            && WholeImage(env, r.files, m.hex)
            && var doc := env.parse(m.bytes).value;
               && IntactDigest(env, r.files, doc.config)
               && (doc.layers.Layers? ==> forall d <- doc.layers.digests :: IntactDigest(env, r.files, d))
               && r.index == Names(match doc.mediaType case Some(t) => t case None => OCI_MANIFEST_MEDIA, env.sha(m.bytes), |m.bytes|)
  {
    var (files, m) := ResolveManifest(env, layout.files, OciRef.ExpectedDigest(ref), script);
    ResolvedStored(env, layout.files, OciRef.ExpectedDigest(ref), script);
    ContentsLeave(env, layout.(files := files), m.bytes, script);
    assert Intact(env, files, m.hex);
  }

  /** After an Ok pull of a digest reference, pulling it again downloads no blob, whatever the network does. */
  lemma RepeatPullsNoBlob(env: Env, layout: Layout, ref: OciRef.ParsedRef, first: Script, second: Script)
    requires GoodHash(env.sha) && ref.isDigest
    requires PullImage(env, layout, ref, first).verdict == Pulled
    ensures PullImage(env, PullImage(env, layout, ref, first).layout, ref, second).downloads == 0
  {
    var files1 := PullImage(env, layout, ref, first).layout.files;
    var m1 := ResolveManifest(env, layout.files, Some(ref.reference), first).1;
    var (files2, m2) := ResolveManifest(env, files1, Some(ref.reference), second);
    PulledIntact(env, layout, ref, first);
    if m2.Fetched? {
      PinnedManifestUnique(env, ref.reference, layout.files, files1, first, second);
      ResolveKeepsAllBut(env, files1, Some(ref.reference), second);
      KeepsWhole(env, files1, files2, m1.hex);
      IntactBlobsNotPulled(env, files2, BlobsOf(env.parse(m1.bytes).value).value, second.blobs);
    }
  }
}
