/**
 Pulling one image into an OCI layout directory: `src/oci_pull.rs` over the
 resumable download.  SHA-256 and JSON parsing are parameters (`Env`); the
 network and the fallible file operations are scripts, and a script that is used
 up leaves the pull where a crash at that point would leave it.
 */
module OciPull {
  import opened Common
  import opened Transport
  import OciRef

  /** Full re-pulls before a blob that keeps failing verification is given up. */
  const VERIFY_REPULL_ATTEMPTS: nat := 3

  const SCRATCH := ".manifest.tmp"

  const OCI_MANIFEST_MEDIA := "application/vnd.oci.image.manifest.v1+json"

  // ── Documents ─────────────────────────────────────────────────────────────

  datatype Child = Child(architecture: Option<string>, os: Option<string>, digest: Option<string>)

  datatype Layers = NoLayers | NotAnArray | Layers(digests: seq<Option<string>>)

  /** The members of a manifest or index the puller looks at; `None` where absent or of another type. */
  datatype Doc = Doc(config: Option<string>, layers: Layers, manifests: Option<seq<Child>>, mediaType: Option<string>)

  datatype Env = Env(sha: Bytes -> string, parse: Bytes -> Option<Doc>, arch: string)

  datatype Selected = NotAnIndex | Unselectable | Selected(digest: string)

  function FirstForHost(children: seq<Child>, arch: string): Option<Child> {
    if children == [] then None
    else if children[0].architecture == Some(arch) && (children[0].os.None? || children[0].os.value == "linux") then
      Some(children[0])
    else FirstForHost(children[1..], arch)
  }

  /** The child manifest an image index stands for on this host. */
  function SelectIndexChild(env: Env, bytes: Bytes): Selected {
    match env.parse(bytes)
    case None => Unselectable
    case Some(doc) =>
      if !(doc.layers.NoLayers? && doc.manifests.Some?) then NotAnIndex
      else
        var children := doc.manifests.value;
        var pick := match FirstForHost(children, env.arch)
                    case Some(c) => Some(c)
                    case None => if children == [] then None else Some(children[0]);
        if pick.Some? && pick.value.digest.Some? then Selected(pick.value.digest.value) else Unselectable
  }

  /** The blobs an image manifest lists, in pull order; `None` when it has no config. */
  function BlobsOf(doc: Doc): Option<seq<Option<string>>> {
    if doc.config.None? then None
    else Some([doc.config] + if doc.layers.Layers? then doc.layers.digests else [])
  }

  function MediaTypeOf(doc: Doc): string {
    if doc.mediaType.Some? then doc.mediaType.value else OCI_MANIFEST_MEDIA
  }

  function Digest(hex: string): string {
    OciRef.SHA256_PREFIX + hex
  }

  /** The file name of a blob: its digest without the algorithm, when that is sha256. */
  function HexOf(digest: string): Option<string> {
    if OciRef.SHA256_PREFIX <= digest then Some(digest[|OciRef.SHA256_PREFIX|..]) else None
  }

  // ── One blob ──────────────────────────────────────────────────────────────

  datatype Verdict = Pending | Pulled | Failed

  /** One download of a blob, whether it could be read for verification, and discarded when it fails that. */
  datatype Pass = Pass(turns: seq<Turn>, readable: bool, discarded: bool)

  /** One blob: whether what is on disk beforehand can be read, and the downloads that follow. */
  datatype BlobScript = BlobScript(readable: bool, passes: seq<Pass>)

  const NOTHING_YET := BlobScript(true, [])

  datatype PassEnd = Interrupted | GaveUp | Matched | Mismatched

  datatype BlobRun = BlobRun(file: Option<Bytes>, verdict: Verdict, downloads: nat)

  predicate Verified(sha: Bytes -> string, file: Option<Bytes>, hex: string) {
    file.Some? && sha(file.value) == hex
  }

  datatype Checked = Matches | Differs | Unreadable

  /** A missing file differs; one that cannot be read is an error. */
  function Check(sha: Bytes -> string, file: Option<Bytes>, hex: string, readable: bool): Checked {
    if Verified(sha, file, hex) && readable then Matches
    else if file.Some? && !readable then Unreadable
    else Differs
  }

  /** One download and its verification; a file that fails it is discarded, if that succeeds. */
  function OnePass(sha: Bytes -> string, file: Option<Bytes>, hex: string, pass: Pass): (Option<Bytes>, PassEnd) {
    var t := Download(file, pass.turns);
    if t.outcome.Running? then (t.file, Interrupted)
    else if t.outcome != Complete then (t.file, GaveUp)
    else match Check(sha, t.file, hex, pass.readable)
      case Matches => (t.file, Matched)
      case Unreadable => (t.file, GaveUp)
      case Differs => (if pass.discarded then None else t.file, Mismatched)
  }

  /** Download and verify, from attempt number `attempt` on. */
  function Repull(sha: Bytes -> string, file: Option<Bytes>, hex: string, passes: seq<Pass>, attempt: nat): BlobRun
    decreases |passes|
  {
    if attempt > VERIFY_REPULL_ATTEMPTS then BlobRun(file, Failed, 0)
    else if passes == [] then BlobRun(file, Pending, 0)
    else
      var (after, end) := OnePass(sha, file, hex, passes[0]);
      match end
      case Interrupted => BlobRun(after, Pending, 1)
      case GaveUp => BlobRun(after, Failed, 1)
      case Matched => BlobRun(after, Pulled, 1)
      case Mismatched =>
        var rest := Repull(sha, after, hex, passes[1..], attempt + 1);
        rest.(downloads := rest.downloads + 1)
  }

  function PullBlob(sha: Bytes -> string, file: Option<Bytes>, hex: string, script: BlobScript): BlobRun {
    match Check(sha, file, hex, script.readable)
    case Matches => BlobRun(file, Pulled, 0)
    case Unreadable => BlobRun(file, Failed, 0)
    case Differs => Repull(sha, file, hex, script.passes, 1)
  }

  // ── One manifest ──────────────────────────────────────────────────────────

  /**
   How the scratch file reaches its content-addressed name: renamed, copied in
   place, or copied until the write failed after `kept` bytes (`None`: not opened).
   */
  datatype Persist = Renamed | Copied | CopyFailed(kept: Option<nat>)

  datatype Fetch = Fetch(turns: seq<Turn>, readable: bool, persist: Persist, unlinked: bool)

  datatype Manifest = Fetching | FetchFailed | Fetched(bytes: Bytes, hex: string)

  function FetchManifest(sha: Bytes -> string, files: map<string, Bytes>, expected: Option<string>, fetch: Fetch)
    : (map<string, Bytes>, Manifest)
  {
    var t := Download(Get(files, SCRATCH), fetch.turns);
    var mid := Put(files, SCRATCH, t.file);
    if t.outcome.Running? then (mid, Fetching)
    else if t.outcome != Complete || t.file.None? || !fetch.readable then (mid, FetchFailed)
    else
      var bytes := t.file.value;
      var hex := sha(bytes);
      if expected.Some? && expected.value != Digest(hex) then
        (if fetch.unlinked then mid - {SCRATCH} else mid, FetchFailed)
      else match fetch.persist
        case Renamed => ((mid - {SCRATCH})[hex := bytes], Fetched(bytes, hex))
        case Copied => (mid[hex := bytes], Fetched(bytes, hex))
        case CopyFailed(None) => (mid, FetchFailed)
        case CopyFailed(Some(kept)) => (mid[hex := bytes[..Min(kept, |bytes|)]], FetchFailed)
  }

  // ── One image ─────────────────────────────────────────────────────────────

  datatype Index = NoIndex | TornIndex | Names(media: string, hex: string, size: nat)

  datatype Mark = NoMark | TornMark | Marked

  datatype Layout = Layout(files: map<string, Bytes>, marker: Mark, index: Index)

  /** An in-place write: complete, cut short in the middle, or not opened at all. */
  datatype FileWrite = Written | Torn | Unopened

  datatype Script = Script(top: Fetch, child: Fetch, blobs: seq<BlobScript>, marker: FileWrite, index: FileWrite)

  datatype ImageRun = ImageRun(layout: Layout, verdict: Verdict, downloads: nat)

  datatype BlobsRun = BlobsRun(files: map<string, Bytes>, verdict: Verdict, downloads: nat)

  function PullBlobs(sha: Bytes -> string, files: map<string, Bytes>, digests: seq<Option<string>>, scripts: seq<BlobScript>)
    : BlobsRun
    decreases |digests|
  {
    if digests == [] then BlobsRun(files, Pulled, 0)
    else if digests[0].None? || HexOf(digests[0].value).None? then BlobsRun(files, Failed, 0)
    else
      var hex := HexOf(digests[0].value).value;
      var blob := PullBlob(sha, Get(files, hex), hex, if scripts == [] then NOTHING_YET else scripts[0]);
      var after := Put(files, hex, blob.file);
      if blob.verdict != Pulled then BlobsRun(after, blob.verdict, blob.downloads)
      else
        var rest := PullBlobs(sha, after, digests[1..], if scripts == [] then [] else scripts[1..]);
        rest.(downloads := blob.downloads + rest.downloads)
  }

  /** Config, layers, marker, index: what follows once the image manifest is on disk. */
  function PullContents(env: Env, layout: Layout, bytes: Bytes, hex: string, script: Script): ImageRun {
    match env.parse(bytes)
    case None => ImageRun(layout, Failed, 0)
    case Some(doc) =>
      match BlobsOf(doc)
      case None => ImageRun(layout, Failed, 0)
      case Some(digests) =>
        var blobs := PullBlobs(env.sha, layout.files, digests, script.blobs);
        var pulled := layout.(files := blobs.files);
        if blobs.verdict != Pulled then ImageRun(pulled, blobs.verdict, blobs.downloads)
        else match script.marker
          case Unopened => ImageRun(pulled, Failed, blobs.downloads)
          case Torn => ImageRun(pulled.(marker := TornMark), Failed, blobs.downloads)
          case Written =>
            var marked := pulled.(marker := Marked);
            match script.index
            case Unopened => ImageRun(marked, Failed, blobs.downloads)
            case Torn => ImageRun(marked.(index := TornIndex), Failed, blobs.downloads)
            case Written => ImageRun(marked.(index := Names(MediaTypeOf(doc), hex, |bytes|)), Pulled, blobs.downloads)
  }

  /** The image manifest itself, descending from an index to the host's child. */
  function ResolveManifest(env: Env, files: map<string, Bytes>, expected: Option<string>, script: Script)
    : (map<string, Bytes>, Manifest)
  {
    var (files1, top) := FetchManifest(env.sha, files, expected, script.top);
    if !top.Fetched? then (files1, top)
    else match SelectIndexChild(env, top.bytes)
      case NotAnIndex => (files1, top)
      case Unselectable => (files1, FetchFailed)
      case Selected(digest) => FetchManifest(env.sha, files1, Some(digest), script.child)
  }

  function PullImage(env: Env, layout: Layout, ref: OciRef.ParsedRef, script: Script): ImageRun {
    var (files, manifest) := ResolveManifest(env, layout.files, OciRef.ExpectedDigest(ref), script);
    var resolved := layout.(files := files);
    match manifest
    case Fetching => ImageRun(resolved, Pending, 0)
    case FetchFailed => ImageRun(resolved, Failed, 0)
    case Fetched(bytes, hex) => PullContents(env, resolved, bytes, hex, script)
  }

  // ── The same, in place ────────────────────────────────────────────────────

  /** The read buffer of the verifier. */
  const HASH_BUFFER: nat := 128 * 1024

  /** Stream-hash a file through a bounded buffer, with reads of any size the file system chooses. */
  method VerifyFile(disk: Disk, path: string, hex: string, sha: Bytes -> string, readable: bool) returns (checked: Checked)
    ensures checked == Check(sha, Get(disk.files, path), hex, readable)
  {
    if path !in disk.files {
      return Differs;
    }
    if !readable {
      return Unreadable;
    }
    var content := disk.files[path];
    var hashed: Bytes := [];
    while |hashed| < |content|
      invariant |hashed| <= |content| && hashed == content[..|hashed|]
      decreases |content| - |hashed|
    {
      var n: nat :| 1 <= n <= HASH_BUFFER && |hashed| + n <= |content| by {
        assert 1 <= 1 <= HASH_BUFFER && |hashed| + 1 <= |content|;
      }
      hashed := hashed + content[|hashed|..|hashed| + n];
    }
    assert hashed == content;
    checked := if sha(hashed) == hex then Matches else Differs;
  }

  /** One attempt of the re-pull loop. */
  method Attempt(disk: Disk, hex: string, pass: Pass, sha: Bytes -> string) returns (end: PassEnd)
    modifies disk
    ensures (Get(disk.files, hex), end) == OnePass(sha, Get(old(disk.files), hex), hex, pass)
    ensures disk.files == Put(old(disk.files), hex, Get(disk.files, hex))
  {
    var outcome, _ := DownloadResumable(disk, hex, pass.turns);
    if outcome != Complete {
      return if outcome.Running? then Interrupted else GaveUp;
    }
    var checked := VerifyFile(disk, hex, hex, sha, pass.readable);
    if !checked.Differs? {
      return if checked.Matches? then Matched else GaveUp;
    }
    if pass.discarded {
      disk.Remove(hex);
    }
    end := Mismatched;
  }

  /** What one attempt adds in front of the rest. */
  lemma RepullFrom(sha: Bytes -> string, file: Option<Bytes>, hex: string, passes: seq<Pass>, n: nat)
    requires n < VERIFY_REPULL_ATTEMPTS && n < |passes|
    ensures var (after, end) := OnePass(sha, file, hex, passes[n]);
            var run := Repull(sha, file, hex, passes[n..], n + 1);
            run == match end
                   case Interrupted => BlobRun(after, Pending, 1)
                   case GaveUp => BlobRun(after, Failed, 1)
                   case Matched => BlobRun(after, Pulled, 1)
                   case Mismatched =>
                     var rest := Repull(sha, after, hex, passes[n + 1..], n + 2);
                     rest.(downloads := rest.downloads + 1)
  {
    assert passes[n..][1..] == passes[n + 1..];
  }

  /** Pull one blob into its content-addressed slot. */
  method PullBlobInto(disk: Disk, hex: string, script: BlobScript, sha: Bytes -> string)
    returns (verdict: Verdict, downloads: nat)
    modifies disk
    ensures BlobRun(Get(disk.files, hex), verdict, downloads) == PullBlob(sha, Get(old(disk.files), hex), hex, script)
    ensures disk.files == Put(old(disk.files), hex, Get(disk.files, hex))
  {
    var checked := VerifyFile(disk, hex, hex, sha, script.readable);
    if !checked.Differs? {
      return if checked.Matches? then Pulled else Failed, 0;
    }
    var passes := script.passes;
    downloads := 0;
    ghost var file := Get(disk.files, hex);
    assert passes[0..] == passes;
    for attempt := 1 to VERIFY_REPULL_ATTEMPTS + 1
      invariant downloads == attempt - 1 <= |passes|
      invariant Get(disk.files, hex) == file && disk.files == Put(old(disk.files), hex, file)
      invariant var rest := Repull(sha, file, hex, passes[downloads..], attempt);
                rest.(downloads := downloads + rest.downloads) == PullBlob(sha, Get(old(disk.files), hex), hex, script)
    {
      if downloads == |passes| {
        return Pending, downloads;
      }
      RepullFrom(sha, file, hex, passes, downloads);
      var end := Attempt(disk, hex, passes[downloads], sha);
      PutTwice(old(disk.files), hex, file, Get(disk.files, hex));
      downloads := downloads + 1;
      if end != Mismatched {
        return if end == Matched then Pulled else if end == Interrupted then Pending else Failed, downloads;
      }
      file := Get(disk.files, hex);
    }
    verdict := Failed;
  }

  /** Fetch a manifest through the scratch file into its content-addressed slot. */
  method FetchManifestInto(disk: Disk, expected: Option<string>, fetch: Fetch, sha: Bytes -> string)
    returns (manifest: Manifest)
    modifies disk
    ensures (disk.files, manifest) == FetchManifest(sha, old(disk.files), expected, fetch)
  {
    var outcome, _ := DownloadResumable(disk, SCRATCH, fetch.turns);
    if outcome != Complete || SCRATCH !in disk.files || !fetch.readable {
      return if outcome.Running? then Fetching else FetchFailed;
    }
    var bytes := disk.files[SCRATCH];
    var hex := sha(bytes);
    if expected.Some? && expected.value != Digest(hex) {
      if fetch.unlinked {
        disk.Remove(SCRATCH);
      }
      return FetchFailed;
    }
    match fetch.persist
    case Renamed =>
      disk.files := (disk.files - {SCRATCH})[hex := bytes];
      manifest := Fetched(bytes, hex);
    case Copied =>
      disk.files := disk.files[hex := bytes];
      manifest := Fetched(bytes, hex);
    case CopyFailed(kept) =>
      if kept.Some? {
        disk.files := disk.files[hex := bytes[..Min(kept.value, |bytes|)]];
      }
      manifest := FetchFailed;
  }

  /** The layout directory: the blob files, the `oci-layout` marker and `index.json`. */
  class LayoutDir {
    const disk: Disk
    var marker: Mark
    var index: Index

    constructor ()
      ensures State() == Layout(map[], NoMark, NoIndex) && fresh(disk)
    {
      disk := new Disk();
      marker, index := NoMark, NoIndex;
    }

    ghost function State(): Layout
      reads this, disk
    {
      Layout(disk.files, marker, index)
    }

    /** Pull every listed blob, in order, stopping at the first that does not verify. */
    method PullAll(env: Env, digests: seq<Option<string>>, scripts: seq<BlobScript>)
      returns (verdict: Verdict, downloads: nat)
      modifies disk
      ensures BlobsRun(disk.files, verdict, downloads) == PullBlobs(env.sha, old(disk.files), digests, scripts)
    {
      downloads := 0;
      var todo := scripts;
      for i := 0 to |digests|
        invariant var rest := PullBlobs(env.sha, disk.files, digests[i..], todo);
                  rest.(downloads := downloads + rest.downloads)
                  == PullBlobs(env.sha, old(disk.files), digests, scripts)
      {
        assert digests[i..][1..] == digests[i + 1..];
        if digests[i].None? || HexOf(digests[i].value).None? {
          return Failed, downloads;
        }
        var n: nat;
        verdict, n := PullBlobInto(disk, HexOf(digests[i].value).value, if todo == [] then NOTHING_YET else todo[0], env.sha);
        downloads := downloads + n;
        if verdict != Pulled {
          return;
        }
        todo := if todo == [] then [] else todo[1..];
      }
      verdict := Pulled;
    }

    /** Pull the image: manifest, config, layers, then the two layout markers, last. */
    method Pull(env: Env, ref: OciRef.ParsedRef, script: Script) returns (verdict: Verdict, downloads: nat)
      modifies this, disk
      ensures ImageRun(State(), verdict, downloads) == PullImage(env, old(State()), ref, script)
    {
      downloads := 0;
      var manifest := FetchManifestInto(disk, OciRef.ExpectedDigest(ref), script.top, env.sha);
      if manifest.Fetched? {
        var child := SelectIndexChild(env, manifest.bytes);
        if child.Unselectable? {
          return Failed, 0;
        } else if child.Selected? {
          manifest := FetchManifestInto(disk, Some(child.digest), script.child, env.sha);
        }
      }
      if !manifest.Fetched? {
        return if manifest.Fetching? then Pending else Failed, 0;
      }
      var doc := env.parse(manifest.bytes);
      if doc.None? || BlobsOf(doc.value).None? {
        return Failed, 0;
      }
      verdict, downloads := PullAll(env, BlobsOf(doc.value).value, script.blobs);
      if verdict != Pulled {
        return;
      }
      if !script.marker.Written? {
        marker := if script.marker.Torn? then TornMark else marker;
        return Failed, downloads;
      }
      marker := Marked;
      match script.index
      case Unopened => verdict := Failed;
      case Torn =>
        index := TornIndex;
        verdict := Failed;
      case Written =>
        index := Names(MediaTypeOf(doc.value), manifest.hex, |manifest.bytes|);
    }
  }
}
