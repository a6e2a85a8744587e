/** The cache is transparent as long as no write is torn. */
module FetcherProofs {
  import opened Common
  import opened Fetcher

  /** What the cache should hold under `key`: the object, and for the manifest its decoded text. */
  function Want(store: Store, key: Key): Option<Bytes> {
    if key !in store.objects then None
    else if key.name == MANIFEST then Some(store.decode(store.objects[key]))
    else Some(store.objects[key])
  }

  /** Every cached file is the remote object, and every cached manifest parses. */
  ghost predicate Faithful(store: Store, files: Files) {
    forall key <- files ::
      Want(store, key) == Some(files[key]) && (key.name == MANIFEST ==> store.parse(files[key]).Some?)
  }

  /** What the store publishes as this version: no cache, no steps. */
  function Published(store: Store, uuid: string, version: nat): Res<FetchedApp> {
    match Want(store, Key(uuid, version, MANIFEST))
    case None => Err(NotFound)
    case Some(text) =>
      match store.parse(text)
      case None => Err(BadManifest)
      case Some(m) =>
        var entry := Key(uuid, version, m.entry);
        match Want(store, entry)
        case None => Err(NotFound)
        case Some(bytes) => Ok(FetchedApp(version, m, if m.kind == "wasm-http" then bytes else [], entry))
  }

  predicate Short(write: Write, bytes: Bytes) {
    write.Torn? && write.at < |bytes|
  }

  // ── When a call tears a file ──────────────────────────────────────────────

  predicate ManifestTears(store: Store, files: Files, uuid: string, version: nat, f: Faults) {
    var key := Key(uuid, version, MANIFEST);
    && key !in files && f.manifest == Answered && key in store.objects
    && var text := store.decode(store.objects[key]);
       store.parse(text).Some? && Short(f.writeManifest, text)
  }

  predicate ObjectTears(store: Store, files: Files, key: Key, reply: Reply, write: Write) {
    key !in files && reply == Answered && key in store.objects && Short(write, store.objects[key])
  }

  /** The call gets as far as the image, and tears that. */
  predicate ImageTears(store: Store, files: Files, uuid: string, version: nat, m: Manifest, f: Faults) {
    && m.kind == "docker" && ObjectTears(store, files, Key(uuid, version, IMAGE_TAR), f.image, f.writeImage)
  }

  /** One of the writes the call gets to stops short. */
  predicate Tears(store: Store, files: Files, uuid: string, version: nat, f: Faults) {
    var (manifest, files1) := ResolveManifest(store, files, uuid, version, f);
    || ManifestTears(store, files, uuid, version, f)
    || (manifest.Ok? &&
        var key := Key(uuid, version, manifest.value.entry);
        var (entry, files2) := EnsureEntry(store, files1, key, f);
        || ObjectTears(store, files1, key, f.entry, f.writeEntry)
        || (entry.Ok? && ImageTears(store, files2, uuid, version, manifest.value, f)))
  }

  lemma WriteFaithful(store: Store, files: Files, key: Key, bytes: Bytes, write: Write)
    requires Faithful(store, files) && Want(store, key) == Some(bytes)
    requires key.name == MANIFEST ==> store.parse(bytes).Some?
    ensures Faithful(store, WriteFile(files, key, bytes, write)) <==> !Short(write, bytes)
  {
    var after := WriteFile(files, key, bytes, write);
    if Short(write, bytes) {
      assert key in after && |after[key]| < |bytes|;
    } else if write.Torn? {
      assert bytes[..Min(write.at, |bytes|)] == bytes;
    }
  }

  lemma ManifestFaithful(store: Store, files: Files, uuid: string, version: nat, f: Faults)
    requires Faithful(store, files)
    ensures Faithful(store, ResolveManifest(store, files, uuid, version, f).1) <==> !ManifestTears(store, files, uuid, version, f)
  {
    var key := Key(uuid, version, MANIFEST);
    if key !in files && f.manifest == Answered && key in store.objects && store.parse(store.decode(store.objects[key])).Some? {
      WriteFaithful(store, files, key, store.decode(store.objects[key]), f.writeManifest);
    }
  }

  lemma ObjectFaithful(store: Store, files: Files, key: Key, reply: Reply, write: Write)
    requires Faithful(store, files) && key !in files && key.name != MANIFEST && reply == Answered && key in store.objects
    ensures Faithful(store, WriteFile(files, key, store.objects[key], write)) <==> !ObjectTears(store, files, key, reply, write)
  {
    WriteFaithful(store, files, key, store.objects[key], write);
  }

  lemma FinishFaithful(store: Store, files: Files, uuid: string, version: nat, m: Manifest, f: Faults)
    requires Faithful(store, files)
    ensures Faithful(store, Finish(store, files, uuid, version, m, f).1) <==> !ImageTears(store, files, uuid, version, m, f)
  {
    var key := Key(uuid, version, IMAGE_TAR);
    assert key.name != MANIFEST by { assert |IMAGE_TAR| == 12 && |MANIFEST| == 13; }
    if m.kind == "docker" && key !in files && f.image == Answered && key in store.objects {
      ObjectFaithful(store, files, key, f.image, f.writeImage);
    }
  }

  lemma ManifestCached(store: Store, files: Files, uuid: string, version: nat, f: Faults)
    requires ResolveManifest(store, files, uuid, version, f).0.Ok?
    ensures Key(uuid, version, MANIFEST) in ResolveManifest(store, files, uuid, version, f).1
    ensures !ManifestTears(store, files, uuid, version, f)
  {
  }

  /** A call keeps the cache faithful to the store exactly when none of the writes it gets to stops short. */
  lemma FetchFaithfulExactly(store: Store, files: Files, uuid: string, version: nat, f: Faults)
    requires Faithful(store, files)
    ensures Faithful(store, FetchVersion(store, files, uuid, version, f).1) <==> !Tears(store, files, uuid, version, f)
  {
    var (manifest, files1) := ResolveManifest(store, files, uuid, version, f);
    ManifestFaithful(store, files, uuid, version, f);
    if manifest.Ok? {
      ManifestCached(store, files, uuid, version, f);
      var key := Key(uuid, version, manifest.value.entry);
      var (entry, files2) := EnsureEntry(store, files1, key, f);
      if key !in files1 && f.entry == Answered && key in store.objects {
        ObjectFaithful(store, files1, key, f.entry, f.writeEntry);
      }
      if entry.Ok? {
        FinishFaithful(store, files2, uuid, version, manifest.value, f);
      }
    }
  }

  /**
   The image of a docker app is optional: once manifest and entry are there the
   fetch succeeds with or without it, whether it is not in the store or refused;
   only a broken transport, or a write that is not done, is an error.
   */
  lemma ImageIsOptional(store: Store, files: Files, uuid: string, version: nat, m: Manifest, f: Faults)
    requires m.kind == "docker" && Key(uuid, version, IMAGE_TAR) !in files
    ensures var key := Key(uuid, version, IMAGE_TAR);
            var (r, after) := Finish(store, files, uuid, version, m, f);
            var app := Ok(FetchedApp(version, m, [], Key(uuid, version, m.entry)));
            match f.image
            case Refused => r == app && after == files
            case Broken => r == Err(TransportError) && after == files
            case Answered =>
              if key !in store.objects then r == app && after == files
              else (r == app <==> f.writeImage == Done) && (f.writeImage == Done ==> after == files[key := store.objects[key]])
  {
    assert |"docker"| == 6 && |"wasm-http"| == 9;
  }

  // ── Refinement ────────────────────────────────────────────────────────────

  /** The outcome of a call whose manifest is `m`. */
  function Rest(store: Store, files: Files, uuid: string, version: nat, m: Manifest, f: Faults): Res<FetchedApp> {
    var (entry, files2) := EnsureEntry(store, files, Key(uuid, version, m.entry), f);
    match entry
    case Err(e) => Err(e)
    case Ok(_) => Finish(store, files2, uuid, version, m, f).0
  }

  lemma ManifestPublished(store: Store, files: Files, uuid: string, version: nat, f: Faults)
    requires Faithful(store, files)
    requires ResolveManifest(store, files, uuid, version, f).0.Ok? || f == CALM
    ensures match ResolveManifest(store, files, uuid, version, f).0
            case Ok(m) =>
              var text := Want(store, Key(uuid, version, MANIFEST));
              text.Some? && store.parse(text.value) == Some(m)
            case Err(e) => Published(store, uuid, version) == Err(e)
  {
  }

  lemma RestPublished(store: Store, files: Files, uuid: string, version: nat, m: Manifest, f: Faults)
    requires Faithful(store, files) && Key(uuid, version, MANIFEST) in files
    requires store.parse(files[Key(uuid, version, MANIFEST)]) == Some(m)
    requires Rest(store, files, uuid, version, m, f).Ok? || f == CALM
    ensures Rest(store, files, uuid, version, m, f) == Published(store, uuid, version)
  {
    assert Want(store, Key(uuid, version, MANIFEST)) == Some(files[Key(uuid, version, MANIFEST)]);
    var key := Key(uuid, version, m.entry);
    if key in files {
      assert Want(store, key) == Some(files[key]);
    }
  }

  /**
   The cache is transparent to one call: from a faithful cache a call that
   succeeds - under whatever faults - returns exactly what the store publishes,
   and a call without faults does so in every case, errors included.
   */
  lemma FetchReturnsPublished(store: Store, files: Files, uuid: string, version: nat, f: Faults)
    requires Faithful(store, files)
    requires FetchVersion(store, files, uuid, version, f).0.Ok? || f == CALM
    ensures FetchVersion(store, files, uuid, version, f).0 == Published(store, uuid, version)
  {
    var (manifest, files1) := ResolveManifest(store, files, uuid, version, f);
    ManifestPublished(store, files, uuid, version, f);
    if manifest.Ok? {
      ManifestCached(store, files, uuid, version, f);
      ManifestFaithful(store, files, uuid, version, f);
      assert Want(store, Key(uuid, version, MANIFEST)) == Some(files1[Key(uuid, version, MANIFEST)]);
      RestPublished(store, files1, uuid, version, manifest.value, f);
    }
  }

  // ── Whole histories ───────────────────────────────────────────────────────

  datatype Op = Fetching(uuid: string, version: nat, faults: Faults) | Purging(uuid: string, left: set<Key>)

  function After(store: Store, files: Files, op: Op): Files {
    match op
    case Fetching(uuid, version, f) => FetchVersion(store, files, uuid, version, f).1
    case Purging(uuid, left) => PurgeCache(files, uuid, left)
  }

  function History(store: Store, files: Files, ops: seq<Op>): Files
    decreases |ops|
  {
    if ops == [] then files else History(store, After(store, files, ops[0]), ops[1..])
  }

  predicate NothingTorn(store: Store, files: Files, ops: seq<Op>)
    decreases |ops|
  {
    ops == [] || (
      && (ops[0].Fetching? ==> !Tears(store, files, ops[0].uuid, ops[0].version, ops[0].faults))
      && NothingTorn(store, After(store, files, ops[0]), ops[1..]))
  }

  lemma {:induction false} HistoryFaithful(store: Store, files: Files, ops: seq<Op>)
    requires Faithful(store, files) && NothingTorn(store, files, ops)
    ensures Faithful(store, History(store, files, ops))
    decreases |ops|
  {
    if ops != [] {
      if ops[0].Fetching? {
        FetchFaithfulExactly(store, files, ops[0].uuid, ops[0].version, ops[0].faults);
      }
      HistoryFaithful(store, After(store, files, ops[0]), ops[1..]);
    }
  }

  /**
   After any history of fetches, failures and purges in which no write was torn,
   every cached file is the remote object and every fetch ends as published.
   In particular it ends like a fetch with nothing cached and nothing failing.
   */
  lemma CacheIsTransparent(store: Store, ops: seq<Op>, uuid: string, version: nat, f: Faults)
    requires NothingTorn(store, map[], ops)
    ensures var files := History(store, map[], ops);
            && Faithful(store, files)
            && var r := FetchVersion(store, files, uuid, version, f).0;
               (r.Ok? || f == CALM ==> r == Published(store, uuid, version))
    ensures FetchVersion(store, map[], uuid, version, CALM).0 == Published(store, uuid, version)
  {
    FetchReturnsPublished(store, map[], uuid, version, CALM);
    HistoryFaithful(store, map[], ops);
    var files := History(store, map[], ops);
    if FetchVersion(store, files, uuid, version, f).0.Ok? || f == CALM {
      FetchReturnsPublished(store, files, uuid, version, f);
    }
  }

  /** A cached file that cannot be read is an error, and never a reason to fetch it again or to go on without it. */
  lemma UnreadableIsAnError(store: Store, files: Files, uuid: string, version: nat, f: Faults)
    ensures Key(uuid, version, MANIFEST) in files && !f.readManifest ==>
              FetchVersion(store, files, uuid, version, f) == (Err(CacheIo), files)
    ensures !f.readEntry && FetchVersion(store, files, uuid, version, f).0.Ok? ==>
              FetchVersion(store, files, uuid, version, f).0.value.manifest.kind != "wasm-http"
  {
  }

  // ── What a torn write does ────────────────────────────────────────────────

  /** Files are never rewritten: only a purge of the app removes a torn one. */
  lemma FetchNeverRewrites(store: Store, files: Files, uuid: string, version: nat, f: Faults, key: Key)
    requires key in files
    ensures Get(FetchVersion(store, files, uuid, version, f).1, key) == Some(files[key])
  {
  }

  lemma {:induction false} OnlyPurgeRemoves(store: Store, files: Files, ops: seq<Op>, key: Key)
    requires key in files && forall op <- ops :: op.Purging? ==> op.uuid != key.uuid || key in op.left
    ensures Get(History(store, files, ops), key) == Some(files[key])
    decreases |ops|
  {
    if ops != [] {
      var op := ops[0];
      assert op in ops;
      if op.Fetching? {
        FetchNeverRewrites(store, files, op.uuid, op.version, op.faults, key);
      }
      OnlyPurgeRemoves(store, After(store, files, op), ops[1..], key);
    }
  }

  /** A purge that completes repairs even a torn cache: the app is fetched as published, and no other app is touched. */
  lemma PurgeRepairs(store: Store, files: Files, uuid: string, version: nat, f: Faults)
    ensures var purged := PurgeCache(files, uuid, {});
            && (forall key <- files :: key.uuid != uuid ==> Get(purged, key) == Some(files[key]))
            && var r := FetchVersion(store, purged, uuid, version, f).0;
               (r.Ok? || f == CALM ==> r == Published(store, uuid, version))
  {
  }

  /**
   For every version whose entry is loaded into memory, and wherever its write is
   cut short: the next fetch, without any fault, returns Ok with the torn bytes.
   */
  lemma TornWriteIsServed(store: Store, uuid: string, version: nat, at: nat)
    requires Published(store, uuid, version).Ok?
    requires var app := Published(store, uuid, version).value;
             app.manifest.kind == "wasm-http" && app.cachedPath.name != MANIFEST && at < |app.wasm|
    ensures var app := Published(store, uuid, version).value;
            var files := FetchVersion(store, map[], uuid, version, CALM.(writeEntry := Torn(at))).1;
            && FetchVersion(store, files, uuid, version, CALM).0 == Ok(app.(wasm := app.wasm[..at]))
            && app.(wasm := app.wasm[..at]) != app
  {
    var app := Published(store, uuid, version).value;
    var f := CALM.(writeEntry := Torn(at));
    var text := Want(store, Key(uuid, version, MANIFEST)).value;
    assert ResolveManifest(store, map[], uuid, version, f) == (Ok(app.manifest), map[Key(uuid, version, MANIFEST) := text]);
    assert Min(at, |app.wasm|) == at;
    var files := map[Key(uuid, version, MANIFEST) := text][app.cachedPath := app.wasm[..at]];
    assert FetchVersion(store, map[], uuid, version, f).1 == files;
    assert |app.wasm[..at]| == at;
  }

  /** What a successful fetch leaves cached: manifest, entry, and the image of a docker app if the store has it. */
  lemma FetchCaches(store: Store, files: Files, uuid: string, version: nat, f: Faults)
    requires FetchVersion(store, files, uuid, version, f).0.Ok?
    ensures var (r, cached) := FetchVersion(store, files, uuid, version, f);
            && Key(uuid, version, MANIFEST) in cached && r.value.cachedPath in cached
            && (r.value.manifest.kind == "docker" && f.image == Answered && Key(uuid, version, IMAGE_TAR) in store.objects ==>
                  Key(uuid, version, IMAGE_TAR) in cached)
  {
    ManifestCached(store, files, uuid, version, f);
  }

  /** Once fetched, a version needs no network: a docker app without a prebuilt image is the one that still asks. */
  lemma RefetchIsOffline(store: Store, files: Files, uuid: string, version: nat, f: Faults, g: Faults)
    requires FetchVersion(store, files, uuid, version, f).0.Ok? && g.readManifest && g.readEntry
    ensures var (r, cached) := FetchVersion(store, files, uuid, version, f);
            r.value.manifest.kind != "docker" || Key(uuid, version, IMAGE_TAR) in cached ==>
              FetchVersion(store, cached, uuid, version, g) == (r, cached)
  {
  }
}
