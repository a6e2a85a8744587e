/**
 The artifact fetcher: `src/fetcher.rs`, fetch-on-miss over a directory of cached
 files.  The objects of a version never change; every request, read and write of
 a call may fail.  The manifest parser and the text decoding of a response are parameters.
 */
module Fetcher {
  import opened Common

  datatype Key = Key(uuid: string, version: nat, name: string)

  datatype Manifest = Manifest(kind: string, entry: string)

  datatype Store = Store(objects: map<Key, Bytes>, decode: Bytes -> Bytes, parse: Bytes -> Option<Manifest>)

  type Files = map<Key, Bytes>

  const MANIFEST := "manifest.toml"
  const IMAGE_TAR := "image.tar.gz"

  datatype FetchError = NotFound | TransportError | BadManifest | CacheIo

  datatype Res<T> = Ok(value: T) | Err(error: FetchError)

  datatype FetchedApp = FetchedApp(version: nat, manifest: Manifest, wasm: Bytes, cachedPath: Key)

  /** How a request goes: answered from the store, refused with 404 or 403, or broken in transport. */
  datatype Reply = Answered | Refused | Broken

  /** How an in-place write goes: `Torn` created the file and stopped after some bytes. */
  datatype Write = Done | NotWritten | Torn(at: nat)

  datatype Faults = Faults(
    readManifest: bool, manifest: Reply, writeManifest: Write,
    entry: Reply, writeEntry: Write, readEntry: bool,
    image: Reply, writeImage: Write)

  const CALM := Faults(true, Answered, Done, Answered, Done, true, Answered, Done)

  function Request(store: Store, key: Key, reply: Reply): Res<Bytes> {
    match reply
    case Answered => if key in store.objects then Ok(store.objects[key]) else Err(NotFound)
    case Refused => Err(NotFound)
    case Broken => Err(TransportError)
  }

  function WriteFile(files: Files, key: Key, bytes: Bytes, write: Write): Files {
    match write
    case Done => files[key := bytes]
    case NotWritten => files
    case Torn(at) => files[key := bytes[..Min(at, |bytes|)]]
  }

  function WriteResult<T>(write: Write, value: T): Res<T> {
    if write == Done then Ok(value) else Err(CacheIo)
  }

  function Parsed(store: Store, text: Bytes): Res<Manifest> {
    match store.parse(text)
    case Some(m) => Ok(m)
    case None => Err(BadManifest)
  }

  /** The manifest, from the cache or else from the store; it is cached only once it has parsed. */
  function ResolveManifest(store: Store, files: Files, uuid: string, version: nat, f: Faults): (Res<Manifest>, Files) {
    var key := Key(uuid, version, MANIFEST);
    if key in files then
      (if f.readManifest then Parsed(store, files[key]) else Err(CacheIo), files)
    else
      match Request(store, key, f.manifest)
      case Err(e) => (Err(e), files)
      case Ok(body) =>
        var text := store.decode(body);
        match Parsed(store, text)
        case Err(e) => (Err(e), files)
        case Ok(m) => (WriteResult(f.writeManifest, m), WriteFile(files, key, text, f.writeManifest))
  }

  function EnsureEntry(store: Store, files: Files, key: Key, f: Faults): (Res<Key>, Files) {
    if key in files then (Ok(key), files)
    else
      match Request(store, key, f.entry)
      case Err(e) => (Err(e), files)
      case Ok(body) => (WriteResult(f.writeEntry, key), WriteFile(files, key, body, f.writeEntry))
  }

  /** Only the legacy in-process runtime loads its entry into memory. */
  function LoadEntry(files: Files, kind: string, key: Key, f: Faults): Res<Bytes> {
    if kind != "wasm-http" then Ok([])
    else if f.readEntry && key in files then Ok(files[key])
    else Err(CacheIo)
  }

  /** The prebuilt image is optional: an absent one is no error. */
  function FetchImageTar(store: Store, files: Files, uuid: string, version: nat, f: Faults): (Res<()>, Files) {
    var key := Key(uuid, version, IMAGE_TAR);
    if key in files then (Ok(()), files)
    else
      match Request(store, key, f.image)
      case Err(NotFound) => (Ok(()), files)
      case Err(e) => (Err(e), files)
      case Ok(body) => (WriteResult(f.writeImage, ()), WriteFile(files, key, body, f.writeImage))
  }

  /** What follows once the entry file is there. */
  function Finish(store: Store, files: Files, uuid: string, version: nat, m: Manifest, f: Faults): (Res<FetchedApp>, Files) {
    var key := Key(uuid, version, m.entry);
    match LoadEntry(files, m.kind, key, f)
    case Err(e) => (Err(e), files)
    case Ok(wasm) =>
      if m.kind != "docker" then (Ok(FetchedApp(version, m, wasm, key)), files)
      else
        var (image, after) := FetchImageTar(store, files, uuid, version, f);
        match image
        case Err(e) => (Err(e), after)
        case Ok(_) => (Ok(FetchedApp(version, m, wasm, key)), after)
  }

  function FetchVersion(store: Store, files: Files, uuid: string, version: nat, f: Faults): (Res<FetchedApp>, Files) {
    var (manifest, files1) := ResolveManifest(store, files, uuid, version, f);
    match manifest
    case Err(e) => (Err(e), files1)
    case Ok(m) =>
      var (entry, files2) := EnsureEntry(store, files1, Key(uuid, version, m.entry), f);
      match entry
      case Err(e) => (Err(e), files2)
      case Ok(_) => Finish(store, files2, uuid, version, m, f)
  }

  /** Purging an app removes its files of every version; a purge that fails half-way leaves some. */
  function PurgeCache(files: Files, uuid: string, left: set<Key>): Files {
    map key | key in files && (key.uuid != uuid || key in left) :: files[key]
  }

  // ── The same, in place ────────────────────────────────────────────────────

  class S3Fetcher {
    const store: Store
    var files: Files

    constructor (store: Store)
      ensures this.store == store && files == map[]
    {
      this.store, files := store, map[];
    }

    method ManifestFor(uuid: string, version: nat, f: Faults) returns (r: Res<Manifest>)
      modifies this
      ensures (r, files) == ResolveManifest(store, old(files), uuid, version, f)
    {
      var key := Key(uuid, version, MANIFEST);
      if key in files {
        return if f.readManifest then Parsed(store, files[key]) else Err(CacheIo);
      }
      var body := Request(store, key, f.manifest);
      if body.Err? {
        return Err(body.error);
      }
      var text := store.decode(body.value);
      r := Parsed(store, text);
      if r.Ok? {
        files := WriteFile(files, key, text, f.writeManifest);
        r := WriteResult(f.writeManifest, r.value);
      }
    }

    method EntryFile(key: Key, f: Faults) returns (r: Res<Key>)
      modifies this
      ensures (r, files) == EnsureEntry(store, old(files), key, f)
    {
      r := Ok(key);
      if key !in files {
        var body := Request(store, key, f.entry);
        if body.Err? {
          return Err(body.error);
        }
        files := WriteFile(files, key, body.value, f.writeEntry);
        r := WriteResult(f.writeEntry, key);
      }
    }

    method ImageTar(uuid: string, version: nat, f: Faults) returns (r: Res<()>)
      modifies this
      ensures (r, files) == FetchImageTar(store, old(files), uuid, version, f)
    {
      var key := Key(uuid, version, IMAGE_TAR);
      r := Ok(());
      if key !in files {
        var body := Request(store, key, f.image);
        if body.Ok? {
          files := WriteFile(files, key, body.value, f.writeImage);
          r := WriteResult(f.writeImage, ());
        } else if body.error != NotFound {
          r := Err(body.error);
        }
      }
    }

    method Fetch(uuid: string, version: nat, f: Faults) returns (r: Res<FetchedApp>)
      modifies this
      ensures (r, files) == FetchVersion(store, old(files), uuid, version, f)
    {
      var manifest := ManifestFor(uuid, version, f);
      if manifest.Err? {
        return Err(manifest.error);
      }
      var m := manifest.value;
      var entry := EntryFile(Key(uuid, version, m.entry), f);
      if entry.Err? {
        return Err(entry.error);
      }
      var wasm := LoadEntry(files, m.kind, Key(uuid, version, m.entry), f);
      if wasm.Err? {
        return Err(wasm.error);
      }
      if m.kind == "docker" {
        var image := ImageTar(uuid, version, f);
        if image.Err? {
          return Err(image.error);
        }
      }
      r := Ok(FetchedApp(version, m, wasm.value, Key(uuid, version, m.entry)));
    }

    method Purge(uuid: string, left: set<Key>)
      modifies this
      ensures files == PurgeCache(old(files), uuid, left)
    {
      files := PurgeCache(files, uuid, left);
    }
  }
}
