/** The state the backup works on: the local filesystem (read only), the
    remote bucket and the metadata cache, all as finite maps, and the run's
    configuration. */
module Storage {
  import opened Optional
  import opened Decimal
  import opened Keys

  /** The remote metadata of one object, as a head request returns it and as
      the cache stores it: the custom mtime attribute (absent on objects the
      tool did not upload), the content length and the etag, all as strings. */
  datatype Record = Record(mtime: Option<string>, size: string, etag: string)

  /** The keys on which each kind of request fails with a service error:
      head requests, puts and deletes fail independently. */
  datatype Faults = Faults(head: set<string>, put: set<string>, delete: set<string>)

  /** The bucket: its objects by key, and where its requests fail. */
  datatype Bucket = Bucket(objects: map<string, Record>, faulty: Faults)

  /** The metadata cache, or `None` when no `cache` setting enables it. */
  type Cache = Option<map<string, Record>>

  /** The mutable part of a run: the bucket and the cache. */
  datatype Env = Env(bucket: Bucket, cache: Cache)

  /** A directory entry name: never empty and never containing `/`. */
  type Name = s: string | |s| > 0 && '/' !in s witness "a"

  /** A filesystem entry. `digest` stands for the file's bytes: it is the
      etag the store computes when the file is uploaded. A `File` that is not
      `readable` can be stat-ed but not opened; a `Dir` that is not `readable`
      cannot be listed. A `Link` is a symbolic link, `dangling` when its target
      does not exist. */
  datatype Node =
    | File(mtime: int, size: nat, digest: string, readable: bool)
    | Dir(entries: set<Name>, readable: bool)
    | Link(dangling: bool)

  /** The filesystem: absolute path to entry. */
  type FileSystem = map<string, Node>

  /** `File.exist?` / `os.path.exists`: present, following symbolic links. */
  predicate Exists(fs: FileSystem, path: string) {
    path in fs && !(fs[path].Link? && fs[path].dangling)
  }

  predicate IsLink(fs: FileSystem, path: string) {
    path in fs && fs[path].Link?
  }

  /** The three variants of the tool. */
  datatype Variant = RubyBranch | RubyTrunk | Python

  /** Settings and command-line options of one run. Ignore patterns are
      matched by the abstract `matches(pattern, path)` (a regular-expression
      search in the original). `objectAcl` says whether an `object_acl`
      setting is present. */
  datatype Config = Config(
    variant: Variant,
    mode: Mode,
    roots: seq<string>,
    ignore: seq<string>,
    matches: (string, string) -> bool,
    delete: bool,
    dryRun: bool,
    rebuildCache: bool,
    objectAcl: bool)

  /** Some ignore pattern matches the path (Ruby's `find`, Python's `any`). */
  predicate Ignored(cfg: Config, path: string) {
    exists i :: 0 <= i < |cfg.ignore| && cfg.matches(cfg.ignore[i], path)
  }

  /** The record an upload of `f` leaves in the bucket: the mtime attribute
      is the decimal epoch seconds, the length the decimal byte count. */
  function UploadRecord(f: Node): (r: Record)
    requires f.File?
    ensures r.mtime == Some(IntToString(f.mtime))
    ensures r.size == NatToString(f.size)
    ensures r.etag == f.digest
  {
    Record(Some(IntToString(f.mtime)), NatToString(f.size), f.digest)
  }

  /** The cache invariant: an entry is present only if the bucket holds an
      object under that key with exactly that metadata. */
  predicate CacheAgrees(env: Env) {
    env.cache.Some? ==>
      forall k :: k in env.cache.value ==>
        k in env.bucket.objects && env.bucket.objects[k] == env.cache.value[k]
  }

  /** Removes a key from the cache, if caching is enabled
      (`@db.delete`, `@bdb[k] = nil`, Python's guarded `del`). */
  function Invalidate(cache: Cache, key: string): (c: Cache)
    ensures c.Some? <==> cache.Some?
    ensures c.Some? ==> key !in c.value
    ensures c.Some? ==> forall k :: k != key ==> (k in c.value <==> k in cache.value)
    ensures c.Some? ==> forall k :: k in c.value ==> c.value[k] == cache.value[k]
  {
    match cache
    case None => None
    case Some(m) => Some(m - {key})
  }
}
