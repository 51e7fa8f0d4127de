/** The per-file sync step: the upload/skip decision, the store step
    (`timed_store`) and their combination for one regular file. */
module Sync {
  import opened Optional
  import opened Decimal
  import opened Keys
  import opened Storage
  import opened Lookup

  datatype Decision = Upload | Update | Skip

  /** The decision branch of `walk`: no remote record means a new upload; a
      record whose mtime attribute or content length differs from the local
      decimal strings means an update; otherwise the file is skipped. */
  function Decide(mtime: int, size: nat, headers: Option<Record>): (d: Decision)
    ensures d == Upload <==> headers.None?
    ensures d == Skip <==>
              headers.Some? && headers.value.mtime == Some(IntToString(mtime)) &&
              headers.value.size == NatToString(size)
  {
    match headers
    case None => Upload
    case Some(h) =>
      if h.mtime != Some(IntToString(mtime)) || h.size != NatToString(size) then Update
      else Skip
  }

  /** Against the record an earlier upload of `g` left, the decision skips a
      file exactly when its mtime and size equal those of `g`. */
  lemma DecideAgainstUpload(f: Node, g: Node)
    requires f.File? && g.File?
    ensures Decide(f.mtime, f.size, Some(UploadRecord(g))) == Skip <==>
              f.mtime == g.mtime && f.size == g.size
  {
    if Decide(f.mtime, f.size, Some(UploadRecord(g))) == Skip {
      IntToStringInjective(f.mtime, g.mtime);
      NatToStringInjective(f.size, g.size);
    }
  }

  /** The key a file is stored under. The Ruby variants pass the path below
      the root, Python passes the full path. */
  function KeyOf(cfg: Config, root: string, loc: string): string {
    if cfg.variant == Python then PyS3Path(cfg.mode, root, loc) else S3Path(cfg.mode, root, loc)
  }

  datatype StoreOutcome = Stored | DryRun | Failed

  datatype StoreResult = StoreResult(env: Env, outcome: StoreOutcome)

  /** Python with an `object_acl` setting sets the object's ACL before it
      puts the object; on a key the bucket does not hold yet, that request
      finds no object and raises. */
  predicate AclRejects(cfg: Config, b: Bucket, key: string) {
    cfg.variant == Python && cfg.objectAcl && key !in b.objects
  }

  /** `timed_store`. In dry-run nothing changes. Otherwise the cache entry is
      invalidated first, then the file is put with its mtime attribute; an
      unreadable file, a service error, or Python's ACL request on a key not
      yet in the bucket makes the store fail after the invalidation (the
      caller rescues it). The Ruby variants send the ACL with the put. */
  function TimedStore(cfg: Config, env: Env, root: string, loc: string, f: Node): (r: StoreResult)
    requires f.File?
    ensures cfg.dryRun ==> r == StoreResult(env, DryRun)
    ensures !cfg.dryRun ==> r.env.cache == Invalidate(env.cache, KeyOf(cfg, root, loc))
    ensures r.outcome == Stored <==>
              !cfg.dryRun && f.readable && KeyOf(cfg, root, loc) !in env.bucket.faulty.put &&
              !AclRejects(cfg, env.bucket, KeyOf(cfg, root, loc))
    ensures r.outcome == Stored ==>
              r.env.bucket == env.bucket.(objects := env.bucket.objects[KeyOf(cfg, root, loc) := UploadRecord(f)])
    ensures r.outcome != Stored ==> r.env.bucket == env.bucket
  {
    if cfg.dryRun then StoreResult(env, DryRun)
    else
      var cache := Invalidate(env.cache, KeyOf(cfg, root, loc));
      var putKey := if cfg.variant == RubyTrunk then AwsPath(cfg.mode, root, loc) else KeyOf(cfg, root, loc);
      if AclRejects(cfg, env.bucket, putKey) || !f.readable || putKey in env.bucket.faulty.put then
        StoreResult(Env(env.bucket, cache), Failed)
      else
        var objects := env.bucket.objects[putKey := UploadRecord(f)];
        StoreResult(Env(env.bucket.(objects := objects), cache), Stored)
  }

  /** What became of one regular file. */
  datatype FileOutcome =
    | Unchanged
    | Uploaded(isNew: bool)
    | WouldUpload(isNew: bool)
    | FileFailed

  datatype FileResult = FileResult(env: Env, outcome: FileOutcome)

  /** One regular file: look up its metadata, decide, store if needed. Every
      error is rescued per file; the state then is whatever the steps before
      the error left. */
  function ProcessFile(cfg: Config, env: Env, root: string, loc: string, f: Node): (r: FileResult)
    requires f.File?
    ensures r.env.bucket.faulty == env.bucket.faulty
    ensures r.outcome.Uploaded? ==>
              r.env.bucket.objects == env.bucket.objects[KeyOf(cfg, root, loc) := UploadRecord(f)]
    ensures !r.outcome.Uploaded? ==> r.env.bucket == env.bucket
    ensures cfg.dryRun ==> !r.outcome.Uploaded?
  {
    var key := KeyOf(cfg, root, loc);
    match Head(cfg.variant, env, key)
    case Raised => FileResult(env, FileFailed)
    case Answered(headers, cache, _) =>
      var env1 := Env(env.bucket, cache);
      var d := Decide(f.mtime, f.size, headers);
      if d == Skip then FileResult(env1, Unchanged)
      else
        var s := TimedStore(cfg, env1, root, loc, f);
        var outcome := match s.outcome
          case Stored => Uploaded(d == Upload)
          case DryRun => WouldUpload(d == Upload)
          case Failed => FileFailed;
        FileResult(s.env, outcome)
  }

  /** Every step of the per-file sync keeps the cache invariant: the lookup
      caches only what the bucket holds, and the store step invalidates the
      entry before it changes the object. */
  lemma ProcessFileKeepsCacheAgreement(cfg: Config, env: Env, root: string, loc: string, f: Node)
    requires f.File?
    ensures CacheAgrees(env) ==> CacheAgrees(ProcessFile(cfg, env, root, loc, f).env)
  {
    if CacheAgrees(env) {
      HeadAnswersBucket(cfg.variant, env, KeyOf(cfg, root, loc));
    }
  }

  /** The bucket already holds, under `key`, an object whose mtime attribute
      and length are those of `f`. */
  predicate Current(b: Bucket, key: string, f: Node)
    requires f.File?
  {
    key in b.objects &&
    b.objects[key].mtime == Some(IntToString(f.mtime)) &&
    b.objects[key].size == NatToString(f.size)
  }

  /** Under the cache invariant, and when the key's head request does not
      fail, a file is left unchanged exactly when the bucket already holds an object
      under its key whose mtime attribute and length match the file. */
  lemma ProcessFileSkipsCurrent(cfg: Config, env: Env, root: string, loc: string, f: Node)
    requires f.File? && CacheAgrees(env)
    requires KeyOf(cfg, root, loc) !in env.bucket.faulty.head
    ensures var key := KeyOf(cfg, root, loc);
            ProcessFile(cfg, env, root, loc, f).outcome == Unchanged <==>
              key in env.bucket.objects &&
              env.bucket.objects[key].mtime == Some(IntToString(f.mtime)) &&
              env.bucket.objects[key].size == NatToString(f.size)
  {
    HeadAnswersBucket(cfg.variant, env, KeyOf(cfg, root, loc));
  }

  /** The converse direction: under the cache invariant, a readable file whose
      head and put requests do not fail is uploaded exactly when the bucket
      does not already hold a current object for it, and the upload counts as
      new exactly when there was no object at all. */
  lemma ProcessFileUploadsChanged(cfg: Config, env: Env, root: string, loc: string, f: Node)
    requires f.File? && f.readable && !cfg.dryRun && CacheAgrees(env)
    requires KeyOf(cfg, root, loc) !in env.bucket.faulty.head
    requires KeyOf(cfg, root, loc) !in env.bucket.faulty.put
    ensures var r := ProcessFile(cfg, env, root, loc, f);
            (r.outcome.Uploaded? <==>
               !Current(env.bucket, KeyOf(cfg, root, loc), f) && !AclRejects(cfg, env.bucket, KeyOf(cfg, root, loc))) &&
            (r.outcome.Uploaded? ==> (r.outcome.isNew <==> KeyOf(cfg, root, loc) !in env.bucket.objects))
  {
    HeadAnswersBucket(cfg.variant, env, KeyOf(cfg, root, loc));
  }

  /** Python with an `object_acl` setting never stores a new file: the ACL
      request before the put fails on the missing object, the file is
      reported as failed, the bucket is untouched, and so the next run fails
      on it again. */
  lemma AclBlocksNewFiles(cfg: Config, env: Env, root: string, loc: string, f: Node)
    requires f.File? && cfg.variant == Python && cfg.objectAcl && !cfg.dryRun && CacheAgrees(env)
    requires KeyOf(cfg, root, loc) !in env.bucket.objects
    ensures var r1 := ProcessFile(cfg, env, root, loc, f);
            var r2 := ProcessFile(cfg, r1.env, root, loc, f);
            r1.outcome == FileFailed && r1.env.bucket == env.bucket &&
            r2.outcome == FileFailed && r2.env.bucket == env.bucket
  {
    var key := KeyOf(cfg, root, loc);
    HeadAnswersBucket(cfg.variant, env, key);
    ProcessFileKeepsCacheAgreement(cfg, env, root, loc, f);
    var r1 := ProcessFile(cfg, env, root, loc, f);
    HeadAnswersBucket(cfg.variant, r1.env, key);
  }

  /** The same in dry-run: a file is reported as one that would be uploaded
      exactly when the bucket holds no current object for it. */
  lemma ProcessFileDryRunReports(cfg: Config, env: Env, root: string, loc: string, f: Node)
    requires f.File? && cfg.dryRun && CacheAgrees(env)
    requires KeyOf(cfg, root, loc) !in env.bucket.faulty.head
    ensures var r := ProcessFile(cfg, env, root, loc, f);
            (r.outcome.WouldUpload? <==> !Current(env.bucket, KeyOf(cfg, root, loc), f)) &&
            (r.outcome.WouldUpload? ==> (r.outcome.isNew <==> KeyOf(cfg, root, loc) !in env.bucket.objects))
  {
    HeadAnswersBucket(cfg.variant, env, KeyOf(cfg, root, loc));
  }

  /** Re-running the step on an unchanged file after it was uploaded stores
      nothing: the fresh lookup finds the uploaded record and the decision
      skips. With the cache enabled, a third run is a cache hit. This needs the
      key's head request to succeed; see `HeadFailureReuploads`. */
  lemma ProcessFileIdempotent(cfg: Config, env: Env, root: string, loc: string, f: Node)
    requires f.File?
    requires KeyOf(cfg, root, loc) !in env.bucket.faulty.head
    requires ProcessFile(cfg, env, root, loc, f).outcome.Uploaded?
    ensures var r1 := ProcessFile(cfg, env, root, loc, f);
            var r2 := ProcessFile(cfg, r1.env, root, loc, f);
            r2.outcome == Unchanged && r2.env.bucket == r1.env.bucket &&
            (env.cache.Some? ==>
               Head(cfg.variant, r2.env, KeyOf(cfg, root, loc)).Answered? &&
               !Head(cfg.variant, r2.env, KeyOf(cfg, root, loc)).remote)
  {
    var key := KeyOf(cfg, root, loc);
    var r1 := ProcessFile(cfg, env, root, loc, f);
    assert key !in r1.env.bucket.faulty.head;
    assert !CacheHit(r1.env.cache, key);
    DecideAgainstUpload(f, f);
  }

  /** In the Ruby variants a failing head request reads as "no object", so
      without a cache a file whose key cannot be looked up is uploaded again
      on every run, even when its put succeeded the time before. */
  lemma HeadFailureReuploads(cfg: Config, env: Env, root: string, loc: string, f: Node)
    requires f.File? && f.readable && !cfg.dryRun && cfg.variant != Python && env.cache.None?
    requires KeyOf(cfg, root, loc) in env.bucket.faulty.head
    requires KeyOf(cfg, root, loc) !in env.bucket.faulty.put
    ensures var r1 := ProcessFile(cfg, env, root, loc, f);
            var r2 := ProcessFile(cfg, r1.env, root, loc, f);
            r1.outcome == Uploaded(true) && r2.outcome == Uploaded(true) &&
            Current(r1.env.bucket, KeyOf(cfg, root, loc), f)
  {
  }

  /** Dry-run still writes the cache: the lookup of an uncached key that the
      bucket holds stores its record, even though nothing is uploaded. */
  lemma ProcessFileDryRunCaches(cfg: Config, env: Env, root: string, loc: string, f: Node)
    requires f.File? && cfg.dryRun && env.cache.Some?
    requires KeyOf(cfg, root, loc) !in env.cache.value
    requires KeyOf(cfg, root, loc) in env.bucket.objects && KeyOf(cfg, root, loc) !in env.bucket.faulty.head
    ensures var r := ProcessFile(cfg, env, root, loc, f);
            r.env.bucket == env.bucket &&
            r.env.cache == Some(env.cache.value[KeyOf(cfg, root, loc) := env.bucket.objects[KeyOf(cfg, root, loc)]])
  {
  }

  /** With the cache enabled, the per-file step keeps it enabled: a file it
      leaves unchanged is cached under its key afterwards, and the entry of
      every other key stays as it was (the lookup stores only its own key,
      the store invalidates only its own key). */
  lemma ProcessFileCacheEntries(cfg: Config, env: Env, root: string, loc: string, f: Node)
    requires f.File? && env.cache.Some?
    ensures var r := ProcessFile(cfg, env, root, loc, f);
            && r.env.cache.Some?
            && (r.outcome == Unchanged ==> KeyOf(cfg, root, loc) in r.env.cache.value)
            && forall k :: k in env.cache.value && k != KeyOf(cfg, root, loc) ==>
                 k in r.env.cache.value && r.env.cache.value[k] == env.cache.value[k]
  {
  }
}
