/** The bucket listing pass: marker-based pagination, the deletion sweep and
    the cache rebuild (`scan_s3` of the Ruby branch and of Python, `delete` of
    the Ruby trunk). */
module Listing {
  import opened Optional
  import opened Ordering
  import opened Keys
  import opened Storage

  /** One object of a listing page. */
  datatype Listed = Listed(key: string, etag: string)

  /** The store's default page size. */
  const MaxKeys: nat := 1000

  function Take(q: seq<string>, n: nat): (r: seq<string>)
    ensures |r| <= n && |r| <= |q|
    ensures |r| == n || |r| == |q|
    ensures r == q[..|r|]
  {
    if |q| <= n then q else q[..n]
  }

  /** `list_bucket(bucket, marker)`: the first `maxKeys` objects whose keys
      follow the marker, in key order, with their etags. */
  function ListPage(b: Bucket, marker: string, maxKeys: nat): (page: seq<Listed>)
    requires maxKeys >= 1
    ensures |page| <= maxKeys
    ensures page == [] <==> After(b.objects.Keys, marker) == {}
    ensures forall i :: 0 <= i < |page| ==>
              page[i].key in b.objects && Less(marker, page[i].key) &&
              page[i].etag == b.objects[page[i].key].etag
  {
    var keys := Take(SortedSet(After(b.objects.Keys, marker)), maxKeys);
    seq(|keys|, i requires 0 <= i < |keys| => Listed(keys[i], b.objects[keys[i]].etag))
  }

  /** A page is the start of the sorted keys after the marker. */
  lemma ListPageIsPrefix(b: Bucket, marker: string, maxKeys: nat)
    requires maxKeys >= 1
    ensures var page := ListPage(b, marker, maxKeys);
            var q := SortedSet(After(b.objects.Keys, marker));
            |page| <= |q| && forall i :: 0 <= i < |page| ==> page[i].key == q[i]
  {
  }

  /** A page lists its keys in increasing order. */
  lemma ListPageSorted(b: Bucket, marker: string, maxKeys: nat)
    requires maxKeys >= 1
    ensures var page := ListPage(b, marker, maxKeys);
            forall i, j :: 0 <= i < j < |page| ==> Less(page[i].key, page[j].key)
  {
    ListPageIsPrefix(b, marker, maxKeys);
  }

  /** No key is skipped: every key after the marker is on the page, or the
      page is full and the key follows its last key. */
  lemma ListPageComplete(b: Bucket, marker: string, maxKeys: nat, k: string)
    requires maxKeys >= 1
    requires k in b.objects && Less(marker, k)
    ensures var page := ListPage(b, marker, maxKeys);
            (exists i :: 0 <= i < |page| && page[i].key == k) ||
            (|page| == maxKeys && Less(page[maxKeys - 1].key, k))
  {
    var page := ListPage(b, marker, maxKeys);
    var q := SortedSet(After(b.objects.Keys, marker));
    assert k in q;
    var j :| 0 <= j < |q| && q[j] == k;
    if j < |page| {
      assert page[j].key == k;
    } else {
      assert |page| == maxKeys;
      assert page[maxKeys - 1].key == q[maxKeys - 1];
    }
  }

  /** Which consumers run in a listing pass. */
  datatype Pass = Pass(sweep: bool, rebuild: bool)

  /** The key's local path is known and does not exist: the sweep proposes
      deleting it. */
  predicate Orphan(cfg: Config, fs: FileSystem, key: string) {
    var p := FilePathFromKey(cfg.mode, cfg.roots, key);
    p.Some? && !Exists(fs, p.value)
  }

  datatype SweepResult = Swept(env: Env) | SweepRaised(env: Env)

  /** The deletion sweep for one listed key. A key whose local path exists is
      kept; an orphan is only reported in dry-run; otherwise its cache entry
      is invalidated and then the object deleted. Errors (no root to map a
      relative key to, a failing delete) are not rescued. */
  function SweepObject(cfg: Config, fs: FileSystem, env: Env, key: string): (r: SweepResult)
    ensures r.SweepRaised? <==>
              FilePathFromKey(cfg.mode, cfg.roots, key).None? ||
              (Orphan(cfg, fs, key) && !cfg.dryRun && key in env.bucket.faulty.delete)
    ensures r.env.bucket.faulty == env.bucket.faulty
    ensures r.env.cache.Some? <==> env.cache.Some?
    ensures CacheAgrees(env) ==> CacheAgrees(r.env)
    ensures !Orphan(cfg, fs, key) || cfg.dryRun ==> r.env == env
    ensures Orphan(cfg, fs, key) && !cfg.dryRun ==>
              r.env.cache == Invalidate(env.cache, key) &&
              r.env.bucket.objects == (if r.Swept? then env.bucket.objects - {key} else env.bucket.objects)
  {
    match FilePathFromKey(cfg.mode, cfg.roots, key)
    case None => SweepRaised(env)
    case Some(path) =>
      if Exists(fs, path) || cfg.dryRun then Swept(env)
      else
        var cache := Invalidate(env.cache, key);
        if key in env.bucket.faulty.delete then SweepRaised(Env(env.bucket, cache))
        else Swept(Env(env.bucket.(objects := env.bucket.objects - {key}), cache))
  }

  /** The cache rebuild for one listed object: a cached record whose etag
      equals the listed etag is carried into the new cache; a mismatching one
      is dropped. */
  function RebuildObject(cache: Cache, newCache: map<string, Record>, obj: Listed): (r: map<string, Record>)
    ensures obj.key in r <==> (obj.key in newCache ||
              (cache.Some? && obj.key in cache.value && cache.value[obj.key].etag == obj.etag))
    ensures obj.key !in newCache && obj.key in r ==> r[obj.key] == cache.value[obj.key]
    ensures forall k :: k != obj.key ==> (k in r <==> k in newCache) && (k in r ==> r[k] == newCache[k])
  {
    if cache.Some? && obj.key in cache.value && cache.value[obj.key].etag == obj.etag then
      newCache[obj.key := cache.value[obj.key]]
    else newCache
  }

  /** The state of a listing pass: the bucket and cache, the cache being
      rebuilt, the keys listed so far and the markers requested so far. */
  datatype ScanState = ScanState(env: Env, newCache: map<string, Record>, listed: seq<string>, requests: seq<string>)

  datatype Step = Continue(st: ScanState) | Abort(st: ScanState)

  /** Both consumers for one listed object: first the sweep, then the rebuild,
      which reads the cache as the sweep left it. */
  function ProcessObject(cfg: Config, fs: FileSystem, pass: Pass, st: ScanState, obj: Listed): (r: Step)
    ensures r.st.env.bucket.faulty == st.env.bucket.faulty
    ensures r.st.env.bucket.objects.Keys <= st.env.bucket.objects.Keys
    ensures r.st.env.bucket.objects.Keys >= st.env.bucket.objects.Keys - {obj.key}
    ensures r.st.listed == st.listed + [obj.key] && r.st.requests == st.requests
    ensures r.st.env.cache.Some? <==> st.env.cache.Some?
    ensures st.newCache.Keys <= r.st.newCache.Keys
    ensures cfg.dryRun || !pass.sweep ==> r.st.env.bucket == st.env.bucket
    ensures CacheAgrees(st.env) ==> CacheAgrees(r.st.env)
  {
    var st1 := st.(listed := st.listed + [obj.key]);
    var sw := if pass.sweep then SweepObject(cfg, fs, st.env, obj.key) else Swept(st.env);
    match sw
    case SweepRaised(env) => Abort(st1.(env := env))
    case Swept(env) =>
      var newCache := if pass.rebuild then RebuildObject(env.cache, st.newCache, obj) else st.newCache;
      Continue(st1.(env := env, newCache := newCache))
  }

  /** The keys of a page. */
  function PageKeys(page: seq<Listed>): (keys: seq<string>)
    ensures |keys| == |page| && forall i :: 0 <= i < |page| ==> keys[i] == page[i].key
    decreases |page|
  {
    if page == [] then [] else [page[0].key] + PageKeys(page[1..])
  }

  /** The pagination measure shrinks: the keys after the new marker in the
      shrunken bucket are fewer than those after the old marker before. */
  lemma MeasureShrinks(before: set<string>, after: set<string>, marker: string, last: string)
    requires after <= before && last in before && Less(marker, last)
    ensures After(after, last) < After(before, marker)
  {
    LessIsStrictTotalOrder();
    LessIrreflexive(last);
  }

  /** The objects of one page, in order; an error stops the pass. */
  function ProcessPage(cfg: Config, fs: FileSystem, pass: Pass, st: ScanState, page: seq<Listed>): (r: Step)
    ensures r.st.env.bucket.faulty == st.env.bucket.faulty
    ensures r.st.env.bucket.objects.Keys <= st.env.bucket.objects.Keys
    ensures r.Continue? ==> r.st.listed == st.listed + PageKeys(page)
    ensures st.listed <= r.st.listed
    ensures r.st.requests == st.requests
    ensures r.st.env.cache.Some? <==> st.env.cache.Some?
    ensures st.newCache.Keys <= r.st.newCache.Keys
    ensures cfg.dryRun || !pass.sweep ==> r.st.env.bucket == st.env.bucket
    ensures CacheAgrees(st.env) ==> CacheAgrees(r.st.env)
    decreases |page|
  {
    if page == [] then Continue(st)
    else
      match ProcessObject(cfg, fs, pass, st, page[0])
      case Abort(s) => Abort(s)
      case Continue(s) =>
        var r := ProcessPage(cfg, fs, pass, s, page[1..]);
        AppendPageKeys(st.listed, page);
        PrefixTransitive(st.listed, s.listed, r.st.listed);
        r
  }

  /** Listing the first key of a page and then the rest lists the page. */
  lemma AppendPageKeys(listed: seq<string>, page: seq<Listed>)
    requires page != []
    ensures listed + [page[0].key] + PageKeys(page[1..]) == listed + PageKeys(page)
  {
    assert PageKeys(page) == [page[0].key] + PageKeys(page[1..]);
  }

  lemma PrefixTransitive(a: seq<string>, b: seq<string>, c: seq<string>)
    requires a <= b && b <= c
    ensures a <= c
  {
    assert a == b[..|a|] && b == c[..|b|];
    assert c[..|b|][..|a|] == c[..|a|];
  }

  datatype ScanResult = Completed(st: ScanState) | Aborted(st: ScanState)

  /** The pagination loop from `marker` on: request a page; an empty page
      ends the loop; otherwise process it and continue from its last key. */
  function ScanFrom(cfg: Config, fs: FileSystem, pass: Pass, maxKeys: nat, marker: string, st: ScanState): (r: ScanResult)
    requires maxKeys >= 1
    ensures st.requests + [marker] <= r.st.requests
    ensures r.st.env.bucket.faulty == st.env.bucket.faulty
    ensures st.listed <= r.st.listed
    ensures r.st.env.cache.Some? <==> st.env.cache.Some?
    ensures st.newCache.Keys <= r.st.newCache.Keys
    ensures cfg.dryRun || !pass.sweep ==> r.st.env.bucket == st.env.bucket
    ensures CacheAgrees(st.env) ==> CacheAgrees(r.st.env)
    decreases After(st.env.bucket.objects.Keys, marker)
  {
    var page := ListPage(st.env.bucket, marker, maxKeys);
    var st1 := st.(requests := st.requests + [marker]);
    if page == [] then
      Completed(st1)
    else
      var p := ProcessPage(cfg, fs, pass, st1, page);
      if p.Abort? then Aborted(p.st)
      else
        var last := page[|page| - 1].key;
        MeasureShrinks(st.env.bucket.objects.Keys, p.st.env.bucket.objects.Keys, marker, last);
        var r := ScanFrom(cfg, fs, pass, maxKeys, last, p.st);
        assert st.requests + [marker] <= p.st.requests;
        r
  }

  /** The listing pass: start from the empty marker with an empty new cache;
      when the pass completes and the rebuild ran, the new cache replaces the
      old one. */
  function ScanBucket(cfg: Config, fs: FileSystem, pass: Pass, env: Env): (r: ScanResult)
    ensures |r.st.requests| >= 1 && r.st.requests[0] == ""
    ensures r.st.env.bucket.faulty == env.bucket.faulty
    ensures cfg.dryRun || !pass.sweep ==> r.st.env.bucket == env.bucket
    ensures r.st.env.cache.Some? <==> env.cache.Some?
  {
    var r := ScanFrom(cfg, fs, pass, MaxKeys, "", ScanState(env, map[], [], []));
    if r.Completed? && pass.rebuild && r.st.env.cache.Some? then
      Completed(r.st.(env := r.st.env.(cache := Some(r.st.newCache))))
    else r
  }

  /** The listing pass as the Ruby branch and Python write it: the temporary
      store for the new cache is opened without being emptied, so the rebuild
      starts from whatever an earlier pass that raised left in it. Every entry
      of that leftover store ends up in the cache a completed rebuild installs;
      with an empty leftover store this is `ScanBucket`. */
  function ScanBucketReopening(cfg: Config, fs: FileSystem, pass: Pass, env: Env, leftover: map<string, Record>): (r: ScanResult)
    ensures r.Completed? && pass.rebuild && env.cache.Some? ==>
              r.st.env.cache.Some? && leftover.Keys <= r.st.env.cache.value.Keys
    ensures leftover == map[] ==> r == ScanBucket(cfg, fs, pass, env)
  {
    var r := ScanFrom(cfg, fs, pass, MaxKeys, "", ScanState(env, leftover, [], []));
    if r.Completed? && pass.rebuild && r.st.env.cache.Some? then
      Completed(r.st.(env := r.st.env.(cache := Some(r.st.newCache))))
    else r
  }
}
