/** One backup run: the optional listing pass, then the walk of every root in
    sorted order (`backup` of each variant). */
module Backup {
  import opened Optional
  import opened Ordering
  import opened Storage
  import opened Walk
  import opened Listing
  import opened Reconcile

  /** The listing pass a run makes before the walk, if any. The Ruby trunk
      lists the bucket only to delete; the Ruby branch and Python list it to
      delete, to rebuild an enabled cache, or both. */
  function ScanPass(cfg: Config, cacheOn: bool): (p: Option<Pass>)
    ensures cfg.variant == RubyTrunk ==> (p.Some? <==> cfg.delete) && (p.Some? ==> p.value == Pass(true, false))
    ensures cfg.variant != RubyTrunk ==>
              (p.Some? <==> cfg.delete || (cacheOn && cfg.rebuildCache)) &&
              (p.Some? ==> p.value.sweep == cfg.delete && p.value.rebuild == (cacheOn && cfg.rebuildCache))
  {
    if cfg.variant == RubyTrunk then
      if cfg.delete then Some(Pass(true, false)) else None
    else if cfg.delete || (cacheOn && cfg.rebuildCache) then
      Some(Pass(cfg.delete, cacheOn && cfg.rebuildCache))
    else None
  }

  /** One root: the Ruby variants walk it from the empty relative directory;
      Python walks the pairs `os.walk` yields for it, which the run takes as
      the parameter `osWalk`. */
  function WalkRoot(cfg: Config, fs: FileSystem, osWalk: string -> seq<(string, Name)>, root: string, env: Env): (r: WalkResult)
    ensures WalkSound(cfg, fs, root, "", env, r)
  {
    if cfg.variant == Python then PyWalk(cfg, fs, root, osWalk(root), env)
    else WalkDir(cfg, fs, root, "", env)
  }

  /** The roots in the given order, each from where the previous one left the
      bucket and the cache. */
  function WalkRoots(cfg: Config, fs: FileSystem, osWalk: string -> seq<(string, Name)>, roots: seq<string>, env: Env): (r: WalkResult)
    ensures Preserves(cfg, env, r)
    ensures Lands(fs, r)
    decreases |roots|
  {
    if roots == [] then WalkResult(env, [])
    else
      var first := WalkRoot(cfg, fs, osWalk, roots[0], env);
      var rest := WalkRoots(cfg, fs, osWalk, roots[1..], first.env);
      PreservesConcat(cfg, env, first, rest);
      LandsConcat(cfg, fs, first, rest);
      WalkResult(rest.env, first.events + rest.events)
  }

  /** The states the walk over the roots passes through: it reaches root `i`
      in state `i` and leaves it in state `i + 1`; the last state is the one
      the walk over all roots leaves. */
  ghost function RootEnvs(cfg: Config, fs: FileSystem, osWalk: string -> seq<(string, Name)>, roots: seq<string>, env: Env): (es: seq<Env>)
    ensures |es| == |roots| + 1
    ensures es[0] == env && es[|roots|] == WalkRoots(cfg, fs, osWalk, roots, env).env
    ensures forall i :: 0 <= i < |roots| ==> es[i + 1] == WalkRoot(cfg, fs, osWalk, roots[i], es[i]).env
    decreases |roots|
  {
    if roots == [] then [env]
    else
      var first := WalkRoot(cfg, fs, osWalk, roots[0], env);
      var rest := RootEnvs(cfg, fs, osWalk, roots[1..], first.env);
      var es := [env] + rest;
      assert forall i :: 0 < i < |roots| ==> roots[i] == roots[1..][i - 1] && es[i] == rest[i - 1] && es[i + 1] == rest[i];
      es
  }

  /** The walk over the roots, cut into the events of each root: their
      concatenation is the walk over the roots. */
  ghost function RootBlocks(cfg: Config, fs: FileSystem, osWalk: string -> seq<(string, Name)>, roots: seq<string>, env: Env): (bs: seq<seq<Event>>)
    ensures |bs| == |roots|
    ensures Flatten(bs) == WalkRoots(cfg, fs, osWalk, roots, env).events
    decreases |roots|
  {
    if roots == [] then []
    else
      var first := WalkRoot(cfg, fs, osWalk, roots[0], env);
      [first.events] + RootBlocks(cfg, fs, osWalk, roots[1..], first.env)
  }

  /** The block of root `i` is the walk of that root from the state the roots
      before it left. */
  lemma {:induction false} RootBlockAt(cfg: Config, fs: FileSystem, osWalk: string -> seq<(string, Name)>, roots: seq<string>, env: Env, i: nat)
    requires i < |roots|
    ensures RootBlocks(cfg, fs, osWalk, roots, env)[i] ==
              WalkRoot(cfg, fs, osWalk, roots[i], RootEnvs(cfg, fs, osWalk, roots, env)[i]).events
    decreases i
  {
    if i > 0 {
      var first := WalkRoot(cfg, fs, osWalk, roots[0], env);
      RootBlockAt(cfg, fs, osWalk, roots[1..], first.env, i - 1);
      assert roots[1..][i - 1] == roots[i];
      assert RootEnvs(cfg, fs, osWalk, roots, env)[i] == RootEnvs(cfg, fs, osWalk, roots[1..], first.env)[i - 1];
    }
  }

  /** `path` is one the walk of `root` must report, whatever the state: in the
      Ruby variants a regular file or unreadable directory reached from the
      root through directories that are neither links nor ignored; in Python
      a pair `os.walk` yields for the root that is neither ignored nor a link. */
  ghost predicate RootReports(cfg: Config, fs: FileSystem, osWalk: string -> seq<(string, Name)>, root: string, path: string) {
    if cfg.variant == Python then
      exists i :: 0 <= i < |osWalk(root)| && PyReportable(cfg, fs, osWalk(root)[i]) &&
                  path == PyJoin(osWalk(root)[i].0, osWalk(root)[i].1)
    else
      exists names :: Reaches(cfg, fs, root, "", names) && path == root + "/" + Descend("", names)
  }

  lemma WalkRootReports(cfg: Config, fs: FileSystem, osWalk: string -> seq<(string, Name)>, root: string, path: string, env: Env)
    requires RootReports(cfg, fs, osWalk, root, path)
    ensures Reported(WalkRoot(cfg, fs, osWalk, root, env).events, path)
  {
    if cfg.variant == Python {
      var i :| 0 <= i < |osWalk(root)| && PyReportable(cfg, fs, osWalk(root)[i]) &&
               path == PyJoin(osWalk(root)[i].0, osWalk(root)[i].1);
      PyWalkReports(cfg, fs, root, osWalk(root), env, i);
    } else {
      var names :| Reaches(cfg, fs, root, "", names) && path == root + "/" + Descend("", names);
      WalkDirReaches(cfg, fs, root, "", names, env);
    }
  }

  /** The listing pass of a run, or a completed empty one when the run makes
      none. */
  function Scan(cfg: Config, fs: FileSystem, env: Env): (r: ScanResult)
    ensures ScanPass(cfg, env.cache.Some?).None? ==> r.Completed? && r.st.env == env && r.st.requests == []
    ensures ScanPass(cfg, env.cache.Some?).Some? ==>
              (r.Aborted? <==> !NoneFails(cfg, fs, ScanPass(cfg, env.cache.Some?).value, env, ""))
    ensures r.st.env.bucket.faulty == env.bucket.faulty
    ensures cfg.dryRun ==> r.st.env.bucket == env.bucket
    ensures CacheAgrees(env) ==> CacheAgrees(r.st.env)
    ensures r.st.env.cache.Some? <==> env.cache.Some?
  {
    var pass := ScanPass(cfg, env.cache.Some?);
    if pass.None? then Completed(ScanState(env, map[], [], []))
    else
      ScanBucketCorrect(cfg, fs, pass.value, env);
      ScanBucketKeepsCacheAgreement(cfg, fs, pass.value, env);
      ScanBucket(cfg, fs, pass.value, env)
  }

  /** The result of a run: it finished (with the markers of its listing pass
      and the walk's events), or the listing pass raised and nothing was
      walked. */
  datatype RunResult =
    | Finished(env: Env, requests: seq<string>, events: seq<Event>)
    | ScanFailed(env: Env)

  /** `backup`: the listing pass when the run needs one; an error in it ends
      the run; otherwise every root is walked in sorted order. */
  function Run(cfg: Config, fs: FileSystem, osWalk: string -> seq<(string, Name)>, env: Env): (r: RunResult)
    ensures ScanPass(cfg, env.cache.Some?).None? ==> r.Finished? && r.requests == []
    ensures ScanPass(cfg, env.cache.Some?).Some? ==>
              (r.ScanFailed? <==> !NoneFails(cfg, fs, ScanPass(cfg, env.cache.Some?).value, env, ""))
    ensures r.Finished? ==>
              r.requests == Scan(cfg, fs, env).st.requests &&
              r.events == Flatten(RootBlocks(cfg, fs, osWalk, Sort(cfg.roots), Scan(cfg, fs, env).st.env))
    ensures r.Finished? ==>
              r.env == RootEnvs(cfg, fs, osWalk, Sort(cfg.roots), Scan(cfg, fs, env).st.env)[|Sort(cfg.roots)|]
    ensures r.Finished? ==>
              Preserves(cfg, Scan(cfg, fs, env).st.env, WalkResult(r.env, r.events)) &&
              Lands(fs, WalkResult(r.env, r.events))
    ensures r.env.bucket.faulty == env.bucket.faulty
    ensures cfg.dryRun ==> r.env.bucket == env.bucket
    ensures CacheAgrees(env) ==> CacheAgrees(r.env)
  {
    var scanned := Scan(cfg, fs, env);
    if scanned.Aborted? then ScanFailed(scanned.st.env)
    else
      var roots := Sort(cfg.roots);
      var w := WalkRoots(cfg, fs, osWalk, roots, scanned.st.env);
      Finished(w.env, scanned.st.requests, w.events)
  }

  /** The listing pass of a completed scan leaves an object alone unless the
      run deletes orphans and the object is one. */
  lemma ScanChanges(cfg: Config, fs: FileSystem, env: Env, k: string)
    requires Scan(cfg, fs, env).Completed?
    ensures var b := Scan(cfg, fs, env).st.env.bucket.objects;
            Unaffected(env.bucket.objects, b, k) ||
            (k in env.bucket.objects && k !in b && cfg.delete && !cfg.dryRun && Orphan(cfg, fs, k))
  {
    var pass := ScanPass(cfg, env.cache.Some?);
    if pass.Some? {
      ScanBucketCorrect(cfg, fs, pass.value, env);
      if k in env.bucket.objects {
        ScanBucketDeletesOrphans(cfg, fs, pass.value, env, k);
      }
    }
  }

  /** A finished run deletes an object only when deleting is asked for, the
      run is not a dry run, and the object's local path does not exist. */
  lemma RunDeletesOnlyOrphans(cfg: Config, fs: FileSystem, osWalk: string -> seq<(string, Name)>, env: Env, k: string)
    requires Run(cfg, fs, osWalk, env).Finished?
    requires k in env.bucket.objects && k !in Run(cfg, fs, osWalk, env).env.bucket.objects
    ensures cfg.delete && !cfg.dryRun && Orphan(cfg, fs, k)
  {
    var scanned := Scan(cfg, fs, env);
    ScanChanges(cfg, fs, env, k);
    var w := WalkRoots(cfg, fs, osWalk, Sort(cfg.roots), scanned.st.env);
    assert w.env == Run(cfg, fs, osWalk, env).env;
  }

  /** In a finished run, an object no event uploaded to is unchanged unless it
      is an orphan the run deletes. */
  lemma RunChangesOnlyUploadsAndOrphans(cfg: Config, fs: FileSystem, osWalk: string -> seq<(string, Name)>, env: Env, k: string)
    requires Run(cfg, fs, osWalk, env).Finished?
    requires !UploadedTo(Run(cfg, fs, osWalk, env).events, k)
    requires !(cfg.delete && !cfg.dryRun && Orphan(cfg, fs, k))
    ensures Unaffected(env.bucket.objects, Run(cfg, fs, osWalk, env).env.bucket.objects, k)
  {
    var scanned := Scan(cfg, fs, env);
    ScanChanges(cfg, fs, env, k);
    var w := WalkRoots(cfg, fs, osWalk, Sort(cfg.roots), scanned.st.env);
    assert w.events == Run(cfg, fs, osWalk, env).events;
    assert w.env == Run(cfg, fs, osWalk, env).env;
  }

  /** The walk over the roots reports every path that one of the roots' walks
      must report. */
  lemma RootsReport(cfg: Config, fs: FileSystem, osWalk: string -> seq<(string, Name)>, roots: seq<string>, env: Env, i: nat, path: string)
    requires i < |roots| && RootReports(cfg, fs, osWalk, roots[i], path)
    ensures Reported(WalkRoots(cfg, fs, osWalk, roots, env).events, path)
  {
    var bs := RootBlocks(cfg, fs, osWalk, roots, env);
    RootBlockAt(cfg, fs, osWalk, roots, env, i);
    WalkRootReports(cfg, fs, osWalk, roots[i], path, RootEnvs(cfg, fs, osWalk, roots, env)[i]);
    FlattenReported(bs, i, path);
  }

  /** The walk over the roots reports what a root must report before what a
      later root must report. */
  lemma RootsInOrder(cfg: Config, fs: FileSystem, osWalk: string -> seq<(string, Name)>, roots: seq<string>, env: Env,
                     i: nat, p1: string, j: nat, p2: string)
    requires i < j < |roots|
    requires RootReports(cfg, fs, osWalk, roots[i], p1) && RootReports(cfg, fs, osWalk, roots[j], p2)
    ensures ReportedBefore(WalkRoots(cfg, fs, osWalk, roots, env).events, p1, p2)
  {
    var bs := RootBlocks(cfg, fs, osWalk, roots, env);
    var es := RootEnvs(cfg, fs, osWalk, roots, env);
    RootBlockAt(cfg, fs, osWalk, roots, env, i);
    RootBlockAt(cfg, fs, osWalk, roots, env, j);
    WalkRootReports(cfg, fs, osWalk, roots[i], p1, es[i]);
    WalkRootReports(cfg, fs, osWalk, roots[j], p2, es[j]);
    FlattenOrder(bs, i, j, p1, p2);
  }

  /** The events of a finished run are those of walking the sorted roots
      from the state the listing pass left. */
  lemma RunEvents(cfg: Config, fs: FileSystem, osWalk: string -> seq<(string, Name)>, env: Env)
    requires Run(cfg, fs, osWalk, env).Finished?
    ensures Run(cfg, fs, osWalk, env).events == WalkRoots(cfg, fs, osWalk, Sort(cfg.roots), Scan(cfg, fs, env).st.env).events
  {
  }

  /** A finished run replays the sync steps root by root: the walk of the
      `i`-th sorted root starts in the state the roots before it left (the
      first in the state the listing pass left), its events replay the sync
      steps of that root's files from there, and the run ends in the state
      the last root left. */
  lemma RunReplays(cfg: Config, fs: FileSystem, osWalk: string -> seq<(string, Name)>, env: Env)
    requires Run(cfg, fs, osWalk, env).Finished?
    ensures var roots := Sort(cfg.roots);
            var es := RootEnvs(cfg, fs, osWalk, roots, Scan(cfg, fs, env).st.env);
            var bs := RootBlocks(cfg, fs, osWalk, roots, Scan(cfg, fs, env).st.env);
            && es[0] == Scan(cfg, fs, env).st.env
            && Run(cfg, fs, osWalk, env).env == es[|roots|]
            && Run(cfg, fs, osWalk, env).events == Flatten(bs)
            && forall i :: 0 <= i < |roots| ==> Replays(cfg, fs, roots[i], es[i], bs[i], es[i + 1])
  {
    var roots := Sort(cfg.roots);
    var e0 := Scan(cfg, fs, env).st.env;
    var es := RootEnvs(cfg, fs, osWalk, roots, e0);
    var bs := RootBlocks(cfg, fs, osWalk, roots, e0);
    forall i | 0 <= i < |roots| ensures Replays(cfg, fs, roots[i], es[i], bs[i], es[i + 1]) {
      RootBlockAt(cfg, fs, osWalk, roots, e0, i);
      var w := WalkRoot(cfg, fs, osWalk, roots[i], es[i]);
      assert bs[i] == w.events && es[i + 1] == w.env;
    }
  }

  /** Over the roots from `from` on, none of whose walks has a file event for
      key `k`, the cache entry of `k` stays. */
  lemma {:induction false} RootsKeepEntry(cfg: Config, fs: FileSystem, roots: seq<string>, es: seq<Env>, bs: seq<seq<Event>>, from: nat, k: string)
    requires |es| == |roots| + 1 && |bs| == |roots| && from <= |roots|
    requires forall i :: 0 <= i < |roots| ==> Replays(cfg, fs, roots[i], es[i], bs[i], es[i + 1])
    requires es[from].cache.Some? && k in es[from].cache.value
    requires forall i, j :: from <= i < |roots| && 0 <= j < |bs[i]| && bs[i][j].FileEvent? ==> bs[i][j].key != k
    ensures es[|roots|].cache.Some? && k in es[|roots|].cache.value
    decreases |roots| - from
  {
    if from < |roots| {
      ReplaysKeepEntry(cfg, fs, roots[from], es[from], bs[from], es[from + 1], k);
      RootsKeepEntry(cfg, fs, roots, es, bs, from + 1, k);
    }
  }

  /** With the cache enabled, a file a finished run left unchanged is cached
      when the run ends, unless a later file event of the run has its key:
      the next run looks it up with no remote request. Events are addressed
      by the sorted root they belong to and their place in that root's walk. */
  lemma RunCachesUnchanged(cfg: Config, fs: FileSystem, osWalk: string -> seq<(string, Name)>, env: Env, i: nat, j: nat)
    requires Run(cfg, fs, osWalk, env).Finished? && env.cache.Some?
    requires var bs := RootBlocks(cfg, fs, osWalk, Sort(cfg.roots), Scan(cfg, fs, env).st.env);
             && i < |bs| && j < |bs[i]| && bs[i][j].FileEvent? && bs[i][j].outcome.Unchanged?
             && (forall j' :: j < j' < |bs[i]| && bs[i][j'].FileEvent? ==> bs[i][j'].key != bs[i][j].key)
             && (forall i', j' :: i < i' < |bs| && 0 <= j' < |bs[i']| && bs[i'][j'].FileEvent? ==> bs[i'][j'].key != bs[i][j].key)
    ensures var bs := RootBlocks(cfg, fs, osWalk, Sort(cfg.roots), Scan(cfg, fs, env).st.env);
            Run(cfg, fs, osWalk, env).env.cache.Some? && bs[i][j].key in Run(cfg, fs, osWalk, env).env.cache.value
  {
    var roots := Sort(cfg.roots);
    var e0 := Scan(cfg, fs, env).st.env;
    var es := RootEnvs(cfg, fs, osWalk, roots, e0);
    var bs := RootBlocks(cfg, fs, osWalk, roots, e0);
    RunReplays(cfg, fs, osWalk, env);
    CacheStaysOn(cfg, fs, roots, es, bs, i);
    ReplaysCacheUnchanged(cfg, fs, roots[i], es[i], bs[i], es[i + 1], j);
    RootsKeepEntry(cfg, fs, roots, es, bs, i + 1, bs[i][j].key);
  }

  /** A cache enabled before the walk over the roots is enabled when it
      reaches each root. */
  lemma {:induction false} CacheStaysOn(cfg: Config, fs: FileSystem, roots: seq<string>, es: seq<Env>, bs: seq<seq<Event>>, n: nat)
    requires |es| == |roots| + 1 && |bs| == |roots| && n <= |roots|
    requires forall i :: 0 <= i < |roots| ==> Replays(cfg, fs, roots[i], es[i], bs[i], es[i + 1])
    requires es[0].cache.Some?
    ensures es[n].cache.Some?
    decreases n
  {
    if n > 0 {
      CacheStaysOn(cfg, fs, roots, es, bs, n - 1);
      ReplaysCacheOn(cfg, fs, roots[n - 1], es[n - 1], bs[n - 1], es[n]);
    }
  }

  /** A finished run reports every path some root's walk must report. */
  lemma RunReports(cfg: Config, fs: FileSystem, osWalk: string -> seq<(string, Name)>, env: Env, root: string, path: string)
    requires Run(cfg, fs, osWalk, env).Finished?
    requires root in cfg.roots && RootReports(cfg, fs, osWalk, root, path)
    ensures Reported(Run(cfg, fs, osWalk, env).events, path)
  {
    var i := SortIndex(cfg.roots, root);
    RunEvents(cfg, fs, osWalk, env);
    RootsReport(cfg, fs, osWalk, Sort(cfg.roots), Scan(cfg, fs, env).st.env, i, path);
  }

  /** Roots are walked in sorted order: what a smaller root must report comes
      before what a greater root must report. */
  lemma RunRootsInOrder(cfg: Config, fs: FileSystem, osWalk: string -> seq<(string, Name)>, env: Env,
                        r1: string, p1: string, r2: string, p2: string)
    requires Run(cfg, fs, osWalk, env).Finished?
    requires r1 in cfg.roots && RootReports(cfg, fs, osWalk, r1, p1)
    requires r2 in cfg.roots && RootReports(cfg, fs, osWalk, r2, p2)
    requires Less(r1, r2)
    ensures ReportedBefore(Run(cfg, fs, osWalk, env).events, p1, p2)
  {
    var roots := Sort(cfg.roots);
    assert r1 in multiset(roots) && r2 in multiset(roots);
    var i, j := SortedIndices(roots, r1, r2);
    RunEvents(cfg, fs, osWalk, env);
    RootsInOrder(cfg, fs, osWalk, roots, Scan(cfg, fs, env).st.env, i, p1, j, p2);
  }

  /** Walking roots whose trees are all current uploads nothing and leaves
      the bucket as it was. */
  lemma {:induction false} WalkRootsQuiet(cfg: Config, fs: FileSystem, osWalk: string -> seq<(string, Name)>, roots: seq<string>, env: Env)
    requires CacheAgrees(env)
    requires forall i :: 0 <= i < |roots| ==> AllCurrent(cfg, fs, roots[i], env.bucket)
    ensures Quiet(env, WalkRoots(cfg, fs, osWalk, roots, env))
    decreases |roots|
  {
    if roots != [] {
      var first := WalkRoot(cfg, fs, osWalk, roots[0], env);
      if cfg.variant == Python {
        PyWalkQuiet(cfg, fs, roots[0], osWalk(roots[0]), env);
      } else {
        WalkDirQuiet(cfg, fs, roots[0], "", env);
      }
      assert forall i :: 0 <= i < |roots[1..]| ==> roots[1..][i] == roots[i + 1];
      WalkRootsQuiet(cfg, fs, osWalk, roots[1..], first.env);
      QuietConcat(env, first, WalkRoots(cfg, fs, osWalk, roots[1..], first.env));
    }
  }

  /** A run over roots whose files are all current, that deletes nothing,
      uploads nothing, not even in dry-run, and leaves the bucket as it was:
      running the backup again on an unchanged tree is a no-op. */
  lemma RunQuiet(cfg: Config, fs: FileSystem, osWalk: string -> seq<(string, Name)>, env: Env)
    requires Run(cfg, fs, osWalk, env).Finished?
    requires CacheAgrees(env) && !(cfg.delete && !cfg.dryRun)
    requires forall root :: root in cfg.roots ==> AllCurrent(cfg, fs, root, env.bucket)
    ensures Run(cfg, fs, osWalk, env).env.bucket == env.bucket
    ensures forall i :: 0 <= i < |Run(cfg, fs, osWalk, env).events| && Run(cfg, fs, osWalk, env).events[i].FileEvent? ==>
              !Run(cfg, fs, osWalk, env).events[i].outcome.Uploaded? &&
              !Run(cfg, fs, osWalk, env).events[i].outcome.WouldUpload?
  {
    var scanned := Scan(cfg, fs, env).st.env;
    forall k ensures Unaffected(env.bucket.objects, scanned.bucket.objects, k) {
      ScanChanges(cfg, fs, env, k);
    }
    assert scanned.bucket.objects.Keys == env.bucket.objects.Keys;
    assert scanned.bucket == env.bucket;
    var roots := Sort(cfg.roots);
    forall i | 0 <= i < |roots| ensures AllCurrent(cfg, fs, roots[i], scanned.bucket) {
      assert roots[i] in multiset(cfg.roots);
    }
    WalkRootsQuiet(cfg, fs, osWalk, roots, scanned);
  }
}
