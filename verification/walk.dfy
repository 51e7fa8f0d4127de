/** The tree walk: which local entries reach the per-file sync step, in what
    order, and how directory and file errors are contained. */
module Walk {
  import opened Ordering
  import opened Keys
  import opened Storage
  import opened Sync

  /** What the walk reports: a regular file that went through the sync step
      (its entry name, full path, key and outcome), or a directory it could not
      read. */
  datatype Event =
    | FileEvent(name: string, path: string, key: string, outcome: FileOutcome)
    | DirUnreadable(dir: string)

  datatype WalkResult = WalkResult(env: Env, events: seq<Event>)

  /** The directory `walk(root, rel_dir)` lists. */
  function DirPath(root: string, relDir: string): string {
    if relDir == "" then root else root + "/" + relDir
  }

  /** The path of `entry` below the root. */
  function RelPath(relDir: string, entry: string): string {
    if relDir == "" then entry else relDir + "/" + entry
  }

  /** Termination measure of the walk: the filesystem paths longer than `n`. */
  function Deeper(fs: FileSystem, n: nat): set<string> {
    set p | p in fs.Keys && |p| > n
  }

  /** The path the names lead to, one entry after the other, from `relDir`. */
  function Descend(relDir: string, names: seq<string>): string
    decreases |names|
  {
    if names == [] then relDir else Descend(RelPath(relDir, names[0]), names[1..])
  }

  /** A directory entry the Ruby walk descends into: not `.`/`..`, not a
      symbolic link, not ignored, and a directory. */
  predicate Traversable(cfg: Config, fs: FileSystem, root: string, relDir: string, entry: string) {
    var path := root + "/" + RelPath(relDir, entry);
    && entry != "." && entry != ".."
    && !IsLink(fs, path) && !Ignored(cfg, path) && path in fs && fs[path].Dir?
  }

  /** A directory entry the Ruby walk hands to the sync step: not `.`/`..`,
      not a symbolic link, not ignored, and a regular file. */
  predicate Visited(cfg: Config, fs: FileSystem, root: string, relDir: string, entry: string) {
    var path := root + "/" + RelPath(relDir, entry);
    && entry != "." && entry != ".."
    && !IsLink(fs, path) && !Ignored(cfg, path) && path in fs && fs[path].File?
  }

  /** The names lead down from `relDir` the way the Ruby walk goes: each is a
      proper entry name, and each but the last is a directory it descends
      into. */
  predicate Descends(cfg: Config, fs: FileSystem, root: string, relDir: string, names: seq<string>)
    decreases |names|
  {
    && |names| >= 1
    && names[0] != "" && '/' !in names[0] && names[0] != "." && names[0] != ".."
    && (|names| > 1 ==>
          Traversable(cfg, fs, root, relDir, names[0]) &&
          Descends(cfg, fs, root, RelPath(relDir, names[0]), names[1..]))
  }

  /** An event the walk of `relDir` below `root` may report: a file event is
      for a path that is neither ignored nor a symbolic link, it carries the
      file's key, and it is a regular file unless its sync step failed. In the
      Ruby walk it is moreover a regular file below `relDir` reached through
      directories that are neither links nor ignored, and its name is the
      path's last entry (never `.`/`..`). */
  ghost predicate Admitted(cfg: Config, fs: FileSystem, root: string, relDir: string, e: Event) {
    e.FileEvent? ==>
      && !Ignored(cfg, e.path)
      && !IsLink(fs, e.path)
      && e.key == PyS3Path(cfg.mode, root, e.path)
      && (e.outcome == FileFailed || (e.path in fs && fs[e.path].File?))
      && (cfg.variant != Python ==>
            && e.path in fs && fs[e.path].File?
            && exists names :: Descends(cfg, fs, root, relDir, names) &&
                 e.name == names[|names| - 1] && e.path == root + "/" + Descend(relDir, names))
  }

  /** The object under `k` is the same before and after. */
  predicate Unaffected(before: map<string, Record>, after: map<string, Record>, k: string) {
    (k in before <==> k in after) && (k in before ==> before[k] == after[k])
  }

  /** Some event reports an upload to key `k`. */
  ghost predicate UploadedTo(events: seq<Event>, k: string) {
    exists i :: 0 <= i < |events| && events[i].FileEvent? && events[i].outcome.Uploaded? && events[i].key == k
  }

  /** What a sequence of sync steps guarantees about the bucket and the cache:
      no key disappears, only keys some event uploaded to change, dry-run
      leaves the bucket alone and the cache keeps agreeing with the bucket. */
  ghost predicate Preserves(cfg: Config, env: Env, r: WalkResult) {
    && r.env.bucket.faulty == env.bucket.faulty
    && env.bucket.objects.Keys <= r.env.bucket.objects.Keys
    && (forall k :: !UploadedTo(r.events, k) ==> Unaffected(env.bucket.objects, r.env.bucket.objects, k))
    && (cfg.dryRun ==> r.env.bucket == env.bucket)
    && (CacheAgrees(env) ==> CacheAgrees(r.env))
  }

  /** The event at `i` reports an upload, and no later event reports an
      upload to the same key. */
  predicate LastUpload(events: seq<Event>, i: int)
    requires 0 <= i < |events|
  {
    && events[i].FileEvent? && events[i].outcome.Uploaded?
    && forall j :: i < j < |events| ==>
         !(events[j].FileEvent? && events[j].outcome.Uploaded? && events[j].key == events[i].key)
  }

  /** Every upload that no later upload overwrites is in the bucket at the
      end: the object under its key is the record the upload of its regular
      file leaves. */
  ghost predicate Lands(fs: FileSystem, r: WalkResult) {
    forall i :: 0 <= i < |r.events| && LastUpload(r.events, i) ==>
      && r.events[i].path in fs && fs[r.events[i].path].File?
      && r.events[i].key in r.env.bucket.objects
      && r.env.bucket.objects[r.events[i].key] == UploadRecord(fs[r.events[i].path])
  }

  /** The location the sync step of the file at `path` is given: the full
      path in Python, the path below the root in the Ruby variants. */
  function LocOf(cfg: Config, root: string, path: string): string {
    if cfg.variant == Python || |path| <= |root| then path else path[|root| + 1..]
  }

  /** The events replay the sync steps from `env` to `final`: a file event
      carries the key of its file's sync step; on a regular file it has the
      outcome of that step from the state the events before it left, and the
      step's state is the next one; a file event on anything else failed and
      leaves the state alone, as does an unreadable directory. */
  ghost predicate Replays(cfg: Config, fs: FileSystem, root: string, env: Env, events: seq<Event>, final: Env)
    decreases |events|
  {
    if events == [] then final == env
    else
      var e := events[0];
      if e.FileEvent? && e.path in fs && fs[e.path].File? then
        var f := ProcessFile(cfg, env, root, LocOf(cfg, root, e.path), fs[e.path]);
        && e.key == KeyOf(cfg, root, LocOf(cfg, root, e.path))
        && e.outcome == f.outcome
        && Replays(cfg, fs, root, f.env, events[1..], final)
      else
        && (e.FileEvent? ==> e.key == KeyOf(cfg, root, LocOf(cfg, root, e.path)) && e.outcome == FileFailed)
        && Replays(cfg, fs, root, env, events[1..], final)
  }

  lemma {:induction false} ReplaysConcat(cfg: Config, fs: FileSystem, root: string, env: Env, a: seq<Event>, mid: Env, b: seq<Event>, final: Env)
    requires Replays(cfg, fs, root, env, a, mid) && Replays(cfg, fs, root, mid, b, final)
    ensures Replays(cfg, fs, root, env, a + b, final)
    decreases |a|
  {
    if a == [] {
      assert a + b == b;
    } else {
      assert (a + b)[0] == a[0] && (a + b)[1..] == a[1..] + b;
      var e := a[0];
      if e.FileEvent? && e.path in fs && fs[e.path].File? {
        var f := ProcessFile(cfg, env, root, LocOf(cfg, root, e.path), fs[e.path]);
        ReplaysConcat(cfg, fs, root, f.env, a[1..], mid, b, final);
      } else {
        ReplaysConcat(cfg, fs, root, env, a[1..], mid, b, final);
      }
    }
  }

  /** Replaying the same events from the same state ends in one state only:
      the events of a walk determine the state it leaves. */
  lemma {:induction false} ReplaysUnique(cfg: Config, fs: FileSystem, root: string, env: Env, events: seq<Event>, f1: Env, f2: Env)
    requires Replays(cfg, fs, root, env, events, f1) && Replays(cfg, fs, root, env, events, f2)
    ensures f1 == f2
    decreases |events|
  {
    if events != [] {
      var e := events[0];
      if e.FileEvent? && e.path in fs && fs[e.path].File? {
        var f := ProcessFile(cfg, env, root, LocOf(cfg, root, e.path), fs[e.path]);
        ReplaysUnique(cfg, fs, root, f.env, events[1..], f1, f2);
      } else {
        ReplaysUnique(cfg, fs, root, env, events[1..], f1, f2);
      }
    }
  }

  /** Replaying events none of which is a file event for key `k` keeps the
      cache entry of `k`. */
  lemma {:induction false} ReplaysKeepEntry(cfg: Config, fs: FileSystem, root: string, env: Env, events: seq<Event>, final: Env, k: string)
    requires Replays(cfg, fs, root, env, events, final)
    requires env.cache.Some? && k in env.cache.value
    requires forall j :: 0 <= j < |events| && events[j].FileEvent? ==> events[j].key != k
    ensures final.cache.Some? && k in final.cache.value && final.cache.value[k] == env.cache.value[k]
    decreases |events|
  {
    if events != [] {
      var e := events[0];
      if e.FileEvent? && e.path in fs && fs[e.path].File? {
        var f := ProcessFile(cfg, env, root, LocOf(cfg, root, e.path), fs[e.path]);
        ProcessFileCacheEntries(cfg, env, root, LocOf(cfg, root, e.path), fs[e.path]);
        ReplaysKeepEntry(cfg, fs, root, f.env, events[1..], final, k);
      } else {
        ReplaysKeepEntry(cfg, fs, root, env, events[1..], final, k);
      }
    }
  }

  /** Replaying keeps an enabled cache enabled. */
  lemma {:induction false} ReplaysCacheOn(cfg: Config, fs: FileSystem, root: string, env: Env, events: seq<Event>, final: Env)
    requires Replays(cfg, fs, root, env, events, final)
    requires env.cache.Some?
    ensures final.cache.Some?
    decreases |events|
  {
    if events != [] {
      var e := events[0];
      if e.FileEvent? && e.path in fs && fs[e.path].File? {
        var f := ProcessFile(cfg, env, root, LocOf(cfg, root, e.path), fs[e.path]);
        ProcessFileCacheEntries(cfg, env, root, LocOf(cfg, root, e.path), fs[e.path]);
        ReplaysCacheOn(cfg, fs, root, f.env, events[1..], final);
      } else {
        ReplaysCacheOn(cfg, fs, root, env, events[1..], final);
      }
    }
  }

  /** With the cache enabled, a file the walk left unchanged is cached at the
      end unless a later file event has its key: the next run finds it with
      no remote request. */
  lemma {:induction false} ReplaysCacheUnchanged(cfg: Config, fs: FileSystem, root: string, env: Env, events: seq<Event>, final: Env, i: nat)
    requires Replays(cfg, fs, root, env, events, final)
    requires env.cache.Some?
    requires i < |events| && events[i].FileEvent? && events[i].outcome == Unchanged
    requires forall j :: i < j < |events| && events[j].FileEvent? ==> events[j].key != events[i].key
    ensures final.cache.Some? && events[i].key in final.cache.value
    decreases |events|
  {
    var e := events[0];
    var env1 := if e.FileEvent? && e.path in fs && fs[e.path].File? then
                  ProcessFile(cfg, env, root, LocOf(cfg, root, e.path), fs[e.path]).env
                else env;
    if e.FileEvent? && e.path in fs && fs[e.path].File? {
      ProcessFileCacheEntries(cfg, env, root, LocOf(cfg, root, e.path), fs[e.path]);
    }
    if i == 0 {
      ReplaysKeepEntry(cfg, fs, root, env1, events[1..], final, e.key);
    } else {
      ReplaysCacheUnchanged(cfg, fs, root, env1, events[1..], final, i - 1);
    }
  }

  /** The guarantees a walk of `relDir` below `root` gives about its result. */
  ghost predicate WalkSound(cfg: Config, fs: FileSystem, root: string, relDir: string, env: Env, r: WalkResult) {
    && Preserves(cfg, env, r)
    && Lands(fs, r)
    && Replays(cfg, fs, root, env, r.events, r.env)
    && (forall i :: 0 <= i < |r.events| ==> Admitted(cfg, fs, root, relDir, r.events[i]))
  }

  lemma PreservesConcat(cfg: Config, env: Env, a: WalkResult, b: WalkResult)
    requires Preserves(cfg, env, a) && Preserves(cfg, a.env, b)
    ensures Preserves(cfg, env, WalkResult(b.env, a.events + b.events))
  {
    var ev := a.events + b.events;
    forall k | !UploadedTo(ev, k)
      ensures Unaffected(env.bucket.objects, b.env.bucket.objects, k)
    {
      forall i | 0 <= i < |a.events|
        ensures !(a.events[i].FileEvent? && a.events[i].outcome.Uploaded? && a.events[i].key == k)
      {
        assert ev[i] == a.events[i];
      }
      forall i | 0 <= i < |b.events|
        ensures !(b.events[i].FileEvent? && b.events[i].outcome.Uploaded? && b.events[i].key == k)
      {
        assert ev[|a.events| + i] == b.events[i];
      }
      assert !UploadedTo(a.events, k) && !UploadedTo(b.events, k);
      assert Unaffected(env.bucket.objects, a.env.bucket.objects, k);
      assert Unaffected(a.env.bucket.objects, b.env.bucket.objects, k);
    }
  }

  /** The last upload to a key in `a + b` that falls in `a` is the last one in
      `a`, and `b` uploads nothing to that key. */
  lemma LastUploadPrefix(a: seq<Event>, b: seq<Event>, i: int)
    requires 0 <= i < |a| && LastUpload(a + b, i)
    ensures LastUpload(a, i) && !UploadedTo(b, a[i].key)
  {
    var ev := a + b;
    assert ev[i] == a[i];
    forall j | i < j < |a|
      ensures !(a[j].FileEvent? && a[j].outcome.Uploaded? && a[j].key == a[i].key)
    {
      assert ev[j] == a[j];
    }
    forall j | 0 <= j < |b|
      ensures !(b[j].FileEvent? && b[j].outcome.Uploaded? && b[j].key == a[i].key)
    {
      assert ev[|a| + j] == b[j];
    }
  }

  /** The last upload to a key in `a + b` that falls in `b` is the last one in
      `b`. */
  lemma LastUploadSuffix(a: seq<Event>, b: seq<Event>, i: int)
    requires |a| <= i < |a + b| && LastUpload(a + b, i)
    ensures (a + b)[i] == b[i - |a|] && LastUpload(b, i - |a|)
  {
    var ev := a + b;
    var k := i - |a|;
    assert ev[i] == b[k];
    forall j | k < j < |b|
      ensures !(b[j].FileEvent? && b[j].outcome.Uploaded? && b[j].key == b[k].key)
    {
      assert ev[|a| + j] == b[j];
    }
  }

  /** Uploads of a first stretch of the walk that the second stretch does not
      overwrite are still in the bucket after the second. */
  lemma LandsConcat(cfg: Config, fs: FileSystem, a: WalkResult, b: WalkResult)
    requires Lands(fs, a) && Lands(fs, b) && Preserves(cfg, a.env, b)
    ensures Lands(fs, WalkResult(b.env, a.events + b.events))
  {
    var ev := a.events + b.events;
    forall i | 0 <= i < |ev| && LastUpload(ev, i)
      ensures && ev[i].path in fs && fs[ev[i].path].File?
              && ev[i].key in b.env.bucket.objects
              && b.env.bucket.objects[ev[i].key] == UploadRecord(fs[ev[i].path])
    {
      if i < |a.events| {
        LastUploadPrefix(a.events, b.events, i);
        assert ev[i] == a.events[i];
        assert Unaffected(a.env.bucket.objects, b.env.bucket.objects, ev[i].key);
      } else {
        LastUploadSuffix(a.events, b.events, i);
      }
    }
  }

  lemma SoundConcat(cfg: Config, fs: FileSystem, root: string, relDir: string, env: Env, a: WalkResult, b: WalkResult)
    requires WalkSound(cfg, fs, root, relDir, env, a) && WalkSound(cfg, fs, root, relDir, a.env, b)
    ensures WalkSound(cfg, fs, root, relDir, env, WalkResult(b.env, a.events + b.events))
  {
    PreservesConcat(cfg, env, a, b);
    LandsConcat(cfg, fs, a, b);
    ReplaysConcat(cfg, fs, root, env, a.events, a.env, b.events, b.env);
    var ev := a.events + b.events;
    forall i | 0 <= i < |ev| ensures Admitted(cfg, fs, root, relDir, ev[i]) {
      if i >= |a.events| {
        assert ev[i] == b.events[i - |a.events|];
      }
    }
  }

  /** What is admitted for the walk of a subdirectory is admitted for the walk
      of its parent: the path down gains the subdirectory's name in front. */
  lemma AdmittedInParent(cfg: Config, fs: FileSystem, root: string, relDir: string, entry: string, events: seq<Event>)
    requires cfg.variant != Python
    requires entry != "" && '/' !in entry && Traversable(cfg, fs, root, relDir, entry)
    requires forall i :: 0 <= i < |events| ==> Admitted(cfg, fs, root, RelPath(relDir, entry), events[i])
    ensures forall i :: 0 <= i < |events| ==> Admitted(cfg, fs, root, relDir, events[i])
  {
    var rel := RelPath(relDir, entry);
    forall i | 0 <= i < |events| ensures Admitted(cfg, fs, root, relDir, events[i]) {
      var e := events[i];
      if e.FileEvent? {
        var names :| Descends(cfg, fs, root, rel, names) &&
                     e.name == names[|names| - 1] && e.path == root + "/" + Descend(rel, names);
        var up := [entry] + names;
        assert up[1..] == names;
        assert Descends(cfg, fs, root, relDir, up);
        assert Descend(relDir, up) == Descend(rel, names);
        assert up[|up| - 1] == names[|names| - 1];
      }
    }
  }

  /** One regular file found by the walk, `loc` being what the variant passes
      on (the path below the root in Ruby, the full path in Python): its one
      event carries the key and the outcome of the sync step, and the walk
      goes on from the state that step left. */
  function VisitFile(cfg: Config, fs: FileSystem, root: string, relDir: string, name: string, loc: string, path: string, env: Env): (r: WalkResult)
    requires path in fs && fs[path].File?
    requires !Ignored(cfg, path)
    requires KeyOf(cfg, root, loc) == PyS3Path(cfg.mode, root, path)
    requires loc == if cfg.variant == Python then path else RelPath(relDir, name)
    requires cfg.variant != Python ==>
               name != "" && '/' !in name && name != "." && name != ".." &&
               path == root + "/" + RelPath(relDir, name)
    ensures WalkSound(cfg, fs, root, relDir, env, r)
    ensures r.env == ProcessFile(cfg, env, root, loc, fs[path]).env
    ensures r.events == [FileEvent(name, path, KeyOf(cfg, root, loc), ProcessFile(cfg, env, root, loc, fs[path]).outcome)]
  {
    VisitSound(cfg, fs, root, relDir, name, loc, path, env);
    var f := ProcessFile(cfg, env, root, loc, fs[path]);
    WalkResult(f.env, [FileEvent(name, path, KeyOf(cfg, root, loc), f.outcome)])
  }

  /** The one-event result of a regular file's sync step is sound. */
  lemma VisitSound(cfg: Config, fs: FileSystem, root: string, relDir: string, name: string, loc: string, path: string, env: Env)
    requires path in fs && fs[path].File?
    requires !Ignored(cfg, path)
    requires KeyOf(cfg, root, loc) == PyS3Path(cfg.mode, root, path)
    requires loc == if cfg.variant == Python then path else RelPath(relDir, name)
    requires cfg.variant != Python ==>
               name != "" && '/' !in name && name != "." && name != ".." &&
               path == root + "/" + RelPath(relDir, name)
    ensures var f := ProcessFile(cfg, env, root, loc, fs[path]);
            WalkSound(cfg, fs, root, relDir, env, WalkResult(f.env, [FileEvent(name, path, KeyOf(cfg, root, loc), f.outcome)]))
  {
    var f := ProcessFile(cfg, env, root, loc, fs[path]);
    ProcessFileKeepsCacheAgreement(cfg, env, root, loc, fs[path]);
    var r := WalkResult(f.env, [FileEvent(name, path, KeyOf(cfg, root, loc), f.outcome)]);
    assert f.outcome.Uploaded? ==> UploadedTo(r.events, KeyOf(cfg, root, loc)) by {
      assert r.events[0].FileEvent?;
    }
    assert Preserves(cfg, env, r);
    assert Lands(fs, r) by {
      forall i | 0 <= i < |r.events| && LastUpload(r.events, i)
        ensures r.env.bucket.objects[r.events[i].key] == UploadRecord(fs[r.events[i].path])
      {
        assert i == 0;
      }
    }
    assert cfg.variant != Python ==>
             Descends(cfg, fs, root, relDir, [name]) && Descend(relDir, [name]) == RelPath(relDir, name);
    assert Admitted(cfg, fs, root, relDir, r.events[0]);
    assert LocOf(cfg, root, path) == loc by {
      if cfg.variant != Python {
        assert path[|root| + 1..] == RelPath(relDir, name);
      }
    }
    assert Replays(cfg, fs, root, f.env, r.events[1..], r.env) by {
      assert r.events[1..] == [];
    }
  }

  /** Directory entry names: never empty and without a `/`. */
  predicate EntryNames(names: seq<string>) {
    forall i :: 0 <= i < |names| ==> names[i] != "" && '/' !in names[i]
  }

  /** `walk(root, rel_dir)` of the Ruby variants: a directory that cannot be
      listed is reported and skipped; otherwise its entries are visited in
      sorted order. */
  function WalkDir(cfg: Config, fs: FileSystem, root: string, relDir: string, env: Env): (r: WalkResult)
    requires cfg.variant != Python
    ensures WalkSound(cfg, fs, root, relDir, env, r)
    ensures !ReadableDir(fs, DirPath(root, relDir)) ==>
              r == WalkResult(env, [DirUnreadable(DirPath(root, relDir))])
    decreases Deeper(fs, |DirPath(root, relDir)|), 1, 0
  {
    var dir := DirPath(root, relDir);
    if dir !in fs || !fs[dir].Dir? || !fs[dir].readable then
      WalkResult(env, [DirUnreadable(dir)])
    else
      var names := SortedSet(fs[dir].entries);
      assert forall x: string :: x in fs[dir].entries ==> x != "" && '/' !in x;
      WalkEntries(cfg, fs, root, relDir, names, env)
  }

  /** One entry of a directory: `.` and `..`, symbolic links and ignored
      paths are skipped, a directory is walked, a regular file goes through
      the sync step, and anything else is passed over. */
  function WalkEntry(cfg: Config, fs: FileSystem, root: string, relDir: string, entry: string, env: Env): (r: WalkResult)
    requires cfg.variant != Python
    requires entry != "" && '/' !in entry
    ensures WalkSound(cfg, fs, root, relDir, env, r)
    ensures Visited(cfg, fs, root, relDir, entry) ==>
              var path := root + "/" + RelPath(relDir, entry);
              var f := ProcessFile(cfg, env, root, RelPath(relDir, entry), fs[path]);
              r.env == f.env && r.events == [FileEvent(entry, path, KeyOf(cfg, root, RelPath(relDir, entry)), f.outcome)]
    ensures !Traversable(cfg, fs, root, relDir, entry) && !Visited(cfg, fs, root, relDir, entry) ==>
              r == WalkResult(env, [])
    decreases Deeper(fs, |DirPath(root, relDir)|), 0, 0
  {
    var rel := RelPath(relDir, entry);
    var path := root + "/" + rel;
    if entry == "." || entry == ".." then WalkResult(env, [])
    else if IsLink(fs, path) then WalkResult(env, [])
    else if Ignored(cfg, path) then WalkResult(env, [])
    else if path in fs && fs[path].Dir? then
      assert DirPath(root, rel) == path;
      assert path in Deeper(fs, |DirPath(root, relDir)|) - Deeper(fs, |path|);
      var sub := WalkDir(cfg, fs, root, rel, env);
      AdmittedInParent(cfg, fs, root, relDir, entry, sub.events);
      sub
    else if path in fs && fs[path].File? then
      PyS3PathAgrees(cfg.mode, root, rel);
      VisitFile(cfg, fs, root, relDir, entry, rel, path, env)
    else WalkResult(env, [])
  }

  /** A directory entry the walk descends into gives exactly the walk of that
      subdirectory. */
  lemma WalkEntryDescends(cfg: Config, fs: FileSystem, root: string, relDir: string, entry: string, env: Env)
    requires cfg.variant != Python
    requires entry != "" && '/' !in entry
    requires Traversable(cfg, fs, root, relDir, entry)
    ensures WalkEntry(cfg, fs, root, relDir, entry, env) == WalkDir(cfg, fs, root, RelPath(relDir, entry), env)
  {
  }

  /** The loop over one directory's sorted entries. */
  function WalkEntries(cfg: Config, fs: FileSystem, root: string, relDir: string, names: seq<string>, env: Env): (r: WalkResult)
    requires cfg.variant != Python
    requires EntryNames(names)
    ensures WalkSound(cfg, fs, root, relDir, env, r)
    decreases Deeper(fs, |DirPath(root, relDir)|), 0, |names|
  {
    if names == [] then WalkResult(env, [])
    else
      var first := WalkEntry(cfg, fs, root, relDir, names[0], env);
      var rest := WalkEntries(cfg, fs, root, relDir, names[1..], first.env);
      SoundConcat(cfg, fs, root, relDir, env, first, rest);
      WalkResult(rest.env, first.events + rest.events)
  }

  /** Every regular file of the tree that is neither ignored nor a symbolic
      link already has a current object under its key, and the head request
      for that key works. */
  ghost predicate AllCurrent(cfg: Config, fs: FileSystem, root: string, b: Bucket) {
    forall p :: p in fs && fs[p].File? && !Ignored(cfg, p) && !IsLink(fs, p) ==>
      PyS3Path(cfg.mode, root, p) !in b.faulty.head && Current(b, PyS3Path(cfg.mode, root, p), fs[p])
  }

  /** Nothing was uploaded and nothing would have been: the bucket is as
      before, the cache agrees with it, and no file event is an upload. */
  ghost predicate Quiet(env: Env, r: WalkResult) {
    && r.env.bucket == env.bucket
    && CacheAgrees(r.env)
    && forall i :: 0 <= i < |r.events| && r.events[i].FileEvent? ==>
         !r.events[i].outcome.Uploaded? && !r.events[i].outcome.WouldUpload?
  }

  lemma QuietConcat(env: Env, a: WalkResult, b: WalkResult)
    requires Quiet(env, a) && Quiet(a.env, b)
    ensures Quiet(env, WalkResult(b.env, a.events + b.events))
  {
    var ev := a.events + b.events;
    forall i | 0 <= i < |ev| && ev[i].FileEvent?
      ensures !ev[i].outcome.Uploaded? && !ev[i].outcome.WouldUpload?
    {
      if i >= |a.events| {
        assert ev[i] == b.events[i - |a.events|];
      }
    }
  }

  /** A file that is already current is left unchanged by the walk. */
  lemma VisitFileQuiet(cfg: Config, fs: FileSystem, root: string, relDir: string, name: string, loc: string, path: string, env: Env)
    requires path in fs && fs[path].File?
    requires !Ignored(cfg, path) && !IsLink(fs, path)
    requires KeyOf(cfg, root, loc) == PyS3Path(cfg.mode, root, path)
    requires loc == if cfg.variant == Python then path else RelPath(relDir, name)
    requires cfg.variant != Python ==>
               name != "" && '/' !in name && name != "." && name != ".." &&
               path == root + "/" + RelPath(relDir, name)
    requires CacheAgrees(env) && AllCurrent(cfg, fs, root, env.bucket)
    ensures Quiet(env, VisitFile(cfg, fs, root, relDir, name, loc, path, env))
  {
    assert PyS3Path(cfg.mode, root, path) !in env.bucket.faulty.head && Current(env.bucket, PyS3Path(cfg.mode, root, path), fs[path]);
    ProcessFileSkipsCurrent(cfg, env, root, loc, fs[path]);
    ProcessFileKeepsCacheAgreement(cfg, env, root, loc, fs[path]);
  }

  /** A Ruby walk over a tree whose files are all current uploads nothing,
      not even in dry-run, and leaves the bucket as it was. */
  lemma {:induction false} WalkDirQuiet(cfg: Config, fs: FileSystem, root: string, relDir: string, env: Env)
    requires cfg.variant != Python
    requires CacheAgrees(env) && AllCurrent(cfg, fs, root, env.bucket)
    ensures Quiet(env, WalkDir(cfg, fs, root, relDir, env))
    decreases Deeper(fs, |DirPath(root, relDir)|), 1, 0
  {
    var dir := DirPath(root, relDir);
    if dir in fs && fs[dir].Dir? && fs[dir].readable {
      var names := SortedSet(fs[dir].entries);
      assert forall x: string :: x in fs[dir].entries ==> x != "" && '/' !in x;
      WalkEntriesQuiet(cfg, fs, root, relDir, names, env);
    }
  }

  lemma {:induction false} WalkEntryQuiet(cfg: Config, fs: FileSystem, root: string, relDir: string, entry: string, env: Env)
    requires cfg.variant != Python
    requires entry != "" && '/' !in entry
    requires CacheAgrees(env) && AllCurrent(cfg, fs, root, env.bucket)
    ensures Quiet(env, WalkEntry(cfg, fs, root, relDir, entry, env))
    decreases Deeper(fs, |DirPath(root, relDir)|), 0, 0
  {
    var rel := RelPath(relDir, entry);
    var path := root + "/" + rel;
    if Traversable(cfg, fs, root, relDir, entry) {
      assert DirPath(root, rel) == path;
      assert path in Deeper(fs, |DirPath(root, relDir)|) - Deeper(fs, |path|);
      WalkEntryDescends(cfg, fs, root, relDir, entry, env);
      WalkDirQuiet(cfg, fs, root, rel, env);
    } else if Visited(cfg, fs, root, relDir, entry) {
      PyS3PathAgrees(cfg.mode, root, rel);
      VisitFileQuiet(cfg, fs, root, relDir, entry, rel, path, env);
    }
  }

  lemma {:induction false} WalkEntriesQuiet(cfg: Config, fs: FileSystem, root: string, relDir: string, names: seq<string>, env: Env)
    requires cfg.variant != Python
    requires EntryNames(names)
    requires CacheAgrees(env) && AllCurrent(cfg, fs, root, env.bucket)
    ensures Quiet(env, WalkEntries(cfg, fs, root, relDir, names, env))
    decreases Deeper(fs, |DirPath(root, relDir)|), 0, |names|
  {
    if names != [] {
      var first := WalkEntry(cfg, fs, root, relDir, names[0], env);
      WalkEntryQuiet(cfg, fs, root, relDir, names[0], env);
      WalkEntriesQuiet(cfg, fs, root, relDir, names[1..], first.env);
      QuietConcat(env, first, WalkEntries(cfg, fs, root, relDir, names[1..], first.env));
    }
  }

  /** An entry the Ruby walk must report: not `.`/`..`, not a symbolic link,
      not ignored, and a regular file or a directory it cannot read. */
  predicate Reportable(cfg: Config, fs: FileSystem, root: string, relDir: string, entry: string) {
    var path := root + "/" + RelPath(relDir, entry);
    && entry != "." && entry != ".."
    && !IsLink(fs, path) && !Ignored(cfg, path) && path in fs
    && (fs[path].File? || (fs[path].Dir? && !fs[path].readable))
  }

  /** `e` is the report for `path`: its file event, or its unreadable-directory
      event. */
  predicate Reports(e: Event, path: string) {
    (e.FileEvent? && e.path == path) || e == DirUnreadable(path)
  }

  /** Some event of `events` is the report for `path`. */
  predicate Reported(events: seq<Event>, path: string) {
    exists p :: 0 <= p < |events| && Reports(events[p], path)
  }

  /** The report for `path` comes before the report for `other`. */
  predicate ReportedBefore(events: seq<Event>, path: string, other: string) {
    exists p, q :: 0 <= p < q < |events| && Reports(events[p], path) && Reports(events[q], other)
  }

  /** A report in the prefix is a report in the whole. */
  lemma ReportedPrefix(a: seq<Event>, b: seq<Event>, path: string)
    requires Reported(a, path)
    ensures Reported(a + b, path)
  {
    var p :| 0 <= p < |a| && Reports(a[p], path);
    assert (a + b)[p] == a[p];
  }

  /** A report in the suffix is a report in the whole. */
  lemma ReportedSuffix(a: seq<Event>, b: seq<Event>, path: string)
    requires Reported(b, path)
    ensures Reported(a + b, path)
  {
    var p :| 0 <= p < |b| && Reports(b[p], path);
    assert (a + b)[|a| + p] == b[p];
  }

  /** Order within the prefix is order within the whole. */
  lemma ReportedBeforePrefix(a: seq<Event>, b: seq<Event>, path: string, other: string)
    requires ReportedBefore(a, path, other)
    ensures ReportedBefore(a + b, path, other)
  {
    var p, q :| 0 <= p < q < |a| && Reports(a[p], path) && Reports(a[q], other);
    assert (a + b)[p] == a[p] && (a + b)[q] == a[q];
  }

  /** Order within the suffix is order within the whole. */
  lemma ReportedBeforeSuffix(a: seq<Event>, b: seq<Event>, path: string, other: string)
    requires ReportedBefore(b, path, other)
    ensures ReportedBefore(a + b, path, other)
  {
    var p, q :| 0 <= p < q < |b| && Reports(b[p], path) && Reports(b[q], other);
    assert (a + b)[|a| + p] == b[p] && (a + b)[|a| + q] == b[q];
  }

  /** A report in the prefix comes before every report in the suffix. */
  lemma ReportedBeforeSplit(a: seq<Event>, b: seq<Event>, path: string, other: string)
    requires Reported(a, path) && Reported(b, other)
    ensures ReportedBefore(a + b, path, other)
  {
    var p :| 0 <= p < |a| && Reports(a[p], path);
    var q :| 0 <= q < |b| && Reports(b[q], other);
    assert (a + b)[p] == a[p] && (a + b)[|a| + q] == b[q];
  }

  /** Concatenation of blocks of events. */
  function Flatten(bs: seq<seq<Event>>): (r: seq<Event>)
    decreases |bs|
  {
    if bs == [] then [] else bs[0] + Flatten(bs[1..])
  }

  /** Block `i` holds exactly the report for `path`. */
  predicate SingleReport(bs: seq<seq<Event>>, i: nat, path: string) {
    i < |bs| && |bs[i]| == 1 && Reports(bs[i][0], path)
  }

  /** A report in one block is a report in the concatenation. */
  lemma {:induction false} FlattenReported(bs: seq<seq<Event>>, i: nat, path: string)
    requires i < |bs| && Reported(bs[i], path)
    ensures Reported(Flatten(bs), path)
    decreases i
  {
    if i == 0 {
      ReportedPrefix(bs[0], Flatten(bs[1..]), path);
    } else {
      FlattenReported(bs[1..], i - 1, path);
      ReportedSuffix(bs[0], Flatten(bs[1..]), path);
    }
  }

  /** Order within one block is order within the concatenation. */
  lemma {:induction false} FlattenKeepsOrder(bs: seq<seq<Event>>, i: nat, path: string, other: string)
    requires i < |bs| && ReportedBefore(bs[i], path, other)
    ensures ReportedBefore(Flatten(bs), path, other)
    decreases i
  {
    if i == 0 {
      ReportedBeforePrefix(bs[0], Flatten(bs[1..]), path, other);
    } else {
      FlattenKeepsOrder(bs[1..], i - 1, path, other);
      ReportedBeforeSuffix(bs[0], Flatten(bs[1..]), path, other);
    }
  }

  /** A report in an earlier block comes before a report in a later one. */
  lemma {:induction false} FlattenOrder(bs: seq<seq<Event>>, i: nat, j: nat, path: string, other: string)
    requires i < j < |bs| && Reported(bs[i], path) && Reported(bs[j], other)
    ensures ReportedBefore(Flatten(bs), path, other)
    decreases i
  {
    if i == 0 {
      FlattenReported(bs[1..], j - 1, other);
      ReportedBeforeSplit(bs[0], Flatten(bs[1..]), path, other);
    } else {
      FlattenOrder(bs[1..], i - 1, j - 1, path, other);
      ReportedBeforeSuffix(bs[0], Flatten(bs[1..]), path, other);
    }
  }

  /** The state in which the loop over a directory's entries reaches each
      entry. */
  ghost function EntryEnvs(cfg: Config, fs: FileSystem, root: string, relDir: string, names: seq<string>, env: Env): (es: seq<Env>)
    requires cfg.variant != Python
    requires EntryNames(names)
    ensures |es| == |names|
    decreases |names|
  {
    if names == [] then []
    else [env] + EntryEnvs(cfg, fs, root, relDir, names[1..], WalkEntry(cfg, fs, root, relDir, names[0], env).env)
  }

  /** The loop over a directory's entries, cut into the events of each entry:
      the block of an entry is what walking that entry gives from the state
      the entries before it left. */
  ghost function EntryBlocks(cfg: Config, fs: FileSystem, root: string, relDir: string, names: seq<string>, env: Env): (bs: seq<seq<Event>>)
    requires cfg.variant != Python
    requires EntryNames(names)
    ensures |bs| == |names|
    ensures Flatten(bs) == WalkEntries(cfg, fs, root, relDir, names, env).events
    ensures forall i :: 0 <= i < |names| ==>
              bs[i] == WalkEntry(cfg, fs, root, relDir, names[i], EntryEnvs(cfg, fs, root, relDir, names, env)[i]).events
    decreases |names|
  {
    if names == [] then []
    else
      var first := WalkEntry(cfg, fs, root, relDir, names[0], env);
      var rest := EntryBlocks(cfg, fs, root, relDir, names[1..], first.env);
      var bs := [first.events] + rest;
      EntryBlocksShift(cfg, fs, root, relDir, names, env, rest);
      bs
  }

  /** The blocks of the entries after the first, shifted by one, are the
      blocks of all entries but the first. */
  lemma EntryBlocksShift(cfg: Config, fs: FileSystem, root: string, relDir: string, names: seq<string>, env: Env,
                         rest: seq<seq<Event>>)
    requires cfg.variant != Python
    requires EntryNames(names) && names != []
    requires var first := WalkEntry(cfg, fs, root, relDir, names[0], env);
             |rest| == |names| - 1 &&
             forall i :: 0 <= i < |rest| ==>
               rest[i] == WalkEntry(cfg, fs, root, relDir, names[1..][i],
                                    EntryEnvs(cfg, fs, root, relDir, names[1..], first.env)[i]).events
    ensures var bs := [WalkEntry(cfg, fs, root, relDir, names[0], env).events] + rest;
            forall i :: 0 <= i < |names| ==>
              bs[i] == WalkEntry(cfg, fs, root, relDir, names[i], EntryEnvs(cfg, fs, root, relDir, names, env)[i]).events
  {
    var first := WalkEntry(cfg, fs, root, relDir, names[0], env);
    var bs := [first.events] + rest;
    var es := EntryEnvs(cfg, fs, root, relDir, names, env);
    var es' := EntryEnvs(cfg, fs, root, relDir, names[1..], first.env);
    assert es == [env] + es';
    forall i | 0 <= i < |names|
      ensures bs[i] == WalkEntry(cfg, fs, root, relDir, names[i], es[i]).events
    {
      if i > 0 {
        assert bs[i] == rest[i - 1] && names[i] == names[1..][i - 1] && es[i] == es'[i - 1];
      }
    }
  }

  /** A readable directory. */
  predicate ReadableDir(fs: FileSystem, dir: string) {
    dir in fs && fs[dir].Dir? && fs[dir].readable
  }

  /** The walk of a readable directory, cut into the blocks of its sorted
      entries, with the state each entry is walked from. */
  lemma WalkDirBlocks(cfg: Config, fs: FileSystem, root: string, relDir: string, env: Env)
      returns (ns: seq<string>, bs: seq<seq<Event>>, es: seq<Env>)
    requires cfg.variant != Python
    requires ReadableDir(fs, DirPath(root, relDir))
    ensures ns == SortedSet(fs[DirPath(root, relDir)].entries) && EntryNames(ns)
    ensures |bs| == |ns| && |es| == |ns|
    ensures WalkDir(cfg, fs, root, relDir, env).events == Flatten(bs)
    ensures forall i :: 0 <= i < |ns| ==> bs[i] == WalkEntry(cfg, fs, root, relDir, ns[i], es[i]).events
  {
    ns := SortedSet(fs[DirPath(root, relDir)].entries);
    assert forall x: string :: x in fs[DirPath(root, relDir)].entries ==> x != "" && '/' !in x;
    bs := EntryBlocks(cfg, fs, root, relDir, ns, env);
    es := EntryEnvs(cfg, fs, root, relDir, ns, env);
  }

  /** The names lead from the readable directory `relDir` to something the
      Ruby walk must report: each is an entry of the directory before it,
      every directory on the way is one the walk descends into and can read,
      and the last is a regular file or a directory it cannot read. */
  predicate Reaches(cfg: Config, fs: FileSystem, root: string, relDir: string, names: seq<string>)
    decreases |names|
  {
    && ReadableDir(fs, DirPath(root, relDir))
    && |names| >= 1 && names[0] in fs[DirPath(root, relDir)].entries
    && (if |names| == 1 then Reportable(cfg, fs, root, relDir, names[0])
        else Traversable(cfg, fs, root, relDir, names[0]) &&
             Reaches(cfg, fs, root, RelPath(relDir, names[0]), names[1..]))
  }

  /** Walking the first of the names reports where the names lead. */
  lemma {:induction false} WalkEntryReaches(cfg: Config, fs: FileSystem, root: string, relDir: string, names: seq<string>, env: Env)
    requires cfg.variant != Python
    requires Reaches(cfg, fs, root, relDir, names)
    ensures names[0] != "" && '/' !in names[0]
    ensures Reported(WalkEntry(cfg, fs, root, relDir, names[0], env).events, root + "/" + Descend(relDir, names))
    decreases |names|, 0
  {
    var rel := RelPath(relDir, names[0]);
    assert names[0] in fs[DirPath(root, relDir)].entries;
    var r := WalkEntry(cfg, fs, root, relDir, names[0], env);
    assert Descend(relDir, names) == Descend(rel, names[1..]);
    if |names| == 1 {
      assert Descend(rel, names[1..]) == rel;
      assert Reports(r.events[0], root + "/" + rel);
    } else {
      WalkEntryDescends(cfg, fs, root, relDir, names[0], env);
      WalkDirReaches(cfg, fs, root, rel, names[1..], env);
    }
  }

  /** Depth-first completeness of the Ruby walk: every regular file and every
      unreadable directory that can be reached from a readable directory
      through directories that are neither links nor ignored is reported, at
      any depth and whatever the other entries do. */
  lemma {:induction false} WalkDirReaches(cfg: Config, fs: FileSystem, root: string, relDir: string, names: seq<string>, env: Env)
    requires cfg.variant != Python
    requires Reaches(cfg, fs, root, relDir, names)
    ensures Reported(WalkDir(cfg, fs, root, relDir, env).events, root + "/" + Descend(relDir, names))
    decreases |names|, 1
  {
    var ns, bs, es := WalkDirBlocks(cfg, fs, root, relDir, env);
    var i :| 0 <= i < |ns| && ns[i] == names[0];
    WalkEntryReaches(cfg, fs, root, relDir, names, es[i]);
    FlattenReported(bs, i, root + "/" + Descend(relDir, names));
  }

  /** Two paths that share their first name, seen from the directory that
      name leads into. */
  lemma SharedStep(cfg: Config, fs: FileSystem, root: string, relDir: string, a: seq<string>, b: seq<string>, k: nat)
    requires Reaches(cfg, fs, root, relDir, a) && Reaches(cfg, fs, root, relDir, b)
    requires 0 < k < |a| && k < |b| && Less(a[k], b[k])
    requires forall t :: 0 <= t < k ==> a[t] == b[t]
    ensures a[0] == b[0] && Traversable(cfg, fs, root, relDir, a[0])
    ensures Reaches(cfg, fs, root, RelPath(relDir, a[0]), a[1..])
    ensures Reaches(cfg, fs, root, RelPath(relDir, a[0]), b[1..])
    ensures Less(a[1..][k - 1], b[1..][k - 1])
    ensures forall t :: 0 <= t < k - 1 ==> a[1..][t] == b[1..][t]
    ensures Descend(relDir, a) == Descend(RelPath(relDir, a[0]), a[1..])
    ensures Descend(relDir, b) == Descend(RelPath(relDir, a[0]), b[1..])
  {
    assert a[0] == b[0];
    assert forall t :: 0 <= t < k - 1 ==> a[1..][t] == a[t + 1] && b[1..][t] == b[t + 1];
  }

  /** Sibling order of the Ruby walk: what is reached through an entry of a
      readable directory is reported before what is reached through a later
      entry of the same directory (`Dir.entries(dir).sort`). */
  lemma WalkDirSiblingOrder(cfg: Config, fs: FileSystem, root: string, relDir: string,
                            a: seq<string>, b: seq<string>, env: Env)
    requires cfg.variant != Python
    requires Reaches(cfg, fs, root, relDir, a) && Reaches(cfg, fs, root, relDir, b)
    requires Less(a[0], b[0])
    ensures ReportedBefore(WalkDir(cfg, fs, root, relDir, env).events,
                           root + "/" + Descend(relDir, a), root + "/" + Descend(relDir, b))
  {
    var ns, bs, es := WalkDirBlocks(cfg, fs, root, relDir, env);
    var i, j := SortedSetIndices(fs[DirPath(root, relDir)].entries, a[0], b[0]);
    WalkEntryReaches(cfg, fs, root, relDir, a, es[i]);
    WalkEntryReaches(cfg, fs, root, relDir, b, es[j]);
    FlattenOrder(bs, i, j, root + "/" + Descend(relDir, a), root + "/" + Descend(relDir, b));
  }

  /** Depth-first order of the Ruby walk: of two reachable paths, the one
      whose names come first at the first place they differ is reported
      first. Sibling entries are walked in increasing order of their names,
      and a subdirectory's whole subtree is reported before the next sibling
      of that subdirectory. */
  lemma {:induction false} WalkDirDepthFirst(cfg: Config, fs: FileSystem, root: string, relDir: string,
                                             a: seq<string>, b: seq<string>, k: nat, env: Env)
    requires cfg.variant != Python
    requires Reaches(cfg, fs, root, relDir, a) && Reaches(cfg, fs, root, relDir, b)
    requires k < |a| && k < |b| && Less(a[k], b[k])
    requires forall t :: 0 <= t < k ==> a[t] == b[t]
    ensures ReportedBefore(WalkDir(cfg, fs, root, relDir, env).events,
                           root + "/" + Descend(relDir, a), root + "/" + Descend(relDir, b))
    decreases k, 1
  {
    if k == 0 {
      WalkDirSiblingOrder(cfg, fs, root, relDir, a, b, env);
    } else {
      WalkDirSharedOrder(cfg, fs, root, relDir, a, b, k, env);
    }
  }

  /** The step of `WalkDirDepthFirst` for two paths through the same entry:
      their order inside that entry's subtree is their order in the whole. */
  lemma {:induction false} WalkDirSharedOrder(cfg: Config, fs: FileSystem, root: string, relDir: string,
                                              a: seq<string>, b: seq<string>, k: nat, env: Env)
    requires cfg.variant != Python
    requires Reaches(cfg, fs, root, relDir, a) && Reaches(cfg, fs, root, relDir, b)
    requires 0 < k < |a| && k < |b| && Less(a[k], b[k])
    requires forall t :: 0 <= t < k ==> a[t] == b[t]
    ensures ReportedBefore(WalkDir(cfg, fs, root, relDir, env).events,
                           root + "/" + Descend(relDir, a), root + "/" + Descend(relDir, b))
    decreases k, 0
  {
    SharedStep(cfg, fs, root, relDir, a, b, k);
    var ns, bs, es := WalkDirBlocks(cfg, fs, root, relDir, env);
    var i :| 0 <= i < |ns| && ns[i] == a[0];
    var rel := RelPath(relDir, a[0]);
    WalkDirDepthFirst(cfg, fs, root, rel, a[1..], b[1..], k - 1, es[i]);
    WalkEntryDescends(cfg, fs, root, relDir, a[0], es[i]);
    FlattenKeepsOrder(bs, i, root + "/" + Descend(relDir, a), root + "/" + Descend(relDir, b));
  }

  /** `os.path.join(dirpath, entry)`. */
  function PyJoin(dirpath: string, entry: string): string {
    if dirpath == "" then entry
    else if dirpath[|dirpath| - 1] == '/' then dirpath + entry
    else dirpath + "/" + entry
  }

  /** One `(dirpath, filename)` pair of the Python walk: an ignored path or a
      symbolic link is skipped; a regular file goes through the sync step;
      anything else cannot be stat-ed and is reported as failed. */
  function PyWalkEntry(cfg: Config, fs: FileSystem, root: string, pair: (string, Name), env: Env): (r: WalkResult)
    requires cfg.variant == Python
    ensures WalkSound(cfg, fs, root, "", env, r)
    ensures PyReportable(cfg, fs, pair) ==> |r.events| == 1 && Reports(r.events[0], PyJoin(pair.0, pair.1))
    ensures var path := PyJoin(pair.0, pair.1);
            PyReportable(cfg, fs, pair) && path in fs && fs[path].File? ==>
              var f := ProcessFile(cfg, env, root, path, fs[path]);
              r.env == f.env && r.events == [FileEvent(pair.1, path, KeyOf(cfg, root, path), f.outcome)]
    ensures var path := PyJoin(pair.0, pair.1);
            PyReportable(cfg, fs, pair) && !(path in fs && fs[path].File?) ==>
              r == WalkResult(env, [FileEvent(pair.1, path, KeyOf(cfg, root, path), FileFailed)])
    ensures !PyReportable(cfg, fs, pair) ==> r == WalkResult(env, [])
  {
    var (dirpath, entry) := pair;
    var path := PyJoin(dirpath, entry);
    if Ignored(cfg, path) then WalkResult(env, [])
    else if IsLink(fs, path) then WalkResult(env, [])
    else if path in fs && fs[path].File? then
      VisitFile(cfg, fs, root, "", entry, path, path, env)
    else WalkResult(env, [FileEvent(entry, path, PyS3Path(cfg.mode, root, path), FileFailed)])
  }

  /** The Python walk over the `(dirpath, filename)` pairs `os.walk` yields
      below `root`, in whatever order it yields them. */
  function PyWalk(cfg: Config, fs: FileSystem, root: string, listing: seq<(string, Name)>, env: Env): (r: WalkResult)
    requires cfg.variant == Python
    ensures WalkSound(cfg, fs, root, "", env, r)
    decreases |listing|
  {
    if listing == [] then WalkResult(env, [])
    else
      var first := PyWalkEntry(cfg, fs, root, listing[0], env);
      var rest := PyWalk(cfg, fs, root, listing[1..], first.env);
      SoundConcat(cfg, fs, root, "", env, first, rest);
      WalkResult(rest.env, first.events + rest.events)
  }

  /** The Python walk over a tree whose files are all current uploads
      nothing and leaves the bucket as it was; a pair that is not a regular
      file still fails. */
  lemma {:induction false} PyWalkQuiet(cfg: Config, fs: FileSystem, root: string, listing: seq<(string, Name)>, env: Env)
    requires cfg.variant == Python
    requires CacheAgrees(env) && AllCurrent(cfg, fs, root, env.bucket)
    ensures Quiet(env, PyWalk(cfg, fs, root, listing, env))
    decreases |listing|
  {
    if listing != [] {
      var path := PyJoin(listing[0].0, listing[0].1);
      var first := PyWalkEntry(cfg, fs, root, listing[0], env);
      if PyReportable(cfg, fs, listing[0]) && path in fs && fs[path].File? {
        VisitFileQuiet(cfg, fs, root, "", listing[0].1, path, path, env);
      }
      PyWalkQuiet(cfg, fs, root, listing[1..], first.env);
      QuietConcat(env, first, PyWalk(cfg, fs, root, listing[1..], first.env));
    }
  }

  /** A pair `os.walk` yields whose path is neither ignored nor a symbolic link. */
  predicate PyReportable(cfg: Config, fs: FileSystem, pair: (string, Name)) {
    var path := PyJoin(pair.0, pair.1);
    !Ignored(cfg, path) && !IsLink(fs, path)
  }

  /** The Python walk cut into the events of each pair: a reportable pair's
      block is its report. */
  ghost function PyBlocks(cfg: Config, fs: FileSystem, root: string, listing: seq<(string, Name)>, env: Env): (bs: seq<seq<Event>>)
    requires cfg.variant == Python
    ensures |bs| == |listing|
    ensures Flatten(bs) == PyWalk(cfg, fs, root, listing, env).events
    ensures forall i :: 0 <= i < |listing| && PyReportable(cfg, fs, listing[i]) ==>
              SingleReport(bs, i, PyJoin(listing[i].0, listing[i].1))
    decreases |listing|
  {
    if listing == [] then []
    else
      var first := PyWalkEntry(cfg, fs, root, listing[0], env);
      var rest := PyBlocks(cfg, fs, root, listing[1..], first.env);
      var bs := [first.events] + rest;
      assert bs[1..] == rest;
      assert forall i :: 0 < i < |listing| ==> bs[i] == rest[i - 1] && listing[i] == listing[1..][i - 1];
      bs
  }

  /** Every file `os.walk` yields that is neither ignored nor a link is
      reported, as uploaded, unchanged or failed; one file's error does not
      stop the walk. */
  lemma PyWalkReports(cfg: Config, fs: FileSystem, root: string, listing: seq<(string, Name)>, env: Env, i: nat)
    requires cfg.variant == Python
    requires i < |listing| && PyReportable(cfg, fs, listing[i])
    ensures Reported(PyWalk(cfg, fs, root, listing, env).events, PyJoin(listing[i].0, listing[i].1))
  {
    var bs := PyBlocks(cfg, fs, root, listing, env);
    assert Reports(bs[i][0], PyJoin(listing[i].0, listing[i].1));
    FlattenReported(bs, i, PyJoin(listing[i].0, listing[i].1));
  }

  /** The Python walk reports files in the order `os.walk` yields them. */
  lemma PyWalkOrder(cfg: Config, fs: FileSystem, root: string, listing: seq<(string, Name)>, env: Env, i: nat, j: nat)
    requires cfg.variant == Python
    requires i < j < |listing| && PyReportable(cfg, fs, listing[i]) && PyReportable(cfg, fs, listing[j])
    ensures ReportedBefore(PyWalk(cfg, fs, root, listing, env).events,
                           PyJoin(listing[i].0, listing[i].1), PyJoin(listing[j].0, listing[j].1))
  {
    var bs := PyBlocks(cfg, fs, root, listing, env);
    assert Reports(bs[i][0], PyJoin(listing[i].0, listing[i].1));
    assert Reports(bs[j][0], PyJoin(listing[j].0, listing[j].1));
    FlattenOrder(bs, i, j, PyJoin(listing[i].0, listing[i].1), PyJoin(listing[j].0, listing[j].1));
  }
}
