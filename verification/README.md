# clonus3 backup core in Dafny

clonus3 backs up local directory trees to an S3 bucket. A run has two phases.
The first is an optional listing pass over the bucket. It deletes objects
whose local file is gone and rebuilds the metadata cache. The second walks
every configured root in sorted order. Each regular file is looked up with a
`head` request (served from the metadata cache when possible), and it is
uploaded when it is missing remotely or when its mtime or size differ. The
project models the three variants side by side:

- the Ruby branch (`branches/ruby/clonus3.rb`);
- the Ruby trunk (`trunk/clonus3.rb`);
- the Python port (`clonus3.py`).

A `Variant` field in the configuration selects the behaviour where the
variants differ.

Modules, in dependency order:

| file | module | what it models |
|---|---|---|
| `optional.dfy` | `Optional` | `Option` |
| `decimal.dfy` | `Decimal` | decimal rendering of integers (`to_s`, `str`) and its inverse |
| `ordering.dfy` | `Ordering` | the lexicographic string order used by `sort` and by the bucket listing; sorting |
| `keys.dfy` | `Keys` | `s3path`, `file_path_from_key` / `abs_path_from_key` / `filepath` |
| `storage.dfy` | `Storage` | bucket, cache, filesystem and configuration; the cache invariant `CacheAgrees` |
| `lookup.dfy` | `Lookup` | `head` with its cache |
| `sync.dfy` | `Sync` | the upload/skip decision, `timed_store`, the per-file step |
| `walk.dfy` | `Walk` | `walk` (the Ruby recursion and the Python `os.walk` loop) |
| `listing.dfy` | `Listing` | `scan_s3` / `delete`: marker pagination, sweep, cache rebuild |
| `reconcile.dfy` | `Reconcile` | reference definitions of what a listing pass does, and the proof that it does it |
| `backup.dfy` | `Backup` | `backup`: gating of the listing pass, roots in sorted order |

State is immutable. The bucket is a map from key to `Record` (mtime attribute,
length, etag). It also records three sets of keys, one each for head
requests, puts and deletes, on which that kind of request fails with a
service error. The cache is `Option<map<string, Record>>`, where `None` means caching
is disabled. The filesystem is a map from path to `File`, `Dir` or `Link`.
Every operation returns its new state.

## Model

| member | source | states |
|---|---|---|
| Keys.S3Path | branches/ruby/clonus3.rb:74-81 | In relative mode the key is the path below the root. In absolute mode it has the length of `root/rel` minus one, and prefixing `/` gives back `root/rel` when the root starts with `/`. |
| Keys.AwsPath | trunk/clonus3.rb:188-192 | The trunk's inline put key is always the `s3path` key, so the cache entry cleared and the object written are the same key. |
| Keys.FilePathFromKey | branches/ruby/clonus3.rb:283-291 | Absolute mode maps a key to `/key`. Relative mode maps it to `first-root/key`, and fails exactly when no root is configured. |
| Keys.PyS3Path | clonus3.py:54-57 | Python's key is a suffix of the full path: the prefix it drops (`/` or `root/`) followed by the key is the path again. |
| Keys.RoundTripAbsolute | branches/ruby/clonus3.rb:283-291 | In absolute mode, the key of a file below a root starting with `/` maps back to that file's path. |
| Keys.RoundTripRelative | trunk/clonus3.rb:245-253 | In relative mode, the key of a file below the first root maps back to that file's path. |
| Keys.RoundTripNeedsAbsoluteRoot | branches/ruby/clonus3.rb:77-79 | With the relative root `data`, the key of `x` is `ata/x`, which does not map back to `data/x`. |
| Keys.RelativeModeUsesFirstRoot | branches/ruby/clonus3.rb:284-285 | With roots `/a` and `/b`, the key `x` of `/b/x` maps back to `/a/x`, not `/b/x`. |
| Keys.AbsoluteKeysInjective | trunk/clonus3.rb:40-47 | Two files below absolute roots get the same absolute-mode key if and only if their full paths are equal. |
| Keys.PyS3PathAgrees | clonus3.py:54-57 | Python's key of the full path `root/rel` equals the Ruby key of `rel`, in both modes. |
| Keys.PyRoundTripRelative | clonus3.py:59-62 | `filepath(s3path(root, path)) == path` for every path below the first root. |
| Keys.PyRoundTripAbsolute | clonus3.py:59-62 | `filepath(s3path(root, path)) == path` for every absolute path, whatever the root. |
| Keys.KeyRoundTripAbsolute | clonus3.py:54-62 | In absolute mode, the key of the path a key maps to is that key. |
| Decimal.ParseNatToString | clonus3.py:113-114 | Reading back the decimal string of a natural gives the natural. |
| Decimal.IntToStringInjective | branches/ruby/clonus3.rb:165-170 | Distinct integers have distinct decimal strings, so comparing the mtime and size strings compares the numbers. |
| Ordering.SortedSet | branches/ruby/clonus3.rb:140-146 | The sorted directory entries are strictly increasing and hold exactly the entries. |
| Ordering.Sort | branches/ruby/clonus3.rb:123-125 | The roots walked are sorted and are a permutation of the configured roots. |
| Storage.UploadRecord | trunk/clonus3.rb:194 | A put leaves an object whose mtime attribute is the file's epoch seconds in decimal, whose length is its byte count in decimal, and whose etag is the content digest. |
| Storage.Invalidate | trunk/clonus3.rb:204-206 | Clearing a key removes that key's cache entry and keeps every other entry with its record. A disabled cache stays disabled. |
| Lookup.Head | branches/ruby/clonus3.rb:84-107 | A hit answers the cached record with no remote request, and a miss asks the bucket. Only Python raises, and only on a service error. The cache changes only by storing a found record under the key. A record fetched remotely is the bucket's object. |
| Lookup.HeadAnswersBucket | clonus3.py:64-84 | Under the cache invariant, a found record is the bucket's object. "Not found" without a service error means no object. The cache keeps agreeing with the bucket. |
| Lookup.HeadPopulatesCache | trunk/clonus3.rb:50-73 | With the cache enabled, a lookup that found a record makes the next lookup of the key a hit with no remote request. |
| Sync.Decide | branches/ruby/clonus3.rb:168-177 | It uploads exactly when there is no remote record. It skips exactly when the remote mtime attribute and length equal the local decimal strings. |
| Sync.DecideAgainstUpload | clonus3.py:113-118 | Against the record an upload of `g` left, a file is skipped if and only if its mtime and size equal `g`'s. |
| Sync.TimedStore | branches/ruby/clonus3.rb:186-213 | Dry-run changes nothing. Otherwise the cache entry is invalidated first. The put succeeds exactly for a readable file on a healthy key, except that in Python with an object ACL the ACL request before the put fails on a key with no object. A successful put writes exactly that object. |
| Sync.ProcessFile | branches/ruby/clonus3.rb:163-181 | Only an upload changes the bucket, and only under the file's key. Dry-run never uploads. Failing keys stay failing. |
| Sync.ProcessFileKeepsCacheAgreement | trunk/clonus3.rb:201-209 | The per-file step keeps the cache invariant. |
| Sync.ProcessFileSkipsCurrent | trunk/clonus3.rb:160-178 | Under the cache invariant, when the key's head request succeeds, a file is left unchanged if and only if the bucket holds an object with matching mtime and length. |
| Sync.ProcessFileUploadsChanged | branches/ruby/clonus3.rb:163-181 | Under the cache invariant, a readable file whose head and put succeed is uploaded if and only if the bucket holds no object with matching mtime and length, and the key is not a new one that Python's ACL request rejects. The upload counts as new if and only if there was no object under the key. |
| Sync.AclBlocksNewFiles | clonus3.py:142-145 | In Python with `object_acl` set and outside dry-run, a file whose key has no object fails, and the bucket is unchanged. The run after it fails on the file again. |
| Sync.ProcessFileDryRunReports | clonus3.py:112-126 | In dry-run, under the cache invariant and with a working head request, a file is reported as one that would be uploaded if and only if the bucket holds no current object for it. It counts as new if and only if there is no object. |
| Sync.ProcessFileIdempotent | clonus3.py:112-126 | After an upload, running the step again on the same file leaves it unchanged, provided the key's head request succeeds. With the cache enabled, the next lookup is a hit. |
| Sync.HeadFailureReuploads | branches/ruby/clonus3.rb:94-99 | In the Ruby variants without a cache, a key whose head request fails is uploaded as new on every run, even after a successful put. |
| Sync.ProcessFileCacheEntries | branches/ruby/clonus3.rb:84-107 | With the cache enabled, the per-file step keeps it enabled. A file it leaves unchanged is cached under its key afterwards. Every other key keeps its entry and record. |
| Sync.ProcessFileDryRunCaches | clonus3.py:80-82 | In dry-run, the lookup of an uncached object still stores its record in the cache, and the bucket is untouched. |
| Walk.VisitFile | branches/ruby/clonus3.rb:162-181 | A regular file gives exactly one event. That event carries the file's key and the sync step's outcome, and the walk goes on from the state the step left. The event is admitted: in Ruby the file sits below the directory walked. |
| Walk.WalkDir | branches/ruby/clonus3.rb:130-145 | An unreadable directory gives exactly its own report. Every event is an admitted file: a regular file reached from the directory through directories that are neither links nor ignored, carrying its key. Only keys some event uploaded to change. No object disappears. The last upload to each key leaves that file's record under the key in the final bucket. The events replay the sync steps: each file event carries the outcome of its file's step from the state the events before it left, and the walk ends in the state those steps leave, cache included. Dry-run leaves the bucket alone. The cache keeps agreeing. |
| Walk.WalkDirQuiet | branches/ruby/clonus3.rb:130-183 | In the Ruby variants, when every regular file that is neither ignored nor a link already has a current object and a working head request, the walk uploads nothing, not even in dry-run. It leaves the bucket unchanged and the cache agreeing. |
| Walk.WalkEntry | branches/ruby/clonus3.rb:147-182 | A regular file that is neither `.`/`..`, a link nor ignored gives exactly one event with the sync step's key and outcome, and the walk continues from the state that step left. An entry that is neither such a file nor such a directory gives nothing and changes nothing. |
| Walk.WalkEntryDescends | branches/ruby/clonus3.rb:160-161 | A directory entry that is neither `.`/`..`, a link nor ignored gives exactly the walk of that subdirectory. |
| Walk.WalkEntries | branches/ruby/clonus3.rb:146-183 | Soundness holds over a directory's entries. That includes the last upload to each key being in the final bucket with the file's record, and the final state, cache included, being the one the replayed sync steps leave. |
| Walk.ReplaysUnique | branches/ruby/clonus3.rb:146-183 | The events of a walk determine the state it ends in: replaying the same events from the same state cannot end in two different states. |
| Walk.ReplaysKeepEntry | branches/ruby/clonus3.rb:84-107 | A stretch of the walk with no file event for a key keeps that key's cache entry and its record, because a lookup caches only its own key and a store clears only its own key. |
| Walk.ReplaysCacheUnchanged | clonus3.py:64-84 | With the cache enabled, a file the walk left unchanged is still cached when the walk ends, unless a later file event has its key. |
| Walk.WalkEntryReaches | branches/ruby/clonus3.rb:146-182 | Walking the first name of a reachable path reports where the path leads. |
| Walk.WalkDirReaches | branches/ruby/clonus3.rb:130-183 | At every depth, each regular file and each unreadable directory reachable through readable directories that are neither links nor ignored is reported, whatever its siblings do. |
| Walk.WalkDirSiblingOrder | branches/ruby/clonus3.rb:140-146 | What is reached through an entry is reported before what is reached through a later entry of the same directory in name order. |
| Walk.WalkDirDepthFirst | branches/ruby/clonus3.rb:146-161 | Of two reachable paths, the one whose names come first where they first differ is reported first. Each subtree is therefore reported whole, between its earlier and later siblings. |
| Walk.PyWalkEntry | clonus3.py:106-126 | A pair that is neither ignored nor a link gives exactly one event for its path. For a regular file that event has the sync step's key and outcome, and the walk continues from the state that step left. Anything else yields a failed event with the state unchanged. An ignored pair or a link gives nothing. |
| Walk.PyWalk | clonus3.py:102-126 | The same soundness as the Ruby walk, over the pairs `os.walk` yields. That includes the last upload to each key being in the final bucket with the file's record, and the final state, cache included, being the one the replayed sync steps leave; a pair that is not a regular file failed and changed nothing. |
| Walk.PyWalkQuiet | clonus3.py:102-126 | When every yielded file that is neither ignored nor a link already has a current object and a working head request, the Python walk uploads nothing. It leaves the bucket unchanged and the cache agreeing. |
| Walk.PyWalkReports | clonus3.py:106-126 | Every yielded file that is neither ignored nor a link is reported, and one file's error does not stop the walk. |
| Walk.PyWalkOrder | clonus3.py:103-107 | Files are reported in the order `os.walk` yields them. |
| Listing.ListPage | branches/ruby/clonus3.rb:225-226 | A page holds at most the page size. It is empty exactly when no key follows the marker. Every key on it follows the marker and carries the object's etag. |
| Listing.ListPageIsPrefix | branches/ruby/clonus3.rb:223-228 | A page is the start of the sorted keys after the marker. |
| Listing.ListPageSorted | branches/ruby/clonus3.rb:228 | A page is strictly increasing, so its last key is its greatest. |
| Listing.ListPageComplete | branches/ruby/clonus3.rb:223-228 | No key is skipped: a key after the marker is on the page, or the page is full and the key follows its last key. |
| Listing.SweepObject | branches/ruby/clonus3.rb:236-253 | It raises exactly when the key has no local path, or when deleting an orphan fails outside dry-run. It changes nothing unless it deletes an orphan outside dry-run. Then it invalidates the cache entry and deletes exactly that object, and it keeps the cache invariant. |
| Listing.RebuildObject | branches/ruby/clonus3.rb:256-269 | The new cache gains the key exactly when the current cache holds it with the listed etag. The record carried over is the cached one. Other keys are untouched. |
| Listing.ProcessObject | branches/ruby/clonus3.rb:230-270 | The sweep removes at most the object's own key. The object's key is listed. Dry-run or no sweep leaves the bucket alone. The cache invariant is kept. |
| Listing.ProcessPage | branches/ruby/clonus3.rb:230-270 | A completed page lists its keys in order. Dry-run or no sweep leaves the bucket alone. The cache invariant is kept. |
| Listing.ScanFrom | branches/ruby/clonus3.rb:223-271 | The loop requests its marker first, only extends what it listed, and keeps failing keys, dry-run and the cache invariant as above. |
| Listing.ScanBucket | branches/ruby/clonus3.rb:215-281 | The first request uses the empty marker. Dry-run or a pass without sweep leaves the bucket alone. The temporary store starts empty; this is the corrected pass of the Findings. |
| Listing.ScanBucketReopening | branches/ruby/clonus3.rb:218-279 | The pass as written. Every entry left in the temporary store ends up in the cache a completed rebuild installs. With an empty leftover store it is `ScanBucket`. |
| Reconcile.ObjectStep | branches/ruby/clonus3.rb:230-270 | One object moves the pass from its marker to the object's key, and it aborts exactly when that key fails. |
| Reconcile.PageStep | branches/ruby/clonus3.rb:230-270 | A page moves the pass to its last key, and it aborts exactly when one of its keys fails. |
| Reconcile.ScanFromCorrect | branches/ruby/clonus3.rb:223-271 | For every page size, the loop completes exactly when no key after the marker fails. It then has listed every key once, in order, and bucket, cache and new cache match the reference definitions. |
| Reconcile.ScanBucketCorrect | branches/ruby/clonus3.rb:215-281 | The pass completes exactly when no listed key fails. It then lists every key once in order, and the bucket lost exactly the orphans deleted. The cache is the rebuilt one when the rebuild ran; otherwise it is the old cache less the deleted keys. |
| Reconcile.ScanBucketDeletesOrphans | trunk/clonus3.rb:218-243 | A completed pass deletes an object if and only if the sweep runs outside dry-run and the key's local path does not exist. Kept objects are unchanged. |
| Reconcile.ScanBucketRebuildsCache | clonus3.py:179-196 | After a rebuild, a key is cached if and only if it was cached before, was listed, was not deleted and its etag still matches. |
| Reconcile.ScanBucketKeepsCacheAgreement | clonus3.py:164-197 | A pass keeps the cache invariant, whether it completes or raises. |
| Reconcile.ScanFromMarkers | branches/ruby/clonus3.rb:223-228 | The markers one loop requests start at its marker and strictly increase. |
| Reconcile.ScanBucketMarkers | branches/ruby/clonus3.rb:223-228 | The markers of a pass start at `''` and strictly increase, so no page is requested twice. |
| Reconcile.ListPageInitial | branches/ruby/clonus3.rb:223-253 | During a pass, the page listed after the marker is the page the bucket listed before the pass began, because the sweep only deletes keys already listed. |
| Reconcile.ScanFromPaging | branches/ruby/clonus3.rb:223-228 | Each marker after a loop's first is the last key of the page listed after the marker before it, as the bucket was when the pass began. A loop that completes stopped where that bucket has no further key. |
| Reconcile.ScanBucketPaging | branches/ruby/clonus3.rb:223-229 | A pass first requests the empty marker. Every later marker is the last key of the previous page of the bucket as it was before the pass. A completed pass stopped where no key is left. |
| Reconcile.ReopenedStoreKeepsStaleEntry | clonus3.py:156-197 | The pass as written, over an empty bucket whose empty cache agrees, installs a leftover entry for `b`. The cache then disagrees with the bucket, and a lookup of `b` answers the stale record without a remote request. |
| Backup.ScanPass | branches/ruby/clonus3.rb:118-121 | The trunk lists only to delete, with sweep and no rebuild. The branch and Python list when deleting or when rebuilding an enabled cache, and run exactly those consumers. |
| Backup.Scan | clonus3.py:94-96 | Without a pass nothing is requested. With one, the scan raises exactly when a listed key fails. Dry-run leaves the bucket alone. The cache invariant is kept. |
| Backup.WalkRoot | clonus3.py:98-99 | Walking one root is sound for that root, including that its events replay the sync steps from the state it starts in to the state it leaves. |
| Backup.WalkRoots | trunk/clonus3.rb:120-122 | Walking the roots one after another keeps the bucket and cache guarantees of the walk. The last upload to each key, across all roots, is in the final bucket with the file's record. |
| Backup.WalkRootsQuiet | trunk/clonus3.rb:120-122 | Walking roots whose files are all current uploads nothing and leaves the bucket unchanged. |
| Backup.RootEnvs | trunk/clonus3.rb:120-122 | The walk over the roots passes through one state per root boundary: it reaches each root in the state the root before it left, starts in the given state and ends in the state the whole walk leaves. |
| Backup.RootBlocks | trunk/clonus3.rb:120-122 | The events of walking the roots split into one block per root, and the blocks concatenated in the given order are the whole walk. |
| Backup.RootBlockAt | trunk/clonus3.rb:120-122 | The block of each root is the walk of that root from the state the roots before it left. |
| Backup.WalkRootReports | clonus3.py:98-99 | A root's walk reports every path it must report, from any state. For Ruby that is every reachable file or unreadable directory; for Python every yielded pair that is neither ignored nor a link. |
| Backup.RootsReport | trunk/clonus3.rb:120-122 | Walking a list of roots reports everything any one of those roots must report. |
| Backup.RootsInOrder | branches/ruby/clonus3.rb:123-125 | Walking a list of roots reports what an earlier root must report before what a later root must report. |
| Backup.Run | branches/ruby/clonus3.rb:109-128 | A run needing no pass makes no listing request. An error in the pass stops the run before the walk. A finished run's events are the walks of the roots, taken in sorted order and concatenated. Dry-run leaves the bucket alone. The cache invariant is kept. A finished run ends in the state the walk of its last sorted root left. Only keys some event uploaded to changed since the listing pass, and the last upload to each key is in the bucket with the file's record. |
| Backup.RunReplays | branches/ruby/clonus3.rb:109-128 | A finished run replays the sync steps root by root. The first root starts in the state the listing pass left, each root's events replay its files' steps from the state the roots before it left, and the run ends in the state the last root left. |
| Backup.RunCachesUnchanged | trunk/clonus3.rb:50-73 | With the cache enabled, a file a finished run left unchanged is cached when the run ends, unless a later file event of the run has its key. The next run then looks it up with no remote request. |
| Backup.RunQuiet | branches/ruby/clonus3.rb:109-128 | A finished run that deletes nothing outside dry-run, over roots whose files are all current, reports no upload and leaves the bucket unchanged. Backing up an unchanged tree again therefore does nothing to the bucket. |
| Backup.RunReports | branches/ruby/clonus3.rb:123-125 | A finished run reports every path that some configured root's walk must report. |
| Backup.RunRootsInOrder | clonus3.py:97-99 | In a finished run, what a smaller root must report comes before what a greater root must report. |
| Backup.ScanChanges | trunk/clonus3.rb:116-118 | A completed listing pass leaves an object alone unless the run deletes orphans and the object is one. |
| Backup.RunDeletesOnlyOrphans | trunk/clonus3.rb:107-125 | A finished run deletes an object only when deleting is asked for, outside dry-run, and the object's local path does not exist. |
| Backup.RunChangesOnlyUploadsAndOrphans | clonus3.py:86-100 | In a finished run, an object that no event uploaded to and that is not a deleted orphan is unchanged. |

## Behaviour of the code worth knowing

The model follows the code in each case.

- A head request can fail for reasons other than a missing object. The Ruby
  variants rescue every `RightAws::AwsError` in `head` and treat it as "no
  object" (branch lines 95-99, trunk lines 61-65). The comment at branch
  line 97 shows the rescue was meant for a missing path only. As a result a
  file whose key cannot be looked up is uploaded again on every run
  (`Sync.HeadFailureReuploads`). Python lets the error reach the per-file
  rescue, and the file is reported as failed. `Lookup.Head` has this split.
- Dry-run never changes the bucket (`Backup.Run`), but it does change the
  cache. In all three variants `head` stores what it fetched
  (`Sync.ProcessFileDryRunCaches`). The Ruby branch and Python also rebuild
  and replace the cache in the listing pass during a dry-run. The Ruby trunk
  has no rebuild.
- Object ACLs differ. Both Ruby variants send `object_acl` as a header of
  the put (branch lines 191-194, trunk lines 194-197), which has no effect
  on the decisions modelled. Python sets the ACL with a separate request
  before the put (clonus3.py:142-145). On a key with no object that request
  fails. The cache entry is already cleared at that point (lines 136-137),
  and the file is reported as not backed up. Nothing is ever uploaded for
  it, so a new file fails on every run (`Sync.AclBlocksNewFiles`).
- A failing delete in the sweep is not rescued. It ends the listing pass and
  the whole run before any root is walked (`Listing.SweepObject`,
  `Backup.Run`).
- In relative mode the sweep maps every key back below the first root, as
  the source's own comments admit. With several roots it deletes objects
  whose files exist below other roots (`Keys.RelativeModeUsesFirstRoot`).

## Findings

| source | as written | input that shows it | evidently intended | confidence | as-written member | corrected member |
|---|---|---|---|---|---|---|
| branches/ruby/clonus3.rb:218-220, clonus3.py:156-158 | The rebuild opens the temporary store `cache.tmp` with `DBM.new` / `anydbm.open(..., 'c')`, which keep existing contents. It then moves the store into place as the new cache. | An earlier pass raised after copying an entry for `b` into `cache.tmp`, and `b` was deleted afterwards. The next rebuilding pass installs the stale `b`, so a restored file `b` with the same mtime and size is skipped on every later run. | The rebuilt cache holds only entries carried over in this pass, so it agrees with the bucket. | medium, not executed | Listing.ScanBucketReopening, Reconcile.ReopenedStoreKeepsStaleEntry | Listing.ScanBucket, Reconcile.ScanBucketKeepsCacheAgreement |

## Left out

- Connection set-up, `create_bucket`, the bucket ACL and the access keys
  are left out. They are calls into the S3 client with no effect on the
  decisions modelled. Object ACLs are modelled only where they change an
  outcome: Python's ACL request before the put (see below).
- Sync.TimedStore: Python's second ACL request, after a successful put
  (clonus3.py:146-147), is assumed to succeed. If it failed, the object would
  already be written while the file is reported as not backed up.
- Walk.WalkDir: a configured root that is itself a symbolic link to a
  directory is reported as unreadable, because links carry no target in the
  filesystem model. Ruby's `Dir.entries` (branch line 140, trunk line 137)
  follows such a link and walks the directory. Links below a root are never
  followed, as in the source.
- Backup.RunCachesUnchanged: covers files the run left unchanged. A file
  the run uploaded has its cache entry cleared by the store (branch lines
  200-203) and is looked up remotely by the next run, as in the source.
- Backup.RunQuiet: requires that the run does not delete orphans outside
  dry-run, and that every file is already current before the run. The
  statement that a second run directly after a first uploads nothing is
  not proved as a single lemma about two runs.
- Failures of the listing request itself are left out. The model's listing
  always answers, and only head, put and delete can fail, on a configured
  set of keys.
- Timing, throughput figures, `say`, logging, the spinner and the
  command-line parsing are left out. They are output only.
- The serialisation of cached headers (YAML, JSON) and the DBM/BDB files are
  left out. The cache maps keys to the records themselves, and moving the
  new cache file into place is modelled as replacing the map.
- Regular-expression matching of ignore patterns is abstract: `matches` is a
  parameter of the configuration.
- What `os.walk` yields for a root is a parameter of the Python walk
  (`osWalk`), including its order and its silent skipping of unreadable
  directories. `Walk.PyWalk` states soundness for any such sequence.
- File contents are represented by a digest that becomes the etag. The
  model does not read bytes or compute an MD5.
- Special files (sockets, FIFOs, devices) are not in the filesystem model.
  Symbolic links are only present or dangling, without targets.
- Modification times are whole seconds. The float-to-integer truncation of
  `to_i` / `int()` happens before the model sees the value.
- Concurrency with other writers of the bucket is left out. So is a file
  changing between its stat and its upload.
- Reconcile.ScanBucketDeletesOrphans, Reconcile.ScanBucketRebuildsCache:
  these describe a completed pass only. For a pass stopped by an error, the
  model states only that the cache invariant holds, that failing keys are
  kept and that dry-run leaves the bucket alone.
- Backup.RunDeletesOnlyOrphans, Backup.RunChangesOnlyUploadsAndOrphans: these
  describe a finished run only. A run stopped by its listing pass has the
  guarantees of `Backup.Run`.
- Listing.ScanBucket, Reconcile.ScanBucketCorrect: these describe the
  listing pass with the temporary store emptied when it is opened, the
  corrected behaviour in the Findings. The pass as written is
  `Listing.ScanBucketReopening`.
- Reconcile.ScanBucketRebuildsCache: states the rebuilt cache for an emptied
  temporary store. As written, entries left over from a pass that raised
  are kept as well.
- Reconcile.ScanBucketKeepsCacheAgreement: holds for the emptied temporary
  store only. `Reconcile.ReopenedStoreKeepsStaleEntry` shows that it fails
  as written.
- Backup.Scan, Backup.Run: use the corrected listing pass, with the
  temporary store emptied.
- Reconcile.ScanFromMarkers, Reconcile.ScanFromPaging,
  Reconcile.ScanBucketPaging: these describe the Ruby loops over
  `list_bucket` with markers. Python's `bucket.list()` (clonus3.py:160)
  pages inside the client library and is modelled as the same loop.
- Service errors are fixed per key and per kind of request for the whole
  run. A request that fails once on a key fails every time on it.
- Walk.PyWalk, Walk.PyWalkEntry: what `os.walk` yields is a parameter, so
  the Python walk is not shown to stay below the root or to skip linked
  directories. Only the per-pair filters are stated.
- Backup.RunReports, Backup.RunRootsInOrder: these describe a finished run
  only.
