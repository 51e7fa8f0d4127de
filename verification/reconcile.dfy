/** What a listing pass does to the bucket and the cache, stated by reference
    definitions independent of the page-by-page loop, and proved for every
    page size: each key is listed once, in order; the sweep deletes exactly the
    listed orphans; the rebuilt cache holds exactly the cached entries of listed,
    undeleted keys whose etag matches the listing. */
module Reconcile {
  import opened Optional
  import opened Ordering
  import opened Keys
  import opened Storage
  import opened Lookup
  import opened Listing

  /** The sweep of this pass deletes `k` when it lists it. */
  predicate Removed(cfg: Config, fs: FileSystem, pass: Pass, k: string) {
    pass.sweep && !cfg.dryRun && Orphan(cfg, fs, k)
  }

  /** The pass stops with an error when it lists `k`: the relative key has no
      root to map to, or the delete of an orphan fails. */
  predicate Fails(cfg: Config, fs: FileSystem, pass: Pass, faulty: set<string>, k: string) {
    pass.sweep &&
    (FilePathFromKey(cfg.mode, cfg.roots, k).None? || (Removed(cfg, fs, pass, k) && k in faulty))
  }

  /** The bucket's objects once the keys in `done` have been listed. */
  function ExpectedObjects(cfg: Config, fs: FileSystem, pass: Pass, e: Env, done: set<string>): map<string, Record> {
    map k | k in e.bucket.objects && !(k in done && Removed(cfg, fs, pass, k)) :: e.bucket.objects[k]
  }

  /** The cache once the keys in `done` have been listed (before the rebuilt
      cache replaces it). */
  function ExpectedCache(cfg: Config, fs: FileSystem, pass: Pass, e: Env, done: set<string>): Cache {
    match e.cache
    case None => None
    case Some(c) => Some(map k | k in c && !(k in done && Removed(cfg, fs, pass, k)) :: c[k])
  }

  /** The cache being rebuilt once the keys in `done` have been listed: the old
      entries of listed, undeleted keys whose etag matches the object's. */
  function ExpectedRebuilt(cfg: Config, fs: FileSystem, pass: Pass, e: Env, done: set<string>): map<string, Record> {
    if pass.rebuild && e.cache.Some? then
      map k | k in e.cache.value && k in done && k in e.bucket.objects && !Removed(cfg, fs, pass, k) &&
              e.cache.value[k].etag == e.bucket.objects[k].etag :: e.cache.value[k]
    else map[]
  }

  /** The keys of the initial bucket listed once the marker is `m`. */
  function Done(e: Env, m: string): set<string> {
    After(e.bucket.objects.Keys, "") - After(e.bucket.objects.Keys, m)
  }

  /** The state of the pass at marker `m`, started from `e`. */
  ghost predicate Inv(cfg: Config, fs: FileSystem, pass: Pass, e: Env, m: string, st: ScanState) {
    var keys := e.bucket.objects.Keys;
    && st.listed + SortedSet(After(keys, m)) == SortedSet(After(keys, ""))
    && st.env.bucket == Bucket(ExpectedObjects(cfg, fs, pass, e, Done(e, m)), e.bucket.faulty)
    && st.env.cache == ExpectedCache(cfg, fs, pass, e, Done(e, m))
    && st.newCache == ExpectedRebuilt(cfg, fs, pass, e, Done(e, m))
  }

  lemma DoneStep(e: Env, m: string)
    requires After(e.bucket.objects.Keys, m) != {}
    ensures var x := Min(After(e.bucket.objects.Keys, m));
            x !in Done(e, m) && Done(e, x) == Done(e, m) + {x}
  {
    var keys := e.bucket.objects.Keys;
    var x := Min(After(keys, m));
    AfterMin(keys, m);
    assert Less(m, x);
    EmptyIsLeast(x);
  }

  lemma InvStart(cfg: Config, fs: FileSystem, pass: Pass, e: Env)
    ensures Inv(cfg, fs, pass, e, "", ScanState(e, map[], [], []))
  {
    var keys := e.bucket.objects.Keys;
    assert [] + SortedSet(After(keys, "")) == SortedSet(After(keys, ""));
    assert Done(e, "") == {};
    ExpectedNothingDone(cfg, fs, pass, e);
  }

  /** Before any key is listed the reference state is the initial one. */
  lemma ExpectedNothingDone(cfg: Config, fs: FileSystem, pass: Pass, e: Env)
    ensures ExpectedObjects(cfg, fs, pass, e, {}) == e.bucket.objects
    ensures ExpectedCache(cfg, fs, pass, e, {}) == e.cache
    ensures ExpectedRebuilt(cfg, fs, pass, e, {}) == map[]
  {
    assert ExpectedObjects(cfg, fs, pass, e, {}).Keys == e.bucket.objects.Keys;
    match e.cache {
      case None =>
      case Some(c) =>
        var ec := ExpectedCache(cfg, fs, pass, e, {});
        assert ec.Some?;
        assert ec.value.Keys == c.Keys;
        assert forall k :: k in c ==> ec.value[k] == c[k];
        assert ec.value == c;
    }
    assert ExpectedRebuilt(cfg, fs, pass, e, {}).Keys == {};
  }

  /** The sweep for the least key after the marker moves the bucket and the
      cache from the keys already listed to those plus this one. */
  lemma SweepStep(cfg: Config, fs: FileSystem, pass: Pass, e: Env, done: set<string>, x: string, env: Env)
    requires env.bucket == Bucket(ExpectedObjects(cfg, fs, pass, e, done), e.bucket.faulty)
    requires env.cache == ExpectedCache(cfg, fs, pass, e, done)
    requires x in e.bucket.objects && x !in done
    ensures var sw := if pass.sweep then SweepObject(cfg, fs, env, x) else Swept(env);
            (sw.SweepRaised? <==> Fails(cfg, fs, pass, e.bucket.faulty.delete, x)) &&
            (sw.Swept? ==>
               sw.env.bucket == Bucket(ExpectedObjects(cfg, fs, pass, e, done + {x}), e.bucket.faulty) &&
               sw.env.cache == ExpectedCache(cfg, fs, pass, e, done + {x}))
  {
    var sw := if pass.sweep then SweepObject(cfg, fs, env, x) else Swept(env);
    if sw.Swept? {
      var objs := ExpectedObjects(cfg, fs, pass, e, done + {x});
      if Removed(cfg, fs, pass, x) {
        assert sw.env.bucket.objects == env.bucket.objects - {x};
        assert objs == env.bucket.objects - {x};
      } else {
        assert sw.env == env;
        assert objs == env.bucket.objects;
      }
      match e.cache {
        case None =>
        case Some(c) =>
          var c' := ExpectedCache(cfg, fs, pass, e, done + {x}).value;
          if Removed(cfg, fs, pass, x) {
            assert c' == env.cache.value - {x};
          } else {
            assert c' == env.cache.value;
          }
      }
    }
  }

  /** The rebuild for the least key after the marker, reading the cache the
      sweep left, moves the new cache likewise. */
  lemma RebuildStep(cfg: Config, fs: FileSystem, pass: Pass, e: Env, done: set<string>, obj: Listed,
                    cache: Cache, newCache: map<string, Record>)
    requires cache == ExpectedCache(cfg, fs, pass, e, done + {obj.key})
    requires newCache == ExpectedRebuilt(cfg, fs, pass, e, done)
    requires obj.key in e.bucket.objects && obj.key !in done
    requires obj.etag == e.bucket.objects[obj.key].etag
    ensures (if pass.rebuild then RebuildObject(cache, newCache, obj) else newCache)
            == ExpectedRebuilt(cfg, fs, pass, e, done + {obj.key})
  {
    if pass.rebuild && e.cache.Some? {
      var r := RebuildObject(cache, newCache, obj);
      var want := ExpectedRebuilt(cfg, fs, pass, e, done + {obj.key});
      assert obj.key !in newCache;
      assert forall k :: k in r <==> k in want;
    }
  }

  /** Listing the least key after the marker keeps the listed keys a prefix
      of all keys in order. */
  lemma ListedStep(keys: set<string>, m: string, listed: seq<string>)
    requires After(keys, m) != {}
    requires listed + SortedSet(After(keys, m)) == SortedSet(After(keys, ""))
    ensures var x := Min(After(keys, m));
            (listed + [x]) + SortedSet(After(keys, x)) == SortedSet(After(keys, ""))
  {
    var x := Min(After(keys, m));
    SortedAfterUnfold(keys, m);
    assert (listed + [x]) + SortedSet(After(keys, x)) == listed + ([x] + SortedSet(After(keys, x)));
  }

  /** One listed object moves the state from marker `m` to its key. */
  lemma ObjectStep(cfg: Config, fs: FileSystem, pass: Pass, e: Env, m: string, st: ScanState, obj: Listed)
    requires Inv(cfg, fs, pass, e, m, st)
    requires After(e.bucket.objects.Keys, m) != {}
    requires obj.key == Min(After(e.bucket.objects.Keys, m))
    requires obj.etag == e.bucket.objects[obj.key].etag
    ensures ProcessObject(cfg, fs, pass, st, obj).Abort? <==> Fails(cfg, fs, pass, e.bucket.faulty.delete, obj.key)
    ensures ProcessObject(cfg, fs, pass, st, obj).Continue? ==>
              Inv(cfg, fs, pass, e, obj.key, ProcessObject(cfg, fs, pass, st, obj).st)
  {
    var keys := e.bucket.objects.Keys;
    var x := obj.key;
    var d := Done(e, m);
    DoneStep(e, m);
    ListedStep(keys, m, st.listed);
    SweepStep(cfg, fs, pass, e, d, x, st.env);
    var sw := if pass.sweep then SweepObject(cfg, fs, st.env, x) else Swept(st.env);
    var r := ProcessObject(cfg, fs, pass, st, obj);
    if sw.Swept? {
      var newCache := if pass.rebuild then RebuildObject(sw.env.cache, st.newCache, obj) else st.newCache;
      assert r == Continue(ScanState(sw.env, newCache, st.listed + [x], st.requests));
      RebuildStep(cfg, fs, pass, e, d, obj, sw.env.cache, st.newCache);
      assert Done(e, x) == d + {x};
    } else {
      assert r.Abort?;
    }
  }

  /** Above the marker the bucket still holds exactly the initial keys. */
  lemma CurrentAfter(cfg: Config, fs: FileSystem, pass: Pass, e: Env, m: string, st: ScanState)
    requires Inv(cfg, fs, pass, e, m, st)
    ensures After(st.env.bucket.objects.Keys, m) == After(e.bucket.objects.Keys, m)
    ensures forall k :: k in After(e.bucket.objects.Keys, m) ==> st.env.bucket.objects[k] == e.bucket.objects[k]
  {
    AfterAgree(st.env.bucket.objects.Keys, e.bucket.objects.Keys, m);
  }

  /** `page` lists the first keys of `keys` after `m`, with the initial etags. */
  predicate PageFits(e: Env, m: string, page: seq<Listed>) {
    var q := SortedSet(After(e.bucket.objects.Keys, m));
    |page| <= |q| &&
    forall i :: 0 <= i < |page| ==>
      page[i].key == q[i] && page[i].key in e.bucket.objects && page[i].etag == e.bucket.objects[page[i].key].etag
  }

  lemma PageFitsTail(e: Env, m: string, page: seq<Listed>)
    requires page != [] && PageFits(e, m, page)
    ensures After(e.bucket.objects.Keys, m) != {}
    ensures page[0].key == Min(After(e.bucket.objects.Keys, m))
    ensures PageFits(e, page[0].key, page[1..])
  {
    var keys := e.bucket.objects.Keys;
    var q := SortedSet(After(keys, m));
    assert q != [] by {
      assert |page| <= |q|;
    }
    SortedAfterUnfold(keys, m);
    var x := Min(After(keys, m));
    assert page[0].key == x;
    assert q[1..] == SortedSet(After(keys, x));
    TailFits(e.bucket.objects, page, q);
  }

  /** Dropping the first listed object and the first key keeps a page
      matched against the keys. */
  lemma TailFits(objects: map<string, Record>, page: seq<Listed>, q: seq<string>)
    requires page != [] && |page| <= |q|
    requires forall i :: 0 <= i < |page| ==>
               page[i].key == q[i] && page[i].key in objects && page[i].etag == objects[page[i].key].etag
    ensures |page[1..]| <= |q[1..]|
    ensures forall i :: 0 <= i < |page[1..]| ==>
              page[1..][i].key == q[1..][i] && page[1..][i].key in objects &&
              page[1..][i].etag == objects[page[1..][i].key].etag
  {
    forall i | 0 <= i < |page[1..]|
      ensures page[1..][i].key == q[1..][i] && page[1..][i].key in objects &&
              page[1..][i].etag == objects[page[1..][i].key].etag
    {
      assert page[1..][i] == page[i + 1];
      assert q[1..][i] == q[i + 1];
    }
  }

  /** Some key of the page fails. */
  predicate PageFails(cfg: Config, fs: FileSystem, pass: Pass, faulty: set<string>, page: seq<Listed>) {
    exists i :: 0 <= i < |page| && Fails(cfg, fs, pass, faulty, page[i].key)
  }

  lemma PageFailsUnfold(cfg: Config, fs: FileSystem, pass: Pass, faulty: set<string>, page: seq<Listed>)
    requires page != []
    ensures PageFails(cfg, fs, pass, faulty, page) <==>
            Fails(cfg, fs, pass, faulty, page[0].key) || PageFails(cfg, fs, pass, faulty, page[1..])
  {
    if PageFails(cfg, fs, pass, faulty, page[1..]) {
      var i :| 0 <= i < |page| - 1 && Fails(cfg, fs, pass, faulty, page[1..][i].key);
      assert page[i + 1] == page[1..][i];
    }
    if PageFails(cfg, fs, pass, faulty, page) && !Fails(cfg, fs, pass, faulty, page[0].key) {
      var i :| 0 <= i < |page| && Fails(cfg, fs, pass, faulty, page[i].key);
      assert page[1..][i - 1] == page[i];
    }
  }

  lemma ProcessPageUnfold(cfg: Config, fs: FileSystem, pass: Pass, st: ScanState, page: seq<Listed>)
    requires page != []
    ensures var o := ProcessObject(cfg, fs, pass, st, page[0]);
            if o.Abort? then ProcessPage(cfg, fs, pass, st, page).Abort?
            else ProcessPage(cfg, fs, pass, st, page) == ProcessPage(cfg, fs, pass, o.st, page[1..])
  {
  }

  /** A page of objects, given as the first keys after the marker with the
      initial etags, moves the state to the page's last key, unless one of its
      keys fails. */
  lemma {:induction false} PageStep(cfg: Config, fs: FileSystem, pass: Pass, e: Env, m: string, st: ScanState, page: seq<Listed>)
    requires Inv(cfg, fs, pass, e, m, st)
    requires PageFits(e, m, page)
    ensures ProcessPage(cfg, fs, pass, st, page).Abort? <==> PageFails(cfg, fs, pass, e.bucket.faulty.delete, page)
    ensures ProcessPage(cfg, fs, pass, st, page).Continue? ==>
              Inv(cfg, fs, pass, e, if page == [] then m else page[|page| - 1].key, ProcessPage(cfg, fs, pass, st, page).st)
    decreases |page|
  {
    if page != [] {
      PageFitsTail(e, m, page);
      PageFailsUnfold(cfg, fs, pass, e.bucket.faulty.delete, page);
      ProcessPageUnfold(cfg, fs, pass, st, page);
      ObjectStep(cfg, fs, pass, e, m, st, page[0]);
      var o := ProcessObject(cfg, fs, pass, st, page[0]);
      if o.Continue? {
        PageStep(cfg, fs, pass, e, page[0].key, o.st, page[1..]);
      }
    }
  }

  /** The state once every key has been listed. */
  ghost predicate Finished(cfg: Config, fs: FileSystem, pass: Pass, e: Env, st: ScanState) {
    var all := After(e.bucket.objects.Keys, "");
    && st.listed == SortedSet(all)
    && st.env.bucket == Bucket(ExpectedObjects(cfg, fs, pass, e, all), e.bucket.faulty)
    && st.env.cache == ExpectedCache(cfg, fs, pass, e, all)
    && st.newCache == ExpectedRebuilt(cfg, fs, pass, e, all)
  }

  /** No key after `m` fails. */
  predicate NoneFails(cfg: Config, fs: FileSystem, pass: Pass, e: Env, m: string) {
    forall k :: k in After(e.bucket.objects.Keys, m) ==> !Fails(cfg, fs, pass, e.bucket.faulty.delete, k)
  }

  lemma InvFinished(cfg: Config, fs: FileSystem, pass: Pass, e: Env, m: string, st: ScanState)
    requires Inv(cfg, fs, pass, e, m, st)
    requires After(e.bucket.objects.Keys, m) == {}
    ensures Finished(cfg, fs, pass, e, st)
  {
    assert Done(e, m) == After(e.bucket.objects.Keys, "");
  }

  /** The page the store returns at marker `m` is the next one the reference
      order expects. */
  lemma ListPageFits(cfg: Config, fs: FileSystem, pass: Pass, e: Env, m: string, st: ScanState, maxKeys: nat)
    requires maxKeys >= 1
    requires Inv(cfg, fs, pass, e, m, st)
    ensures PageFits(e, m, ListPage(st.env.bucket, m, maxKeys))
    ensures ListPage(st.env.bucket, m, maxKeys) == [] <==> After(e.bucket.objects.Keys, m) == {}
  {
    CurrentAfter(cfg, fs, pass, e, m, st);
    ListPageIsPrefix(st.env.bucket, m, maxKeys);
  }

  /** A key after the marker but not after the page's last key is on the page. */
  lemma PageCovers(e: Env, m: string, page: seq<Listed>, k: string)
    requires page != [] && PageFits(e, m, page)
    requires k in After(e.bucket.objects.Keys, m) && !Less(page[|page| - 1].key, k)
    ensures exists i :: 0 <= i < |page| && page[i].key == k
  {
    var q := SortedSet(After(e.bucket.objects.Keys, m));
    var j :| 0 <= j < |q| && q[j] == k;
    var n := |page| - 1;
    assert j <= n;
    assert page[j].key == k;
  }

  /** A failing key on the page is a failing key after the marker. */
  lemma PageFailsAfter(cfg: Config, fs: FileSystem, pass: Pass, e: Env, m: string, page: seq<Listed>)
    requires PageFits(e, m, page) && PageFails(cfg, fs, pass, e.bucket.faulty.delete, page)
    ensures !NoneFails(cfg, fs, pass, e, m)
  {
    var i :| 0 <= i < |page| && Fails(cfg, fs, pass, e.bucket.faulty.delete, page[i].key);
    assert page[i].key in SortedSet(After(e.bucket.objects.Keys, m));
  }

  /** Past a page none of whose keys fails, no key fails after the marker
      exactly when none fails after the page's last key. */
  lemma NoneFailsStep(cfg: Config, fs: FileSystem, pass: Pass, e: Env, m: string, page: seq<Listed>)
    requires page != [] && PageFits(e, m, page) && !PageFails(cfg, fs, pass, e.bucket.faulty.delete, page)
    ensures Less(m, page[|page| - 1].key)
    ensures NoneFails(cfg, fs, pass, e, m) <==> NoneFails(cfg, fs, pass, e, page[|page| - 1].key)
  {
    var keys := e.bucket.objects.Keys;
    var last := page[|page| - 1].key;
    assert last in SortedSet(After(keys, m));
    AfterMonotone(keys, m, last);
    if NoneFails(cfg, fs, pass, e, last) {
      forall k | k in After(keys, m) ensures !Fails(cfg, fs, pass, e.bucket.faulty.delete, k) {
        if !Less(last, k) {
          PageCovers(e, m, page, k);
        }
      }
    }
  }

  /** One round of the loop: an empty page completes it, an error in the page
      aborts it, and otherwise it goes on from the page's last key, after
      which fewer keys remain. */
  lemma ScanFromUnfold(cfg: Config, fs: FileSystem, pass: Pass, maxKeys: nat, m: string, st: ScanState)
    requires maxKeys >= 1
    ensures var page := ListPage(st.env.bucket, m, maxKeys);
            var st1 := st.(requests := st.requests + [m]);
            var r := ScanFrom(cfg, fs, pass, maxKeys, m, st);
            && (page == [] ==> r == Completed(st1))
            && (page != [] && ProcessPage(cfg, fs, pass, st1, page).Abort? ==>
                  r == Aborted(ProcessPage(cfg, fs, pass, st1, page).st))
            && (page != [] && ProcessPage(cfg, fs, pass, st1, page).Continue? ==>
                  var p := ProcessPage(cfg, fs, pass, st1, page);
                  var last := page[|page| - 1].key;
                  && After(p.st.env.bucket.objects.Keys, last) < After(st.env.bucket.objects.Keys, m)
                  && r == ScanFrom(cfg, fs, pass, maxKeys, last, p.st))
  {
    var page := ListPage(st.env.bucket, m, maxKeys);
    var st1 := st.(requests := st.requests + [m]);
    if page != [] {
      var p := ProcessPage(cfg, fs, pass, st1, page);
      if p.Continue? {
        MeasureShrinks(st.env.bucket.objects.Keys, p.st.env.bucket.objects.Keys, m, page[|page| - 1].key);
      }
    }
  }

  /** The pagination loop from marker `m` completes exactly when no key after
      `m` fails, and then it has listed every key once, in order, and left the
      bucket, the cache and the new cache as the reference definitions say. */
  lemma {:induction false} ScanFromCorrect(cfg: Config, fs: FileSystem, pass: Pass, maxKeys: nat, e: Env, m: string, st: ScanState)
    requires maxKeys >= 1
    requires Inv(cfg, fs, pass, e, m, st)
    ensures ScanFrom(cfg, fs, pass, maxKeys, m, st).Completed? <==> NoneFails(cfg, fs, pass, e, m)
    ensures ScanFrom(cfg, fs, pass, maxKeys, m, st).Completed? ==>
              Finished(cfg, fs, pass, e, ScanFrom(cfg, fs, pass, maxKeys, m, st).st)
    decreases After(st.env.bucket.objects.Keys, m)
  {
    var page := ListPage(st.env.bucket, m, maxKeys);
    var st1 := st.(requests := st.requests + [m]);
    if page == [] || ProcessPage(cfg, fs, pass, st1, page).Abort? {
      CorrectStop(cfg, fs, pass, maxKeys, e, m, st);
    } else {
      PagingAdvance(cfg, fs, pass, e, m, st, maxKeys);
      var p := ProcessPage(cfg, fs, pass, st1, page);
      var last := page[|page| - 1].key;
      MeasureShrinks(st.env.bucket.objects.Keys, p.st.env.bucket.objects.Keys, m, last);
      ScanFromCorrect(cfg, fs, pass, maxKeys, e, last, p.st);
      CorrectContinue(cfg, fs, pass, maxKeys, e, m, st);
    }
  }

  /** A loop whose first page is empty completes with everything done; one
      whose first page fails aborts, and some key after the marker fails. */
  lemma CorrectStop(cfg: Config, fs: FileSystem, pass: Pass, maxKeys: nat, e: Env, m: string, st: ScanState)
    requires maxKeys >= 1
    requires Inv(cfg, fs, pass, e, m, st)
    requires var page := ListPage(st.env.bucket, m, maxKeys);
             page == [] || ProcessPage(cfg, fs, pass, st.(requests := st.requests + [m]), page).Abort?
    ensures ScanFrom(cfg, fs, pass, maxKeys, m, st).Completed? <==> NoneFails(cfg, fs, pass, e, m)
    ensures ScanFrom(cfg, fs, pass, maxKeys, m, st).Completed? ==>
              Finished(cfg, fs, pass, e, ScanFrom(cfg, fs, pass, maxKeys, m, st).st)
  {
    var page := ListPage(st.env.bucket, m, maxKeys);
    var st1 := st.(requests := st.requests + [m]);
    ListPageFits(cfg, fs, pass, e, m, st, maxKeys);
    assert Inv(cfg, fs, pass, e, m, st1);
    ScanFromUnfold(cfg, fs, pass, maxKeys, m, st);
    if page == [] {
      InvFinished(cfg, fs, pass, e, m, st1);
    } else {
      PageStep(cfg, fs, pass, e, m, st1, page);
      PageFailsAfter(cfg, fs, pass, e, m, page);
    }
  }

  /** A loop whose first page is processed without error completes, and
      finishes, exactly as the loop from that page's last key does. */
  lemma CorrectContinue(cfg: Config, fs: FileSystem, pass: Pass, maxKeys: nat, e: Env, m: string, st: ScanState)
    requires maxKeys >= 1
    requires Inv(cfg, fs, pass, e, m, st)
    requires var page := ListPage(st.env.bucket, m, maxKeys);
             var p := ProcessPage(cfg, fs, pass, st.(requests := st.requests + [m]), page);
             && page != [] && p.Continue?
             && var r := ScanFrom(cfg, fs, pass, maxKeys, page[|page| - 1].key, p.st);
                && (r.Completed? <==> NoneFails(cfg, fs, pass, e, page[|page| - 1].key))
                && (r.Completed? ==> Finished(cfg, fs, pass, e, r.st))
    ensures ScanFrom(cfg, fs, pass, maxKeys, m, st).Completed? <==> NoneFails(cfg, fs, pass, e, m)
    ensures ScanFrom(cfg, fs, pass, maxKeys, m, st).Completed? ==>
              Finished(cfg, fs, pass, e, ScanFrom(cfg, fs, pass, maxKeys, m, st).st)
  {
    var page := ListPage(st.env.bucket, m, maxKeys);
    var st1 := st.(requests := st.requests + [m]);
    ListPageFits(cfg, fs, pass, e, m, st, maxKeys);
    assert Inv(cfg, fs, pass, e, m, st1);
    PageStep(cfg, fs, pass, e, m, st1, page);
    NoneFailsStep(cfg, fs, pass, e, m, page);
    ScanFromUnfold(cfg, fs, pass, maxKeys, m, st);
  }

  /** The listing pass completes exactly when no listed key fails. Then it has
      listed every key once, in order; the bucket has lost exactly the
      orphans the sweep deletes; and the cache is the rebuilt one when the
      rebuild ran, the old one less the deleted keys otherwise. */
  lemma ScanBucketCorrect(cfg: Config, fs: FileSystem, pass: Pass, e: Env)
    ensures var r := ScanBucket(cfg, fs, pass, e);
            r.Completed? <==> NoneFails(cfg, fs, pass, e, "")
    ensures var r := ScanBucket(cfg, fs, pass, e);
            var all := After(e.bucket.objects.Keys, "");
            r.Completed? ==>
              && r.st.listed == SortedSet(all)
              && r.st.env.bucket == Bucket(ExpectedObjects(cfg, fs, pass, e, all), e.bucket.faulty)
              && r.st.env.cache == (if pass.rebuild && e.cache.Some? then Some(ExpectedRebuilt(cfg, fs, pass, e, all))
                                    else ExpectedCache(cfg, fs, pass, e, all))
  {
    var st0 := ScanState(e, map[], [], []);
    var r0 := ScanFrom(cfg, fs, pass, MaxKeys, "", st0);
    InvStart(cfg, fs, pass, e);
    ScanFromCorrect(cfg, fs, pass, MaxKeys, e, "", st0);
    var r := ScanBucket(cfg, fs, pass, e);
    if r0.Completed? {
      assert Finished(cfg, fs, pass, e, r0.st);
      assert r0.st.env.cache.Some? <==> e.cache.Some?;
      if pass.rebuild && e.cache.Some? {
        assert r == Completed(r0.st.(env := r0.st.env.(cache := Some(r0.st.newCache))));
      } else {
        assert r == r0;
      }
    } else {
      assert r == r0;
    }
  }

  /** A completed pass deletes an object exactly when it is listed (its key is
      not empty), the sweep runs outside dry-run and the object's key maps to a local path that does not exist;
      nothing else changes in the bucket. */
  lemma ScanBucketDeletesOrphans(cfg: Config, fs: FileSystem, pass: Pass, e: Env, k: string)
    requires ScanBucket(cfg, fs, pass, e).Completed?
    requires k in e.bucket.objects
    ensures var b := ScanBucket(cfg, fs, pass, e).st.env.bucket;
            (k !in b.objects <==> k != "" && pass.sweep && !cfg.dryRun && Orphan(cfg, fs, k)) &&
            (k in b.objects ==> b.objects[k] == e.bucket.objects[k])
  {
    ScanBucketCorrect(cfg, fs, pass, e);
    if k != "" {
      EmptyIsLeast(k);
    }
  }

  /** After a completed pass with the rebuild, a key is cached exactly when it
      was cached before, was listed, was not deleted and its etag still
      matches; its record is the one cached before. */
  lemma ScanBucketRebuildsCache(cfg: Config, fs: FileSystem, pass: Pass, e: Env, k: string)
    requires ScanBucket(cfg, fs, pass, e).Completed?
    requires pass.rebuild && e.cache.Some?
    ensures var c := ScanBucket(cfg, fs, pass, e).st.env.cache;
            c.Some? &&
            (k in c.value <==> k in e.cache.value && k in e.bucket.objects && k != "" &&
                               !Removed(cfg, fs, pass, k) && e.cache.value[k].etag == e.bucket.objects[k].etag) &&
            (k in c.value ==> c.value[k] == e.cache.value[k])
  {
    ScanBucketCorrect(cfg, fs, pass, e);
    if k != "" {
      EmptyIsLeast(k);
    }
  }

  /** The rebuilt cache agrees with the swept bucket when the old cache
      agreed with the old bucket. */
  lemma RebuiltAgrees(cfg: Config, fs: FileSystem, pass: Pass, e: Env, done: set<string>)
    requires CacheAgrees(e) && pass.rebuild && e.cache.Some?
    ensures CacheAgrees(Env(Bucket(ExpectedObjects(cfg, fs, pass, e, done), e.bucket.faulty),
                            Some(ExpectedRebuilt(cfg, fs, pass, e, done))))
  {
    var c := ExpectedRebuilt(cfg, fs, pass, e, done);
    var objs := ExpectedObjects(cfg, fs, pass, e, done);
    forall k | k in c ensures k in objs && objs[k] == c[k] {
      assert c[k] == e.cache.value[k];
    }
  }

  /** A pass keeps the cache in agreement with the bucket, whether it
      completes or stops on an error. */
  lemma ScanBucketKeepsCacheAgreement(cfg: Config, fs: FileSystem, pass: Pass, e: Env)
    ensures CacheAgrees(e) ==> CacheAgrees(ScanBucket(cfg, fs, pass, e).st.env)
  {
    var r := ScanBucket(cfg, fs, pass, e);
    var r0 := ScanFrom(cfg, fs, pass, MaxKeys, "", ScanState(e, map[], [], []));
    if CacheAgrees(e) {
      if r0.Completed? && pass.rebuild && r0.st.env.cache.Some? {
        var st0 := ScanState(e, map[], [], []);
        InvStart(cfg, fs, pass, e);
        ScanFromCorrect(cfg, fs, pass, MaxKeys, e, "", st0);
        assert e.cache.Some?;
        ScanBucketCorrect(cfg, fs, pass, e);
        RebuiltAgrees(cfg, fs, pass, e, After(e.bucket.objects.Keys, ""));
      } else {
        assert r == r0;
      }
    }
  }

  /** The rebuild as written keeps a stale entry. A pass that raised left
      the temporary store holding a record for `b`; the object `b` was then
      deleted. The next rebuilding pass over the now empty bucket, whose empty
      cache agrees with it, installs the leftover store: the cache then holds
      `b` although the bucket has no such object, and a lookup of `b` answers
      the stale record from the cache without asking the bucket. */
  lemma ReopenedStoreKeepsStaleEntry(cfg: Config, fs: FileSystem, rec: Record)
    ensures var e := Env(Bucket(map[], Faults({}, {}, {})), Some(map[]));
            var r := ScanBucketReopening(cfg, fs, Pass(false, true), e, map["b" := rec]);
            && CacheAgrees(e)
            && r.Completed?
            && "b" in r.st.env.cache.value && "b" !in r.st.env.bucket.objects
            && !CacheAgrees(r.st.env)
            && Head(cfg.variant, r.st.env, "b") == Answered(Some(rec), r.st.env.cache, false)
  {
    var e := Env(Bucket(map[], Faults({}, {}, {})), Some(map[]));
    var st := ScanState(e, map["b" := rec], [], []);
    assert After(e.bucket.objects.Keys, "") == {};
    assert ListPage(e.bucket, "", MaxKeys) == [];
    assert ScanFrom(cfg, fs, Pass(false, true), MaxKeys, "", st) == Completed(st.(requests := [""]));
  }

  /** The markers from index `n` on strictly increase. */
  predicate IncreasingFrom(q: seq<string>, n: nat) {
    forall i, j :: n <= i < j < |q| ==> Less(q[i], q[j])
  }

  /** The markers one loop requests start at its first marker and strictly
      increase: no page is requested twice. */
  lemma {:induction false} ScanFromMarkers(cfg: Config, fs: FileSystem, pass: Pass, maxKeys: nat, m: string, st: ScanState)
    requires maxKeys >= 1
    ensures var q := ScanFrom(cfg, fs, pass, maxKeys, m, st).st.requests;
            |q| > |st.requests| && q[|st.requests|] == m && IncreasingFrom(q, |st.requests|)
    decreases After(st.env.bucket.objects.Keys, m)
  {
    var page := ListPage(st.env.bucket, m, maxKeys);
    var st1 := st.(requests := st.requests + [m]);
    ScanFromUnfold(cfg, fs, pass, maxKeys, m, st);
    if page != [] && ProcessPage(cfg, fs, pass, st1, page).Continue? {
      var p := ProcessPage(cfg, fs, pass, st1, page);
      var last := page[|page| - 1].key;
      MeasureShrinks(st.env.bucket.objects.Keys, p.st.env.bucket.objects.Keys, m, last);
      ScanFromMarkers(cfg, fs, pass, maxKeys, last, p.st);
      MarkersStep(ScanFrom(cfg, fs, pass, maxKeys, last, p.st).st.requests, |st.requests|, m, last);
    }
  }

  /** A marker smaller than the first of a strictly increasing run of markers
      keeps the run increasing. */
  lemma MarkersStep(q: seq<string>, n: nat, m: string, last: string)
    requires n + 1 < |q| && q[n] == m && q[n + 1] == last && Less(m, last)
    requires IncreasingFrom(q, n + 1)
    ensures IncreasingFrom(q, n)
  {
    forall i, j | n <= i < j < |q| ensures Less(q[i], q[j]) {
      if i == n && j > n + 1 {
        LessTransitive(m, last, q[j]);
      }
    }
  }

  /** Above the marker the store lists the page it would have listed before
      the pass began: the sweep only deletes keys already listed. */
  lemma ListPageInitial(cfg: Config, fs: FileSystem, pass: Pass, e: Env, m: string, st: ScanState, maxKeys: nat)
    requires maxKeys >= 1
    requires Inv(cfg, fs, pass, e, m, st)
    ensures ListPage(st.env.bucket, m, maxKeys) == ListPage(e.bucket, m, maxKeys)
  {
    CurrentAfter(cfg, fs, pass, e, m, st);
  }

  /** The marker of the request after the one for `m`: the last key of the
      page `b` lists after `m`; none when that page is empty. */
  function NextMarker(b: Bucket, m: string, maxKeys: nat): Option<string>
    requires maxKeys >= 1
  {
    var page := ListPage(b, m, maxKeys);
    if page == [] then None else Some(page[|page| - 1].key)
  }

  /** From request `n` on, every marker of `q` but the last is followed by the
      last key of the page the bucket `b` lists after it. */
  predicate PagedAs(b: Bucket, maxKeys: nat, n: nat, q: seq<string>)
    requires maxKeys >= 1
  {
    forall i, j :: n <= i < |q| && j == i + 1 && j < |q| ==> NextMarker(b, q[i], maxKeys) == Some(q[j])
  }

  /** The loop `r`, whose requests from `n` on are its own, paged through `b`
      and, if it completed, stopped where `b` has no more keys. */
  predicate PagedThrough(b: Bucket, maxKeys: nat, n: nat, r: ScanResult)
    requires maxKeys >= 1
  {
    var q := r.st.requests;
    && PagedAs(b, maxKeys, n, q)
    && (r.Completed? ==> |q| >= 1 && NextMarker(b, q[|q| - 1], maxKeys) == None)
  }

  /** A first page that `b` lists after `m`, processed without error, carries
      the property over from the rest of the loop. */
  lemma PagedThroughStep(b: Bucket, maxKeys: nat, n: nat, m: string, page: seq<Listed>, pst: ScanState, r: ScanResult)
    requires maxKeys >= 1
    requires page == ListPage(b, m, maxKeys) && page != []
    requires |pst.requests| == n + 1 && pst.requests[n] == m
    requires pst.requests + [page[|page| - 1].key] <= r.st.requests
    requires PagedThrough(b, maxKeys, n + 1, r)
    ensures PagedThrough(b, maxKeys, n, r)
  {
    var q := r.st.requests;
    assert q[n] == m && q[n + 1] == page[|page| - 1].key;
    assert NextMarker(b, q[n], maxKeys) == Some(q[n + 1]);
  }

  /** A loop that made a single request paged through `b` if, when it
      completed, `b` has no key after that request's marker. */
  lemma PagedThroughLast(b: Bucket, maxKeys: nat, n: nat, r: ScanResult)
    requires maxKeys >= 1
    requires |r.st.requests| == n + 1
    requires r.Completed? ==> NextMarker(b, r.st.requests[n], maxKeys) == None
    ensures PagedThrough(b, maxKeys, n, r)
  {
  }

  /** The loop from marker `m` pages through the bucket as it was when the pass
      began: each marker after `m` is the last key of the page that bucket
      lists after the marker before it, whatever the sweep deleted meanwhile;
      and a loop that completes stopped on a marker after which that bucket
      has no key. */
  lemma {:induction false} ScanFromPaging(cfg: Config, fs: FileSystem, pass: Pass, maxKeys: nat, e: Env, m: string, st: ScanState)
    requires maxKeys >= 1
    requires Inv(cfg, fs, pass, e, m, st)
    ensures PagedThrough(e.bucket, maxKeys, |st.requests|, ScanFrom(cfg, fs, pass, maxKeys, m, st))
    decreases After(st.env.bucket.objects.Keys, m)
  {
    var page := ListPage(st.env.bucket, m, maxKeys);
    var st1 := st.(requests := st.requests + [m]);
    if page == [] || ProcessPage(cfg, fs, pass, st1, page).Abort? {
      PagingStop(cfg, fs, pass, maxKeys, e, m, st);
    } else {
      PagingAdvance(cfg, fs, pass, e, m, st, maxKeys);
      var p := ProcessPage(cfg, fs, pass, st1, page);
      var last := page[|page| - 1].key;
      MeasureShrinks(st.env.bucket.objects.Keys, p.st.env.bucket.objects.Keys, m, last);
      ScanFromPaging(cfg, fs, pass, maxKeys, e, last, p.st);
      PagingContinue(cfg, fs, pass, maxKeys, e, m, st);
    }
  }

  /** A loop whose first page is empty or fails stops after one request,
      which pages through the bucket as it was when the pass began. */
  lemma PagingStop(cfg: Config, fs: FileSystem, pass: Pass, maxKeys: nat, e: Env, m: string, st: ScanState)
    requires maxKeys >= 1
    requires Inv(cfg, fs, pass, e, m, st)
    requires var page := ListPage(st.env.bucket, m, maxKeys);
             page == [] || ProcessPage(cfg, fs, pass, st.(requests := st.requests + [m]), page).Abort?
    ensures PagedThrough(e.bucket, maxKeys, |st.requests|, ScanFrom(cfg, fs, pass, maxKeys, m, st))
  {
    ScanFromUnfold(cfg, fs, pass, maxKeys, m, st);
    ListPageInitial(cfg, fs, pass, e, m, st, maxKeys);
    PagedThroughLast(e.bucket, maxKeys, |st.requests|, ScanFrom(cfg, fs, pass, maxKeys, m, st));
  }

  /** A loop whose first page is processed without error pages through the
      bucket as it was when the pass began if the loop from that page's last
      key does. */
  lemma PagingContinue(cfg: Config, fs: FileSystem, pass: Pass, maxKeys: nat, e: Env, m: string, st: ScanState)
    requires maxKeys >= 1
    requires Inv(cfg, fs, pass, e, m, st)
    requires var page := ListPage(st.env.bucket, m, maxKeys);
             var p := ProcessPage(cfg, fs, pass, st.(requests := st.requests + [m]), page);
             && page != [] && p.Continue?
             && PagedThrough(e.bucket, maxKeys, |st.requests| + 1, ScanFrom(cfg, fs, pass, maxKeys, page[|page| - 1].key, p.st))
    ensures PagedThrough(e.bucket, maxKeys, |st.requests|, ScanFrom(cfg, fs, pass, maxKeys, m, st))
  {
    var page := ListPage(st.env.bucket, m, maxKeys);
    var p := ProcessPage(cfg, fs, pass, st.(requests := st.requests + [m]), page);
    ScanFromUnfold(cfg, fs, pass, maxKeys, m, st);
    ListPageInitial(cfg, fs, pass, e, m, st, maxKeys);
    PagedThroughStep(e.bucket, maxKeys, |st.requests|, m, page, p.st, ScanFrom(cfg, fs, pass, maxKeys, page[|page| - 1].key, p.st));
  }

  /** A page processed without error leaves the invariant holding at its
      last key. */
  lemma PagingAdvance(cfg: Config, fs: FileSystem, pass: Pass, e: Env, m: string, st: ScanState, maxKeys: nat)
    requires maxKeys >= 1
    requires Inv(cfg, fs, pass, e, m, st)
    requires var page := ListPage(st.env.bucket, m, maxKeys);
             page != [] && ProcessPage(cfg, fs, pass, st.(requests := st.requests + [m]), page).Continue?
    ensures var page := ListPage(st.env.bucket, m, maxKeys);
            Inv(cfg, fs, pass, e, page[|page| - 1].key, ProcessPage(cfg, fs, pass, st.(requests := st.requests + [m]), page).st)
  {
    var page := ListPage(st.env.bucket, m, maxKeys);
    var st1 := st.(requests := st.requests + [m]);
    ListPageFits(cfg, fs, pass, e, m, st, maxKeys);
    assert Inv(cfg, fs, pass, e, m, st1);
    PageStep(cfg, fs, pass, e, m, st1, page);
  }

  /** The markers of a pass start at the empty marker and strictly increase. */
  lemma ScanBucketMarkers(cfg: Config, fs: FileSystem, pass: Pass, e: Env)
    ensures var q := ScanBucket(cfg, fs, pass, e).st.requests;
            |q| >= 1 && q[0] == "" && forall i, j :: 0 <= i < j < |q| ==> Less(q[i], q[j])
  {
    ScanFromMarkers(cfg, fs, pass, MaxKeys, "", ScanState(e, map[], [], []));
  }

  /** Pagination of a pass: the first request uses the empty marker, every
      later one the last key of the page before it, as the bucket was before
      the pass; and a completed pass stopped on a marker after which that
      bucket has no key, so no key was left unlisted. */
  lemma ScanBucketPaging(cfg: Config, fs: FileSystem, pass: Pass, e: Env)
    ensures ScanBucket(cfg, fs, pass, e).st.requests[0] == ""
    ensures PagedThrough(e.bucket, MaxKeys, 0, ScanBucket(cfg, fs, pass, e))
  {
    var st0 := ScanState(e, map[], [], []);
    var r0 := ScanFrom(cfg, fs, pass, MaxKeys, "", st0);
    InvStart(cfg, fs, pass, e);
    ScanFromPaging(cfg, fs, pass, MaxKeys, e, "", st0);
    var r := ScanBucket(cfg, fs, pass, e);
    if r0.Completed? && pass.rebuild && r0.st.env.cache.Some? {
      assert r == Completed(r0.st.(env := r0.st.env.(cache := Some(r0.st.newCache))));
    } else {
      assert r == r0;
    }
  }
}
