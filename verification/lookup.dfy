/** The cache-backed metadata lookup (`head`). */
module Lookup {
  import opened Optional
  import opened Storage

  /** What a remote head request answers. */
  datatype HeadReply = Found(rec: Record) | NotFound | ServiceError

  /** The remote head request on the bucket. */
  function HeadRequest(b: Bucket, key: string): (r: HeadReply)
    ensures r.ServiceError? <==> key in b.faulty.head
    ensures r.Found? <==> key !in b.faulty.head && key in b.objects
    ensures r.Found? ==> r.rec == b.objects[key]
  {
    if key in b.faulty.head then ServiceError
    else if key in b.objects then Found(b.objects[key])
    else NotFound
  }

  /** The result of `head`: the headers (`None` for "no object"), the cache
      afterwards and whether a remote request was made; or `Raised` when the
      request's error propagates to the caller. */
  datatype HeadOutcome =
    | Answered(headers: Option<Record>, cache: Cache, remote: bool)
    | Raised

  predicate CacheHit(cache: Cache, key: string) {
    cache.Some? && key in cache.value
  }

  /** `head`: a cache hit answers the cached record without a remote request.
      On a miss the bucket is asked; not-found becomes `None`. The Ruby
      variants rescue every service error as not-found, Python lets it
      propagate. The cache is written only when a record was found. */
  function Head(variant: Variant, env: Env, key: string): (h: HeadOutcome)
    ensures CacheHit(env.cache, key) ==> h == Answered(Some(env.cache.value[key]), env.cache, false)
    ensures !CacheHit(env.cache, key) && h.Answered? ==> h.remote
    ensures h.Raised? <==> !CacheHit(env.cache, key) && key in env.bucket.faulty.head && variant == Python
    ensures h.Answered? && h.headers.None? ==> h.cache == env.cache
    ensures h.Answered? && h.cache != env.cache ==>
              h.headers.Some? && env.cache.Some? && h.cache == Some(env.cache.value[key := h.headers.value])
    ensures !CacheHit(env.cache, key) && h.Answered? && h.headers.Some? ==>
              key !in env.bucket.faulty.head && key in env.bucket.objects &&
              h.headers.value == env.bucket.objects[key]
  {
    if CacheHit(env.cache, key) then
      Answered(Some(env.cache.value[key]), env.cache, false)
    else
      match HeadRequest(env.bucket, key)
      case Found(rec) =>
        var cache := if env.cache.Some? then Some(env.cache.value[key := rec]) else None;
        Answered(Some(rec), cache, true)
      case NotFound => Answered(None, env.cache, true)
      case ServiceError =>
        if variant == Python then Raised else Answered(None, env.cache, true)
  }

  /** Under the cache invariant `head` answers what the bucket holds: a record
      is the object's own metadata, and `None` (without a service error) means
      there is no object. The cache it leaves still agrees with the bucket. */
  lemma HeadAnswersBucket(variant: Variant, env: Env, key: string)
    requires CacheAgrees(env)
    ensures Head(variant, env, key).Answered? && Head(variant, env, key).headers.Some? ==>
              key in env.bucket.objects &&
              Head(variant, env, key).headers.value == env.bucket.objects[key]
    ensures (Head(variant, env, key).Answered? && Head(variant, env, key).headers.None? &&
             key !in env.bucket.faulty.head) ==> key !in env.bucket.objects
    ensures Head(variant, env, key).Answered? ==>
              CacheAgrees(Env(env.bucket, Head(variant, env, key).cache))
  {
  }

  /** A second lookup of the same key after a remote one that found the
      object is served from the cache, without a remote request. */
  lemma HeadPopulatesCache(variant: Variant, env: Env, key: string)
    requires env.cache.Some?
    requires Head(variant, env, key).Answered? && Head(variant, env, key).headers.Some?
    ensures var h := Head(variant, env, key);
            var h2 := Head(variant, Env(env.bucket, h.cache), key);
            h2 == Answered(h.headers, h.cache, false)
  {
  }
}
