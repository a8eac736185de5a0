/** The activity-product reconciler of `Cache.java`: the validity pipeline of
    `processCacheActivityProduct` (stamp check, single reload, time window, purge on
    expiry), its batch form, and the watermark of the incremental seeding. */
module Activities {
  import opened Values

  /** What one pass of the pipeline serves and the activity cache after it. */
  datatype ActivityStep = ActivityStep(served: Option<ActivityProduct>, cache: map<string, ActivityProduct>)

  /** The cached record's stamp differs from the reference, a null reference read as 0. */
  predicate IsStale(ap: ActivityProduct, ref: Option<int>)
  {
    ap.updateTime != ref.GetOr(0)
  }

  /** The record the pipeline continues with: the cached one when it is fresh, otherwise
      whatever the single-record reload returns (possibly nothing). */
  function Current(ap: ActivityProduct, ref: Option<int>, fetch: string -> Option<ActivityProduct>): Option<ActivityProduct>
  {
    if IsStale(ap, ref) then fetch(ap.productId) else Some(ap)
  }

  /** The record whose start/end window is checked: the reloaded one when the reload
      returned something, otherwise the cached one. */
  function Windowed(ap: ActivityProduct, cur: Option<ActivityProduct>): ActivityProduct
  {
    if cur.Some? then cur.value else ap
  }

  /** The activity cache after the reload step: a reloaded record overwrites its entry. */
  function AfterReload(cache: map<string, ActivityProduct>, ap: ActivityProduct, ref: Option<int>,
                       fetch: string -> Option<ActivityProduct>): map<string, ActivityProduct>
  {
    var cur := Current(ap, ref, fetch);
    if IsStale(ap, ref) && cur.Some? then cache[cur.value.productId := cur.value] else cache
  }

  /** `processCacheActivityProduct` exactly as written: when the reload returns null and the
      cached window has already ended, `activityProduct.getProductId()` dereferences null. */
  function ActivityPipelineAsWritten(cache: map<string, ActivityProduct>, ap: ActivityProduct, ref: Option<int>,
                                     now: int, fetch: string -> Option<ActivityProduct>): (r: Result<ActivityStep>)
    ensures r.Err? ==> r.error == NullReference && Current(ap, ref, fetch).None?
    ensures r.Ok? && r.value.served.Some? ==>
              r.value.served.value.startTime <= now <= r.value.served.value.endTime
  {
    var cur := Current(ap, ref, fetch);
    var cache1 := AfterReload(cache, ap, ref, fetch);
    var w := Windowed(ap, cur);
    if now > w.endTime then
      if cur.None? then Err(NullReference)
      else Ok(ActivityStep(None, cache1 - {cur.value.productId}))
    else if now < w.startTime then Ok(ActivityStep(None, cache1))
    else Ok(ActivityStep(cur, cache1))
  }

  /** `processCacheActivityProduct` with the expiry purge done on the cached record's key
      when the reload returned nothing; every other case is as written. An expired
      promotion is purged, a not-yet-started one is kept, and what is served is in its window. */
  function ActivityPipeline(cache: map<string, ActivityProduct>, ap: ActivityProduct, ref: Option<int>,
                            now: int, fetch: string -> Option<ActivityProduct>): (r: ActivityStep)
    ensures r.served.Some? ==> r.served.value.startTime <= now <= r.served.value.endTime
    ensures r.served.Some? ==> r.served == Current(ap, ref, fetch)
    ensures now > Windowed(ap, Current(ap, ref, fetch)).endTime ==>
              r.served.None? && Windowed(ap, Current(ap, ref, fetch)).productId !in r.cache
    ensures now <= Windowed(ap, Current(ap, ref, fetch)).endTime ==> r.cache == AfterReload(cache, ap, ref, fetch)
    ensures forall k :: k != Windowed(ap, Current(ap, ref, fetch)).productId ==>
              (k in r.cache <==> k in AfterReload(cache, ap, ref, fetch)) &&
              (k in r.cache ==> r.cache[k] == AfterReload(cache, ap, ref, fetch)[k])
  {
    var cur := Current(ap, ref, fetch);
    var cache1 := AfterReload(cache, ap, ref, fetch);
    var w := Windowed(ap, cur);
    if now > w.endTime then ActivityStep(None, cache1 - {w.productId})
    else if now < w.startTime then ActivityStep(None, cache1)
    else ActivityStep(cur, cache1)
  }

  /** The as-written pipeline fails exactly when the reload of a stale record returns
      nothing and the stale window has ended; everywhere else it agrees with the corrected one. */
  lemma AsWrittenFailsOnlyOnVanishedExpired(cache: map<string, ActivityProduct>, ap: ActivityProduct,
                                            ref: Option<int>, now: int, fetch: string -> Option<ActivityProduct>)
    ensures ActivityPipelineAsWritten(cache, ap, ref, now, fetch).Err? <==>
              IsStale(ap, ref) && fetch(ap.productId).None? && now > ap.endTime
    ensures ActivityPipelineAsWritten(cache, ap, ref, now, fetch).Ok? ==>
              ActivityPipelineAsWritten(cache, ap, ref, now, fetch).value == ActivityPipeline(cache, ap, ref, now, fetch)
  {
  }

  /** Concrete input for the null dereference: a stale cached promotion that ended at 10,
      read at 20, whose reload returns nothing. */
  lemma VanishedExpiredPromotionThrows()
    ensures var ap := ActivityProduct("P", 0, 10, 5, ActivityTerms(1, 9.5, false, 2));
            ActivityPipelineAsWritten(map["P" := ap], ap, Some(6), 20, _ => None) == Err(NullReference)
  {
  }

  /** Corrected, the same input purges the entry and serves nothing. */
  lemma VanishedExpiredPromotionIsPurged()
    ensures var ap := ActivityProduct("P", 0, 10, 5, ActivityTerms(1, 9.5, false, 2));
            ActivityPipeline(map["P" := ap], ap, Some(6), 20, _ => None) == ActivityStep(None, map[])
  {
  }

  /** A fresh promotion that has not started is not served and its entry stays as it was. */
  lemma NotYetStartedIsKept(cache: map<string, ActivityProduct>, ap: ActivityProduct, ref: Option<int>,
                            now: int, fetch: string -> Option<ActivityProduct>)
    requires !IsStale(ap, ref) && now < ap.startTime && now <= ap.endTime
    ensures ActivityPipeline(cache, ap, ref, now, fetch) == ActivityStep(None, cache)
  {
  }

  /** A fresh promotion inside its window is served from the cache, with no change. */
  lemma FreshActiveIsServed(cache: map<string, ActivityProduct>, ap: ActivityProduct, ref: Option<int>,
                            now: int, fetch: string -> Option<ActivityProduct>)
    requires !IsStale(ap, ref) && ap.startTime <= now <= ap.endTime
    ensures ActivityPipeline(cache, ap, ref, now, fetch) == ActivityStep(Some(ap), cache)
  {
  }

  /** A stale promotion whose reload returns `p` not yet expired: `p` overwrites its entry
      and is served when its own window has started. */
  lemma StaleIsReloaded(cache: map<string, ActivityProduct>, ap: ActivityProduct, ref: Option<int>,
                        now: int, fetch: string -> Option<ActivityProduct>, p: ActivityProduct)
    requires IsStale(ap, ref) && fetch(ap.productId) == Some(p) && now <= p.endTime
    ensures ActivityPipeline(cache, ap, ref, now, fetch) ==
              ActivityStep(if now < p.startTime then None else Some(p), cache[p.productId := p])
  {
  }

  /** A stale promotion the repository no longer has is never served; unless already
      expired, the cache is left as it was. */
  lemma VanishedIsNotServed(cache: map<string, ActivityProduct>, ap: ActivityProduct, ref: Option<int>,
                            now: int, fetch: string -> Option<ActivityProduct>)
    requires IsStale(ap, ref) && fetch(ap.productId).None?
    ensures ActivityPipeline(cache, ap, ref, now, fetch).served.None?
    ensures now <= ap.endTime ==> ActivityPipeline(cache, ap, ref, now, fetch).cache == cache
  {
  }

  /** Every entry of the activity cache is keyed by its own product id. */
  ghost predicate KeyedByProduct(cache: map<string, ActivityProduct>)
  {
    forall k :: k in cache ==> cache[k].productId == k
  }

  /** The pipeline keeps the cache keyed by product id: it only puts a record under its
      own id and only deletes. */
  lemma PipelineKeepsKeying(cache: map<string, ActivityProduct>, ap: ActivityProduct, ref: Option<int>,
                            now: int, fetch: string -> Option<ActivityProduct>)
    ensures KeyedByProduct(cache) ==> KeyedByProduct(ActivityPipeline(cache, ap, ref, now, fetch).cache)
  {
  }

  /** Some record of the batch, or its reload, has product id `k`. */
  predicate Touches(cached: seq<ActivityProduct>, fetch: string -> Option<ActivityProduct>, k: string)
  {
    exists c :: c in cached && (c.productId == k || (fetch(c.productId).Some? && fetch(c.productId).value.productId == k))
  }

  /** `getActivityProductList`'s `map` over the cached records: each runs the pipeline on
      the cache the previous ones left, with the reference stamp looked up by product id;
      absent results stay in the list as `None`. */
  function ActivityBatch(cache: map<string, ActivityProduct>, cached: seq<ActivityProduct>, refs: map<string, int>,
                         now: int, fetch: string -> Option<ActivityProduct>): (r: ActivityBatchResult)
    ensures |r.served| == |cached|
    ensures KeyedByProduct(cache) ==> KeyedByProduct(r.cache)
    ensures forall k :: k in cache && !Touches(cached, fetch, k) ==> k in r.cache && r.cache[k] == cache[k]
    decreases |cached|
  {
    if cached == [] then ActivityBatchResult([], cache)
    else
      var before := ActivityBatch(cache, cached[..|cached| - 1], refs, now, fetch);
      var ap := cached[|cached| - 1];
      var step := ActivityPipeline(before.cache, ap, RefOf(refs, ap.productId), now, fetch);
      assert forall c :: c in cached[..|cached| - 1] ==> c in cached;
      PipelineKeepsKeying(before.cache, ap, RefOf(refs, ap.productId), now, fetch);
      ActivityBatchResult(before.served + [step.served], step.cache)
  }

  datatype ActivityBatchResult = ActivityBatchResult(served: seq<Option<ActivityProduct>>, cache: map<string, ActivityProduct>)

  /** `activityProductStampMap.get(productId)`: a missing key is null. */
  function RefOf(refs: map<string, int>, pid: string): Option<int>
  {
    if pid in refs then Some(refs[pid]) else None
  }

  /** The batch answers every cached record in order, serves only promotions inside their
      window, and a served record is the cached one (fresh) or its reload (stale). */
  lemma {:induction false} BatchServesOnlyActive(cache: map<string, ActivityProduct>, cached: seq<ActivityProduct>,
                                                 refs: map<string, int>, now: int, fetch: string -> Option<ActivityProduct>)
    ensures var b := ActivityBatch(cache, cached, refs, now, fetch);
            && |b.served| == |cached|
            && forall i :: 0 <= i < |cached| && b.served[i].Some? ==>
                 && b.served[i].value.startTime <= now <= b.served[i].value.endTime
                 && b.served[i] == Current(cached[i], RefOf(refs, cached[i].productId), fetch)
    decreases |cached|
  {
    if cached != [] {
      var init := cached[..|cached| - 1];
      BatchServesOnlyActive(cache, init, refs, now, fetch);
    }
  }

  /** The batch answers each record exactly as the single-record pipeline would: what
      the pipeline serves does not depend on the cache the earlier records left. */
  lemma {:induction false} BatchIsPipelinePerRecord(cache: map<string, ActivityProduct>, cached: seq<ActivityProduct>,
                                                    refs: map<string, int>, now: int, fetch: string -> Option<ActivityProduct>)
    ensures forall i :: 0 <= i < |cached| ==>
              ActivityBatch(cache, cached, refs, now, fetch).served[i] ==
              ActivityPipeline(cache, cached[i], RefOf(refs, cached[i].productId), now, fetch).served
    decreases |cached|
  {
    if cached != [] {
      var init := cached[..|cached| - 1];
      BatchIsPipelinePerRecord(cache, init, refs, now, fetch);
      var before := ActivityBatch(cache, init, refs, now, fetch);
      var ap := cached[|cached| - 1];
      assert ActivityPipeline(before.cache, ap, RefOf(refs, ap.productId), now, fetch).served ==
             ActivityPipeline(cache, ap, RefOf(refs, ap.productId), now, fetch).served;
    }
  }

  /** The key the pipeline checks the window of for `ap`: its reload's id, or its own. */
  function WindowKey(ap: ActivityProduct, refs: map<string, int>, fetch: string -> Option<ActivityProduct>): string
  {
    Windowed(ap, Current(ap, RefOf(refs, ap.productId), fetch)).productId
  }

  /** A record whose window has ended leaves no entry under its key in the batch's final
      cache, unless a later record of the batch, or its reload, is keyed the same. */
  lemma {:induction false} BatchPurgesExpired(cache: map<string, ActivityProduct>, cached: seq<ActivityProduct>,
                                              refs: map<string, int>, now: int, fetch: string -> Option<ActivityProduct>)
    ensures forall i ::
              (&& 0 <= i < |cached|
               && now > Windowed(cached[i], Current(cached[i], RefOf(refs, cached[i].productId), fetch)).endTime
               && !Touches(cached[i + 1..], fetch, WindowKey(cached[i], refs, fetch)))
              ==> WindowKey(cached[i], refs, fetch) !in ActivityBatch(cache, cached, refs, now, fetch).cache
    decreases |cached|
  {
    if cached != [] {
      var n := |cached|;
      var init := cached[..n - 1];
      BatchPurgesExpired(cache, init, refs, now, fetch);
      var before := ActivityBatch(cache, init, refs, now, fetch);
      var ap := cached[n - 1];
      var after := ActivityBatch(cache, cached, refs, now, fetch).cache;
      assert after == ActivityPipeline(before.cache, ap, RefOf(refs, ap.productId), now, fetch).cache;
      forall i | 0 <= i < n - 1 &&
                 now > Windowed(cached[i], Current(cached[i], RefOf(refs, cached[i].productId), fetch)).endTime &&
                 !Touches(cached[i + 1..], fetch, WindowKey(cached[i], refs, fetch))
        ensures WindowKey(cached[i], refs, fetch) !in after
      {
        var k := WindowKey(cached[i], refs, fetch);
        assert init[i] == cached[i];
        var later, laterInit := cached[i + 1..], init[i + 1..];
        assert forall c :: c in laterInit ==> c in later;
        assert !Touches(laterInit, fetch, k);
        assert k !in before.cache;
        assert ap in later;
        assert k != WindowKey(ap, refs, fetch);
        assert k !in AfterReload(before.cache, ap, RefOf(refs, ap.productId), fetch);
      }
    }
  }

  /** The watermark of `addNewestActivityProductCache`: the largest stamp among the cached
      promotions, none when the cache is empty. */
  method LatestUpdateTime(cache: map<string, ActivityProduct>) returns (r: Option<int>)
    ensures r.None? <==> cache == map[]
    ensures r.Some? ==> exists k :: k in cache && cache[k].updateTime == r.value
    ensures r.Some? ==> forall k :: k in cache ==> cache[k].updateTime <= r.value
  {
    r := None;
    var rest := cache.Keys;
    while rest != {}
      invariant rest <= cache.Keys
      invariant r.None? <==> rest == cache.Keys
      invariant r.Some? ==> exists k :: k in cache && cache[k].updateTime == r.value
      invariant r.Some? ==> forall k :: k in cache && k !in rest ==> cache[k].updateTime <= r.value
      decreases rest
    {
      var k :| k in rest;
      if r.None? || cache[k].updateTime > r.value {
        r := Some(cache[k].updateTime);
      }
      rest := rest - {k};
    }
    if r.None? {
      assert cache.Keys == {};
    }
  }
}
