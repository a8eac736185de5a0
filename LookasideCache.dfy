/** The `Cache` service of `Cache.java` as a class over its two cache spaces: the
    product space (per-product snapshots, shared by the catalog and price-range
    reconcilers) and the activity-product space. Every public operation is proved to
    return, put and fetch exactly what its reconciler in `Catalogs`, `Activities` or
    `PriceRanges` specifies. The repository is passed in as functions, the clock as `now`. */
module LookasideCache {
  import opened Values
  import opened Streams
  import opened Catalogs
  import Activities
  import PriceRanges

  /** `cacheManager.get(ids).values()`: the cached values of the requested ids that are
      present, in request order. */
  function Present<V>(m: map<string, V>, ids: seq<string>): (r: seq<V>)
    ensures |r| <= |ids|
    ensures r == [] <==> forall k :: k in ids ==> k !in m
    decreases |ids|
  {
    if ids == [] then []
    else
      var init, last := ids[..|ids| - 1], ids[|ids| - 1];
      assert ids == init + [last];
      Present(m, init) + (if last in m then [m[last]] else [])
  }

  /** The lookup returns a cached value exactly when some requested id maps to it. */
  lemma {:induction false} PresentMembers<V>(m: map<string, V>, ids: seq<string>, v: V)
    ensures v in Present(m, ids) <==> exists k :: k in ids && k in m && m[k] == v
    decreases |ids|
  {
    if ids != [] {
      var init, last := ids[..|ids| - 1], ids[|ids| - 1];
      assert ids == init + [last];
      PresentMembers(m, init, v);
    }
  }

  /** Every snapshot sits under its own product id, or carries none. */
  ghost predicate ProductsKeyed(products: map<string, Snapshot>)
  {
    forall k :: k in products ==> products[k].productId.None? || products[k].productId == Some(k)
  }

  /** A put of snapshots keyed by their own product ids keeps the product space keyed. */
  lemma PutKeepsProductsKeyed(products: map<string, Snapshot>, batch: map<string, Snapshot>)
    requires ProductsKeyed(products)
    requires forall k :: k in batch ==> batch[k].productId == Some(k)
    ensures ProductsKeyed(products + batch)
  {
  }

  /** In a keyed product space, a snapshot the scan finds among the looked-up values for
      `k` is the cached entry under `k` itself. */
  lemma FoundIsCached(products: map<string, Snapshot>, ids: seq<string>, k: string)
    requires ProductsKeyed(products)
    ensures FindSnapshot(Present(products, ids), k).Found? ==>
              k in products && products[k] == FindSnapshot(Present(products, ids), k).snapshot
  {
    var l := FindSnapshot(Present(products, ids), k);
    if l.Found? {
      PresentMembers(products, ids, l.snapshot);
    }
  }

  /** The catalog write-back on the looked-up snapshots of a keyed product space replaces
      an entry the scan found by the cached entry with only its catalog list changed, as
      the source's `setCatalogList` on the shared object does. */
  lemma WriteBackUpdatesFoundEntry(
    products: map<string, Snapshot>, ids: seq<string>, ref: map<string, int>,
    byProductIds: seq<string> -> seq<Catalog>, byCatalogIds: seq<string> -> seq<Option<Catalog>>)
    requires ProductsKeyed(products)
    ensures var cached := Present(products, ids);
            var run := ReconcileCatalogs(ids, cached, ref, byProductIds, byCatalogIds);
            forall k :: k in run.writes && FindSnapshot(cached, k).Found? ==>
              k in products && run.writes[k] == products[k].(catalogList := run.writes[k].catalogList)
  {
    var cached := Present(products, ids);
    var run := ReconcileCatalogs(ids, cached, ref, byProductIds, byCatalogIds);
    if run.writes != map[] && cached != [] {
      var cs := AllCatalogs(cached).value;
      PartialHitWriteBack(ids, cached, cs, ref, byProductIds, byCatalogIds);
      forall k | k in run.writes && FindSnapshot(cached, k).Found?
        ensures k in products && run.writes[k] == products[k].(catalogList := run.writes[k].catalogList)
      {
        FoundIsCached(products, ids, k);
      }
    }
  }

  class Cache {
    /** The product space: product id to its snapshot. */
    var products: map<string, Snapshot>
    /** The activity-product space: product id to its promotion. */
    var activity: map<string, ActivityProduct>

    /** Each entry sits under its own product id (a snapshot built from catalogs alone
        carries none), so a cached value stands for the one object the source shares. */
    ghost predicate Valid()
      reads this
    {
      && ProductsKeyed(products)
      && Activities.KeyedByProduct(activity)
    }

    constructor()
      ensures Valid()
      ensures products == map[] && activity == map[]
    {
      products := map[];
      activity := map[];
    }

    /** `createNewCacheData`: puts one new snapshot per product of `catalogs`. */
    method CreateNewCacheData(catalogs: seq<Catalog>)
      requires Valid()
      modifies this
      ensures Valid()
      ensures products == old(products) + NewSnapshots(catalogs)
      ensures activity == old(activity)
    {
      products := products + NewSnapshots(catalogs);
    }

    /** `updateCacheData`: builds the refresh batch group by group, each on the cached
        snapshot of its product or on a new one, and puts it; a cached snapshot without a
        product id met by the scan throws before anything is put. */
    method UpdateCacheData(cached: seq<Snapshot>, groups: map<string, seq<Catalog>>) returns (ok: bool)
      requires Valid()
      modifies this
      ensures Valid()
      ensures ok <==> Refreshed(cached, groups).Some?
      ensures products == if ok then old(products) + Refreshed(cached, groups).value else old(products)
      ensures activity == old(activity)
    {
      var batch: map<string, Snapshot> := map[];
      var rest := groups.Keys;
      while rest != {}
        invariant rest <= groups.Keys
        invariant batch.Keys == groups.Keys - rest
        invariant forall k :: k in batch ==>
                    !FindSnapshot(cached, k).NullKey? && batch[k] == Refresh(FindSnapshot(cached, k), groups[k])
        decreases rest
      {
        var k :| k in rest;
        var l := FindSnapshot(cached, k);
        if l.NullKey? {
          return false;
        }
        batch := batch[k := Refresh(l, groups[k])];
        rest := rest - {k};
      }
      assert batch == Refreshed(cached, groups).value;
      products := products + batch;
      ok := true;
    }

    /** `processProductPriceDataCacheList`: with nothing cached, fetches by product id and
        creates snapshots; otherwise collects the cached catalogs, keeps the fresh ones,
        re-fetches by catalog id the ids with no fresh copy, and writes the reloads back. */
    method ProcessProductPriceDataCacheList(
      ids: seq<string>, cached: seq<Snapshot>, ref: map<string, int>,
      byProductIds: seq<string> -> seq<Catalog>, byCatalogIds: seq<string> -> seq<Option<Catalog>>)
      returns (r: Result<seq<Catalog>>, call: RepoCall)
      requires Valid()
      modifies this
      ensures Valid()
      ensures var run := ReconcileCatalogs(ids, cached, ref, byProductIds, byCatalogIds);
              && r == run.outcome && call == run.call
              && products == old(products) + run.writes
      ensures activity == old(activity)
    {
      ghost var run := ReconcileCatalogs(ids, cached, ref, byProductIds, byCatalogIds);
      if cached == [] {
        var fetched := byProductIds(ids);
        CreateNewCacheData(fetched);
        return Ok(fetched), ByProductIds(ids);
      }
      var ok, catalogs, catalogIds := CollectCachedCatalogs(cached);
      if !ok || !Covers(ref, catalogs) {
        assert run.writes == map[];
        return Err(NullReference), NoCall;
      }
      assert run == PartialHit(cached, catalogs, ref, byCatalogIds);
      var valid := FilterValid(catalogs, ref);
      var reload := RemoveAll(catalogIds, Distinct(CatalogIds(valid)));
      assert reload == ReloadIds(catalogs, ref);
      if reload == [] {
        assert run.writes == map[];
        return Ok(valid), NoCall;
      }
      assert run == WriteBack(cached, valid, reload, NonNull(byCatalogIds(reload)));
      r, call := ReloadAndWriteBack(cached, valid, reload, byCatalogIds);
    }

    /** The tail of the partial-hit path: re-fetch the reload set by catalog id, drop the
        nulls, write the non-empty reload back group by group and add it to the result. */
    method ReloadAndWriteBack(
      cached: seq<Snapshot>, valid: seq<Catalog>, reload: seq<string>,
      byCatalogIds: seq<string> -> seq<Option<Catalog>>)
      returns (r: Result<seq<Catalog>>, call: RepoCall)
      requires Valid()
      modifies this
      ensures Valid()
      ensures var run := WriteBack(cached, valid, reload, NonNull(byCatalogIds(reload)));
              && r == run.outcome && call == run.call
              && products == old(products) + run.writes
      ensures activity == old(activity)
    {
      var fetched := NonNull(byCatalogIds(reload));
      if fetched == [] {
        return Ok(valid), ByCatalogIds(reload);
      }
      var updated := UpdateCacheData(cached, GroupByProduct(fetched));
      if !updated {
        return Err(NullReference), ByCatalogIds(reload);
      }
      return Ok(valid + fetched), ByCatalogIds(reload);
    }

    /** `getCatalogListByProduct(List, Map)`: deduplicates the ids, looks them up and
        reconciles. */
    method GetCatalogListByProducts(
      ids: seq<string>, ref: map<string, int>,
      byProductIds: seq<string> -> seq<Catalog>, byCatalogIds: seq<string> -> seq<Option<Catalog>>)
      returns (r: Result<seq<Catalog>>, call: RepoCall)
      requires Valid()
      modifies this
      ensures Valid()
      ensures var run := ReconcileCatalogs(Distinct(ids), Present(old(products), Distinct(ids)), ref, byProductIds, byCatalogIds);
              && r == run.outcome && call == run.call
              && products == old(products) + run.writes
      ensures forall k :: k in old(products) && FindSnapshot(Present(old(products), Distinct(ids)), k).Found? ==>
                k in products && products[k] == old(products)[k].(catalogList := products[k].catalogList)
      ensures activity == old(activity)
    {
      WriteBackUpdatesFoundEntry(products, Distinct(ids), ref, byProductIds, byCatalogIds);
      var distinct := Distinct(ids);
      r, call := ProcessProductPriceDataCacheList(distinct, Present(products, distinct), ref, byProductIds, byCatalogIds);
    }

    /** `getCatalogByCatalogId`: the product ids are the rows' `spid` values, deduplicated;
        a row without one throws before the cache is read. */
    method GetCatalogByCatalogId(
      rows: seq<map<string, string>>, ref: map<string, int>,
      byProductIds: seq<string> -> seq<Catalog>, byCatalogIds: seq<string> -> seq<Option<Catalog>>)
      returns (r: Result<seq<Catalog>>, call: RepoCall)
      requires Valid()
      modifies this
      ensures Valid()
      ensures (exists row :: row in rows && "spid" !in row) ==>
                r == Err(NullReference) && call == NoCall && products == old(products)
      ensures (forall row :: row in rows ==> "spid" in row) ==>
                var ids := Distinct(seq(|rows|, i requires 0 <= i < |rows| && "spid" in rows[i] => rows[i]["spid"]));
                var run := ReconcileCatalogs(ids, Present(old(products), ids), ref, byProductIds, byCatalogIds);
                && r == run.outcome && call == run.call
                && products == old(products) + run.writes
      ensures activity == old(activity)
    {
      if exists row :: row in rows && "spid" !in row {
        return Err(NullReference), NoCall;
      }
      var ids := Distinct(seq(|rows|, i requires 0 <= i < |rows| && "spid" in rows[i] => rows[i]["spid"]));
      r, call := ProcessProductPriceDataCacheList(ids, Present(products, ids), ref, byProductIds, byCatalogIds);
    }

    /** `initActivityProductCache`: puts every valid promotion under its product id, a
        later duplicate winning, and reports how many records the repository returned. */
    method InitActivityProductCache(all: seq<ActivityProduct>) returns (n: int)
      requires Valid()
      modifies this
      ensures Valid()
      ensures n == |all|
      ensures activity == old(activity) + ToMapLastWins(all, (a: ActivityProduct) => a.productId)
      ensures products == old(products)
    {
      activity := activity + ToMapLastWins(all, (a: ActivityProduct) => a.productId);
      n := |all|;
    }

    /** `addNewestActivityProductCache`: with an empty activity space nothing is asked or
        put; otherwise the latest cached stamp is the watermark, the ids newer than it
        are fetched and their records put under their product ids. */
    method AddNewestActivityProductCache(
      newerThan: int -> seq<string>, byIds: seq<string> -> seq<ActivityProduct>)
      returns (watermark: Option<int>, call: RepoCall)
      requires Valid()
      modifies this
      ensures Valid()
      ensures watermark.None? <==> old(activity) == map[]
      ensures watermark.Some? ==> forall k :: k in old(activity) ==> old(activity)[k].updateTime <= watermark.value
      ensures watermark.Some? ==> exists k :: k in old(activity) && old(activity)[k].updateTime == watermark.value
      ensures watermark.None? ==> call == NoCall && activity == old(activity)
      ensures watermark.Some? ==>
                && call == NewestActivities(watermark.value, newerThan(watermark.value))
                && activity == old(activity) + ToMapLastWins(byIds(newerThan(watermark.value)), (a: ActivityProduct) => a.productId)
      ensures products == old(products)
    {
      watermark := Activities.LatestUpdateTime(activity);
      call := NoCall;
      if watermark.Some? {
        var newest := newerThan(watermark.value);
        activity := activity + ToMapLastWins(byIds(newest), (a: ActivityProduct) => a.productId);
        call := NewestActivities(watermark.value, newest);
      }
    }

    /** `processCacheActivityProduct`, with the expiry purge made on the cached record's
        key when the reload returned nothing: a stale record is reloaded once and the
        reload put back; an expired promotion is deleted, a not-yet-started one is kept. */
    method ProcessCacheActivityProduct(
      ap: ActivityProduct, ref: Option<int>, now: int, fetch: string -> Option<ActivityProduct>)
      returns (r: Option<ActivityProduct>)
      requires Valid()
      modifies this
      ensures Valid()
      ensures var step := Activities.ActivityPipeline(old(activity), ap, ref, now, fetch);
              r == step.served && activity == step.cache
      ensures products == old(products)
    {
      var startTime, endTime := ap.startTime, ap.endTime;
      var current := Some(ap);
      if ap.updateTime != ref.GetOr(0) {
        current := fetch(ap.productId);
        if current.Some? {
          activity := activity[current.value.productId := current.value];
          startTime, endTime := current.value.startTime, current.value.endTime;
        }
      }
      if now > endTime {
        var key := if current.Some? then current.value.productId else ap.productId;
        activity := activity - {key};
        return None;
      } else if now < startTime {
        return None;
      }
      return current;
    }

    /** `getActivityProduct`: a product missing from the activity space is not a
        promotion, with nothing asked or changed; otherwise the pipeline runs on it. */
    method GetActivityProduct(productId: string, ref: Option<int>, now: int, fetch: string -> Option<ActivityProduct>)
      returns (r: Option<ActivityProduct>)
      requires Valid()
      modifies this
      ensures Valid()
      ensures productId !in old(activity) ==> r.None? && activity == old(activity)
      ensures productId in old(activity) ==>
                var step := Activities.ActivityPipeline(old(activity), old(activity)[productId], ref, now, fetch);
                r == step.served && activity == step.cache
      ensures r.Some? ==> r.value.startTime <= now <= r.value.endTime
      ensures products == old(products)
    {
      if productId !in activity {
        return None;
      }
      r := ProcessCacheActivityProduct(activity[productId], ref, now, fetch);
    }

    /** `getActivityProductList`: deduplicates the ids, takes the cached promotions among
        them and runs the pipeline on each in turn; null answers stay in the list. */
    method GetActivityProductList(ids: seq<string>, refs: map<string, int>, now: int,
                                  fetch: string -> Option<ActivityProduct>)
      returns (r: seq<Option<ActivityProduct>>)
      requires Valid()
      modifies this
      ensures Valid()
      ensures var batch := Activities.ActivityBatch(old(activity), Present(old(activity), Distinct(ids)), refs, now, fetch);
              r == batch.served && activity == batch.cache
      ensures products == old(products)
    {
      var cachedList := Present(activity, Distinct(ids));
      ghost var start := activity;
      r := [];
      for i := 0 to |cachedList|
        invariant Valid()
        invariant products == old(products)
        invariant var batch := Activities.ActivityBatch(start, cachedList[..i], refs, now, fetch);
                  r == batch.served && activity == batch.cache
      {
        assert cachedList[..i + 1][..i] == cachedList[..i];
        var c := cachedList[i];
        var served := ProcessCacheActivityProduct(c, Activities.RefOf(refs, c.productId), now, fetch);
        r := r + [served];
      }
      assert cachedList[..|cachedList|] == cachedList;
    }

    /** `getPriceRangeListByProduct`: deduplicates the ids and looks them up; with nothing
        cached fetches them all, otherwise keeps the fresh snapshots, fetches the rest,
        splices the stale snapshots' catalogs onto the reloads and puts those. */
    method GetPriceRangeListByProduct(ids: seq<string>, refs: map<string, int>, now: int,
                                      byProductIds: seq<string> -> seq<Option<Snapshot>>)
      returns (r: Result<seq<Snapshot>>, call: RepoCall)
      requires Valid()
      modifies this
      ensures Valid()
      ensures var run := PriceRanges.ReconcilePriceRanges(Distinct(ids), Present(old(products), Distinct(ids)), refs, now, byProductIds);
              && r == run.outcome && call == run.call
              && products == old(products) + run.writes
      ensures activity == old(activity)
    {
      var distinct := Distinct(ids);
      var cached := Present(products, distinct);
      if cached == [] {
        PriceRanges.AllMissUnfolds(distinct, refs, now, byProductIds);
        r, call := PutAllMissPriceRanges(distinct, byProductIds);
        return;
      }
      r, call := PutPartialPriceRanges(distinct, cached, refs, now, byProductIds);
    }

    /** The partial branch of `getPriceRangeListByProduct`: reconcile the cached snapshots
        and put the spliced reloads by product id. */
    method PutPartialPriceRanges(ids: seq<string>, cached: seq<Snapshot>, refs: map<string, int>, now: int,
                                 byProductIds: seq<string> -> seq<Option<Snapshot>>)
      returns (r: Result<seq<Snapshot>>, call: RepoCall)
      requires Valid()
      requires cached != []
      modifies this
      ensures Valid()
      ensures var run := PriceRanges.ReconcilePriceRanges(ids, cached, refs, now, byProductIds);
              && r == run.outcome && call == run.call
              && products == old(products) + run.writes
      ensures activity == old(activity)
    {
      var partial := PriceRanges.PartialPath(ids, cached, refs, now, byProductIds);
      PutKeepsProductsKeyed(products, partial.writes);
      products := products + partial.writes;
      r, call := partial.outcome, partial.call;
    }

    /** The all-miss branch of `getPriceRangeListByProduct`: fetch every requested id and
        put the answer by product id, unless a record or its product id is null. */
    method PutAllMissPriceRanges(ids: seq<string>, byProductIds: seq<string> -> seq<Option<Snapshot>>)
      returns (r: Result<seq<Snapshot>>, call: RepoCall)
      requires Valid()
      modifies this
      ensures Valid()
      ensures var run := PriceRanges.PriceRangeAllMissRun(ids, byProductIds(ids));
              && r == run.outcome && call == run.call
              && products == old(products) + run.writes
      ensures activity == old(activity)
    {
      var fetched := byProductIds(ids);
      var rs := NonNull(fetched);
      if !((forall i :: 0 <= i < |fetched| ==> fetched[i].Some?) && PriceRanges.AllKeyed(rs)) {
        return Err(NullReference), ByProductIds(ids);
      }
      PutKeepsProductsKeyed(products, PriceRanges.ByProductMap(rs));
      products := products + PriceRanges.ByProductMap(rs);
      return Ok(rs), ByProductIds(ids);
    }
  }
}
