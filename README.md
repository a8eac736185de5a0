# Product-price lookaside cache: a Dafny model

This project models the reconciliation layer of a product-pricing lookup service:
`domain/src/main/java/com/ymatou/productprice/domain/cache/Cache.java`. The service keeps
a cache in front of a slower repository. For every requested product it decides whether
a cached record is fresh, by exact equality between the record's update stamp and a stamp
the caller supplies. It re-fetches only the stale part, writes the refreshed records back,
and returns the combination.

The project has one module per concern:

- `Values` holds the records. These are `Catalog` (one SKU), `Snapshot` (the cached
  per-product `ProductPriceData`) and `ActivityProduct` (a time-boxed promotion). It also
  holds `Result`, whose errors are the two exceptions a reconciler lets escape, and
  `Run`, which records what one reconciliation returns, puts and fetches.
- `Streams` holds the stream and list operations the Java code is built from: filter,
  `removeAll`, `distinct`, dropping nulls, and `toMap` with the last duplicate winning.
- `Catalogs` is the catalog reconciler (`processProductPriceDataCacheList` and its helpers)
  plus the validator and merger lambdas of the single-product lookup.
- `Activities` is the activity-product pipeline (`processCacheActivityProduct`), its batch
  form, and the watermark of the incremental seeding.
- `PriceRanges` is the price-range reconciler (`getPriceRangeListByProduct`).
- `LookasideCache` holds the class `Cache`. Its two fields are the cache's product space
  and activity space. Its methods step through what the Java methods do: loops, puts and
  deletes. Each method is proved to return, fetch and put exactly what the reconciler
  function of its module specifies.

The repository is modelled as function parameters, and the wall clock as an `int` named
`now`. A nullable field of a cached or fetched record (a snapshot's product id, seller,
catalog list, stamp or price range, a catalog's stamp) is an `Option`, and a fetched
record that may be null is an `Option` in the fetched list. A `NullPointerException` is
`Err(NullReference)`. It arises from cached or fetched data, and also from two caller-side
gaps: a reference map without an entry for a cached catalog's product (`Cache.java:149`),
and a row without `"spid"` (`Cache.java:313`). The `IllegalArgumentException` of the
single-product merger is `Err(CatalogMissing(productId))`.

Behaviour of the code the model follows as written:

- **Uncached products in the catalog partial-hit path.** The partial-hit path re-fetches
  only catalog ids it found in cached snapshots, because the full-id lookup is commented
  out at `Cache.java:229-235`. A requested product that is not cached therefore gets
  nothing when some other product is cached (`Catalogs.UncachedProductIsNotReloaded`).
- **Missing catalog reference stamp.** A catalog whose product has no reference stamp
  makes `filterValidCacheData` dereference null (`Cache.java:149`). The code does not treat
  it as stale.
- **Price-range null defaults.** A price-range snapshot without a stamp compares as
  `now`, and a product without a reference compares as 0 (`Cache.java:493-496`).
- **Nulls in the activity batch.** `getActivityProductList` keeps the null answers of the
  pipeline in its result rather than dropping them.
- **Catalog snapshots the code builds are never refreshed.** `ProductPriceData` is not part
  of this model, so `getProductId()` is read as a plain nullable field. None of the code's
  own creation sites sets it (`Cache.java:96-98`, `123-125`, `177-178`). A snapshot the
  catalog path itself created therefore has no product id. Once such a snapshot is stale
  and the reload returns anything, the write-back scan dereferences that null id
  (`Cache.java:171`): the call fails and nothing is put
  (`Catalogs.UnkeyedSnapshotsBlockWriteBack`, `Catalogs.OwnSnapshotIsNeverRefreshed`).
  Only snapshots that the price-range path put, which carry their id, are refreshed in place.
- **A reload that returns nothing.** When the reload of a stale promotion returns nothing,
  the code keeps the old window and then dereferences the null record if that window has
  ended. See Findings.

The partial branch of the price-range reconciler is a separate, non-modifying method
(`PriceRanges.PartialPath`) that runs the splice as a loop and returns what the class then
puts. It is kept apart from the class only to keep each proof small.

## Model

| member | source | states |
|---|---|---|
| Streams.Distinct | domain/src/main/java/com/ymatou/productprice/domain/cache/Cache.java:288-291 | `distinct()` keeps exactly the same elements, with no duplicates, as a subsequence of its input; each element appears at the place of its first occurrence, so of two kept elements the one first seen earlier comes first |
| Streams.Filter | domain/src/main/java/com/ymatou/productprice/domain/cache/Cache.java:141-154 | a filter keeps exactly the elements that satisfy the predicate, each as often as before, as a subsequence; it keeps everything when all satisfy it and nothing when none does |
| Streams.RemoveAll | domain/src/main/java/com/ymatou/productprice/domain/cache/Cache.java:252-255 | `removeAll` keeps exactly the elements not in the removed list, each as often as before, in order |
| Streams.NonNull | domain/src/main/java/com/ymatou/productprice/domain/cache/Cache.java:260 | dropping nulls keeps exactly the non-null values, in their original order (wrapped back, they are a subsequence of the input); with no null present it keeps the whole list, position by position |
| Streams.NonNullCounts | domain/src/main/java/com/ymatou/productprice/domain/cache/Cache.java:260 | dropping nulls keeps each non-null value exactly as often as it occurs |
| Streams.ToMapLastWins | domain/src/main/java/com/ymatou/productprice/domain/cache/Cache.java:330-333 | `toMap` with `(k1, k2) -> k2` has one key per element key; each value is an element with that key, and the last element with a key is the one stored |
| Catalogs.FilterValid | domain/src/main/java/com/ymatou/productprice/domain/cache/Cache.java:138-155 | a cached catalog is kept iff its stamp (null read as 0) equals its product's reference stamp, each kept catalog as often as in the input; the output is a subsequence of the input |
| Catalogs.GroupByProduct | domain/src/main/java/com/ymatou/productprice/domain/cache/Cache.java:119-121 | `groupingBy(productId)` has one key per product present, and each group is exactly that product's catalogs in their original order |
| Catalogs.GroupsArePerProduct | domain/src/main/java/com/ymatou/productprice/domain/cache/Cache.java:262-264 | every group is non-empty and holds all, and only, the catalogs of its product |
| Catalogs.NewSnapshots | domain/src/main/java/com/ymatou/productprice/domain/cache/Cache.java:117-130 | `createNewCacheData` builds one snapshot per distinct product id with exactly that product's catalogs as a non-empty list; product id, seller, stamp and price range are all unset |
| Catalogs.ReloadIds | domain/src/main/java/com/ymatou/productprice/domain/cache/Cache.java:241-255 | the reload set is a subsequence of the cached catalog ids; an id is in it iff it is cached and every cached copy of it is stale, and it occurs as often as among the cached ids |
| Catalogs.AllCatalogs | domain/src/main/java/com/ymatou/productprice/domain/cache/Cache.java:219-227 | the cached catalogs are collected iff every snapshot has a list, and then they are exactly the catalogs of those lists; one snapshot gives exactly its own list |
| Catalogs.AllCatalogsConcat | domain/src/main/java/com/ymatou/productprice/domain/cache/Cache.java:222-227 | collecting is snapshot-by-snapshot concatenation: the catalogs of two runs of snapshots are those of the first followed by those of the second, and it throws iff either throws |
| Catalogs.CollectCachedCatalogs | domain/src/main/java/com/ymatou/productprice/domain/cache/Cache.java:219-227 | the nested `forEach` succeeds iff every snapshot has a list; it then collects those lists' catalogs in order, and their ids |
| Catalogs.FindSnapshot | domain/src/main/java/com/ymatou/productprice/domain/cache/Cache.java:169-173 | the scan is absent iff every snapshot has a different non-null id; it throws iff a snapshot with a null id comes before every match (`NullBeforeMatch`); what it finds carries the key's product id and is reached past snapshots whose ids are all set and differ (`FirstReached`), i.e. the first match |
| Catalogs.RefreshedEntries | domain/src/main/java/com/ymatou/productprice/domain/cache/Cache.java:162-188 | `updateCacheData`'s batch has one entry per reloaded group, holding the cached snapshot (or a new one) with exactly the group as its list |
| Catalogs.Refresh | domain/src/main/java/com/ymatou/productprice/domain/cache/Cache.java:169-180 | a refreshed entry holds exactly the reloaded group; on a found snapshot it keeps the id, seller, stamp and price range, and on a new one these are unset |
| Catalogs.Refreshed | domain/src/main/java/com/ymatou/productprice/domain/cache/Cache.java:162-188 | the batch is built iff no group's scan meets a null product id; it then has one entry per group, each holding exactly that group |
| Catalogs.AllMissPath | domain/src/main/java/com/ymatou/productprice/domain/cache/Cache.java:207-216 | with nothing cached, the result is exactly the repository fetch by product id, and the cache receives one snapshot per product holding exactly its catalogs |
| Catalogs.PartialHitNullPaths | domain/src/main/java/com/ymatou/productprice/domain/cache/Cache.java:222-238 | a cached snapshot without a list, or a cached catalog without a reference stamp, throws before any repository call or put |
| Catalogs.ReloadSetExcludesValid | domain/src/main/java/com/ymatou/productprice/domain/cache/Cache.java:241-255 | no valid catalog id is re-fetched, and only cached catalog ids are asked for |
| Catalogs.PartialHitCall | domain/src/main/java/com/ymatou/productprice/domain/cache/Cache.java:252-259 | the partial-hit path makes one batch call by catalog id, with exactly the reload set, and only when that set is non-empty |
| Catalogs.PartialHitResult | domain/src/main/java/com/ymatou/productprice/domain/cache/Cache.java:248-271 | a successful result is the valid catalogs followed by the non-null reloaded catalogs, and every catalog served from the cache is fresh |
| Catalogs.PartialHitWriteBack | domain/src/main/java/com/ymatou/productprice/domain/cache/Cache.java:260-270 | the put touches only product ids of reloaded catalogs; each gets exactly its reloaded group, on the cached snapshot if one was found and on a new one otherwise |
| Catalogs.WriteBack | domain/src/main/java/com/ymatou/productprice/domain/cache/Cache.java:257-272 | after a reload the result is the valid catalogs followed by the reloads, the put covers exactly the reloaded product ids, and it fails with a null dereference (putting nothing) iff the write-back scan throws; the call is the reload set |
| Catalogs.PartialHit | domain/src/main/java/com/ymatou/productprice/domain/cache/Cache.java:237-272 | the result starts with the valid cached catalogs; a failure puts nothing; the repository is asked iff the reload set is non-empty |
| Catalogs.ReconcileCatalogs | domain/src/main/java/com/ymatou/productprice/domain/cache/Cache.java:198-276 | the repository is asked by product id iff the cache returned nothing; a call by catalog id is never empty; every failure is a null dereference with nothing put |
| Catalogs.UncachedProductIsNotReloaded | domain/src/main/java/com/ymatou/productprice/domain/cache/Cache.java:219-257 | P1 cached and fresh, P2 not cached: the result is P1's cached catalog alone, with no repository call and no put |
| Catalogs.UnkeyedSnapshotsBlockWriteBack | domain/src/main/java/com/ymatou/productprice/domain/cache/Cache.java:167-173 | when no cached snapshot carries a product id, any non-empty reload makes the write-back scan throw, with nothing put and the reload call recorded |
| Catalogs.OwnSnapshotIsNeverRefreshed | domain/src/main/java/com/ymatou/productprice/domain/cache/Cache.java:117-130 | a snapshot the all-miss path created (no product id), read stale and then reloaded, makes the catalog reconciliation throw with nothing put |
| Catalogs.MergeSingle | domain/src/main/java/com/ymatou/productprice/domain/cache/Cache.java:93-107 | the merger throws iff nothing is cached and the reload is null or empty; otherwise it replaces the list, keeps every other cached field, and takes a new snapshot's seller from a reloaded catalog |
| Catalogs.SingleAgreesWithBatchFilter | domain/src/main/java/com/ymatou/productprice/domain/cache/Cache.java:81-91 | the validator accepts a snapshot iff its list is non-empty and the batch freshness filter keeps all of it |
| Catalogs.ReloadedSnapshotIsValid | domain/src/main/java/com/ymatou/productprice/domain/cache/Cache.java:81-107 | a non-empty reload whose stamps all equal the reference merges without error into a snapshot the validator accepts |
| Catalogs.ReloadOfSameListIsIdentity | domain/src/main/java/com/ymatou/productprice/domain/cache/Cache.java:103-105 | merging a snapshot's own list back leaves the snapshot unchanged |
| Activities.ActivityPipelineAsWritten | domain/src/main/java/com/ymatou/productprice/domain/cache/Cache.java:401-426 | the pipeline exactly as written; it fails only with a null dereference when the reload returned nothing, and anything served lies in its window |
| Activities.ActivityPipeline | domain/src/main/java/com/ymatou/productprice/domain/cache/Cache.java:401-426 | served only when `start <= now <= end`, and then it is the cached record (fresh) or its reload (stale); past the end of the window nothing is served and the key is gone; otherwise the cache is exactly as the reload step left it, and every other key is as the reload step left it in all cases |
| Activities.AsWrittenFailsOnlyOnVanishedExpired | domain/src/main/java/com/ymatou/productprice/domain/cache/Cache.java:407-419 | as written, the pipeline throws iff the record is stale, the reload returns nothing and the old window has ended; otherwise it agrees with the corrected pipeline |
| Activities.VanishedExpiredPromotionThrows | domain/src/main/java/com/ymatou/productprice/domain/cache/Cache.java:407-418 | a concrete stale, expired promotion whose reload returns nothing makes the code as written throw |
| Activities.VanishedExpiredPromotionIsPurged | domain/src/main/java/com/ymatou/productprice/domain/cache/Cache.java:416-419 | corrected, the same input deletes the entry and serves nothing |
| Activities.NotYetStartedIsKept | domain/src/main/java/com/ymatou/productprice/domain/cache/Cache.java:422-424 | a fresh promotion that has not started is not served, and the cache is unchanged |
| Activities.FreshActiveIsServed | domain/src/main/java/com/ymatou/productprice/domain/cache/Cache.java:407-425 | a fresh promotion inside its window is served from the cache, with no change |
| Activities.StaleIsReloaded | domain/src/main/java/com/ymatou/productprice/domain/cache/Cache.java:407-413 | a stale promotion whose reload is not expired has the reload written under its product id; the reload is served once its own window has started |
| Activities.VanishedIsNotServed | domain/src/main/java/com/ymatou/productprice/domain/cache/Cache.java:408-425 | a stale promotion the repository no longer has is never served; unless its window has ended, the cache is unchanged |
| Activities.PipelineKeepsKeying | domain/src/main/java/com/ymatou/productprice/domain/cache/Cache.java:410-418 | the pipeline keeps every activity entry under its own product id |
| Activities.BatchServesOnlyActive | domain/src/main/java/com/ymatou/productprice/domain/cache/Cache.java:449-454 | the batch answers every cached record in order; whatever it serves lies in its window and is the cached record or its reload |
| Activities.ActivityBatch | domain/src/main/java/com/ymatou/productprice/domain/cache/Cache.java:449-454 | the batch answers every cached record; it keeps the activity space keyed by product id, and an entry no record of the batch (or its reload) names is left as it was |
| Activities.BatchIsPipelinePerRecord | domain/src/main/java/com/ymatou/productprice/domain/cache/Cache.java:449-454 | the batch's answer for each record is exactly what the single-record pipeline serves for it, whatever the earlier records did to the cache; with `FreshActiveIsServed`, a fresh promotion inside its window is served |
| Activities.BatchPurgesExpired | domain/src/main/java/com/ymatou/productprice/domain/cache/Cache.java:416-419 | a record whose window has ended leaves no entry under its key in the batch's final cache, unless a later record or its reload is keyed the same |
| Activities.LatestUpdateTime | domain/src/main/java/com/ymatou/productprice/domain/cache/Cache.java:345-353 | the watermark is absent iff the activity space is empty; otherwise it is the largest cached `updateTime` |
| PriceRanges.AsymmetricDefaults | domain/src/main/java/com/ymatou/productprice/domain/cache/Cache.java:493-497 | a missing cached stamp compares as `now`, a missing reference as 0; with both missing, a snapshot is fresh iff `now` is 0 |
| PriceRanges.ValidPriceRanges | domain/src/main/java/com/ymatou/productprice/domain/cache/Cache.java:490-499 | the valid snapshots are exactly the fresh cached ones, as a subsequence |
| PriceRanges.InvalidPriceRanges | domain/src/main/java/com/ymatou/productprice/domain/cache/Cache.java:507-511 | the invalid snapshots are exactly the stale cached ones, as a subsequence |
| PriceRanges.ValidInvalidPartition | domain/src/main/java/com/ymatou/productprice/domain/cache/Cache.java:490-511 | the valid and invalid snapshots together are the cached ones, as multisets |
| PriceRanges.ReloadProductIds | domain/src/main/java/com/ymatou/productprice/domain/cache/Cache.java:501-516 | the reload ids are the requested ids that no valid snapshot carries, in request order |
| PriceRanges.RetainedFor | domain/src/main/java/com/ymatou/productprice/domain/cache/Cache.java:525-529 | the splice's `findAny` returns a stale snapshot whose id (null read as "") equals the reload's id, and finds none iff no stale snapshot matches |
| PriceRanges.SpliceRetainsCatalogs | domain/src/main/java/com/ymatou/productprice/domain/cache/Cache.java:523-534 | a spliced reload differs from its reload at most in its list; that list comes from a stale snapshot of the same product when one exists, and is untouched otherwise |
| PriceRanges.Splice | domain/src/main/java/com/ymatou/productprice/domain/cache/Cache.java:525-533 | a spliced reload differs from the reload at most in its list; with no matching stale snapshot it is the reload itself, and otherwise it takes a matching stale snapshot's list |
| PriceRanges.Spliced | domain/src/main/java/com/ymatou/productprice/domain/cache/Cache.java:523-534 | the splice keeps every reload, in order, changing at most its catalog list |
| PriceRanges.SpliceRetained | domain/src/main/java/com/ymatou/productprice/domain/cache/Cache.java:523-534 | the `forEach` with its linear scan computes exactly the spliced reloads |
| PriceRanges.ByProductMap | domain/src/main/java/com/ymatou/productprice/domain/cache/Cache.java:537-539 | the put batch has one key per product id, each value a snapshot of that id, and for each id the last snapshot carrying it is the one stored (`(key1, key2) -> key2`) |
| PriceRanges.SplicedProductIds | domain/src/main/java/com/ymatou/productprice/domain/cache/Cache.java:523-539 | splicing keeps product ids, so the put keys are the reloads' product ids |
| PriceRanges.PriceRangeAllMiss | domain/src/main/java/com/ymatou/productprice/domain/cache/Cache.java:481-487 | with nothing cached, every requested id is fetched; the result is that fetch, or an error iff a record or its id is null, and one entry is put per product id |
| PriceRanges.PriceRangeAllMissRun | domain/src/main/java/com/ymatou/productprice/domain/cache/Cache.java:481-487 | the all-miss path asks for every requested id, succeeds iff every record and its product id are non-null, puts nothing on failure, and puts each record under its own id |
| PriceRanges.PriceRangeReloadSet | domain/src/main/java/com/ymatou/productprice/domain/cache/Cache.java:514-518 | the partial path always calls the repository, with exactly the requested ids no fresh snapshot carries, in request order |
| PriceRanges.PriceRangePartialResult | domain/src/main/java/com/ymatou/productprice/domain/cache/Cache.java:520-544 | the result is the valid snapshots then the spliced reloads; only reloaded product ids are put, each with a spliced reload of its own |
| PriceRanges.PartialPath | domain/src/main/java/com/ymatou/productprice/domain/cache/Cache.java:489-544 | the partial path step by step returns, fetches and puts what the reconciler specifies; the put is keyed by the snapshots' own ids |
| PriceRanges.ReconcilePriceRanges | domain/src/main/java/com/ymatou/productprice/domain/cache/Cache.java:464-547 | the reconciler always asks the repository by product id, for all ids when nothing is cached; every failure is a null dereference with nothing put; every put entry sits under its own product id |
| LookasideCache.Present | domain/src/main/java/com/ymatou/productprice/domain/cache/Cache.java:294-297 | the batch lookup returns at most one value per requested id, and nothing iff no requested id is cached |
| LookasideCache.PresentMembers | domain/src/main/java/com/ymatou/productprice/domain/cache/Cache.java:294-297 | a value is returned iff some requested id maps to it |
| LookasideCache.FoundIsCached | domain/src/main/java/com/ymatou/productprice/domain/cache/Cache.java:169-173 | in a keyed product space, a snapshot the write-back scan finds for a key among the looked-up values is the cached entry under that key |
| LookasideCache.WriteBackUpdatesFoundEntry | domain/src/main/java/com/ymatou/productprice/domain/cache/Cache.java:169-187 | the catalog write-back replaces an entry the scan found by that cached entry with only its catalog list changed, as `setCatalogList` on the shared object does |
| LookasideCache.Cache.CreateNewCacheData | domain/src/main/java/com/ymatou/productprice/domain/cache/Cache.java:117-130 | the product space is updated with the new snapshots, and the activity space is unchanged |
| LookasideCache.Cache.UpdateCacheData | domain/src/main/java/com/ymatou/productprice/domain/cache/Cache.java:162-188 | the loop over the groups puts exactly the refresh batch, or nothing when the scan throws |
| LookasideCache.Cache.ProcessProductPriceDataCacheList | domain/src/main/java/com/ymatou/productprice/domain/cache/Cache.java:198-276 | returns and fetches what the catalog reconciler specifies, and the product space is the old one updated with its put batch |
| LookasideCache.Cache.ReloadAndWriteBack | domain/src/main/java/com/ymatou/productprice/domain/cache/Cache.java:257-272 | the partial-hit tail returns, fetches and puts exactly what the write-back specifies |
| LookasideCache.Cache.GetCatalogListByProducts | domain/src/main/java/com/ymatou/productprice/domain/cache/Cache.java:284-300 | deduplicates the ids, looks them up in the product space and reconciles; an entry whose snapshot the write-back scan found changes only in its catalog list |
| LookasideCache.Cache.GetCatalogByCatalogId | domain/src/main/java/com/ymatou/productprice/domain/cache/Cache.java:308-323 | a row without `spid` throws before the cache is read; otherwise it reconciles the rows' deduplicated `spid` values |
| LookasideCache.Cache.InitActivityProductCache | domain/src/main/java/com/ymatou/productprice/domain/cache/Cache.java:328-335 | puts every fetched promotion under its product id, a later duplicate winning, and returns the fetched count |
| LookasideCache.Cache.AddNewestActivityProductCache | domain/src/main/java/com/ymatou/productprice/domain/cache/Cache.java:340-370 | with an empty activity space, no repository call and no change; otherwise the watermark is the largest cached stamp, both chained repository calls are recorded (the ids newer than the watermark, then their records), and those promotions are put under their product ids |
| LookasideCache.Cache.ProcessCacheActivityProduct | domain/src/main/java/com/ymatou/productprice/domain/cache/Cache.java:401-426 | the step-by-step pipeline serves and leaves the cache exactly as the corrected pipeline specifies |
| LookasideCache.Cache.GetActivityProduct | domain/src/main/java/com/ymatou/productprice/domain/cache/Cache.java:379-393 | a cache miss returns nothing and changes nothing; a hit runs the pipeline, and what is served lies in its window |
| LookasideCache.Cache.GetActivityProductList | domain/src/main/java/com/ymatou/productprice/domain/cache/Cache.java:434-456 | runs the pipeline on each cached promotion among the deduplicated ids, in order, exactly as the batch specifies |
| LookasideCache.Cache.GetPriceRangeListByProduct | domain/src/main/java/com/ymatou/productprice/domain/cache/Cache.java:464-547 | returns, fetches and puts exactly what the price-range reconciler specifies for the deduplicated ids and their cached snapshots |
| LookasideCache.Cache.PutAllMissPriceRanges | domain/src/main/java/com/ymatou/productprice/domain/cache/Cache.java:481-487 | the all-miss branch puts the fetched records under their product ids, or throws before putting when one is null |
| LookasideCache.Cache.PutPartialPriceRanges | domain/src/main/java/com/ymatou/productprice/domain/cache/Cache.java:489-544 | the partial branch returns, fetches and puts exactly what the price-range reconciler specifies, keeping the product space keyed |

## Left out

- The internals of the cache manager are not part of this model: eviction, `getCacheStats`,
  and the orchestration inside the single-product `cacheManager.get(key, loader, validator,
  merger)`. `getCatalogListByProduct(String, Date)` is modelled only through its validator
  (`Catalogs.SingleProductValid`) and its merger (`Catalogs.MergeSingle`).
- The repository (`MongoRepository`) is not part of this model. Its queries, its parallel
  fan-out and its price formatting are replaced by function parameters from ids to
  records.
- Logging, JSON serialisation and Spring wiring are left out: they do not affect a result.
- Prices are doubles the cache layer never inspects. They are opaque `real` fields.
- The Java code shares mutable `ProductPriceData` objects between the cache and the
  batches it builds, and changes them with `setCatalogList`. The model uses values and
  builds a new snapshot instead. On the success path the two agree:
  `LookasideCache.WriteBackUpdatesFoundEntry` shows that, under `Cache.Valid`, a snapshot
  the scan finds is the cached entry itself and only its list changes.
- Catalogs.FindSnapshot: `ProductPriceData.getProductId()` is not visible and is read as a
  stored field, unset unless the record was built with one. If the unseen class derived
  it (from its catalogs, say), the catalog write-back would succeed where the model throws.
- LookasideCache.Cache.UpdateCacheData: when the scan throws part way (`Cache.java:171`),
  the Java code has already changed the lists of the groups visited before, in the cached
  objects themselves. The model leaves the product space unchanged on that path, so this
  partial in-place update is not captured.
- `Catalog.productId`, `Catalog.catalogId` and `ActivityProduct.productId` are plain non-null
  strings. A null one, on which `groupingBy` (`Cache.java:121`, `264`) or the stamp lookup
  (`Cache.java:149`) would throw, is not modelled.
- On the catalog path, `cacheManager.get(list).values()` (`Cache.java:294-297`, `317-320`) is
  assumed to hold no null. The price-range and activity paths drop nulls explicitly
  (`Cache.java:479`, `444`), and the model does too.
- LookasideCache.Present: the order of `cacheManager.get(list).values()` (`Cache.java:294`,
  `317`, `474`) and of `cacheManager.getActivityProduct(list)` (`Cache.java:442`) is not
  visible. Both are taken to be the request order of the ids that are present.
- LookasideCache.Cache.InitActivityProductCache: `putActivityProduct(map)` is modelled as a
  merge into the activity space. Whether the unseen cache manager first clears the space
  is not modelled.
- PriceRanges.ByProductMap: a put whose batch has a null product id is modelled as an
  error. This assumes the unseen cache manager refuses null keys.
- Catalogs.NewSnapshots: states which catalogs each new snapshot holds, not their order.
  The order is pinned by `Catalogs.GroupByProduct`.
- AllCatalogs: its own contract fixes membership and the one-snapshot case. The order and
  multiplicity across snapshots are stated by `Catalogs.AllCatalogsConcat`.
- NonNull: its own contract fixes membership and order. The multiplicity of each value is
  stated by `Streams.NonNullCounts`.
- `ActivityProduct` stamps and windows are non-null `int`s. A record with a null `Date`,
  which the Java code would dereference, is not modelled.
- `Long` stamps are unbounded `int`s. The code only compares them, so no overflow can arise.
- A `null` argument list or map from the caller is not modelled.
- Concurrent readers of the same entry are not modelled: every call runs alone.

## Findings

| source | as written | input that shows it | evidently intended | confidence | as-written member | corrected member |
|---|---|---|---|---|---|---|
| domain/src/main/java/com/ymatou/productprice/domain/cache/Cache.java:407-419 | when the reload of a stale promotion returns null, `activityProduct` becomes null but the old window is kept; if that window has ended, `activityProduct.getProductId()` throws a NullPointerException | cached promotion P with window 0..10 and stamp 5, reference stamp 6, `now` 20, and a repository that no longer has P | with the old window expired, delete P's cache entry and return null | not executed | Activities.ActivityPipelineAsWritten | Activities.ActivityPipeline |
