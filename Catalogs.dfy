/** The catalog reconciler of `Cache.java`: the freshness filter, the reload set, the
    group-by that (re)builds per-product snapshots, the single-product validator and
    merger, and the whole batch reconciliation (`processProductPriceDataCacheList`). */
module Catalogs {
  import opened Values
  import opened Streams

  /** The catalog ids of `cs`, in order (`map(Catalog::getCatalogId)`). */
  function CatalogIds(cs: seq<Catalog>): seq<string>
  {
    seq(|cs|, i requires 0 <= i < |cs| => cs[i].catalogId)
  }

  lemma CatalogIdsMembership(cs: seq<Catalog>)
    ensures forall x :: x in CatalogIds(cs) <==> exists c :: c in cs && c.catalogId == x
  {
    forall x | x in CatalogIds(cs) ensures exists c :: c in cs && c.catalogId == x {
      var i :| 0 <= i < |cs| && CatalogIds(cs)[i] == x;
      assert cs[i] in cs;
    }
    forall x | exists c :: c in cs && c.catalogId == x ensures x in CatalogIds(cs) {
      var c :| c in cs && c.catalogId == x;
      var i :| 0 <= i < |cs| && cs[i] == c;
      assert CatalogIds(cs)[i] == x;
    }
  }

  /** The products the catalogs in `cs` belong to. */
  function ProductIds(cs: seq<Catalog>): set<string>
  {
    set c | c in cs :: c.productId
  }

  /** The catalogs of product `pid`, in the order of `cs`. */
  function OfProduct(cs: seq<Catalog>, pid: string): (r: seq<Catalog>)
    ensures forall c :: c in r <==> c in cs && c.productId == pid
    ensures (forall c :: c in cs ==> c.productId != pid) ==> r == []
    decreases |cs|
  {
    if cs == [] then []
    else
      var init, last := cs[..|cs| - 1], cs[|cs| - 1];
      assert cs == init + [last];
      var o := OfProduct(init, pid);
      if last.productId == pid then o + [last] else o
  }

  /** Appending a catalog extends its own product's list and no other. */
  lemma OfProductAppend(init: seq<Catalog>, last: Catalog, k: string)
    ensures OfProduct(init + [last], k) == OfProduct(init, k) + (if last.productId == k then [last] else [])
  {
  }

  /** `cs.stream().collect(groupingBy(Catalog::getProductId))`: one group per product,
      holding exactly that product's catalogs in their original order. */
  function GroupByProduct(cs: seq<Catalog>): (r: map<string, seq<Catalog>>)
    ensures r.Keys == ProductIds(cs)
    ensures forall k :: k in r ==> r[k] == OfProduct(cs, k)
    decreases |cs|
  {
    if cs == [] then map[]
    else
      var init, last := cs[..|cs| - 1], cs[|cs| - 1];
      assert cs == init + [last];
      var g := GroupByProduct(init);
      var r := g[last.productId := (if last.productId in g then g[last.productId] else []) + [last]];
      assert ProductIds(cs) == ProductIds(init) + {last.productId};
      forall k | k in r ensures r[k] == OfProduct(cs, k) {
        OfProductAppend(init, last, k);
        if k !in g {
          assert forall c :: c in init ==> c.productId != k;
        }
      }
      r
  }

  /** Every group of `GroupByProduct` is non-empty and holds only, and all of, the
      catalogs of its own product. */
  lemma {:induction false} GroupsArePerProduct(cs: seq<Catalog>, k: string)
    requires k in GroupByProduct(cs)
    ensures GroupByProduct(cs)[k] != []
    ensures forall c :: c in GroupByProduct(cs)[k] <==> c in cs && c.productId == k
  {
  }

  /** Every catalog of `cs` has a reference stamp for its product; `filterValidCacheData`
      dereferences the stamp map's entry unguarded. */
  predicate Covers(ref: map<string, int>, cs: seq<Catalog>)
  {
    forall c :: c in cs ==> c.productId in ref
  }

  /** `filterValidCacheData`: keeps exactly the catalogs whose stamp, null read as 0,
      equals their product's reference stamp, in their original order. */
  function FilterValid(cs: seq<Catalog>, ref: map<string, int>): (r: seq<Catalog>)
    requires Covers(ref, cs)
    ensures IsSubsequence(r, cs)
    ensures forall c :: c in r <==> c in cs && c.updateTime.GetOr(0) == ref[c.productId]
    ensures forall c :: multiset(r)[c] == if c in cs && c.updateTime.GetOr(0) == ref[c.productId] then multiset(cs)[c] else 0
  {
    Filter(cs, (c: Catalog) => c.productId in ref && c.updateTime.GetOr(0) == ref[c.productId])
  }

  /** The reload set of the partial-hit path: the cached catalog ids minus the ids of
      valid catalogs. An id is reloaded iff it is cached and every cached copy of it is stale. */
  function ReloadIds(cs: seq<Catalog>, ref: map<string, int>): (r: seq<string>)
    requires Covers(ref, cs)
    ensures IsSubsequence(r, CatalogIds(cs))
    ensures forall x :: x in r <==>
              && (exists c :: c in cs && c.catalogId == x)
              && (forall c :: c in cs && c.catalogId == x ==> c.updateTime.GetOr(0) != ref[c.productId])
    ensures forall x :: multiset(r)[x] == if x in r then multiset(CatalogIds(cs))[x] else 0
  {
    var valid := FilterValid(cs, ref);
    CatalogIdsMembership(cs);
    CatalogIdsMembership(valid);
    RemoveAll(CatalogIds(cs), Distinct(CatalogIds(valid)))
  }

  /** The snapshot `createNewCacheData` builds for one group: only `catalogList` is set. */
  function GroupSnapshot(group: seq<Catalog>): Snapshot
  {
    EmptySnapshot.(catalogList := Some(group))
  }

  /** `createNewCacheData`'s batch: one snapshot per distinct product id, holding exactly
      that product's catalogs; no other field set. */
  function NewSnapshots(cs: seq<Catalog>): (r: map<string, Snapshot>)
    ensures r.Keys == ProductIds(cs)
    ensures forall k :: k in r ==>
              && r[k].catalogList.Some? && r[k].catalogList.value != []
              && (forall c :: c in r[k].catalogList.value <==> c in cs && c.productId == k)
              && r[k].productId.None? && r[k].sellerId.None? && r[k].updateTime.None? && r[k].priceRange.None?
  {
    var g := GroupByProduct(cs);
    forall k | k in g
      ensures g[k] != [] && forall c :: c in g[k] <==> c in cs && c.productId == k
    {
      GroupsArePerProduct(cs, k);
    }
    map k | k in g :: GroupSnapshot(g[k])
  }

  /** All catalogs of the cached snapshots, snapshot after snapshot; `None` when some
      snapshot has a null `catalogList` (the `forEach` there throws). */
  function AllCatalogs(snaps: seq<Snapshot>): (r: Option<seq<Catalog>>)
    ensures r.Some? <==> forall s :: s in snaps ==> s.catalogList.Some?
    ensures r.Some? ==> forall c :: c in r.value <==>
              exists s :: s in snaps && s.catalogList.Some? && c in s.catalogList.value
    ensures |snaps| == 1 ==> r == snaps[0].catalogList
    decreases |snaps|
  {
    if snaps == [] then Some([])
    else
      var init, last := snaps[..|snaps| - 1], snaps[|snaps| - 1];
      assert snaps == init + [last];
      match AllCatalogs(init)
      case None => None
      case Some(cs) =>
        match last.catalogList
        case None => None
        case Some(cl) =>
          assert init == [] ==> cs + cl == cl;
          Some(cs + cl)
  }

  /** Collecting is concatenation, snapshot after snapshot: the catalogs of `a + b` are
      those of `a` followed by those of `b`, and collecting throws iff it throws on either. */
  lemma {:induction false} AllCatalogsConcat(a: seq<Snapshot>, b: seq<Snapshot>)
    ensures AllCatalogs(a + b) ==
              if AllCatalogs(a).Some? && AllCatalogs(b).Some? then Some(AllCatalogs(a).value + AllCatalogs(b).value)
              else None
    decreases |b|
  {
    if b == [] {
      assert a + b == a;
      assert AllCatalogs(b) == Some([]);
      if AllCatalogs(a).Some? {
        assert AllCatalogs(a).value + [] == AllCatalogs(a).value;
      }
    } else {
      var init, last := b[..|b| - 1], b[|b| - 1];
      assert a + b == (a + init) + [last];
      assert (a + b)[..|a + b| - 1] == a + init;
      AllCatalogsConcat(a, init);
      if AllCatalogs(a).Some? && AllCatalogs(init).Some? && last.catalogList.Some? {
        assert AllCatalogs(a).value + AllCatalogs(init).value + last.catalogList.value
            == AllCatalogs(a).value + (AllCatalogs(init).value + last.catalogList.value);
      }
    }
  }

  /** The nested `forEach` of the partial-hit path: collects every cached catalog and its id. */
  method CollectCachedCatalogs(snaps: seq<Snapshot>) returns (ok: bool, catalogs: seq<Catalog>, ids: seq<string>)
    ensures ok <==> forall s :: s in snaps ==> s.catalogList.Some?
    ensures ok ==> AllCatalogs(snaps) == Some(catalogs) && ids == CatalogIds(catalogs)
  {
    catalogs, ids := [], [];
    var i := 0;
    while i < |snaps|
      invariant 0 <= i <= |snaps|
      invariant AllCatalogs(snaps[..i]) == Some(catalogs)
      invariant ids == CatalogIds(catalogs)
    {
      assert snaps[..i + 1][..i] == snaps[..i];
      match snaps[i].catalogList {
        case None =>
          assert snaps[i] in snaps;
          return false, catalogs, ids;
        case Some(cl) =>
          ghost var base := catalogs;
          var j := 0;
          while j < |cl|
            invariant 0 <= j <= |cl|
            invariant catalogs == base + cl[..j]
            invariant ids == CatalogIds(catalogs)
          {
            assert cl[..j + 1] == cl[..j] + [cl[j]];
            catalogs := catalogs + [cl[j]];
            ids := ids + [cl[j].catalogId];
            j := j + 1;
          }
          assert cl[..j] == cl;
      }
      i := i + 1;
    }
    assert snaps[..i] == snaps;
    ok := true;
  }

  /** The result of looking a product id up among the cached snapshots with
      `filter(xx -> xx.getProductId().equals(key)).findAny()`. */
  datatype Lookup = Found(snapshot: Snapshot) | Absent | NullKey

  /** Some snapshot with a null product id comes before every snapshot whose id is `pid`. */
  predicate NullBeforeMatch(snaps: seq<Snapshot>, pid: string)
  {
    exists i :: 0 <= i < |snaps| && snaps[i].productId.None? &&
                forall j :: 0 <= j < i ==> snaps[j].productId != Some(pid)
  }

  /** `s` is reached by the scan: it sits after snapshots whose ids are all set and not `pid`. */
  predicate FirstReached(snaps: seq<Snapshot>, pid: string, s: Snapshot)
  {
    exists i :: 0 <= i < |snaps| && snaps[i] == s &&
                forall j :: 0 <= j < i ==> snaps[j].productId.Some? && snaps[j].productId != Some(pid)
  }

  /** Stepping past a snapshot keyed by another product changes neither what comes first. */
  lemma ScanStep(snaps: seq<Snapshot>, pid: string, s: Snapshot)
    requires snaps != [] && snaps[0].productId.Some? && snaps[0].productId != Some(pid)
    ensures NullBeforeMatch(snaps, pid) <==> NullBeforeMatch(snaps[1..], pid)
    ensures FirstReached(snaps[1..], pid, s) ==> FirstReached(snaps, pid, s)
  {
    if NullBeforeMatch(snaps, pid) {
      var i :| 0 <= i < |snaps| && snaps[i].productId.None? &&
               forall j :: 0 <= j < i ==> snaps[j].productId != Some(pid);
      assert snaps[1..][i - 1] == snaps[i];
    }
    if NullBeforeMatch(snaps[1..], pid) {
      var i :| 0 <= i < |snaps[1..]| && snaps[1..][i].productId.None? &&
               forall j :: 0 <= j < i ==> snaps[1..][j].productId != Some(pid);
      assert forall j :: 0 < j <= i ==> snaps[j] == snaps[1..][j - 1];
    }
    if FirstReached(snaps[1..], pid, s) {
      var i :| 0 <= i < |snaps[1..]| && snaps[1..][i] == s &&
               forall j :: 0 <= j < i ==> snaps[1..][j].productId.Some? && snaps[1..][j].productId != Some(pid);
      assert forall j :: 0 < j <= i ==> snaps[j] == snaps[1..][j - 1];
      assert snaps[i + 1] == s;
    }
  }

  /** The scan of `updateCacheData`: the first snapshot whose product id is `pid`;
      reaching a snapshot with a null product id first throws. */
  function FindSnapshot(snaps: seq<Snapshot>, pid: string): (r: Lookup)
    ensures r.Found? ==> r.snapshot in snaps && r.snapshot.productId == Some(pid)
    ensures r.Absent? <==> forall s :: s in snaps ==> s.productId.Some? && s.productId != Some(pid)
    ensures r.NullKey? ==> exists s :: s in snaps && s.productId.None?
    ensures r.NullKey? <==> NullBeforeMatch(snaps, pid)
    ensures r.Found? ==> FirstReached(snaps, pid, r.snapshot)
    decreases |snaps|
  {
    if snaps == [] then Absent
    else if snaps[0].productId.None? then NullKey
    else if snaps[0].productId == Some(pid) then Found(snaps[0])
    else
      var r := FindSnapshot(snaps[1..], pid);
      assert forall s :: s in snaps ==> s == snaps[0] || s in snaps[1..];
      ScanStep(snaps, pid, if r.Found? then r.snapshot else snaps[0]);
      r
  }

  /** One entry of `updateCacheData`'s batch: the cached snapshot (or a new one) with
      its `catalogList` replaced by the reloaded group. */
  function Refresh(l: Lookup, group: seq<Catalog>): (r: Snapshot)
    ensures r.catalogList == Some(group)
    ensures l.Found? ==>
              && r.productId == l.snapshot.productId && r.sellerId == l.snapshot.sellerId
              && r.updateTime == l.snapshot.updateTime && r.priceRange == l.snapshot.priceRange
    ensures !l.Found? ==> r.productId.None? && r.sellerId.None? && r.updateTime.None? && r.priceRange.None?
  {
    match l
    case Found(s) => s.(catalogList := Some(group))
    case _ => EmptySnapshot.(catalogList := Some(group))
  }

  /** `updateCacheData`'s batch, or `None` when its scan throws for some group. */
  function Refreshed(cached: seq<Snapshot>, groups: map<string, seq<Catalog>>): (r: Option<map<string, Snapshot>>)
    ensures r.None? <==> exists k :: k in groups && FindSnapshot(cached, k).NullKey?
    ensures r.Some? ==> r.value.Keys == groups.Keys && forall k :: k in r.value ==> r.value[k].catalogList == Some(groups[k])
  {
    if forall k :: k in groups ==> !FindSnapshot(cached, k).NullKey? then
      Some(map k | k in groups :: Refresh(FindSnapshot(cached, k), groups[k]))
    else None
  }

  /** `updateCacheData`'s batch, when its scan does not throw, has one entry per reloaded
      group: the cached snapshot of that product, or a new one, with exactly the group as list. */
  lemma RefreshedEntries(cached: seq<Snapshot>, groups: map<string, seq<Catalog>>)
    requires Refreshed(cached, groups).Some?
    ensures var batch := Refreshed(cached, groups).value;
            && batch.Keys == groups.Keys
            && forall k :: k in batch ==>
                 && batch[k].catalogList == Some(groups[k])
                 && match FindSnapshot(cached, k)
                    case Found(s) => batch[k] == s.(catalogList := Some(groups[k]))
                    case Absent => batch[k] == EmptySnapshot.(catalogList := Some(groups[k]))
                    case NullKey => false
  {
  }

  /** The tail of the partial-hit path, once the repository has returned the non-null
      catalogs `fetched` for the reload set: write back, then valid followed by reloaded. */
  function WriteBack(cached: seq<Snapshot>, valid: seq<Catalog>, reload: seq<string>, fetched: seq<Catalog>): (r: Run<seq<Catalog>>)
    ensures r.call == ByCatalogIds(reload)
    ensures r.outcome.Err? <==> fetched != [] && Refreshed(cached, GroupByProduct(fetched)).None?
    ensures r.outcome.Ok? ==> r.outcome.value == valid + fetched && r.writes.Keys == ProductIds(fetched)
    ensures r.outcome.Err? ==> r.outcome.error == NullReference && r.writes == map[]
  {
    if fetched == [] then Run(Ok(valid), map[], ByCatalogIds(reload))
    else
      match Refreshed(cached, GroupByProduct(fetched))
      case None => Run(Err(NullReference), map[], ByCatalogIds(reload))
      case Some(batch) => Run(Ok(valid + fetched), batch, ByCatalogIds(reload))
  }

  /** The partial-hit path, given all cached catalogs `cs`. */
  function PartialHit(
    cached: seq<Snapshot>, cs: seq<Catalog>, ref: map<string, int>,
    byCatalogIds: seq<string> -> seq<Option<Catalog>>): (r: Run<seq<Catalog>>)
    requires Covers(ref, cs)
    ensures r.outcome.Ok? ==> FilterValid(cs, ref) <= r.outcome.value
    ensures r.outcome.Err? ==> r.outcome.error == NullReference && r.writes == map[]
    ensures r.call.NoCall? <==> ReloadIds(cs, ref) == []
  {
    var valid := FilterValid(cs, ref);
    var reload := ReloadIds(cs, ref);
    if reload == [] then Run(Ok(valid), map[], NoCall)
    else WriteBack(cached, valid, reload, NonNull(byCatalogIds(reload)))
  }

  /** `processProductPriceDataCacheList`: what the batch reconciliation returns, puts and
      fetches, given the requested ids, the snapshots the cache returned for them, the
      reference stamps and the two repository lookups. */
  function ReconcileCatalogs(
    ids: seq<string>,
    cached: seq<Snapshot>,
    ref: map<string, int>,
    byProductIds: seq<string> -> seq<Catalog>,
    byCatalogIds: seq<string> -> seq<Option<Catalog>>): (r: Run<seq<Catalog>>)
    ensures r.call.ByProductIds? <==> cached == []
    ensures r.call.ByCatalogIds? ==> r.call.catalogIds != []
    ensures r.outcome.Err? ==> r.outcome.error == NullReference && r.writes == map[]
    ensures r.writes != map[] ==> r.outcome.Ok?
  {
    if cached == [] then
      var fetched := byProductIds(ids);
      Run(Ok(fetched), NewSnapshots(fetched), ByProductIds(ids))
    else
      match AllCatalogs(cached)
      case None => Run(Err(NullReference), map[], NoCall)
      case Some(cs) =>
        if Covers(ref, cs) then PartialHit(cached, cs, ref, byCatalogIds)
        else Run(Err(NullReference), map[], NoCall)
  }

  /** All-miss path: the result is exactly the repository fetch for the requested ids, and
      the cache receives one snapshot per distinct product id holding exactly its catalogs. */
  lemma AllMissPath(
    ids: seq<string>, ref: map<string, int>,
    byProductIds: seq<string> -> seq<Catalog>, byCatalogIds: seq<string> -> seq<Option<Catalog>>)
    ensures var run := ReconcileCatalogs(ids, [], ref, byProductIds, byCatalogIds);
            var fetched := byProductIds(ids);
            && run.outcome == Ok(fetched)
            && run.call == ByProductIds(ids)
            && run.writes.Keys == ProductIds(fetched)
            && forall k :: k in run.writes ==>
                 && run.writes[k].catalogList.Some?
                 && (forall c :: c in run.writes[k].catalogList.value <==> c in fetched && c.productId == k)
  {
  }

  /** A cached snapshot with a null list, or a cached catalog without a reference stamp,
      makes the partial-hit path throw before the repository is asked anything. */
  lemma PartialHitNullPaths(
    ids: seq<string>, cached: seq<Snapshot>, ref: map<string, int>,
    byProductIds: seq<string> -> seq<Catalog>, byCatalogIds: seq<string> -> seq<Option<Catalog>>)
    requires cached != []
    requires (exists s :: s in cached && s.catalogList.None?) ||
             (AllCatalogs(cached).Some? && !Covers(ref, AllCatalogs(cached).value))
    ensures ReconcileCatalogs(ids, cached, ref, byProductIds, byCatalogIds) == Run(Err(NullReference), map[], NoCall)
  {
  }

  /** No valid catalog id is ever re-fetched, and a catalog id no cached snapshot holds is
      never asked for: the reload set lies between the cached ids and the valid ones. */
  lemma ReloadSetExcludesValid(cs: seq<Catalog>, ref: map<string, int>)
    requires Covers(ref, cs)
    ensures forall x :: x in ReloadIds(cs, ref) ==> x in CatalogIds(cs) && x !in CatalogIds(FilterValid(cs, ref))
  {
  }

  /** Partial-hit path, the repository side: one batch call by catalog id, with exactly the
      reload set, made only when that set is non-empty. */
  lemma PartialHitCall(
    ids: seq<string>, cached: seq<Snapshot>, cs: seq<Catalog>, ref: map<string, int>,
    byProductIds: seq<string> -> seq<Catalog>, byCatalogIds: seq<string> -> seq<Option<Catalog>>)
    requires cached != [] && AllCatalogs(cached) == Some(cs) && Covers(ref, cs)
    ensures var run := ReconcileCatalogs(ids, cached, ref, byProductIds, byCatalogIds);
            var reload := ReloadIds(cs, ref);
            run.call == if reload == [] then NoCall else ByCatalogIds(reload)
  {
    var run := ReconcileCatalogs(ids, cached, ref, byProductIds, byCatalogIds);
    assert run == PartialHit(cached, cs, ref, byCatalogIds);
  }

  /** Partial-hit path, the caller side: a successful result is the valid cached catalogs
      followed by the non-null reloaded ones, and every catalog served from the cache is fresh. */
  lemma PartialHitResult(
    ids: seq<string>, cached: seq<Snapshot>, cs: seq<Catalog>, ref: map<string, int>,
    byProductIds: seq<string> -> seq<Catalog>, byCatalogIds: seq<string> -> seq<Option<Catalog>>)
    requires cached != [] && AllCatalogs(cached) == Some(cs) && Covers(ref, cs)
    requires ReconcileCatalogs(ids, cached, ref, byProductIds, byCatalogIds).outcome.Ok?
    ensures var run := ReconcileCatalogs(ids, cached, ref, byProductIds, byCatalogIds);
            var valid := FilterValid(cs, ref);
            && run.outcome.value ==
                 valid + (if run.call.ByCatalogIds? then NonNull(byCatalogIds(run.call.catalogIds)) else [])
            && forall c :: c in valid ==> c in cs && c.updateTime.GetOr(0) == ref[c.productId]
  {
    var run := ReconcileCatalogs(ids, cached, ref, byProductIds, byCatalogIds);
    assert run == PartialHit(cached, cs, ref, byCatalogIds);
    var valid, reload := FilterValid(cs, ref), ReloadIds(cs, ref);
    if reload == [] {
      assert run.outcome.value == valid;
    } else {
      var fetched := NonNull(byCatalogIds(reload));
      assert run == WriteBack(cached, valid, reload, fetched);
      assert run.call == ByCatalogIds(reload);
      if fetched == [] {
        assert run.outcome.value == valid + fetched;
      } else {
        assert run.outcome.value == valid + fetched;
      }
    }
  }

  /** Partial-hit path, the cache side: the put touches only product ids of reloaded
      catalogs; each such entry gets exactly its product's reloaded group, on the cached
      snapshot when one was found and on a new one otherwise. */
  lemma PartialHitWriteBack(
    ids: seq<string>, cached: seq<Snapshot>, cs: seq<Catalog>, ref: map<string, int>,
    byProductIds: seq<string> -> seq<Catalog>, byCatalogIds: seq<string> -> seq<Option<Catalog>>)
    requires cached != [] && AllCatalogs(cached) == Some(cs) && Covers(ref, cs)
    requires ReconcileCatalogs(ids, cached, ref, byProductIds, byCatalogIds).writes != map[]
    ensures var run := ReconcileCatalogs(ids, cached, ref, byProductIds, byCatalogIds);
            && run.call.ByCatalogIds?
            && var fetched := NonNull(byCatalogIds(run.call.catalogIds));
               && run.writes.Keys == ProductIds(fetched)
               && forall k :: k in run.writes ==>
                    && run.writes[k].catalogList.Some?
                    && (forall c :: c in run.writes[k].catalogList.value <==> c in fetched && c.productId == k)
                    && match FindSnapshot(cached, k)
                       case Found(s) => run.writes[k] == s.(catalogList := run.writes[k].catalogList)
                       case Absent => run.writes[k] == EmptySnapshot.(catalogList := run.writes[k].catalogList)
                       case NullKey => false
  {
    var reload := ReloadIds(cs, ref);
    var fetched := NonNull(byCatalogIds(reload));
    var groups := GroupByProduct(fetched);
    RefreshedEntries(cached, groups);
    forall k | k in groups
      ensures forall c :: c in groups[k] <==> c in fetched && c.productId == k
    {
      GroupsArePerProduct(fetched, k);
    }
  }

  /** A request for P1, cached with a fresh stamp, and P2, not cached at all: the partial-hit
      path serves P1's cached catalog, asks the repository for nothing and puts nothing, so
      P2 gets no catalogs (its reload would need the full-id lookup the source leaves out). */
  lemma UncachedProductIsNotReloaded(
    byProductIds: seq<string> -> seq<Catalog>, byCatalogIds: seq<string> -> seq<Option<Catalog>>)
    ensures var c1 := Catalog("P1", "C1", 7, CatalogPrices(1.0, 1.0, 1.0), Some(100));
            var s1 := EmptySnapshot.(catalogList := Some([c1]));
            ReconcileCatalogs(["P1", "P2"], [s1], map["P1" := 100, "P2" := 200], byProductIds, byCatalogIds)
              == Run(Ok([c1]), map[], NoCall)
  {
    var c1 := Catalog("P1", "C1", 7, CatalogPrices(1.0, 1.0, 1.0), Some(100));
    var s1 := EmptySnapshot.(catalogList := Some([c1]));
    var ref := map["P1" := 100, "P2" := 200];
    assert [s1][..0] == [];
    assert AllCatalogs([]) == Some([]);
    assert [] + [c1] == [c1];
    assert AllCatalogs([s1]) == Some([c1]);
    assert FilterValid([c1], ref) == [c1];
    assert CatalogIds([c1]) == ["C1"];
    assert ReloadIds([c1], ref) == [];
  }

  /** A write-back over cached snapshots none of which carries a product id throws as
      soon as the reload returns anything: the scan for the first group meets a null id. */
  lemma UnkeyedSnapshotsBlockWriteBack(cached: seq<Snapshot>, valid: seq<Catalog>, reload: seq<string>, fetched: seq<Catalog>)
    requires cached != [] && forall s :: s in cached ==> s.productId.None?
    requires fetched != []
    ensures WriteBack(cached, valid, reload, fetched) == Run(Err(NullReference), map[], ByCatalogIds(reload))
  {
    var k := fetched[0].productId;
    assert k in GroupByProduct(fetched);
    assert cached[0] in cached;
    assert FindSnapshot(cached, k).NullKey?;
  }

  /** The snapshot the all-miss path creates for a single catalog holds just that catalog
      and carries no product id. */
  lemma OneCatalogSnapshot(c: Catalog)
    ensures ProductIds([c]) == {c.productId}
    ensures NewSnapshots([c])[c.productId] == EmptySnapshot.(catalogList := Some([c]))
  {
    assert ProductIds([c]) == {c.productId};
    assert [c][..0] == [];
    assert OfProduct([c], c.productId) == [c];
  }

  /** A single stale catalog is not valid, and its id is the whole reload set. */
  lemma StaleSingletonReloadSet(c: Catalog, ref: map<string, int>)
    requires c.productId in ref && c.updateTime.GetOr(0) != ref[c.productId]
    ensures FilterValid([c], ref) == []
    ensures ReloadIds([c], ref) == [c.catalogId]
  {
    assert FilterValid([c], ref) == [];
    assert CatalogIds([c]) == [c.catalogId];
    assert CatalogIds(FilterValid([c], ref)) == [];
    assert Distinct<string>([]) == [];
  }

  /** One cached snapshot holding one stale catalog: the partial-hit path reloads exactly
      that catalog's id and goes on to the write-back with nothing valid. */
  lemma StaleSingletonReloads(
    ids: seq<string>, s: Snapshot, c: Catalog, ref: map<string, int>,
    byProductIds: seq<string> -> seq<Catalog>, byCatalogIds: seq<string> -> seq<Option<Catalog>>)
    requires s.catalogList == Some([c]) && c.productId in ref && c.updateTime.GetOr(0) != ref[c.productId]
    ensures ReconcileCatalogs(ids, [s], ref, byProductIds, byCatalogIds)
              == WriteBack([s], [], [c.catalogId], NonNull(byCatalogIds([c.catalogId])))
  {
    assert AllCatalogs([s]) == Some([c]);
    StaleSingletonReloadSet(c, ref);
    assert ReconcileCatalogs(ids, [s], ref, byProductIds, byCatalogIds) == PartialHit([s], [c], ref, byCatalogIds);
  }

  /** The snapshots the all-miss path creates carry no product id, so a later stale read
      of one of them fails at the write-back scan once the repository answers: P1's
      snapshot built from catalog C1 (stamp 5) is read against reference 6, C1 is
      reloaded with stamp 6, and nothing is returned or put. */
  lemma OwnSnapshotIsNeverRefreshed(byProductIds: seq<string> -> seq<Catalog>, byCatalogIds: seq<string> -> seq<Option<Catalog>>)
    requires byCatalogIds(["C1"]) == [Some(Catalog("P1", "C1", 7, CatalogPrices(1.0, 1.0, 1.0), Some(6)))]
    ensures var c1 := Catalog("P1", "C1", 7, CatalogPrices(1.0, 1.0, 1.0), Some(5));
            ProductIds([c1]) == {"P1"} &&
            ReconcileCatalogs(["P1"], [NewSnapshots([c1])["P1"]], map["P1" := 6], byProductIds, byCatalogIds)
              == Run(Err(NullReference), map[], ByCatalogIds(["C1"]))
  {
    var c1 := Catalog("P1", "C1", 7, CatalogPrices(1.0, 1.0, 1.0), Some(5));
    var c2 := c1.(updateTime := Some(6));
    OneCatalogSnapshot(c1);
    var s1 := NewSnapshots([c1])["P1"];
    StaleSingletonReloads(["P1"], s1, c1, map["P1" := 6], byProductIds, byCatalogIds);
    assert NonNull([Some(c2)]) == [c2] by {
      assert [Some(c2)][..0] == [];
    }
    UnkeyedSnapshotsBlockWriteBack([s1], [], ["C1"], [c2]);
  }

  /** The validator lambda of the single-product lookup: a cached snapshot is accepted only
      if it exists, its list is non-empty and every stamp, null read as 0, equals `stamp`. */
  predicate SingleProductValid(data: Option<Snapshot>, stamp: int)
  {
    && data.Some?
    && data.value.catalogList.Some?
    && data.value.catalogList.value != []
    && forall c :: c in data.value.catalogList.value ==> c.updateTime.GetOr(0) == stamp
  }

  /** The merger lambda of the single-product lookup: a reload replaces the cached
      snapshot's list; with nothing cached it builds a snapshot from a non-empty reload
      and otherwise throws. */
  function MergeSingle(productId: string, data: Option<Snapshot>, loaded: Option<seq<Catalog>>): (r: Result<Snapshot>)
    ensures r.Err? <==> data.None? && (loaded.None? || loaded.value == [])
    ensures r.Err? ==> r.error == CatalogMissing(productId)
    ensures r.Ok? ==> r.value.catalogList == loaded
    ensures data.Some? ==>
              && r.value.productId == data.value.productId
              && r.value.sellerId == data.value.sellerId
              && r.value.updateTime == data.value.updateTime
              && r.value.priceRange == data.value.priceRange
    ensures data.None? && r.Ok? ==>
              && r.value.productId.None? && r.value.updateTime.None? && r.value.priceRange.None?
              && exists c :: c in loaded.value && r.value.sellerId == Some(c.sellerId)
  {
    match data
    case None =>
      if loaded.Some? && loaded.value != [] then
        Ok(EmptySnapshot.(sellerId := Some(loaded.value[0].sellerId), catalogList := loaded))
      else Err(CatalogMissing(productId))
    case Some(s) => Ok(s.(catalogList := loaded))
  }

  /** The single-product validator agrees with the batch freshness filter: a snapshot of
      one product is accepted iff its list is non-empty and the filter keeps all of it. */
  lemma SingleAgreesWithBatchFilter(pid: string, s: Snapshot, stamp: int)
    requires s.catalogList.Some?
    requires forall c :: c in s.catalogList.value ==> c.productId == pid
    ensures Covers(map[pid := stamp], s.catalogList.value)
    ensures SingleProductValid(Some(s), stamp) <==>
              s.catalogList.value != [] && FilterValid(s.catalogList.value, map[pid := stamp]) == s.catalogList.value
  {
  }

  /** A reload whose catalogs all carry the reference stamp yields a snapshot the
      validator accepts, whether or not a snapshot was cached. */
  lemma ReloadedSnapshotIsValid(pid: string, data: Option<Snapshot>, loaded: seq<Catalog>, stamp: int)
    requires loaded != []
    requires forall c :: c in loaded ==> c.updateTime.GetOr(0) == stamp
    ensures MergeSingle(pid, data, Some(loaded)).Ok?
    ensures SingleProductValid(Some(MergeSingle(pid, data, Some(loaded)).value), stamp)
  {
  }

  /** Idempotent reload: merging a snapshot's own list back leaves it unchanged. */
  lemma ReloadOfSameListIsIdentity(pid: string, s: Snapshot)
    ensures MergeSingle(pid, Some(s), s.catalogList) == Ok(s)
  {
  }
}
