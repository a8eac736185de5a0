/** The price-range reconciler of `Cache.java` (`getPriceRangeListByProduct`): the
    freshness split with its own null defaults, the reload set by product id, the splice
    that keeps a stale snapshot's catalogs on its reload, and the write-back. */
module PriceRanges {
  import opened Values
  import opened Streams

  /** The reference stamp of a snapshot's product: a missing entry, or a null product id,
      reads as 0. */
  function RefStamp(refs: map<string, int>, pid: Option<string>): int
  {
    if pid.Some? && pid.value in refs then refs[pid.value] else 0
  }

  /** The validity test of the partial path: the cached stamp, null read as `now`, equals
      the reference stamp, missing read as 0. */
  predicate PriceRangeFresh(s: Snapshot, refs: map<string, int>, now: int)
  {
    s.updateTime.GetOr(now) == RefStamp(refs, s.productId)
  }

  /** The two defaults pull in opposite directions: a snapshot without a stamp is fresh
      exactly when the reference is `now`, and a product without a reference is fresh
      exactly when its stamp (or `now`) is 0. */
  lemma AsymmetricDefaults(s: Snapshot, refs: map<string, int>, now: int)
    ensures s.updateTime.None? ==> (PriceRangeFresh(s, refs, now) <==> RefStamp(refs, s.productId) == now)
    ensures (s.productId.None? || s.productId.value !in refs) ==>
              (PriceRangeFresh(s, refs, now) <==> s.updateTime.GetOr(now) == 0)
    ensures s.updateTime.None? && (s.productId.None? || s.productId.value !in refs) ==>
              (PriceRangeFresh(s, refs, now) <==> now == 0)
  {
  }

  /** `validProductPriceDataList`: the fresh cached snapshots, in order. */
  function ValidPriceRanges(cached: seq<Snapshot>, refs: map<string, int>, now: int): (r: seq<Snapshot>)
    ensures IsSubsequence(r, cached)
    ensures forall s :: s in r <==> s in cached && PriceRangeFresh(s, refs, now)
  {
    Filter(cached, (s: Snapshot) => PriceRangeFresh(s, refs, now))
  }

  /** `invalidProductPriceDataList`: the cached snapshots minus the valid ones. */
  function InvalidPriceRanges(cached: seq<Snapshot>, refs: map<string, int>, now: int): (r: seq<Snapshot>)
    ensures IsSubsequence(r, cached)
    ensures forall s :: s in r <==> s in cached && !PriceRangeFresh(s, refs, now)
  {
    RemoveAll(cached, ValidPriceRanges(cached, refs, now))
  }

  /** Valid and invalid split the cached snapshots: together they hold every cached
      snapshot exactly as often as the cache returned it. */
  lemma ValidInvalidPartition(cached: seq<Snapshot>, refs: map<string, int>, now: int)
    ensures multiset(ValidPriceRanges(cached, refs, now)) + multiset(InvalidPriceRanges(cached, refs, now)) == multiset(cached)
  {
  }

  /** `validProductIdList`: the product ids of the valid snapshots, nulls included. */
  function ValidIds(valid: seq<Snapshot>): seq<Option<string>>
  {
    seq(|valid|, i requires 0 <= i < |valid| => valid[i].productId)
  }

  /** `needReloadProductIdList`: the requested ids no valid snapshot carries, in request order. */
  function ReloadProductIds(ids: seq<string>, valid: seq<Snapshot>): (r: seq<string>)
    ensures IsSubsequence(r, ids)
    ensures forall x :: x in r <==> x in ids && forall s :: s in valid ==> s.productId != Some(x)
  {
    forall x | Some(x) in ValidIds(valid) ensures exists s :: s in valid && s.productId == Some(x) {
      var i :| 0 <= i < |valid| && ValidIds(valid)[i] == Some(x);
      assert valid[i] in valid;
    }
    forall s | s in valid && s.productId.Some? ensures s.productId in ValidIds(valid) {
      var i :| 0 <= i < |valid| && valid[i] == s;
      assert ValidIds(valid)[i] == s.productId;
    }
    Filter(ids, (x: string) => Some(x) !in ValidIds(valid))
  }

  /** The `findAny` of the splice: the first stale snapshot whose product id, null read as
      the empty string, equals `pid`; a null `pid` matches nothing. */
  function RetainedFor(invalid: seq<Snapshot>, pid: Option<string>): (r: Option<Snapshot>)
    ensures r.Some? ==> r.value in invalid && Some(r.value.productId.GetOr("")) == pid
    ensures r.None? <==> forall z :: z in invalid ==> Some(z.productId.GetOr("")) != pid
    decreases |invalid|
  {
    if invalid == [] then None
    else if Some(invalid[0].productId.GetOr("")) == pid then Some(invalid[0])
    else
      var r := RetainedFor(invalid[1..], pid);
      assert forall z :: z in invalid ==> z == invalid[0] || z in invalid[1..];
      r
  }

  /** One reloaded snapshot after the splice: it takes the matching stale snapshot's
      `catalogList` when there is one. */
  function Splice(x: Snapshot, invalid: seq<Snapshot>): (r: Snapshot)
    ensures r == x.(catalogList := r.catalogList)
    ensures (forall z :: z in invalid ==> Some(z.productId.GetOr("")) != x.productId) ==> r == x
    ensures (exists z :: z in invalid && Some(z.productId.GetOr("")) == x.productId) ==>
              exists z :: z in invalid && Some(z.productId.GetOr("")) == x.productId && r.catalogList == z.catalogList
  {
    match RetainedFor(invalid, x.productId)
    case Some(z) => x.(catalogList := z.catalogList)
    case None => x
  }

  /** Every reloaded snapshot after the splice, in order. */
  function Spliced(reloaded: seq<Snapshot>, invalid: seq<Snapshot>): (r: seq<Snapshot>)
    ensures |r| == |reloaded|
    ensures forall i :: 0 <= i < |reloaded| ==> r[i] == reloaded[i].(catalogList := r[i].catalogList)
  {
    seq(|reloaded|, i requires 0 <= i < |reloaded| => Splice(reloaded[i], invalid))
  }

  /** Catalog retention: a spliced snapshot is its reload with at most the catalog list
      changed, and the list is that of a stale cached snapshot of the same product exactly
      when there is one. */
  lemma SpliceRetainsCatalogs(reloaded: seq<Snapshot>, invalid: seq<Snapshot>, i: int)
    requires 0 <= i < |reloaded|
    ensures var x, y := reloaded[i], Spliced(reloaded, invalid)[i];
            && y == x.(catalogList := y.catalogList)
            && ((exists z :: z in invalid && x.productId == Some(z.productId.GetOr(""))) ==>
                  exists z :: z in invalid && x.productId == Some(z.productId.GetOr("")) && y.catalogList == z.catalogList)
            && ((forall z :: z in invalid ==> x.productId != Some(z.productId.GetOr(""))) ==> y == x)
  {
  }

  /** The `forEach` of the splice: every reloaded snapshot, in order, takes the catalog
      list of the first stale snapshot for its product, found by a linear scan. */
  method SpliceRetained(reloaded: seq<Snapshot>, invalid: seq<Snapshot>) returns (r: seq<Snapshot>)
    ensures r == Spliced(reloaded, invalid)
  {
    r := [];
    for i := 0 to |reloaded|
      invariant |r| == i
      invariant forall j :: 0 <= j < i ==> r[j] == Splice(reloaded[j], invalid)
    {
      var x := reloaded[i];
      var k := 0;
      while k < |invalid| && Some(invalid[k].productId.GetOr("")) != x.productId
        invariant 0 <= k <= |invalid|
        invariant RetainedFor(invalid[k..], x.productId) == RetainedFor(invalid, x.productId)
      {
        assert invalid[k..][1..] == invalid[k + 1..];
        k := k + 1;
      }
      if k < |invalid| {
        x := x.(catalogList := invalid[k].catalogList);
      }
      r := r + [x];
    }
  }

  /** Every snapshot carries a product id, as the batch put requires. */
  predicate AllKeyed(xs: seq<Snapshot>)
  {
    forall s :: s in xs ==> s.productId.Some?
  }

  /** `collect(toMap(ProductPriceData::getProductId, y -> y, (k1, k2) -> k2))`. */
  function ByProductMap(xs: seq<Snapshot>): (r: map<string, Snapshot>)
    requires AllKeyed(xs)
    ensures r.Keys == set s | s in xs :: s.productId.value
    ensures forall k :: k in r ==> r[k] in xs && r[k].productId == Some(k)
    ensures forall i :: 0 <= i < |xs| && (forall j :: i < j < |xs| ==> xs[j].productId != xs[i].productId) ==>
              r[xs[i].productId.value] == xs[i]
  {
    assert forall i, j :: 0 <= i < |xs| && 0 <= j < |xs| && xs[j].productId != xs[i].productId ==>
             xs[j].productId.GetOr("") != xs[i].productId.GetOr("") by {
      assert forall i :: 0 <= i < |xs| ==> xs[i] in xs;
    }
    ToMapLastWins(xs, (s: Snapshot) => s.productId.GetOr(""))
  }

  /** The tail of the partial path, once the reloads are spliced: put them by product id,
      then valid followed by spliced; a reload without a product id throws at the put. */
  function PriceRangeWriteBack(valid: seq<Snapshot>, sp: seq<Snapshot>, reload: seq<string>): Run<seq<Snapshot>>
  {
    if AllKeyed(sp) then Run(Ok(valid + sp), ByProductMap(sp), ByProductIds(reload))
    else Run(Err(NullReference), map[], ByProductIds(reload))
  }

  /** The all-miss path, once the repository has answered `fetched` for every requested
      id: a null record or a null product id throws at the put. */
  function PriceRangeAllMissRun(ids: seq<string>, fetched: seq<Option<Snapshot>>): (r: Run<seq<Snapshot>>)
    ensures r.call == ByProductIds(ids)
    ensures r.outcome.Ok? <==> forall i :: 0 <= i < |fetched| ==> fetched[i].Some? && fetched[i].value.productId.Some?
    ensures r.outcome.Err? ==> r.outcome.error == NullReference && r.writes == map[]
    ensures forall k :: k in r.writes ==> r.writes[k].productId == Some(k)
  {
    var rs := NonNull(fetched);
    if (forall i :: 0 <= i < |fetched| ==> fetched[i].Some?) && AllKeyed(rs) then
      Run(Ok(rs), ByProductMap(rs), ByProductIds(ids))
    else Run(Err(NullReference), map[], ByProductIds(ids))
  }

  /** `getPriceRangeListByProduct` after deduplication and the cache lookup: what it
      returns, puts and fetches. `ids` are the deduplicated requested ids, `cached` the
      snapshots the cache holds for them. */
  function ReconcilePriceRanges(
    ids: seq<string>, cached: seq<Snapshot>, refs: map<string, int>, now: int,
    byProductIds: seq<string> -> seq<Option<Snapshot>>): (r: Run<seq<Snapshot>>)
    ensures r.call.ByProductIds?
    ensures cached == [] ==> r.call.productIds == ids
    ensures r.outcome.Err? ==> r.outcome.error == NullReference && r.writes == map[]
    ensures forall k :: k in r.writes ==> r.writes[k].productId == Some(k)
  {
    if cached == [] then PriceRangeAllMissRun(ids, byProductIds(ids))
    else
      var valid := ValidPriceRanges(cached, refs, now);
      var reload := ReloadProductIds(ids, valid);
      PriceRangeWriteBack(valid, Spliced(NonNull(byProductIds(reload)), InvalidPriceRanges(cached, refs, now)), reload)
  }

  /** With nothing cached, the reconciler is the all-miss path on the fetch of every id. */
  lemma AllMissUnfolds(ids: seq<string>, refs: map<string, int>, now: int,
                       byProductIds: seq<string> -> seq<Option<Snapshot>>)
    ensures ReconcilePriceRanges(ids, [], refs, now, byProductIds) == PriceRangeAllMissRun(ids, byProductIds(ids))
  {
  }

  /** The splice keeps product ids: the spliced reloads carry exactly the reloads' ids. */
  lemma SplicedProductIds(reloaded: seq<Snapshot>, invalid: seq<Snapshot>)
    ensures AllKeyed(Spliced(reloaded, invalid)) <==> AllKeyed(reloaded)
    ensures AllKeyed(reloaded) ==>
              (set s | s in Spliced(reloaded, invalid) :: s.productId.value) == (set s | s in reloaded :: s.productId.value)
  {
    var sp := Spliced(reloaded, invalid);
    assert forall i :: 0 <= i < |reloaded| ==> sp[i].productId == reloaded[i].productId;
    assert forall s :: s in reloaded ==> exists i :: 0 <= i < |reloaded| && reloaded[i] == s;
    assert forall s :: s in sp ==> exists i :: 0 <= i < |sp| && sp[i] == s;
  }

  /** All-miss path: the repository is asked for every requested id; the result is its
      answer, one put entry per product id, and a null record or a null product id throws. */
  lemma PriceRangeAllMiss(ids: seq<string>, refs: map<string, int>, now: int,
                          byProductIds: seq<string> -> seq<Option<Snapshot>>)
    ensures var run := ReconcilePriceRanges(ids, [], refs, now, byProductIds);
            var fetched := byProductIds(ids);
            && run.call == ByProductIds(ids)
            && (run.outcome.Ok? <==> forall i :: 0 <= i < |fetched| ==> fetched[i].Some? && fetched[i].value.productId.Some?)
            && (run.outcome.Ok? ==>
                  && |run.outcome.value| == |fetched|
                  && (forall i :: 0 <= i < |fetched| ==> fetched[i] == Some(run.outcome.value[i]))
                  && run.writes.Keys == (set s | s in run.outcome.value :: s.productId.value))
  {
  }

  /** Partial path, the repository side: it is always asked, with exactly the requested
      ids that no valid snapshot carries, so no valid product is re-fetched. */
  lemma PriceRangeReloadSet(ids: seq<string>, cached: seq<Snapshot>, refs: map<string, int>, now: int,
                            byProductIds: seq<string> -> seq<Option<Snapshot>>)
    requires cached != []
    ensures var run := ReconcilePriceRanges(ids, cached, refs, now, byProductIds);
            && run.call.ByProductIds?
            && IsSubsequence(run.call.productIds, ids)
            && forall x :: x in run.call.productIds <==>
                 x in ids && forall s :: s in cached && PriceRangeFresh(s, refs, now) ==> s.productId != Some(x)
  {
  }

  /** Partial path, the caller and cache sides: the result is the valid snapshots then the
      spliced reloads, each valid one fresh; only product ids of reloaded snapshots are put,
      each with a spliced reload of its own. */
  lemma PriceRangePartialResult(ids: seq<string>, cached: seq<Snapshot>, refs: map<string, int>, now: int,
                                byProductIds: seq<string> -> seq<Option<Snapshot>>)
    requires cached != []
    ensures var run := ReconcilePriceRanges(ids, cached, refs, now, byProductIds);
            var valid := ValidPriceRanges(cached, refs, now);
            var reloaded := NonNull(byProductIds(run.call.productIds));
            var sp := Spliced(reloaded, InvalidPriceRanges(cached, refs, now));
            && (run.outcome.Ok? <==> AllKeyed(reloaded))
            && (run.outcome.Ok? ==>
                  && run.outcome.value == valid + sp
                  && (forall s :: s in valid ==> s in cached && PriceRangeFresh(s, refs, now))
                  && run.writes.Keys == (set s | s in reloaded :: s.productId.value)
                  && forall k :: k in run.writes ==> run.writes[k] in sp && run.writes[k].productId == Some(k))
  {
    var run := ReconcilePriceRanges(ids, cached, refs, now, byProductIds);
    var valid := ValidPriceRanges(cached, refs, now);
    var reload := ReloadProductIds(ids, valid);
    var reloaded := NonNull(byProductIds(reload));
    var sp := Spliced(reloaded, InvalidPriceRanges(cached, refs, now));
    assert run == PriceRangeWriteBack(valid, sp, reload);
    SplicedProductIds(reloaded, InvalidPriceRanges(cached, refs, now));
  }

  /** The partial path of `getPriceRangeListByProduct` step by step: split, reload, splice
      by scan, then the result, the call and the batch to put; the batch is keyed by the
      snapshots' own product ids. */
  method PartialPath(ids: seq<string>, cached: seq<Snapshot>, refs: map<string, int>, now: int,
                     byProductIds: seq<string> -> seq<Option<Snapshot>>)
    returns (run: Run<seq<Snapshot>>)
    requires cached != []
    ensures run == ReconcilePriceRanges(ids, cached, refs, now, byProductIds)
    ensures forall k :: k in run.writes ==> run.writes[k].productId == Some(k)
  {
    var valid := ValidPriceRanges(cached, refs, now);
    var invalid := InvalidPriceRanges(cached, refs, now);
    var reload := ReloadProductIds(ids, valid);
    var reloaded := NonNull(byProductIds(reload));
    var spliced := SpliceRetained(reloaded, invalid);
    assert ReconcilePriceRanges(ids, cached, refs, now, byProductIds) == PriceRangeWriteBack(valid, spliced, reload);
    if !AllKeyed(spliced) {
      return Run(Err(NullReference), map[], ByProductIds(reload));
    }
    return Run(Ok(valid + spliced), ByProductMap(spliced), ByProductIds(reload));
  }
}
