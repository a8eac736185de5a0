/** The records the price service caches and the outcomes of its reconcilers.
    Java `null` is `None`; a `Date` is its millisecond stamp as an `int`. */
module Values {

  datatype Option<+T> = None | Some(value: T) {
    /** `Optional.ofNullable(x).orElse(default)` */
    function GetOr(default: T): T
    {
      match this
      case Some(v) => v
      case None => default
    }
  }

  /** The exceptions a reconciler lets escape to its caller. */
  datatype Error =
    | NullReference                      // a NullPointerException
    | CatalogMissing(productId: string)  // the IllegalArgumentException of the single-product merger

  datatype Result<+T> = Ok(value: T) | Err(error: Error)

  /** The price fields of one SKU; opaque to the cache layer. */
  datatype CatalogPrices = CatalogPrices(quotePrice: real, newCustomerPrice: real, vipPrice: real)

  /** One catalog (SKU) record: `Catalog` in the source. */
  datatype Catalog = Catalog(
    productId: string,
    catalogId: string,
    sellerId: int,
    prices: CatalogPrices,
    updateTime: Option<int>)

  /** The aggregate price bounds a price-range record carries; opaque to the cache layer. */
  datatype PriceRange = PriceRange(minPrice: real, maxPrice: real)

  /** The cached per-product document: `ProductPriceData` in the source. */
  datatype Snapshot = Snapshot(
    productId: Option<string>,
    sellerId: Option<int>,
    catalogList: Option<seq<Catalog>>,
    updateTime: Option<int>,
    priceRange: Option<PriceRange>)

  /** `new ProductPriceData()`: every field unset. */
  const EmptySnapshot: Snapshot := Snapshot(None, None, None, None, None)

  /** The promotional fields of an activity product; passed through unmodified. */
  datatype ActivityTerms = ActivityTerms(sellerId: int, activityPrice: real, tradeIsolation: bool, buyerLimit: int)

  /** A product under a time-bounded promotion: `ActivityProduct` in the source. */
  datatype ActivityProduct = ActivityProduct(
    productId: string,
    startTime: int,
    endTime: int,
    updateTime: int,
    terms: ActivityTerms)

  /** The backing-store batch call a reconciliation made, with its argument; the
      incremental activity seeding chains two calls, recorded together. */
  datatype RepoCall =
    | NoCall
    | ByProductIds(productIds: seq<string>)
    | ByCatalogIds(catalogIds: seq<string>)
    | NewestActivities(since: int, activityIds: seq<string>)  // the ids newer than `since`, then their records

  /** What one reconciliation does: what it returns, the batch it puts into the
      product cache, and the repository call it makes. */
  datatype Run<+T> = Run(outcome: Result<T>, writes: map<string, Snapshot>, call: RepoCall)
}
