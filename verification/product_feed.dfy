/** The home-page product feeds of src/redux/featured/product/productApi.ts:
    `dynamicProductFilter` turns a fetched product array into at most ten
    products for a "discount", "deal" or "reviews" section. The clock
    (today's bounds) and `Math.random` are parameters. */
module ProductFeed {
  import opened Wrappers
  import opened Js
  import opened Seqs

  /** A present (non-nullish) date field as `new Date(raw).getTime()` reads
      it: a millisecond time, or `Invalid` for a falsy value or one that
      does not parse. */
  datatype Stamp = Invalid | At(ms: int)

  /** The fields of a fetched product the feeds read. The four date fields
      are `None` when `null` or missing. */
  datatype Product = Product(
    id: string,
    salePrice: Option<Number>,
    price: Option<Number>,
    rating: Option<Number>,
    createdAt: Option<Stamp>,
    created_at: Option<Stamp>,
    createdOn: Option<Stamp>,
    date: Option<Stamp>)

  /** Every feed shows at most this many products. */
  const FeedSize: nat := 10

  /** The date fields `getCreatedAtMs` consults, in priority order. */
  function DateFields(p: Product): seq<Option<Stamp>>
  {
    [p.createdAt, p.created_at, p.createdOn, p.date]
  }

  /** `Number.isFinite(t) ? t : 0` on the parsed time of a present field. */
  function StampMs(s: Stamp): int
  {
    match s
    case At(ms) => ms
    case Invalid => 0
  }

  /** `getCreatedAtMs`: `createdAt ?? created_at ?? createdOn ?? date`; the
      first field that is present decides, and no present field gives 0. */
  function CreatedAtMs(p: Product): (t: int)
    ensures p.createdAt.Some? ==> t == StampMs(p.createdAt.value)
    ensures p.createdAt.None? && p.created_at.Some? ==> t == StampMs(p.created_at.value)
    ensures p.createdAt.None? && p.created_at.None? && p.createdOn.Some? ==> t == StampMs(p.createdOn.value)
    ensures p.createdAt.None? && p.created_at.None? && p.createdOn.None? && p.date.Some? ==> t == StampMs(p.date.value)
    ensures p.createdAt.None? && p.created_at.None? && p.createdOn.None? && p.date.None? ==> t == 0
  {
    StampMs(p.createdAt.GetOr(p.created_at.GetOr(p.createdOn.GetOr(p.date.GetOr(Invalid)))))
  }

  /** A non-zero creation time was read from one of the date fields. */
  lemma CreatedAtFromField(p: Product)
    requires CreatedAtMs(p) != 0
    ensures Some(At(CreatedAtMs(p))) in DateFields(p)
  {
  }

  /** A present but unreadable `createdAt` hides every later field: the
      fallback only skips fields that are `null` or missing. */
  lemma InvalidCreatedAtHidesLater(p: Product)
    requires p.createdAt == Some(Invalid)
    ensures CreatedAtMs(p) == 0
  {
  }

  /** The "discount" test: both prices are finite numbers and the sale price
      is the smaller. */
  predicate IsDiscounted(p: Product)
  {
    IsNumber(FromOption(p.salePrice)) && IsNumber(FromOption(p.price))
    && Less(p.salePrice.value, p.price.value)
  }

  /** The "deal" test: created within today's bounds, both ends inclusive. */
  predicate CreatedWithin(p: Product, startMs: int, endMs: int)
  {
    var t := CreatedAtMs(p);
    t >= startMs && t <= endMs
  }

  function CreatedKey(p: Product): SortKey
  {
    Fin(CreatedAtMs(p) as real)
  }

  /** `Number(p.rating || 0)`: a falsy rating (missing, 0 or NaN) counts as 0. */
  function RatingKey(p: Product): (k: SortKey)
    ensures p.rating.None? ==> k == Fin(0.0)
    ensures p.rating.Some? && p.rating.value.Finite? ==> k == Fin(p.rating.value.value)
    ensures p.rating == Some(NaN) ==> k == Fin(0.0)
    ensures p.rating == Some(Number.PosInf) ==> k == SortKey.PosInf
    ensures p.rating == Some(Number.NegInf) ==> k == SortKey.NegInf
  {
    match p.rating
    case None => Fin(0.0)
    case Some(NaN) => Fin(0.0)
    case Some(Finite(v)) => Fin(v)
    case Some(PosInf) => SortKey.PosInf
    case Some(NegInf) => SortKey.NegInf
  }

  /** Some product has a finite numeric rating. */
  predicate AnyRated(ps: seq<Product>)
  {
    exists i :: 0 <= i < |ps| && IsNumber(FromOption(ps[i].rating))
  }

  /** `r` holds the `n` (or all, if fewer) elements of `src` with the greatest
      keys, greatest first. */
  predicate TopByKey(r: seq<Product>, src: seq<Product>, key: Product -> SortKey, n: nat)
  {
    && |r| == Min(n, |src|)
    && multiset(r) <= multiset(src)
    && SortedDesc(r, key)
    && forall x, y :: x in multiset(src) - multiset(r) && y in r ==> KeyLe(key(x), key(y))
  }

  /** Sorting and then truncating selects the top elements. */
  lemma TakeSortedIsTop(src: seq<Product>, key: Product -> SortKey, n: nat)
    ensures TopByKey(Take(SortDesc(src, key), n), src, key, n)
  {
    var s := SortDesc(src, key);
    TakeOfSortedIsTop(s, key, n);
    TakeIsSubseq(s, n);
  }

  /** Sorting stably and keeping the first ten both selects the top keys and
      keeps the source order among equal keys. */
  lemma TopOfStableSort(src: seq<Product>, key: Product -> SortKey)
    ensures TopByKey(Take(SortDesc(src, key), FeedSize), src, key, FeedSize)
    ensures KeepsTieOrder(Take(SortDesc(src, key), FeedSize), src, key)
  {
    var s := SortDesc(src, key);
    TakeSortedIsTop(src, key, FeedSize);
    TakeKeepsTieOrder(s, key, FeedSize);
    forall k ensures KeyClass(Take(s, FeedSize), key, k) <= KeyClass(src, key, k) {
      assert KeyClass(s, key, k) == KeyClass(src, key, k);
    }
  }

  /** `shuffleArray`: the Fisher-Yates shuffle of a copy of the input. Draw
      `draws[i - 1]` is the `Math.random()` value used at index `i`. */
  method Shuffle(a: seq<Product>, draws: seq<real>) returns (r: seq<Product>)
    requires |draws| + 1 >= |a|
    requires forall k :: 0 <= k < |draws| ==> 0.0 <= draws[k] < 1.0
    ensures |r| == |a|
    ensures multiset(r) == multiset(a)
  {
    r := a;
    var i := |r| - 1;
    while i > 0
      invariant i < |r| == |a|
      invariant multiset(r) == multiset(a)
    {
      var j := FloorIndex(draws[i - 1], i + 1);
      r := r[i := r[j]][j := r[i]];
      i := i - 1;
    }
  }

  /** `Math.floor(d * n)` for a draw `d` in [0, 1): an index below `n`. */
  function FloorIndex(d: real, n: nat): (j: nat)
    requires 0.0 <= d < 1.0 && n > 0
    ensures j < n
  {
    var x := d * n as real;
    assert 0.0 <= x < n as real by {
      assert d * n as real <= d * n as real;
      assert (1.0 - d) * n as real > 0.0;
    }
    x.Floor
  }

  /** The "discount" feed: the first ten discounted products, in input order. */
  function DiscountFeed(products: seq<Product>): (r: seq<Product>)
    ensures |r| <= FeedSize
    ensures IsSubseq(r, products)
    ensures multiset(r) <= multiset(products)
    ensures forall i :: 0 <= i < |r| ==> IsDiscounted(r[i])
    ensures |r| == Min(FeedSize, |Filter(products, IsDiscounted)|)
    ensures forall i :: 0 <= i < |r| ==> r[i] == Filter(products, IsDiscounted)[i]
  {
    var kept := Filter(products, IsDiscounted);
    TakeIsSubseq(kept, FeedSize);
    SubseqTrans(Take(kept, FeedSize), kept, products);
    SubseqMultiset(Take(kept, FeedSize), products);
    assert forall i :: 0 <= i < |Take(kept, FeedSize)| ==> Take(kept, FeedSize)[i] in multiset(kept);
    Take(kept, FeedSize)
  }

  /** The products created within today's bounds. */
  function CreatedToday(products: seq<Product>, startMs: int, endMs: int): (r: seq<Product>)
    ensures IsSubseq(r, products)
    ensures forall x :: multiset(r)[x] == if CreatedWithin(x, startMs, endMs) then multiset(products)[x] else 0
    ensures multiset(r) <= multiset(products)
    ensures forall i :: 0 <= i < |r| ==> CreatedWithin(r[i], startMs, endMs)
    ensures r == [] <==> forall i :: 0 <= i < |products| ==> !CreatedWithin(products[i], startMs, endMs)
  {
    var r := Filter(products, p => CreatedWithin(p, startMs, endMs));
    SubseqMultiset(r, products);
    assert forall i :: 0 <= i < |r| ==> r[i] in multiset(r);
    assert forall i :: 0 <= i < |products| && CreatedWithin(products[i], startMs, endMs) ==> products[i] in multiset(r) by {
      forall i | 0 <= i < |products| && CreatedWithin(products[i], startMs, endMs) ensures products[i] in multiset(r) {
        assert products[i] in multiset(products);
      }
    }
    r
  }

  /** The ten (or fewer) newest products of `src`, newest first; products
      created at the same time keep their order in `src`, and the earliest
      of them are the ones kept. */
  function NewestFirst(src: seq<Product>): (r: seq<Product>)
    ensures TopByKey(r, src, CreatedKey, FeedSize)
    ensures KeepsTieOrder(r, src, CreatedKey)
  {
    TopOfStableSort(src, CreatedKey);
    Take(SortDesc(src, CreatedKey), FeedSize)
  }

  /** Elements drawn from a list of today's products are from today. */
  lemma FromTodayIsToday(r: seq<Product>, today: seq<Product>, startMs: int, endMs: int)
    requires multiset(r) <= multiset(today)
    requires forall i :: 0 <= i < |today| ==> CreatedWithin(today[i], startMs, endMs)
    ensures forall i :: 0 <= i < |r| ==> CreatedWithin(r[i], startMs, endMs)
  {
    forall i | 0 <= i < |r| ensures CreatedWithin(r[i], startMs, endMs) {
      assert r[i] in multiset(r);
      assert r[i] in today;
    }
  }

  /** The "deal" feed: today's products, newest first; when there are none,
      the newest products overall. */
  function DealFeed(products: seq<Product>, startMs: int, endMs: int): (r: seq<Product>)
    ensures |r| <= FeedSize
    ensures multiset(r) <= multiset(products)
    ensures var today := CreatedToday(products, startMs, endMs);
      && (today != [] ==> TopByKey(r, today, CreatedKey, FeedSize))
      && (today != [] ==> forall i :: 0 <= i < |r| ==> CreatedWithin(r[i], startMs, endMs))
      && (today == [] ==> TopByKey(r, products, CreatedKey, FeedSize))
      && (today != [] ==> KeepsTieOrder(r, today, CreatedKey))
      && (today == [] ==> KeepsTieOrder(r, products, CreatedKey))
  {
    var today := CreatedToday(products, startMs, endMs);
    if |today| == 0 then
      var fallback := NewestFirst(products);
      assert Take(fallback, FeedSize) == fallback;
      Take(fallback, FeedSize)
    else
      var r := NewestFirst(today);
      FromTodayIsToday(r, today, startMs, endMs);
      r
  }

  /** The "reviews" feed: highest rating first when any product has a
      numeric rating, otherwise a random selection. */
  method ReviewsFeed(products: seq<Product>, draws: seq<real>) returns (r: seq<Product>)
    requires |draws| + 1 >= |products|
    requires forall k :: 0 <= k < |draws| ==> 0.0 <= draws[k] < 1.0
    ensures |r| == Min(FeedSize, |products|)
    ensures multiset(r) <= multiset(products)
    ensures AnyRated(products) ==> TopByKey(r, products, RatingKey, FeedSize)
    ensures AnyRated(products) ==> KeepsTieOrder(r, products, RatingKey)
  {
    if exists i :: 0 <= i < |products| && IsNumber(FromOption(products[i].rating)) {
      TopOfStableSort(products, RatingKey);
      r := Take(SortDesc(products, RatingKey), FeedSize);
    } else {
      var shuffled := Shuffle(products, draws);
      TakeIsSubseq(shuffled, FeedSize);
      r := Take(shuffled, FeedSize);
    }
  }

  /** `dynamicProductFilter`: the products of one home-page feed, selected by
      `queryType`; any other query type keeps the first ten products.
      `startMs`/`endMs` are today's bounds and `draws` the random numbers
      the shuffle consumes. */
  method DynamicProductFilter(products: seq<Product>, queryType: string, startMs: int, endMs: int, draws: seq<real>)
    returns (r: seq<Product>)
    requires |draws| + 1 >= |products|
    requires forall k :: 0 <= k < |draws| ==> 0.0 <= draws[k] < 1.0
    ensures |r| <= FeedSize
    ensures multiset(r) <= multiset(products)
    ensures queryType == "discount" ==> r == DiscountFeed(products)
    ensures queryType == "deal" ==> r == DealFeed(products, startMs, endMs)
    ensures queryType == "reviews" ==> |r| == Min(FeedSize, |products|)
    ensures queryType == "reviews" && AnyRated(products) ==> TopByKey(r, products, RatingKey, FeedSize)
    ensures queryType == "reviews" && AnyRated(products) ==> KeepsTieOrder(r, products, RatingKey)
    ensures queryType !in {"discount", "deal", "reviews"} ==> r == Take(products, FeedSize)
  {
    if queryType == "discount" {
      r := DiscountFeed(products);
    } else if queryType == "deal" {
      r := DealFeed(products, startMs, endMs);
    } else if queryType == "reviews" {
      r := ReviewsFeed(products, draws);
    } else {
      TakeIsSubseq(products, FeedSize);
      r := Take(products, FeedSize);
    }
  }
}
