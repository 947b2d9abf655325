/**
 The aggregation of `getStatistics` over an already filtered list of records:
 order count, revenue, mean rating and share of delivery orders. The two
 averages are shown with one decimal by `Number.prototype.toFixed(1)`, or as the
 number 0 when there is nothing to average.
 */
module Statistics {
  import opened Wrappers
  import opened Seqs
  import opened Records

  /**
   A displayed average: `Zero` is the number 0 returned when there is nothing to
   average, `Fixed(t)` the one-decimal text of `t / 10`.
   */
  datatype Figure = Zero | Fixed(tenths: int)

  datatype Stats = Stats(
    totalOrders: nat,
    totalRevenue: real,
    avgRating: Figure,
    deliveryRatio: Figure)

  /** `transaction_amount || 0`: a missing (or NaN) amount counts as 0. */
  function AmountOrZero(r: Record): (a: real)
    ensures r.transactionAmount.Some? ==> a == r.transactionAmount.value
    ensures r.transactionAmount.None? ==> a == 0.0
  {
    r.transactionAmount.GetOr(0.0)
  }

  /** The sum of the amounts of `rs`, missing ones counted as 0. */
  function Revenue(rs: seq<Record>): (total: real)
    ensures (forall i :: 0 <= i < |rs| ==> AmountOrZero(rs[i]) >= 0.0) ==> total >= 0.0
  {
    if |rs| == 0 then 0.0 else AmountOrZero(rs[0]) + Revenue(rs[1..])
  }

  /** The present ratings of one record, in the order taste, delivery speed, environment, service. */
  function RatingsOf(r: Record): (xs: seq<int>)
    ensures |xs| <= 4
    ensures |xs| == 0 <==> HasNoRating(r)
  {
    (if r.tasteRating.Some? then [r.tasteRating.value] else [])
    + (if r.deliverySpeedRating.Some? then [r.deliverySpeedRating.value] else [])
    + (if r.environmentRating.Some? then [r.environmentRating.value] else [])
    + (if r.serviceRating.Some? then [r.serviceRating.value] else [])
  }

  predicate HasNoRating(r: Record)
  {
    r.tasteRating.None? && r.deliverySpeedRating.None?
    && r.environmentRating.None? && r.serviceRating.None?
  }

  /** Every rating of `r` lies in `lo..hi`. */
  predicate RatingsWithin(r: Record, lo: int, hi: int)
  {
    (r.tasteRating.Some? ==> lo <= r.tasteRating.value <= hi)
    && (r.deliverySpeedRating.Some? ==> lo <= r.deliverySpeedRating.value <= hi)
    && (r.environmentRating.Some? ==> lo <= r.environmentRating.value <= hi)
    && (r.serviceRating.Some? ==> lo <= r.serviceRating.value <= hi)
  }

  /** The ratings of all records, flattened in record order. */
  function AllRatings(rs: seq<Record>): (xs: seq<int>)
    ensures |xs| <= 4 * |rs|
  {
    if |rs| == 0 then [] else RatingsOf(rs[0]) + AllRatings(rs[1..])
  }

  function Sum(xs: seq<int>): int
  {
    if |xs| == 0 then 0 else xs[0] + Sum(xs[1..])
  }

  /** The arithmetic mean of a non-empty list. */
  function Mean(xs: seq<int>): (m: real)
    requires |xs| > 0
    ensures m * |xs| as real == Sum(xs) as real
  {
    Sum(xs) as real / |xs| as real
  }

  predicate IsDelivery(r: Record)
  {
    r.orderType == Some(Delivery)
  }

  /** The number of delivery orders. */
  function DeliveryCount(rs: seq<Record>): (n: nat)
    ensures n <= |rs|
  {
    |Filter(IsDelivery, rs)|
  }

  /** The exact share of delivery orders, in percent. */
  function DeliveryPercent(rs: seq<Record>): (p: real)
    requires |rs| > 0
    ensures 0.0 <= p <= 100.0
  {
    DeliveryCount(rs) as real / |rs| as real * 100.0
  }

  /**
   `x.toFixed(1)` as the integer number of tenths it shows: the nearest multiple
   of a tenth, a tie going away from zero (the sign is set aside first, as
   section 21.1.3.3 of ECMA-262 prescribes).
   */
  function ToFixed1(x: real): (t: int)
    ensures x * 10.0 - 0.5 <= t as real <= x * 10.0 + 0.5
    ensures x >= 0.0 ==> x * 10.0 - 0.5 < t as real
    ensures x < 0.0 ==> t as real < x * 10.0 + 0.5
  {
    if x < 0.0 then -RoundHalfUp(-x) else RoundHalfUp(x)
  }

  function RoundHalfUp(y: real): (t: int)
    requires y >= 0.0
    ensures y * 10.0 - 0.5 < t as real <= y * 10.0 + 0.5
  {
    (y * 10.0 + 0.5).Floor
  }

  /** The statistics of an already filtered list of records. */
  function Aggregate(rs: seq<Record>): (s: Stats)
    ensures s.totalOrders == |rs|
    ensures s.totalRevenue == Revenue(rs)
    ensures s.avgRating == Zero <==> |AllRatings(rs)| == 0
    ensures |AllRatings(rs)| > 0 ==> s.avgRating == Fixed(ToFixed1(Mean(AllRatings(rs))))
    ensures s.deliveryRatio == Zero <==> |rs| == 0
    ensures |rs| > 0 ==> s.deliveryRatio == Fixed(ToFixed1(DeliveryPercent(rs)))
  {
    var ratings := AllRatings(rs);
    Stats(
      |rs|,
      Revenue(rs),
      if |ratings| > 0 then Fixed(ToFixed1(Mean(ratings))) else Zero,
      if |rs| > 0 then Fixed(ToFixed1(DeliveryPercent(rs))) else Zero)
  }

  /** Revenue is additive over concatenation. */
  lemma {:induction false} RevenueAppend(a: seq<Record>, b: seq<Record>)
    ensures Revenue(a + b) == Revenue(a) + Revenue(b)
  {
    if |a| > 0 {
      assert (a + b)[1..] == a[1..] + b;
      RevenueAppend(a[1..], b);
    } else {
      assert a + b == b;
    }
  }

  /** A filter splits the revenue into what it keeps and what it drops. */
  lemma {:induction false} RevenueSplit(p: Record -> bool, rs: seq<Record>)
    ensures Revenue(Filter(p, rs)) + Revenue(Filter(x => !p(x), rs)) == Revenue(rs)
  {
    if |rs| > 0 {
      RevenueSplit(p, rs[1..]);
      var q := (x: Record) => !p(x);
      if p(rs[0]) {
        assert Filter(p, rs) == [rs[0]] + Filter(p, rs[1..]);
        assert Filter(q, rs) == Filter(q, rs[1..]);
      } else {
        assert Filter(p, rs) == Filter(p, rs[1..]);
        assert Filter(q, rs) == [rs[0]] + Filter(q, rs[1..]);
      }
    }
  }

  /** The flattened ratings of a concatenation are the concatenation of the flattened ratings. */
  lemma {:induction false} AllRatingsAppend(a: seq<Record>, b: seq<Record>)
    ensures AllRatings(a + b) == AllRatings(a) + AllRatings(b)
  {
    if |a| > 0 {
      assert (a + b)[1..] == a[1..] + b;
      AllRatingsAppend(a[1..], b);
    } else {
      assert a + b == b;
    }
  }

  /** There is no rating to average exactly when no record carries one. */
  lemma {:induction false} NoRatingsIff(rs: seq<Record>)
    ensures |AllRatings(rs)| == 0 <==> forall i :: 0 <= i < |rs| ==> HasNoRating(rs[i])
  {
    if |rs| > 0 {
      NoRatingsIff(rs[1..]);
      assert forall i :: 1 <= i < |rs| ==> rs[i] == rs[1..][i - 1];
    }
  }

  /** Ratings within `lo..hi` on every record flatten to a list within `lo..hi`. */
  lemma {:induction false} AllRatingsWithin(rs: seq<Record>, lo: int, hi: int)
    requires forall i :: 0 <= i < |rs| ==> RatingsWithin(rs[i], lo, hi)
    ensures forall k :: 0 <= k < |AllRatings(rs)| ==> lo <= AllRatings(rs)[k] <= hi
  {
    if |rs| > 0 {
      AllRatingsWithin(rs[1..], lo, hi);
      assert RatingsWithin(rs[0], lo, hi);
    }
  }

  /** The mean of values in `lo..hi` lies in `lo..hi`. */
  lemma MeanWithin(xs: seq<int>, lo: int, hi: int)
    requires |xs| > 0
    requires forall k :: 0 <= k < |xs| ==> lo <= xs[k] <= hi
    ensures lo as real <= Mean(xs) <= hi as real
  {
    SumWithinReal(xs, lo, hi);
    QuotientWithin(Sum(xs) as real, |xs| as real, lo as real, hi as real);
  }

  /** The sum of `n` values in `lo..hi` lies between `n * lo` and `n * hi`. */
  lemma {:induction false} SumWithinReal(xs: seq<int>, lo: int, hi: int)
    requires forall k :: 0 <= k < |xs| ==> lo <= xs[k] <= hi
    ensures |xs| as real * lo as real <= Sum(xs) as real <= |xs| as real * hi as real
  {
    if |xs| > 0 {
      SumWithinReal(xs[1..], lo, hi);
      var n := |xs| as real;
      PeelOne(n, lo as real);
      PeelOne(n, hi as real);
    }
  }

  lemma QuotientWithin(s: real, n: real, lo: real, hi: real)
    requires n > 0.0 && n * lo <= s <= n * hi
    ensures lo <= s / n <= hi
  {
  }

  lemma PeelOne(n: real, x: real)
    ensures n * x == x + (n - 1.0) * x
  {
  }

  /** Rounding to tenths keeps a value within `lo..hi` (whole numbers) within `10 * lo .. 10 * hi` tenths. */
  lemma ToFixed1Within(x: real, lo: int, hi: int)
    requires lo as real <= x <= hi as real
    ensures 10 * lo <= ToFixed1(x) <= 10 * hi
  {
  }

  /** A whole number of tenths is shown exactly. */
  lemma ToFixed1Exact(t: int)
    ensures ToFixed1(t as real / 10.0) == t
  {
  }

  /** When every rating is a star count 1..5, the shown average lies between 1.0 and 5.0. */
  lemma AverageRatingWithin(rs: seq<Record>, lo: int, hi: int)
    requires forall i :: 0 <= i < |rs| ==> RatingsWithin(rs[i], lo, hi)
    requires |AllRatings(rs)| > 0
    ensures Aggregate(rs).avgRating.Fixed?
    ensures 10 * lo <= Aggregate(rs).avgRating.tenths <= 10 * hi
  {
    AllRatingsWithin(rs, lo, hi);
    MeanWithin(AllRatings(rs), lo, hi);
    ToFixed1Within(Mean(AllRatings(rs)), lo, hi);
  }

  /** The number of records satisfying `p` is `|rs|` exactly when all do, and 0 exactly when none does. */
  lemma {:induction false} FilterCountExtremes(p: Record -> bool, rs: seq<Record>)
    ensures |Filter(p, rs)| == |rs| <==> forall i :: 0 <= i < |rs| ==> p(rs[i])
    ensures |Filter(p, rs)| == 0 <==> forall i :: 0 <= i < |rs| ==> !p(rs[i])
  {
    if |rs| > 0 {
      FilterCountExtremes(p, rs[1..]);
      assert forall i :: 1 <= i < |rs| ==> rs[i] == rs[1..][i - 1];
    }
  }

  /** The delivery share is 100% exactly when every order is a delivery, and 0% exactly when none is. */
  lemma DeliveryPercentExtremes(rs: seq<Record>)
    requires |rs| > 0
    ensures DeliveryPercent(rs) == 100.0 <==> forall i :: 0 <= i < |rs| ==> IsDelivery(rs[i])
    ensures DeliveryPercent(rs) == 0.0 <==> forall i :: 0 <= i < |rs| ==> !IsDelivery(rs[i])
  {
    FilterCountExtremes(IsDelivery, rs);
    PercentExtremes(DeliveryCount(rs), |rs|);
  }

  lemma PercentExtremes(d: nat, n: nat)
    requires 0 < n && d <= n
    ensures d as real / n as real * 100.0 == 100.0 <==> d == n
    ensures d as real / n as real * 100.0 == 0.0 <==> d == 0
  {
    var q := d as real / n as real;
    assert q * n as real == d as real;
  }

  /** The shown delivery ratio lies between 0.0 and 100.0. */
  lemma DeliveryRatioWithin(rs: seq<Record>)
    requires |rs| > 0
    ensures Aggregate(rs).deliveryRatio.Fixed?
    ensures 0 <= Aggregate(rs).deliveryRatio.tenths <= 1000
  {
    ToFixed1Within(DeliveryPercent(rs), 0, 100);
  }

  /** The statistics of no records: every figure is 0. */
  lemma EmptyStatistics()
    ensures Aggregate([]) == Stats(0, 0.0, Zero, Zero)
  {
  }

  /** Concatenation adds the order counts and revenues and concatenates the ratings. */
  lemma AggregateAppend(a: seq<Record>, b: seq<Record>)
    ensures Aggregate(a + b).totalOrders == Aggregate(a).totalOrders + Aggregate(b).totalOrders
    ensures Aggregate(a + b).totalRevenue == Aggregate(a).totalRevenue + Aggregate(b).totalRevenue
    ensures AllRatings(a + b) == AllRatings(a) + AllRatings(b)
  {
    RevenueAppend(a, b);
    AllRatingsAppend(a, b);
  }

  /** A delivery order with the given amount and the first two ratings. */
  function DeliveryOrder(id: int, amount: real, taste: Option<int>, speed: Option<int>): Record
  {
    Record(Some(id), None, None, None, None, Some(amount), Some(Delivery), None,
           taste, speed, None, None)
  }

  /**
   Two delivery orders of 35.0 and 38.0 with ratings 5, 5 and 4: two orders,
   revenue 73.0, average rating 14/3 shown as 4.7, delivery ratio 100.0.
   */
  lemma TwoDeliveriesScenario()
    ensures Aggregate([DeliveryOrder(1, 35.0, Some(5), Some(5)), DeliveryOrder(2, 38.0, Some(4), None)])
            == Stats(2, 73.0, Fixed(47), Fixed(1000))
  {
    var rs := [DeliveryOrder(1, 35.0, Some(5), Some(5)), DeliveryOrder(2, 38.0, Some(4), None)];
    assert rs[1..] == [rs[1]];
    assert AllRatings(rs) == [5, 5, 4];
    assert Sum([5, 5, 4]) == 14;
    assert Filter(IsDelivery, rs) == rs;
  }

  /** The built-in fallback record: one order of 35.0, rated 5 and 5, delivered. */
  lemma DefaultDataStatistics()
    ensures Aggregate(DefaultData()) == Stats(1, 35.0, Fixed(50), Fixed(1000))
  {
    var rs := DefaultData();
    assert AllRatings(rs) == [5, 5];
    assert Sum([5, 5]) == 10;
    assert Filter(IsDelivery, rs) == rs;
  }
}
