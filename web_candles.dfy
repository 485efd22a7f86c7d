/**
 * The browser-side candlestick aggregator (apps/web/lib/candlestick-aggregator.ts):
 * a map from bucket start to OHLC candle, updated tick by tick and rebuilt
 * from the full price history when the chart's timeframe changes.
 */
module WebCandles {
  import opened Common
  import opened Market
  import Candles
  import CandleService

  /** The client's own `TIMEFRAME_MS` table. */
  function TimeframeMs(tf: Timeframe): (ms: nat)
    ensures ms > 0
  {
    match tf
    case OneMinute => 60 * 1000
    case FiveMinutes => 5 * 60 * 1000
    case FifteenMinutes => 15 * 60 * 1000
    case OneHour => 60 * 60 * 1000
    case FourHours => 4 * 60 * 60 * 1000
    case OneDay => 24 * 60 * 60 * 1000
  }

  /** The client's table agrees with the server's, and every duration is a whole number of seconds. */
  lemma SameTimeframesAsServer()
    ensures forall tf :: TimeframeMs(tf) == CandleService.TimeframeMs(tf)
    ensures forall tf :: TimeframeMs(tf) % 1000 == 0
  {
  }

  /** A chart candle; `time` is in seconds, the others are prices. */
  datatype Candle = Candle(time: int, open: int, high: int, low: int, close: int)

  /**
   * One iteration of the loops in `updateCandles` and `rebuildCandles`:
   * a new bucket opens at the update's price, an existing one widens its
   * range and takes the update's price as its close.
   */
  function Step(candles: map<int, Candle>, u: Tick, ms: nat): (r: map<int, Candle>)
    requires ms > 0
    ensures r.Keys == candles.Keys + {Bucket(u.timestamp, ms)}
    ensures forall k :: k in candles && k != Bucket(u.timestamp, ms) ==> r[k] == candles[k]
  {
    var candleTime := Bucket(u.timestamp, ms);
    var utcTime := candleTime / 1000;
    var p := u.price;
    if candleTime !in candles then candles[candleTime := Candle(utcTime, p, p, p, p)]
    else
      var c := candles[candleTime];
      candles[candleTime := c.(high := Max(c.high, p), low := Min(c.low, p), close := p)]
  }

  /** The loop over a list of updates, oldest first. */
  function Fold(candles: map<int, Candle>, updates: seq<Tick>, ms: nat): (r: map<int, Candle>)
    requires ms > 0
    ensures candles.Keys <= r.Keys
    decreases |updates|
  {
    if |updates| == 0 then candles
    else Step(Fold(candles, updates[..|updates| - 1], ms), updates[|updates| - 1], ms)
  }

  /** Folding two lists one after the other is folding their concatenation. */
  lemma {:induction false} FoldAppend(candles: map<int, Candle>, a: seq<Tick>, b: seq<Tick>, ms: nat)
    requires ms > 0
    ensures Fold(candles, a + b, ms) == Fold(Fold(candles, a, ms), b, ms)
    decreases |b|
  {
    if |b| > 0 {
      var ab, init, last := a + b, b[..|b| - 1], b[|b| - 1];
      assert ab[..|ab| - 1] == a + init;
      assert ab[|ab| - 1] == last;
      assert Fold(candles, a + init, ms) == Fold(Fold(candles, a, ms), init, ms) by {
        FoldAppend(candles, a, init, ms);
      }
      assert Fold(candles, ab, ms) == Step(Fold(candles, a + init, ms), last, ms);
      assert Fold(Fold(candles, a, ms), b, ms) == Step(Fold(Fold(candles, a, ms), init, ms), last, ms);
    } else {
      assert a + b == a;
    }
  }

  /**
   * The client's candles for a history agree with the server's
   * `aggregateCandles` on the same buckets: same keys, same open, high, low
   * and close.
   */
  lemma {:induction false} MatchesServer(history: seq<Tick>, ms: nat)
    requires ms > 0
    ensures var web := Fold(map[], history, ms);
      var server := Candles.Aggregate(history, ms);
      && web.Keys == server.Keys
      && forall k :: k in web ==>
           web[k].open == server[k].open && web[k].high == server[k].high &&
           web[k].low == server[k].low && web[k].close == server[k].close
    decreases |history|
  {
    if |history| > 0 {
      MatchesServer(history[..|history| - 1], ms);
    }
  }

  /** Every candle built from a history has low <= open, close <= high. */
  lemma FoldWellFormed(history: seq<Tick>, ms: nat)
    requires ms > 0
    ensures var web := Fold(map[], history, ms);
      forall k :: k in web ==> web[k].low <= web[k].open <= web[k].high && web[k].low <= web[k].close <= web[k].high
  {
    MatchesServer(history, ms);
    Candles.AggregateWellFormed(history, ms);
  }

  /** Keys are whole seconds and each candle's `time` is its key in seconds. */
  ghost predicate Aligned(candles: map<int, Candle>) {
    forall k :: k in candles ==> k >= 0 && k % 1000 == 0 && candles[k].time == k / 1000
  }

  /** A bucket start of a whole-second timeframe is a whole second. */
  lemma BucketWholeSeconds(t: nat, ms: nat)
    requires ms > 0 && ms % 1000 == 0
    ensures Bucket(t, ms) % 1000 == 0
  {
    var q, c := t / ms, ms / 1000;
    assert ms == c * 1000;
    assert Bucket(t, ms) == (q * c) * 1000;
    MultipleMod(q * c, 1000);
  }

  /** Folding a whole-second timeframe keeps the candles aligned. */
  lemma {:induction false} FoldAligned(candles: map<int, Candle>, updates: seq<Tick>, ms: nat)
    requires ms > 0 && ms % 1000 == 0 && Aligned(candles)
    ensures Aligned(Fold(candles, updates, ms))
    decreases |updates|
  {
    if |updates| > 0 {
      FoldAligned(candles, updates[..|updates| - 1], ms);
      BucketWholeSeconds(updates[|updates| - 1].timestamp, ms);
    }
  }

  /** Distinct whole-second keys have distinct, equally ordered times. */
  lemma AlignedOrder(candles: map<int, Candle>, k1: int, k2: int)
    requires Aligned(candles) && k1 in candles && k2 in candles
    ensures k1 < k2 <==> candles[k1].time < candles[k2].time
  {
    if k1 < k2 {
      MultiplesApart(k1, k2, 1000);
    } else if k2 < k1 {
      MultiplesApart(k2, k1, 1000);
    }
  }

  /** How many candles the chart keeps. */
  const ChartLength: nat := 100

  /**
   * The last `n` elements of a strictly increasing sequence of all the
   * map's keys are keys, strictly increasing, hold every key at or above
   * the first of them, and end with the greatest key.
   */
  lemma SuffixFacts(keys: seq<int>, n: nat, m: set<int>)
    requires n <= |keys| && forall i, j :: 0 <= i < j < |keys| ==> keys[i] < keys[j]
    requires forall k :: k in m <==> k in keys
    ensures var ks := keys[|keys| - n..];
      && |ks| == n
      && (forall i :: 0 <= i < |ks| ==> ks[i] in m)
      && (forall i, j :: 0 <= i < j < |ks| ==> ks[i] < ks[j])
      && (forall k :: k in m && |ks| > 0 && k >= ks[0] ==> k in ks)
      && (|ks| > 0 ==> forall k :: k in m ==> k <= ks[|ks| - 1])
  {
    var d := |keys| - n;
    var ks := keys[d..];
    forall i | 0 <= i < |ks| ensures ks[i] in m {
      assert ks[i] == keys[d + i];
    }
    forall i, j | 0 <= i < j < |ks| ensures ks[i] < ks[j] {
      assert ks[i] == keys[d + i] && ks[j] == keys[d + j];
    }
    forall k | k in m && |ks| > 0 && k >= ks[0] ensures k in ks {
      var p :| 0 <= p < |keys| && keys[p] == k;
      assert p >= d;
      assert k == ks[p - d];
    }
    forall k | k in m && |ks| > 0 ensures k <= ks[|ks| - 1] {
      var p :| 0 <= p < |keys| && keys[p] == k;
      assert ks[|ks| - 1] == keys[|keys| - 1];
    }
  }

  /** The keys `getCandles` returns: the last `ChartLength` keys in ascending order. */
  function LatestKeys(m: set<int>): (ks: seq<int>)
    ensures |ks| == Min(ChartLength, |m|)
    ensures forall i :: 0 <= i < |ks| ==> ks[i] in m
    ensures forall i, j :: 0 <= i < j < |ks| ==> ks[i] < ks[j]
    ensures forall k :: k in m && |ks| > 0 && k >= ks[0] ==> k in ks
    ensures |ks| > 0 ==> forall k :: k in m ==> k <= ks[|ks| - 1]
  {
    var keys := SortedKeys(m);
    SuffixFacts(keys, Min(ChartLength, |keys|), m);
    keys[|keys| - Min(ChartLength, |keys|)..]
  }

  function CandlesAt(candles: map<int, Candle>, ks: seq<int>): (r: seq<Candle>)
    requires forall i :: 0 <= i < |ks| ==> ks[i] in candles
    ensures |r| == |ks| && forall i :: 0 <= i < |r| ==> r[i] == candles[ks[i]]
  {
    seq(|ks|, i requires 0 <= i < |ks| => candles[ks[i]])
  }

  /**
   * For aligned candles, the latest ones come out in strictly increasing
   * time, and every candle at or after the first of them is among them.
   */
  lemma LatestCandlesOrdered(candles: map<int, Candle>)
    ensures var r := CandlesAt(candles, LatestKeys(candles.Keys));
      && (Aligned(candles) ==> forall i, j :: 0 <= i < j < |r| ==> r[i].time < r[j].time)
      && (Aligned(candles) ==> forall k :: k in candles && |r| > 0 && candles[k].time >= r[0].time ==> candles[k] in r)
  {
    var ks := LatestKeys(candles.Keys);
    var r := CandlesAt(candles, ks);
    if Aligned(candles) {
      forall i, j | 0 <= i < j < |r| ensures r[i].time < r[j].time {
        AlignedOrder(candles, ks[i], ks[j]);
      }
      forall k | k in candles && |r| > 0 && candles[k].time >= r[0].time ensures candles[k] in r {
        AlignedOrder(candles, ks[0], k);
        var p :| 0 <= p < |ks| && ks[p] == k;
        assert r[p] == candles[k];
      }
    }
  }

  /** For aligned candles, the last of the latest candles is the newest of the map. */
  lemma LastIsNewest(candles: map<int, Candle>)
    requires |candles| > 0
    ensures var r := CandlesAt(candles, LatestKeys(candles.Keys));
      Aligned(candles) ==> forall k :: k in candles ==> candles[k].time <= r[|r| - 1].time
  {
    var ks := LatestKeys(candles.Keys);
    if Aligned(candles) {
      forall k | k in candles ensures candles[k].time <= candles[ks[|ks| - 1]].time {
        AlignedOrder(candles, k, ks[|ks| - 1]);
      }
    }
  }

  /** Every candle looked up by key is one of the map's values. */
  lemma CandlesAtValues(candles: map<int, Candle>, ks: seq<int>)
    requires forall i :: 0 <= i < |ks| ==> ks[i] in candles
    ensures forall i :: 0 <= i < |ks| ==> CandlesAt(candles, ks)[i] in candles.Values
  {
    forall i | 0 <= i < |ks| ensures CandlesAt(candles, ks)[i] in candles.Values {
      assert candles[ks[i]] in candles.Values;
    }
  }

  /**
   * `getCandles` on a candle map: at most `ChartLength` candles, all from
   * the map; for aligned candles they are in ascending time order and no
   * candle at or after the first returned one is left out.
   */
  function LatestCandles(candles: map<int, Candle>): (r: seq<Candle>)
    ensures |r| == Min(ChartLength, |candles|)
    ensures forall i :: 0 <= i < |r| ==> r[i] in candles.Values
    ensures Aligned(candles) ==> forall i, j :: 0 <= i < j < |r| ==> r[i].time < r[j].time
    ensures Aligned(candles) ==> forall k :: k in candles && |r| > 0 && candles[k].time >= r[0].time ==> candles[k] in r
  {
    CandlesAtValues(candles, LatestKeys(candles.Keys));
    LatestCandlesOrdered(candles);
    CandlesAt(candles, LatestKeys(candles.Keys))
  }

  /** `getLatestCandle` on a candle map: none iff the map is empty, otherwise (for aligned candles) the newest. */
  function LatestCandle(candles: map<int, Candle>): (r: Option<Candle>)
    ensures r.None? <==> |candles| == 0
    ensures r.Some? ==> r.value in candles.Values
    ensures Aligned(candles) && r.Some? ==> forall k :: k in candles ==> candles[k].time <= r.value.time
  {
    var cs := LatestCandles(candles);
    if |cs| > 0 then
      LastIsNewest(candles);
      Some(cs[|cs| - 1])
    else None
  }

  class CandlestickAggregator {
    var candles: map<int, Candle>
    var timeframe: Timeframe
    var priceUpdates: seq<Tick>
    var priceHistory: seq<Tick>

    /** No pending updates, and the candles are the fold of the whole history under the current timeframe. */
    ghost predicate Valid()
      reads this
    {
      priceUpdates == [] && candles == Fold(map[], priceHistory, TimeframeMs(timeframe))
    }

    constructor (timeframe: Timeframe)
      ensures Valid() && this.timeframe == timeframe && priceHistory == [] && candles == map[]
    {
      this.timeframe := timeframe;
      candles := map[];
      priceUpdates := [];
      priceHistory := [];
    }

    /** Clears the candles and rebuilds them from the whole history under the new timeframe. */
    method SetTimeframe(timeframe: Timeframe)
      modifies this
      ensures this.timeframe == timeframe
      ensures candles == Fold(map[], priceHistory, TimeframeMs(timeframe))
      ensures priceHistory == old(priceHistory) && priceUpdates == old(priceUpdates)
      ensures old(priceUpdates) == [] ==> Valid()
    {
      this.timeframe := timeframe;
      candles := map[];
      RebuildCandles();
    }

    /** Records a tick in both lists, then folds the pending updates into the candles. */
    method AddPrice(price: int, timestamp: nat)
      modifies this
      ensures priceHistory == old(priceHistory) + [Tick(price, timestamp)]
      ensures priceUpdates == [] && timeframe == old(timeframe)
      ensures candles == Fold(old(candles), old(priceUpdates) + [Tick(price, timestamp)], TimeframeMs(timeframe))
      ensures old(Valid()) ==> Valid()
    {
      priceUpdates := priceUpdates + [Tick(price, timestamp)];
      priceHistory := priceHistory + [Tick(price, timestamp)];
      UpdateCandles();
      if old(Valid()) {
        FoldAppend(map[], old(priceHistory), [Tick(price, timestamp)], TimeframeMs(timeframe));
      }
    }

    /** Folds the pending updates into the candles and empties the pending list. */
    method UpdateCandles()
      modifies this`candles, this`priceUpdates
      ensures candles == Fold(old(candles), old(priceUpdates), TimeframeMs(timeframe))
      ensures priceUpdates == []
    {
      var timeframeMs := TimeframeMs(timeframe);
      for i := 0 to |priceUpdates|
        invariant priceUpdates == old(priceUpdates)
        invariant candles == Fold(old(candles), priceUpdates[..i], timeframeMs)
      {
        assert priceUpdates[..i + 1][..i] == priceUpdates[..i];
        AddToCandle(priceUpdates[i], timeframeMs);
      }
      assert priceUpdates[..|priceUpdates|] == priceUpdates;
      priceUpdates := [];
    }

    /** Folds the whole history into the current candles. */
    method RebuildCandles()
      modifies this`candles
      ensures candles == Fold(old(candles), priceHistory, TimeframeMs(timeframe))
    {
      var timeframeMs := TimeframeMs(timeframe);
      for i := 0 to |priceHistory|
        invariant candles == Fold(old(candles), priceHistory[..i], timeframeMs)
      {
        assert priceHistory[..i + 1][..i] == priceHistory[..i];
        AddToCandle(priceHistory[i], timeframeMs);
      }
      assert priceHistory[..|priceHistory|] == priceHistory;
    }

    /** The body shared by the two loops: open a bucket or update its candle in place. */
    method AddToCandle(update: Tick, timeframeMs: nat)
      requires timeframeMs > 0
      modifies this`candles
      ensures candles == Step(old(candles), update, timeframeMs)
    {
      var candleTime := update.timestamp / timeframeMs * timeframeMs;
      var utcTime := candleTime / 1000;
      if candleTime !in candles {
        candles := candles[candleTime := Candle(utcTime, update.price, update.price, update.price, update.price)];
      } else {
        var candle := candles[candleTime];
        candle := candle.(high := Max(candle.high, update.price));
        candle := candle.(low := Min(candle.low, update.price));
        candle := candle.(close := update.price);
        candles := candles[candleTime := candle];
      }
    }

    /** The invariant makes the candles aligned. */
    lemma ValidAligned()
      requires Valid()
      ensures Aligned(candles)
    {
      SameTimeframesAsServer();
      FoldAligned(map[], priceHistory, TimeframeMs(timeframe));
    }

    /**
     * `getCandles`: at most `ChartLength` candles, all from the map, in
     * ascending time order, and no candle at or after the first returned
     * one is left out.
     */
    function GetCandles(): (r: seq<Candle>)
      reads this
      ensures |r| == Min(ChartLength, |candles|)
      ensures forall i :: 0 <= i < |r| ==> r[i] in candles.Values
      ensures Valid() ==> forall i, j :: 0 <= i < j < |r| ==> r[i].time < r[j].time
      ensures Valid() ==> forall k :: k in candles && |r| > 0 && candles[k].time >= r[0].time ==> candles[k] in r
    {
      assert Valid() ==> Aligned(candles) by {
        if Valid() { ValidAligned(); }
      }
      LatestCandles(candles)
    }

    /** `getLatestCandle`: none iff there are no candles, otherwise the newest one. */
    function GetLatestCandle(): (r: Option<Candle>)
      reads this
      ensures r.None? <==> |candles| == 0
      ensures r.Some? ==> r.value in candles.Values
      ensures Valid() && r.Some? ==> forall k :: k in candles ==> candles[k].time <= r.value.time
    {
      assert Valid() ==> Aligned(candles) by {
        if Valid() { ValidAligned(); }
      }
      LatestCandle(candles)
    }
  }
}
