/**
 * The server-side candlestick aggregator
 * (apps/event-service/src/candlestick-aggregator.ts): a tick history that
 * is folded into OHLCV buckets on demand, and the upsert rule the
 * `candlesticks` table applies when a bucket is persisted twice.
 */
module Candles {
  import opened Common
  import opened Market

  datatype CandleData = CandleData(open: int, high: int, low: int, close: int, volume: int)

  /** Open and close lie between low and high. */
  predicate WellFormed(c: CandleData) {
    c.low <= c.open <= c.high && c.low <= c.close <= c.high
  }

  /**
   * One `forEach` step of `aggregateCandles`. A bucket's default record
   * starts with volume 1 and is incremented for its first tick too.
   */
  function AddTick(candles: map<int, CandleData>, tick: Tick, tf: nat): (r: map<int, CandleData>)
    requires tf > 0
    ensures r.Keys == candles.Keys + {Bucket(tick.timestamp, tf)}
    ensures forall k :: k in candles && k != Bucket(tick.timestamp, tf) ==> r[k] == candles[k]
  {
    var key := Bucket(tick.timestamp, tf);
    var p := tick.price;
    var existing := if key in candles then candles[key] else CandleData(p, p, p, p, 1);
    candles[key := CandleData(existing.open, Max(existing.high, p), Min(existing.low, p), p, existing.volume + 1)]
  }

  /** `aggregateCandles(tf)` over a tick history, oldest tick first. */
  function Aggregate(ticks: seq<Tick>, tf: nat): map<int, CandleData>
    requires tf > 0
    decreases |ticks|
  {
    if |ticks| == 0 then map[]
    else AddTick(Aggregate(ticks[..|ticks| - 1], tf), ticks[|ticks| - 1], tf)
  }

  /** The prices of the ticks whose bucket starts at `key`, in order. */
  function BucketPrices(ticks: seq<Tick>, tf: nat, key: int): (ps: seq<int>)
    requires tf > 0
    ensures |ps| > 0 <==> exists i :: 0 <= i < |ticks| && Bucket(ticks[i].timestamp, tf) == key
    decreases |ticks|
  {
    if |ticks| == 0 then []
    else
      var init := ticks[..|ticks| - 1];
      var last := ticks[|ticks| - 1];
      var rest := BucketPrices(init, tf, key);
      assert forall i :: 0 <= i < |init| ==> init[i] == ticks[i];
      if Bucket(last.timestamp, tf) == key then rest + [last.price] else rest
  }

  function SeqMax(s: seq<int>): (m: int)
    requires |s| > 0
    ensures forall i :: 0 <= i < |s| ==> s[i] <= m
    ensures exists i :: 0 <= i < |s| && s[i] == m
  {
    if |s| == 1 then s[0] else Max(SeqMax(s[..|s| - 1]), s[|s| - 1])
  }

  function SeqMin(s: seq<int>): (m: int)
    requires |s| > 0
    ensures forall i :: 0 <= i < |s| ==> m <= s[i]
    ensures exists i :: 0 <= i < |s| && s[i] == m
  {
    if |s| == 1 then s[0] else Min(SeqMin(s[..|s| - 1]), s[|s| - 1])
  }

  /**
   * What a bucket's candle should be, read off its prices directly: the
   * first and last price, the extremes, and one more than the tick count.
   */
  function Summary(ps: seq<int>): (c: CandleData)
    requires |ps| > 0
    ensures WellFormed(c)
  {
    CandleData(ps[0], SeqMax(ps), SeqMin(ps), ps[|ps| - 1], |ps| + 1)
  }

  /**
   * `aggregateCandles` has a candle for exactly the buckets some tick falls
   * in, and each candle is the summary of that bucket's prices.
   */
  lemma {:induction false} AggregateIsPerBucket(ticks: seq<Tick>, tf: nat, key: int)
    requires tf > 0
    ensures key in Aggregate(ticks, tf) <==> |BucketPrices(ticks, tf, key)| > 0
    ensures key in Aggregate(ticks, tf) ==> Aggregate(ticks, tf)[key] == Summary(BucketPrices(ticks, tf, key))
    decreases |ticks|
  {
    if |ticks| > 0 {
      var init := ticks[..|ticks| - 1];
      var last := ticks[|ticks| - 1];
      AggregateIsPerBucket(init, tf, key);
      var ps := BucketPrices(init, tf, key);
      if Bucket(last.timestamp, tf) == key && |ps| > 0 {
        var ps' := ps + [last.price];
        assert ps'[..|ps'| - 1] == ps;
      }
    }
  }

  /** Recording one more tick is one more aggregation step. */
  lemma AggregateSnoc(ticks: seq<Tick>, tick: Tick, tf: nat)
    requires tf > 0
    ensures Aggregate(ticks + [tick], tf) == AddTick(Aggregate(ticks, tf), tick, tf)
    ensures Aggregate(ticks + [tick], tf).Keys == Aggregate(ticks, tf).Keys + {Bucket(tick.timestamp, tf)}
  {
    assert (ticks + [tick])[..|ticks|] == ticks;
  }

  /** Every key of `aggregateCandles` is the bucket of some tick. */
  lemma AggregateKeys(ticks: seq<Tick>, tf: nat, key: int)
    requires tf > 0
    ensures key in Aggregate(ticks, tf) <==>
      exists i :: 0 <= i < |ticks| && Bucket(ticks[i].timestamp, tf) == key
  {
    AggregateIsPerBucket(ticks, tf, key);
  }

  /** Every candle of `aggregateCandles` has low <= open, close <= high. */
  lemma AggregateWellFormed(ticks: seq<Tick>, tf: nat)
    requires tf > 0
    ensures forall key :: key in Aggregate(ticks, tf) ==> WellFormed(Aggregate(ticks, tf)[key])
  {
    forall key | key in Aggregate(ticks, tf) ensures WellFormed(Aggregate(ticks, tf)[key]) {
      AggregateIsPerBucket(ticks, tf, key);
    }
  }

  class CandlestickAggregator {
    const symbol: string
    var prices: seq<Tick>

    constructor (symbol: string)
      ensures this.symbol == symbol && prices == []
    {
      this.symbol := symbol;
      prices := [];
    }

    method AddPrice(price: int, timestamp: nat)
      modifies this
      ensures prices == old(prices) + [Tick(price, timestamp)]
    {
      prices := prices + [Tick(price, timestamp)];
    }

    /** Folds the whole tick history into a fresh map from bucket start to candle. */
    method AggregateCandles(timeframeMs: nat) returns (candles: map<int, CandleData>)
      requires timeframeMs > 0
      ensures candles == Aggregate(prices, timeframeMs)
    {
      candles := map[];
      for i := 0 to |prices|
        invariant candles == Aggregate(prices[..i], timeframeMs)
      {
        assert prices[..i + 1][..i] == prices[..i];
        var price, timestamp := prices[i].price, prices[i].timestamp;
        var candleTime := timestamp / timeframeMs * timeframeMs;
        var existing := if candleTime in candles then candles[candleTime]
                        else CandleData(price, price, price, price, 1);
        candles := candles[candleTime := CandleData(existing.open, Max(existing.high, price),
                                                    Min(existing.low, price), price, existing.volume + 1)];
      }
      assert prices[..|prices|] == prices;
    }
  }

  /** The unique key of a row of the `candlesticks` table. */
  datatype CandleKey = CandleKey(symbol: string, timeframe: string, openTime: nat)

  datatype CandleRow = CandleRow(closeTime: nat, candle: CandleData)

  /**
   * The `ON CONFLICT ... DO UPDATE` rule: high and low widen, close is
   * overwritten, volumes add up, open (and the row's close time) stay.
   */
  function MergeCandle(existing: CandleData, incoming: CandleData): (r: CandleData)
    ensures WellFormed(existing) && WellFormed(incoming) ==> WellFormed(r)
    ensures r.high >= existing.high && r.high >= incoming.high
    ensures r.low <= existing.low && r.low <= incoming.low
    ensures r.open == existing.open && r.close == incoming.close
    ensures r.volume == existing.volume + incoming.volume
  {
    CandleData(existing.open, Max(existing.high, incoming.high), Min(existing.low, incoming.low),
               incoming.close, existing.volume + incoming.volume)
  }

  /** The widening part of the merge does not depend on argument order and absorbs repeats. */
  lemma MergeHighLowLaws(a: CandleData, b: CandleData)
    ensures MergeCandle(a, b).high == MergeCandle(b, a).high
    ensures MergeCandle(a, b).low == MergeCandle(b, a).low
    ensures MergeCandle(MergeCandle(a, b), b).high == MergeCandle(a, b).high
    ensures MergeCandle(MergeCandle(a, b), b).low == MergeCandle(a, b).low
  {
  }

  /** Persisting the same candle twice is not idempotent: its volume is counted twice. */
  lemma MergeNotIdempotent(a: CandleData, b: CandleData)
    requires b.volume != 0
    ensures MergeCandle(MergeCandle(a, b), b) != MergeCandle(a, b)
  {
    assert MergeCandle(MergeCandle(a, b), b).volume != MergeCandle(a, b).volume;
  }

  /** `persistCandle`: insert the row, or merge it into the row with the same key. */
  function PersistCandle(table: map<CandleKey, CandleRow>, symbol: string, timeframe: string,
                         openTime: nat, closeTime: nat, candle: CandleData): (t: map<CandleKey, CandleRow>)
    ensures var key := CandleKey(symbol, timeframe, openTime);
      && t.Keys == table.Keys + {key}
      && (forall k :: k in table && k != key ==> t[k] == table[k])
      && (key !in table ==> t[key] == CandleRow(closeTime, candle))
      && (key in table ==> t[key] == CandleRow(table[key].closeTime, MergeCandle(table[key].candle, candle)))
  {
    var key := CandleKey(symbol, timeframe, openTime);
    if key in table then table[key := CandleRow(table[key].closeTime, MergeCandle(table[key].candle, candle))]
    else table[key := CandleRow(closeTime, candle)]
  }

  /** Upserting well-formed candles keeps every row of the table well-formed. */
  lemma PersistKeepsWellFormed(table: map<CandleKey, CandleRow>, symbol: string, timeframe: string,
                               openTime: nat, closeTime: nat, candle: CandleData)
    requires forall k :: k in table ==> WellFormed(table[k].candle)
    requires WellFormed(candle)
    ensures var t := PersistCandle(table, symbol, timeframe, openTime, closeTime, candle);
      forall k :: k in t ==> WellFormed(t[k].candle)
  {
  }
}
