/**
 * The trade-stream handler of the event service
 * (apps/event-service/src/index.ts): one server-side aggregator per
 * timeframe, the `lastCandleTime` map, and the rule that persists the
 * previous bucket once a tick for a later bucket arrives.
 */
module CandleService {
  import opened Common
  import opened Market
  import opened Candles

  const Symbol: string := "BTCUSDT"

  /** The service's `timeframeMs` table. */
  function TimeframeMs(tf: Timeframe): (ms: nat)
    ensures ms > 0
  {
    match tf
    case OneMinute => 60 * 1000
    case FiveMinutes => 5 * 60 * 1000
    case FifteenMinutes => 15 * 60 * 1000
    case OneHour => 60 * 60 * 1000
    case FourHours => 4 * 60 * 60 * 1000
    case OneDay => 24 * 60 * 60 * 1000
  }

  /**
   * Every timeframe is a whole number of minutes, and each is strictly
   * longer than the one before it and a whole multiple of it.
   */
  lemma TimeframesNest()
    ensures forall tf :: TimeframeMs(tf) % 60000 == 0
    ensures forall i :: 0 < i < |AllTimeframes| ==>
      TimeframeMs(AllTimeframes[i - 1]) < TimeframeMs(AllTimeframes[i]) &&
      TimeframeMs(AllTimeframes[i]) % TimeframeMs(AllTimeframes[i - 1]) == 0
  {
  }

  /** What one tick decides for one timeframe: which bucket to persist, if any, and the new last bucket. */
  datatype Boundary = Boundary(persist: Option<nat>, newLast: nat)

  /**
   * The previous bucket `lastTime` is complete once a tick falls in a later
   * bucket; a `lastTime` of 0 means no tick has been seen (or none stored).
   */
  function CheckBoundary(lastTime: nat, t: nat, tf: nat): (d: Boundary)
    requires tf > 0
    ensures d.persist.Some? <==> lastTime > 0 && Bucket(t, tf) > lastTime
    ensures d.persist.Some? ==> d.persist.value == lastTime
    ensures d.newLast % tf == 0 && d.newLast <= t < d.newLast + tf
  {
    var candleTime := Bucket(t, tf);
    Boundary(if candleTime > lastTime && lastTime > 0 then Some(lastTime) else None, candleTime)
  }

  /** The first tick for a timeframe never persists anything. */
  lemma FirstTickPersistsNothing(t: nat, tf: nat)
    requires tf > 0
    ensures CheckBoundary(0, t, tf).persist == None
  {
  }

  /** A tick from an earlier bucket moves the last bucket backwards and persists nothing. */
  lemma OutOfOrderTick(lastTime: nat, t: nat, tf: nat)
    requires tf > 0 && Bucket(t, tf) < lastTime
    ensures CheckBoundary(lastTime, t, tf).persist == None
    ensures CheckBoundary(lastTime, t, tf).newLast < lastTime
  {
  }

  /** The bucket starts persisted for one timeframe along a sequence of tick times. */
  function PersistedStarts(lastTime: nat, ts: seq<nat>, tf: nat): seq<nat>
    requires tf > 0
    decreases |ts|
  {
    if |ts| == 0 then []
    else
      var d := CheckBoundary(lastTime, ts[0], tf);
      (if d.persist.Some? then [d.persist.value] else []) + PersistedStarts(d.newLast, ts[1..], tf)
  }

  predicate NonDecreasing(ts: seq<nat>) {
    forall i, j :: 0 <= i < j < |ts| ==> ts[i] <= ts[j]
  }

  predicate StrictlyIncreasing(s: seq<nat>) {
    forall i, j :: 0 <= i < j < |s| ==> s[i] < s[j]
  }

  /** While no tick falls in a bucket below `lastTime`, nothing below `lastTime` is persisted. */
  lemma {:induction false} PersistedAtLeast(lastTime: nat, ts: seq<nat>, tf: nat)
    requires tf > 0 && NonDecreasing(ts)
    requires forall i :: 0 <= i < |ts| ==> Bucket(ts[i], tf) >= lastTime
    ensures forall e :: e in PersistedStarts(lastTime, ts, tf) ==> e >= lastTime
    decreases |ts|
  {
    if |ts| > 0 {
      var d := CheckBoundary(lastTime, ts[0], tf);
      forall i | 0 <= i < |ts[1..]| ensures Bucket(ts[1..][i], tf) >= d.newLast {
        BucketMonotone(ts[0], ts[1..][i], tf);
      }
      PersistedAtLeast(d.newLast, ts[1..], tf);
    }
  }

  /** With non-decreasing tick times, the persisted bucket starts strictly increase. */
  lemma {:induction false} PersistedStartsIncrease(lastTime: nat, ts: seq<nat>, tf: nat)
    requires tf > 0 && NonDecreasing(ts)
    ensures StrictlyIncreasing(PersistedStarts(lastTime, ts, tf))
    decreases |ts|
  {
    if |ts| > 0 {
      var d := CheckBoundary(lastTime, ts[0], tf);
      var rest := PersistedStarts(d.newLast, ts[1..], tf);
      PersistedStartsIncrease(d.newLast, ts[1..], tf);
      if d.persist.Some? {
        forall i | 0 <= i < |ts[1..]| ensures Bucket(ts[1..][i], tf) >= d.newLast {
          BucketMonotone(ts[0], ts[1..][i], tf);
        }
        PersistedAtLeast(d.newLast, ts[1..], tf);
        var all := [lastTime] + rest;
        forall i, j | 0 <= i < j < |all| ensures all[i] < all[j] {
          if i == 0 {
            assert all[j] in rest;
          } else {
            assert all[i] == rest[i - 1] && all[j] == rest[j - 1];
          }
        }
      }
    }
  }

  /** `lastCandleTime.get(tf) || 0`. */
  function LastTimeOf(lastCandleTime: map<Timeframe, nat>, tf: Timeframe): nat {
    if tf in lastCandleTime then lastCandleTime[tf] else 0
  }

  /**
   * What one tick does to the `candlesticks` table for timeframe `tf`,
   * given that aggregator's history: the completed bucket `lastTime` is
   * upserted when the aggregation has a candle for it.
   */
  function FlushTimeframe(table: map<CandleKey, CandleRow>, tf: Timeframe, lastTime: nat,
                          prices: seq<Tick>, t: nat): (r: map<CandleKey, CandleRow>)
    ensures lastTime > 0 && Bucket(t, TimeframeMs(tf)) > lastTime && lastTime in Aggregate(prices, TimeframeMs(tf)) ==>
      CandleKey(Symbol, Key(tf), lastTime) in r
    ensures forall k :: k in r <==> (k in table || (k == CandleKey(Symbol, Key(tf), lastTime) &&
      CheckBoundary(lastTime, t, TimeframeMs(tf)).persist.Some? && lastTime in Aggregate(prices, TimeframeMs(tf))))
    ensures forall k :: k in table && k.timeframe != Key(tf) ==> r[k] == table[k]
  {
    var ms := TimeframeMs(tf);
    var d := CheckBoundary(lastTime, t, ms);
    var candles := Aggregate(prices, ms);
    if d.persist.Some? && lastTime in candles then
      PersistCandle(table, Symbol, Key(tf), lastTime, lastTime + ms, candles[lastTime])
    else table
  }

  /**
   * The row `FlushTimeframe` writes: the summary of bucket `lastTime`'s
   * prices, closing at `lastTime + tf`, inserted or merged into the row
   * already there; every other row keeps its value, and without a
   * completed candle the table is unchanged.
   */
  lemma FlushTimeframeValues(table: map<CandleKey, CandleRow>, tf: Timeframe, lastTime: nat, prices: seq<Tick>, t: nat)
    ensures var r, key, ms := FlushTimeframe(table, tf, lastTime, prices, t), CandleKey(Symbol, Key(tf), lastTime), TimeframeMs(tf);
      && (forall k :: k in table && k != key ==> r[k] == table[k])
      && (!(CheckBoundary(lastTime, t, ms).persist.Some? && lastTime in Aggregate(prices, ms)) ==> r == table)
      && (CheckBoundary(lastTime, t, ms).persist.Some? && lastTime in Aggregate(prices, ms) ==>
            && |BucketPrices(prices, ms, lastTime)| > 0
            && (key !in table ==> r[key] == CandleRow(lastTime + ms, Summary(BucketPrices(prices, ms, lastTime))))
            && (key in table ==> r[key] == CandleRow(table[key].closeTime,
                                                     MergeCandle(table[key].candle, Summary(BucketPrices(prices, ms, lastTime))))))
  {
    AggregateIsPerBucket(prices, TimeframeMs(tf), lastTime);
  }

  /**
   * The part of the event service's state that the trade handler changes.
   * `histories[Index(tf)]` is the tick history of timeframe `tf`'s aggregator.
   */
  datatype ServiceState = ServiceState(histories: seq<seq<Tick>>,
                                       lastCandleTime: map<Timeframe, nat>,
                                       candlesticks: map<CandleKey, CandleRow>)

  /** One history per timeframe. */
  predicate Shaped(s: ServiceState) {
    |s.histories| == |AllTimeframes|
  }

  function HistoryOf(s: ServiceState, tf: Timeframe): seq<Tick>
    requires Shaped(s)
  {
    s.histories[Index(tf)]
  }

  /** One iteration of the handler's loop, for timeframe `tf`. */
  function TimeframeStep(s: ServiceState, tf: Timeframe, tick: Tick): (r: ServiceState)
    requires Shaped(s)
    ensures Shaped(r)
  {
    var prices := HistoryOf(s, tf) + [tick];
    var lastTime := LastTimeOf(s.lastCandleTime, tf);
    var candleTime := Bucket(tick.timestamp, TimeframeMs(tf));
    ServiceState(s.histories[Index(tf) := prices],
                 if candleTime != lastTime then s.lastCandleTime[tf := candleTime] else s.lastCandleTime,
                 FlushTimeframe(s.candlesticks, tf, lastTime, prices, tick.timestamp))
  }

  /** The state after the first `n` timeframes have handled `tick`. */
  function StepUpTo(s: ServiceState, tick: Tick, n: nat): (r: ServiceState)
    requires Shaped(s) && n <= |AllTimeframes|
    ensures Shaped(r)
  {
    if n == 0 then s else TimeframeStep(StepUpTo(s, tick, n - 1), AllTimeframes[n - 1], tick)
  }

  /** The whole trade handler, on the state it changes. */
  function HandleTrade(s: ServiceState, tick: Tick): (r: ServiceState)
    requires Shaped(s)
    ensures Shaped(r)
  {
    StepUpTo(s, tick, |AllTimeframes|)
  }

  /** A stored last bucket is one the timeframe's aggregator has a candle for. */
  ghost predicate ValidState(s: ServiceState) {
    Shaped(s) &&
    forall tf :: LastTimeOf(s.lastCandleTime, tf) == 0 ||
                 LastTimeOf(s.lastCandleTime, tf) in Aggregate(HistoryOf(s, tf), TimeframeMs(tf))
  }

  /** One loop iteration records the tick for `tf` only, moves `tf` to the tick's bucket, and keeps the invariant. */
  lemma TimeframeStepFacts(s: ServiceState, tf: Timeframe, tick: Tick)
    requires Shaped(s)
    ensures var r := TimeframeStep(s, tf, tick);
      && HistoryOf(r, tf) == HistoryOf(s, tf) + [tick]
      && (forall tf' :: tf' != tf ==> HistoryOf(r, tf') == HistoryOf(s, tf'))
      && LastTimeOf(r.lastCandleTime, tf) == Bucket(tick.timestamp, TimeframeMs(tf))
      && (forall tf' :: tf' != tf ==> LastTimeOf(r.lastCandleTime, tf') == LastTimeOf(s.lastCandleTime, tf'))
      && (ValidState(s) ==> ValidState(r))
  {
    AggregateSnoc(HistoryOf(s, tf), tick, TimeframeMs(tf));
    forall tf' | tf' != tf ensures Index(tf') != Index(tf) {
      assert AllTimeframes[Index(tf')] == tf';
    }
  }

  /** After the first `n` timeframes, exactly those have recorded the tick and moved to its bucket. */
  lemma {:induction false} StepUpToMoves(s: ServiceState, tick: Tick, n: nat)
    requires Shaped(s) && n <= |AllTimeframes|
    ensures var r := StepUpTo(s, tick, n);
      && (forall tf :: HistoryOf(r, tf) == if Index(tf) < n then HistoryOf(s, tf) + [tick] else HistoryOf(s, tf))
      && (forall tf :: LastTimeOf(r.lastCandleTime, tf) ==
            if Index(tf) < n then Bucket(tick.timestamp, TimeframeMs(tf)) else LastTimeOf(s.lastCandleTime, tf))
      && (ValidState(s) ==> ValidState(r))
    decreases n
  {
    if n > 0 {
      var step, p := AllTimeframes[n - 1], StepUpTo(s, tick, n - 1);
      var r := TimeframeStep(p, step, tick);
      assert StepUpTo(s, tick, n) == r;
      IndexInverse(n - 1);
      StepUpToMoves(s, tick, n - 1);
      TimeframeStepFacts(p, step, tick);
      forall tf
        ensures HistoryOf(r, tf) == if Index(tf) < n then HistoryOf(s, tf) + [tick] else HistoryOf(s, tf)
        ensures LastTimeOf(r.lastCandleTime, tf) ==
          if Index(tf) < n then Bucket(tick.timestamp, TimeframeMs(tf)) else LastTimeOf(s.lastCandleTime, tf)
      {
        if tf != step {
          assert Index(tf) != n - 1;
        }
      }
    }
  }

  /** The row key of timeframe `tf`'s last bucket in state `s`. */
  function LastKey(s: ServiceState, tf: Timeframe): CandleKey {
    CandleKey(Symbol, Key(tf), LastTimeOf(s.lastCandleTime, tf))
  }

  /** Whether `tick` completes timeframe `tf`'s last bucket in state `s`. */
  predicate Completes(s: ServiceState, tf: Timeframe, tick: Tick) {
    CheckBoundary(LastTimeOf(s.lastCandleTime, tf), tick.timestamp, TimeframeMs(tf)).persist.Some?
  }

  /** The keys of the buckets `tick` completes among the first `n` timeframes. */
  function CompletedKeys(s: ServiceState, tick: Tick, n: nat): set<CandleKey>
    requires n <= |AllTimeframes|
  {
    if n == 0 then {}
    else
      var tf := AllTimeframes[n - 1];
      CompletedKeys(s, tick, n - 1) + (if Completes(s, tf, tick) then {LastKey(s, tf)} else {})
  }

  /** A key is completed among the first `n` timeframes iff it is the last bucket of one the tick completes. */
  lemma {:induction false} CompletedKeysMeaning(s: ServiceState, tick: Tick, n: nat, k: CandleKey)
    requires n <= |AllTimeframes|
    ensures k in CompletedKeys(s, tick, n) <==>
      exists i :: 0 <= i < n && Completes(s, AllTimeframes[i], tick) && k == LastKey(s, AllTimeframes[i])
    decreases n
  {
    if n > 0 {
      CompletedKeysMeaning(s, tick, n - 1, k);
    }
  }

  /** One loop iteration adds the row of the bucket the tick completed, if any, and nothing else. */
  lemma TimeframeStepRows(p: ServiceState, tf: Timeframe, tick: Tick)
    requires Shaped(p)
    requires LastTimeOf(p.lastCandleTime, tf) == 0 ||
             LastTimeOf(p.lastCandleTime, tf) in Aggregate(HistoryOf(p, tf), TimeframeMs(tf))
    ensures TimeframeStep(p, tf, tick).candlesticks.Keys ==
      p.candlesticks.Keys + (if Completes(p, tf, tick) then {LastKey(p, tf)} else {})
  {
    AggregateSnoc(HistoryOf(p, tf), tick, TimeframeMs(tf));
  }

  /** One iteration for `tf` leaves the history and last bucket of every other timeframe alone. */
  lemma TimeframeStepOther(p: ServiceState, tf: Timeframe, other: Timeframe, tick: Tick)
    requires Shaped(p) && tf != other
    ensures HistoryOf(TimeframeStep(p, tf, tick), other) == HistoryOf(p, other)
    ensures LastTimeOf(TimeframeStep(p, tf, tick).lastCandleTime, other) == LastTimeOf(p.lastCandleTime, other)
  {
    assert Index(other) != Index(tf) by {
      assert AllTimeframes[Index(other)] == other;
    }
  }

  /** A timeframe the loop has not reached yet still has its old history and last bucket. */
  lemma {:induction false} StepUpToUntouched(s: ServiceState, tick: Tick, n: nat, tf: Timeframe)
    requires Shaped(s) && n <= Index(tf)
    ensures HistoryOf(StepUpTo(s, tick, n), tf) == HistoryOf(s, tf)
    ensures LastTimeOf(StepUpTo(s, tick, n).lastCandleTime, tf) == LastTimeOf(s.lastCandleTime, tf)
    decreases n
  {
    if n > 0 {
      var step := AllTimeframes[n - 1];
      var p := StepUpTo(s, tick, n - 1);
      assert StepUpTo(s, tick, n) == TimeframeStep(p, step, tick);
      StepUpToUntouched(s, tick, n - 1, tf);
      assert step != tf by {
        IndexInverse(n - 1);
      }
      TimeframeStepOther(p, step, tf, tick);
    }
  }

  /** After the first `n` timeframes the rows are the old rows plus the completed buckets. */
  predicate RowsAfter(s: ServiceState, tick: Tick, n: nat)
    requires Shaped(s) && n <= |AllTimeframes|
  {
    StepUpTo(s, tick, n).candlesticks.Keys == s.candlesticks.Keys + CompletedKeys(s, tick, n)
  }

  /** `TimeframeStepRows` for a state `p` that agrees with the valid state `s` on timeframe `tf`. */
  lemma TimeframeStepRowsFrom(s: ServiceState, p: ServiceState, tf: Timeframe, tick: Tick)
    requires ValidState(s) && Shaped(p)
    requires HistoryOf(p, tf) == HistoryOf(s, tf) && LastTimeOf(p.lastCandleTime, tf) == LastTimeOf(s.lastCandleTime, tf)
    ensures TimeframeStep(p, tf, tick).candlesticks.Keys ==
      p.candlesticks.Keys + (if Completes(s, tf, tick) then {LastKey(s, tf)} else {})
  {
    assert LastKey(p, tf) == LastKey(s, tf) && (Completes(p, tf, tick) <==> Completes(s, tf, tick));
    TimeframeStepRows(p, tf, tick);
  }

  /** The inductive step of `StepUpToRows`: timeframe `n - 1` adds its completed bucket, if any. */
  lemma StepUpToRowsStep(s: ServiceState, tick: Tick, n: nat)
    requires ValidState(s) && 0 < n <= |AllTimeframes|
    requires RowsAfter(s, tick, n - 1)
    ensures RowsAfter(s, tick, n)
  {
    var tf := AllTimeframes[n - 1];
    var p := StepUpTo(s, tick, n - 1);
    assert HistoryOf(p, tf) == HistoryOf(s, tf) && LastTimeOf(p.lastCandleTime, tf) == LastTimeOf(s.lastCandleTime, tf) by {
      IndexInverse(n - 1);
      StepUpToUntouched(s, tick, n - 1, tf);
    }
    TimeframeStepRowsFrom(s, p, tf, tick);
  }

  /** Induction over the loop: the rows after `n` timeframes. */
  lemma {:induction false} StepUpToRows(s: ServiceState, tick: Tick, n: nat)
    requires ValidState(s) && n <= |AllTimeframes|
    ensures RowsAfter(s, tick, n)
    decreases n
  {
    if n > 0 {
      StepUpToRows(s, tick, n - 1);
      StepUpToRowsStep(s, tick, n);
    }
  }

  /** The rows of the trade handler: one more for each bucket the tick completed, and no other. */
  lemma HandleTradeKeys(s: ServiceState, tick: Tick)
    requires ValidState(s)
    ensures var r := HandleTrade(s, tick);
      && r.candlesticks.Keys == s.candlesticks.Keys + CompletedKeys(s, tick, |AllTimeframes|)
      && (forall tf :: Completes(s, tf, tick) ==> LastKey(s, tf) in r.candlesticks)
      && (forall k :: k in r.candlesticks && k !in s.candlesticks ==>
            exists tf :: Completes(s, tf, tick) && k == LastKey(s, tf))
  {
    StepUpToRows(s, tick, |AllTimeframes|);
    var r := HandleTrade(s, tick);
    forall tf | Completes(s, tf, tick) ensures LastKey(s, tf) in r.candlesticks {
      CompletedKeysMeaning(s, tick, |AllTimeframes|, LastKey(s, tf));
      assert AllTimeframes[Index(tf)] == tf;
    }
    forall k | k in r.candlesticks && k !in s.candlesticks
      ensures exists tf :: Completes(s, tf, tick) && k == LastKey(s, tf)
    {
      CompletedKeysMeaning(s, tick, |AllTimeframes|, k);
      var i :| 0 <= i < |AllTimeframes| && Completes(s, AllTimeframes[i], tick) && k == LastKey(s, AllTimeframes[i]);
      assert Completes(s, AllTimeframes[i], tick);
    }
  }

  /**
   * The trade handler: every timeframe records the tick and moves to its
   * bucket, the invariant is kept, and the rows are the old rows plus one
   * for each bucket the tick completed: none disappears and no other
   * appears.
   */
  lemma HandleTradeFacts(s: ServiceState, tick: Tick)
    requires ValidState(s)
    ensures var r := HandleTrade(s, tick);
      && (forall tf :: HistoryOf(r, tf) == HistoryOf(s, tf) + [tick])
      && (forall tf :: LastTimeOf(r.lastCandleTime, tf) == Bucket(tick.timestamp, TimeframeMs(tf)))
      && ValidState(r)
      && r.candlesticks.Keys == s.candlesticks.Keys + CompletedKeys(s, tick, |AllTimeframes|)
      && (forall tf :: Completes(s, tf, tick) ==> LastKey(s, tf) in r.candlesticks)
      && (forall k :: k in r.candlesticks && k !in s.candlesticks ==>
            exists tf :: Completes(s, tf, tick) && k == LastKey(s, tf))
  {
    StepUpToMoves(s, tick, |AllTimeframes|);
    HandleTradeKeys(s, tick);
  }

  /**
   * The row the completed last bucket of timeframe `tf` is stored as: the
   * summary of that bucket's prices, inserted with close time
   * `lastTime + tf`, or merged into the row already stored under its key.
   */
  function CompletedRow(s: ServiceState, tf: Timeframe): CandleRow
    requires Shaped(s)
    requires |BucketPrices(HistoryOf(s, tf), TimeframeMs(tf), LastTimeOf(s.lastCandleTime, tf))| > 0
  {
    var lastTime := LastTimeOf(s.lastCandleTime, tf);
    var c := Summary(BucketPrices(HistoryOf(s, tf), TimeframeMs(tf), lastTime));
    if LastKey(s, tf) in s.candlesticks then
      CandleRow(s.candlesticks[LastKey(s, tf)].closeTime, MergeCandle(s.candlesticks[LastKey(s, tf)].candle, c))
    else CandleRow(lastTime + TimeframeMs(tf), c)
  }

  /** A tick outside bucket `key` adds nothing to that bucket's prices. */
  lemma BucketPricesOther(ticks: seq<Tick>, tick: Tick, tf: nat, key: int)
    requires tf > 0 && Bucket(tick.timestamp, tf) != key
    ensures BucketPrices(ticks + [tick], tf, key) == BucketPrices(ticks, tf, key)
  {
    assert (ticks + [tick])[..|ticks|] == ticks;
  }

  /** In a valid state, a bucket the tick completes has prices. */
  lemma CompletedHasPrices(s: ServiceState, tf: Timeframe, tick: Tick)
    requires ValidState(s) && Completes(s, tf, tick)
    ensures |BucketPrices(HistoryOf(s, tf), TimeframeMs(tf), LastTimeOf(s.lastCandleTime, tf))| > 0
  {
    AggregateIsPerBucket(HistoryOf(s, tf), TimeframeMs(tf), LastTimeOf(s.lastCandleTime, tf));
  }

  /** The last bucket of timeframe `AllTimeframes[n]` is not among the buckets completed before it in the loop. */
  lemma NotCompletedEarlier(s: ServiceState, tick: Tick, n: nat)
    requires n < |AllTimeframes|
    ensures LastKey(s, AllTimeframes[n]) !in CompletedKeys(s, tick, n)
  {
    AllTimeframesComplete();
    CompletedKeysMeaning(s, tick, n, LastKey(s, AllTimeframes[n]));
  }

  /** Every row of `before` outside `done` is still in `after` with the same value. */
  ghost predicate KeepsRows(before: map<CandleKey, CandleRow>, after: map<CandleKey, CandleRow>, done: set<CandleKey>) {
    forall k :: k in before && k !in done ==> k in after && after[k] == before[k]
  }

  /** Every bucket `tick` completes among the first `n` timeframes holds its `CompletedRow` in `table`. */
  ghost predicate HoldsCompleted(s: ServiceState, tick: Tick, table: map<CandleKey, CandleRow>, n: nat)
    requires Shaped(s) && n <= |AllTimeframes|
  {
    forall i :: 0 <= i < n && Completes(s, AllTimeframes[i], tick) ==>
      && |BucketPrices(HistoryOf(s, AllTimeframes[i]), TimeframeMs(AllTimeframes[i]),
                       LastTimeOf(s.lastCandleTime, AllTimeframes[i]))| > 0
      && LastKey(s, AllTimeframes[i]) in table && table[LastKey(s, AllTimeframes[i])] == CompletedRow(s, AllTimeframes[i])
  }

  /** After the first `n` timeframes, rows not completed keep their values and each completed bucket holds its `CompletedRow`. */
  ghost predicate ValuesAfter(s: ServiceState, tick: Tick, n: nat)
    requires Shaped(s) && n <= |AllTimeframes|
  {
    var r := StepUpTo(s, tick, n).candlesticks;
    KeepsRows(s.candlesticks, r, CompletedKeys(s, tick, n)) && HoldsCompleted(s, tick, r, n)
  }

  /**
   * The step of `StepUpToValues` on the tables alone: `q` is `p` with at
   * most the row of timeframe `n - 1`'s last bucket rewritten, to its
   * `CompletedRow` exactly when the tick completes that bucket.
   */
  lemma ValuesStepTables(s: ServiceState, tick: Tick, n: nat, p: map<CandleKey, CandleRow>, q: map<CandleKey, CandleRow>)
    requires Shaped(s) && 0 < n <= |AllTimeframes|
    requires KeepsRows(s.candlesticks, p, CompletedKeys(s, tick, n - 1)) && HoldsCompleted(s, tick, p, n - 1)
    requires var tf := AllTimeframes[n - 1];
      && (forall k :: k in p && k != LastKey(s, tf) ==> k in q && q[k] == p[k])
      && (!Completes(s, tf, tick) ==> q == p)
      && (Completes(s, tf, tick) ==>
            && |BucketPrices(HistoryOf(s, tf), TimeframeMs(tf), LastTimeOf(s.lastCandleTime, tf))| > 0
            && LastKey(s, tf) in q && q[LastKey(s, tf)] == CompletedRow(s, tf))
    requires forall i :: 0 <= i < n - 1 ==> LastKey(s, AllTimeframes[i]) != LastKey(s, AllTimeframes[n - 1])
    ensures KeepsRows(s.candlesticks, q, CompletedKeys(s, tick, n)) && HoldsCompleted(s, tick, q, n)
  {
  }

  /**
   * One iteration's upsert, for a state `p` reached after the timeframes
   * before `tf`: when the tick completes `tf`'s bucket, the row is
   * `CompletedRow`; every other row keeps its value in `p`.
   */
  lemma FlushFrom(s: ServiceState, p: ServiceState, tf: Timeframe, tick: Tick)
    requires ValidState(s) && Shaped(p)
    requires HistoryOf(p, tf) == HistoryOf(s, tf) && LastTimeOf(p.lastCandleTime, tf) == LastTimeOf(s.lastCandleTime, tf)
    requires LastKey(s, tf) in p.candlesticks <==> LastKey(s, tf) in s.candlesticks
    requires LastKey(s, tf) in s.candlesticks ==> p.candlesticks[LastKey(s, tf)] == s.candlesticks[LastKey(s, tf)]
    ensures var q := TimeframeStep(p, tf, tick).candlesticks;
      && (forall k :: k in p.candlesticks && k != LastKey(s, tf) ==> k in q && q[k] == p.candlesticks[k])
      && (!Completes(s, tf, tick) ==> q == p.candlesticks)
      && (Completes(s, tf, tick) ==>
            && |BucketPrices(HistoryOf(s, tf), TimeframeMs(tf), LastTimeOf(s.lastCandleTime, tf))| > 0
            && LastKey(s, tf) in q && q[LastKey(s, tf)] == CompletedRow(s, tf))
  {
    var h, lastTime, ms := HistoryOf(s, tf), LastTimeOf(s.lastCandleTime, tf), TimeframeMs(tf);
    FlushTimeframeValues(p.candlesticks, tf, lastTime, h + [tick], tick.timestamp);
    if Completes(s, tf, tick) {
      CompletedHasPrices(s, tf, tick);
      AggregateSnoc(h, tick, ms);
      BucketPricesOther(h, tick, ms, lastTime);
    }
  }

  /** The inductive step of `StepUpToValues`. */
  lemma StepUpToValuesStep(s: ServiceState, tick: Tick, n: nat)
    requires ValidState(s) && 0 < n <= |AllTimeframes|
    ensures ValuesAfter(s, tick, n - 1) ==> ValuesAfter(s, tick, n)
  {
    if ValuesAfter(s, tick, n - 1) {
      StepUpToRows(s, tick, n - 1);
      var tf := AllTimeframes[n - 1];
      var p := StepUpTo(s, tick, n - 1);
      assert HistoryOf(p, tf) == HistoryOf(s, tf) && LastTimeOf(p.lastCandleTime, tf) == LastTimeOf(s.lastCandleTime, tf) by {
        IndexInverse(n - 1);
        StepUpToUntouched(s, tick, n - 1, tf);
      }
      NotCompletedEarlier(s, tick, n - 1);
      FlushFrom(s, p, tf, tick);
      forall i | 0 <= i < n - 1 ensures LastKey(s, AllTimeframes[i]) != LastKey(s, tf) {
        AllTimeframesComplete();
      }
      ValuesStepTables(s, tick, n, p.candlesticks, TimeframeStep(p, tf, tick).candlesticks);
    }
  }

  /** Before the loop every row has its old value and nothing is completed yet. */
  lemma ValuesAtStart(s: ServiceState, tick: Tick)
    requires Shaped(s)
    ensures ValuesAfter(s, tick, 0)
  {
    assert StepUpTo(s, tick, 0) == s && CompletedKeys(s, tick, 0) == {};
  }

  /** Induction over the loop: the row values after `n` timeframes. */
  lemma {:induction false} StepUpToValues(s: ServiceState, tick: Tick, n: nat)
    requires ValidState(s) && n <= |AllTimeframes|
    ensures ValuesAfter(s, tick, n)
    decreases n
  {
    if n == 0 {
      ValuesAtStart(s, tick);
    } else {
      StepUpToValues(s, tick, n - 1);
      StepUpToValuesStep(s, tick, n);
    }
  }

  /**
   * The rows the trade handler writes: each bucket the tick completes is
   * stored as the summary of its prices (inserted closing at
   * `lastTime + tf`, or merged into the existing row), and every other row
   * keeps its value.
   */
  lemma HandleTradeRowValues(s: ServiceState, tick: Tick)
    requires ValidState(s)
    ensures var r := HandleTrade(s, tick).candlesticks;
      && (forall k :: k in s.candlesticks && k !in CompletedKeys(s, tick, |AllTimeframes|) ==> k in r && r[k] == s.candlesticks[k])
      && (forall tf :: Completes(s, tf, tick) ==>
            && |BucketPrices(HistoryOf(s, tf), TimeframeMs(tf), LastTimeOf(s.lastCandleTime, tf))| > 0
            && LastKey(s, tf) in r && r[LastKey(s, tf)] == CompletedRow(s, tf))
  {
    StepUpToValues(s, tick, |AllTimeframes|);
    forall tf | Completes(s, tf, tick)
      ensures var i := Index(tf); 0 <= i < |AllTimeframes| && Completes(s, AllTimeframes[i], tick)
    {
    }
  }

  class EventService {
    /** The six aggregators, in the order of `AllTimeframes`. */
    const aggregators: seq<CandlestickAggregator>
    var lastCandleTime: map<Timeframe, nat>
    var candlesticks: map<CandleKey, CandleRow>
    /** The messages published on the "price:updates" channel. */
    var priceChannel: seq<Tick>
    ghost const Repr: set<CandlestickAggregator>

    /** One distinct "BTCUSDT" aggregator per timeframe. */
    ghost predicate Wired() {
      && |aggregators| == |AllTimeframes|
      && (forall i :: 0 <= i < |aggregators| ==> aggregators[i] in Repr && aggregators[i].symbol == Symbol)
      && (forall i, j :: 0 <= i < j < |aggregators| ==> aggregators[i] != aggregators[j])
    }

    ghost function State(): (s: ServiceState)
      requires Wired()
      reads this`lastCandleTime, this`candlesticks, Repr
      ensures Shaped(s)
    {
      ServiceState([aggregators[0].prices, aggregators[1].prices, aggregators[2].prices,
                    aggregators[3].prices, aggregators[4].prices, aggregators[5].prices],
                   lastCandleTime, candlesticks)
    }

    ghost predicate Valid()
      reads this`lastCandleTime, this`candlesticks, Repr
    {
      Wired() && ValidState(State())
    }

    constructor ()
      ensures Valid() && fresh(Repr)
      ensures State() == ServiceState([[], [], [], [], [], []], map[], map[]) && priceChannel == []
    {
      var a1 := new CandlestickAggregator(Symbol);
      var a5 := new CandlestickAggregator(Symbol);
      var a15 := new CandlestickAggregator(Symbol);
      var h1 := new CandlestickAggregator(Symbol);
      var h4 := new CandlestickAggregator(Symbol);
      var d1 := new CandlestickAggregator(Symbol);
      aggregators := [a1, a5, a15, h1, h4, d1];
      Repr := {a1, a5, a15, h1, h4, d1};
      lastCandleTime := map[];
      candlesticks := map[];
      priceChannel := [];
    }

    /**
     * The handler of one trade: the loop over the six timeframes, then the
     * price published on "price:updates".
     */
    method OnTrade(price: int, timestamp: nat)
      requires Valid()
      modifies this, Repr
      ensures Valid()
      ensures State() == HandleTrade(old(State()), Tick(price, timestamp))
      ensures priceChannel == old(priceChannel) + [Tick(price, timestamp)]
    {
      ghost var s0 := State();
      assert ValidState(s0);
      for j := 0 to |aggregators|
        invariant Wired() && State() == StepUpTo(s0, Tick(price, timestamp), j)
        invariant priceChannel == old(priceChannel)
      {
        ProcessTimeframe(j, AllTimeframes[j], aggregators[j], price, timestamp);
      }
      HandleTradeFacts(s0, Tick(price, timestamp));
      assert ValidState(HandleTrade(s0, Tick(price, timestamp)));
      priceChannel := priceChannel + [Tick(price, timestamp)];
    }

    /** The body of the per-timeframe loop of the trade handler. */
    method ProcessTimeframe(j: nat, timeframe: Timeframe, aggregator: CandlestickAggregator, price: int, timestamp: nat)
      requires Wired() && j < |aggregators| && timeframe == AllTimeframes[j] && aggregator == aggregators[j]
      modifies this, aggregator
      ensures Wired() && State() == TimeframeStep(old(State()), timeframe, Tick(price, timestamp))
      ensures priceChannel == old(priceChannel)
    {
      IndexInverse(j);
      ghost var s0 := State();
      aggregator.AddPrice(price, timestamp);
      assert State().histories == s0.histories[j := s0.histories[j] + [Tick(price, timestamp)]];
      var tf := TimeframeMs(timeframe);
      var candleTime := timestamp / tf * tf;
      var lastTime := if timeframe in lastCandleTime then lastCandleTime[timeframe] else 0;
      PersistIfComplete(timeframe, aggregator, candleTime, lastTime, timestamp);
      if candleTime != lastTime {
        lastCandleTime := lastCandleTime[timeframe := candleTime];
      }
    }

    /** The `completedCandle` branch of the per-timeframe loop. */
    method PersistIfComplete(timeframe: Timeframe, aggregator: CandlestickAggregator,
                             candleTime: nat, lastTime: nat, timestamp: nat)
      requires candleTime == Bucket(timestamp, TimeframeMs(timeframe)) && aggregator.symbol == Symbol
      modifies this`candlesticks
      ensures candlesticks == FlushTimeframe(old(candlesticks), timeframe, lastTime, aggregator.prices, timestamp)
    {
      var tf := TimeframeMs(timeframe);
      if candleTime > lastTime && lastTime > 0 {
        var candles := aggregator.AggregateCandles(tf);
        if lastTime in candles {
          candlesticks := PersistCandle(candlesticks, aggregator.symbol, Key(timeframe), lastTime, lastTime + tf,
                                        candles[lastTime]);
        }
      }
    }
  }
}
