# Trading platform core, modelled in Dafny

This project models the decision logic of a small BTC/USDT trading
platform. The platform has four services: an API gateway, an execution
engine, an event service and a browser client. The Redis channels and
Postgres tables they share become in-memory values.

- **Order book** (`orderbook.dfy`, module `OrderBook`). This is the event
  service's order-book maintainer. It uses a binary `Heap` class with a
  comparator: a max-heap for bid prices and a min-heap for ask prices.
  Two price-to-quantity level maps sit beside the heaps. A snapshot load
  fills them, and depth updates are gated on `lastUpdateId`. The
  best-price queries pop lazily deleted ("tombstoned") heap entries until
  the top price has a level. Proved:
  - the heap property is kept by `push`, `pop`, `bubbleUp` and `bubbleDown`;
  - every key of a level map is in its heap;
  - the best bid is the greatest key of the bid map, and the best ask is
    the least key of the ask map;
  - the read API returns the 20 best levels of each side, in order.
- **Server candles** (`market.dfy`, `candles.dfy`, `candle_service.dfy`;
  modules `Market`, `Candles`, `CandleService`).
  - The per-timeframe aggregator folds its tick history into OHLCV buckets
    (`Math.floor(t / tf) * tf`). Each bucket is the summary of its own
    prices (first, max, min, last, count + 1).
  - The `candlesticks` table's upsert merge rule is a pure function.
  - The trade handler runs one loop over six timeframes, 1m to 1d. It keeps
    the `lastCandleTime` map and persists the previous bucket once a tick
    for a later bucket arrives. The handler is proved to record every tick
    everywhere and to move every timeframe to the tick's bucket. It adds
    exactly one row per completed bucket. That row holds the summary of the
    bucket's prices, closing one timeframe later, or that summary merged
    into the row already stored under its key. Every other row keeps its
    value.
- **Browser candles** (`web_candles.dfy`, module `WebCandles`). The chart's
  aggregator keeps a candle map, updated tick by tick and rebuilt when the
  timeframe changes. Its invariant: the candles are the fold of the whole
  price history under the current timeframe. Proved:
  - the browser agrees with the server aggregator on open, high, low and
    close;
  - `getCandles` returns the latest 100 candles in time order;
  - `getLatestCandle` returns the newest candle.
- **Execution engine** (`types.dfy`, `store.dfy`, `execution.dfy`; modules
  `Types`, `Store`, `Execution`). Each transaction is one atomic step over
  the shared tables. A rolled-back transaction leaves them unchanged.
  - MARKET orders execute at the latest observed price.
  - LIMIT orders are stored as OPEN. A trigger scan on every price update
    fills them: a BUY when its limit is at or above the price, a SELL when
    its limit is at or below it.
  - Proved: the balance checks and the error messages; that settlement
    conserves `balance + price * btcBalance`; and exactly which rows,
    trades and messages each transaction writes.
- **Gateway order routes** (`gateway.dfy`, module `Gateway`):
  - validation of `POST /` and the command it publishes;
  - the cancel decision: 404, then 403, then cancel;
  - the filter of the limit-order listing.

Every imperative piece of the source is a class with `modifies` clauses and
loops with invariants: the heap, the order-book manager, both aggregators,
the event service, the shared database, the execution service and the
routes. Each such class is specified against a pure function of its state,
and the source's promises are proved about that function.

Inputs from the outside world become parameters:
- the authenticated user id;
- the order ids that `randomUUID` would generate;
- ticks and price updates;
- the parsed snapshot and depth-update levels.

Trade ids are a counter: the size of the trade table.

## Model

| member | source | states |
|---|---|---|
| Types.TypeOf | packages/shared/src/types.ts:40-48 | No published message is tagged ORDER_CREATED or PRICE_UPDATE |
| OrderBook.Heap.constructor | apps/event-service/src/order-book-manager.ts:5-11 | A new heap has the given comparator, is empty and satisfies the heap property |
| OrderBook.Heap.Peek | apps/event-service/src/order-book-manager.ts:13-15 | None iff the heap is empty; otherwise an element of the heap that no element beats under the comparator (the max for bids, the min for asks) |
| OrderBook.Heap.Push | apps/event-service/src/order-book-manager.ts:17-20 | Keeps the heap property; the contents gain exactly one copy of the value |
| OrderBook.Heap.Pop | apps/event-service/src/order-book-manager.ts:22-31 | Keeps the heap property; returns what `peek` returned before; on an empty heap returns none and changes nothing; otherwise removes exactly the returned top |
| OrderBook.Heap.BubbleUp | apps/event-service/src/order-book-manager.ts:33-41 | From a heap whose last element may beat its parent, restores the heap property by swaps only (same contents) |
| OrderBook.Heap.BubbleDown | apps/event-service/src/order-book-manager.ts:43-60 | From a heap whose root may be beaten by a child, restores the heap property by swaps only (same contents) |
| OrderBook.RootIsBest | apps/event-service/src/order-book-manager.ts:13-15 | In a heap no element beats the root |
| OrderBook.SwapUp | apps/event-service/src/order-book-manager.ts:36-39 | One bubbleUp swap moves the only possible violation from `i` to its parent |
| OrderBook.SettledUp | apps/event-service/src/order-book-manager.ts:35-37 | When bubbleUp stops (at the root or when the parent beats `i`) the array is a heap |
| OrderBook.SwapDown | apps/event-service/src/order-book-manager.ts:46-58 | One bubbleDown swap with the best child moves the only possible violation to that child |
| OrderBook.SettledDown | apps/event-service/src/order-book-manager.ts:56 | When bubbleDown stops (no child at least as good) the array is a heap |
| OrderBook.Swap | apps/event-service/src/order-book-manager.ts:38 | Exchanges two positions, keeps the others and the multiset of contents |
| OrderBook.OrderBookManager.constructor | apps/event-service/src/order-book-manager.ts:73-85 | Empty level maps, empty max-heap of bids and min-heap of asks, update id 0; the invariant holds |
| OrderBook.OrderBookManager.LoadSnapshot | apps/event-service/src/order-book-manager.ts:104-122 | Sets the update id to the snapshot's; both maps are rebuilt from the snapshot alone; each heap gains every snapshot price (old entries stay); the invariant, including "every map key is in its heap", holds afterwards |
| OrderBook.OrderBookManager.LoadLevels | apps/event-service/src/order-book-manager.ts:110-122 | The snapshot loop: the map is the levels set in turn, the heap gains every price, and tracks the map |
| OrderBook.SetLevels | apps/event-service/src/order-book-manager.ts:110-122 | The level map a snapshot side loads, each level set in turn; `LoadLevels` is proved to build it |
| OrderBook.OrderBookManager.HandleDepthUpdate | apps/event-service/src/order-book-manager.ts:143-148 | An update with `U <= lastUpdateId` changes nothing; otherwise the id becomes `u`, the bid pairs then the ask pairs are applied, each heap gains exactly the prices `applyUpdates` pushes; the invariant is kept |
| OrderBook.OrderBookManager.ApplyUpdates | apps/event-service/src/order-book-manager.ts:168-186 | The update loop: the map is every pair applied in order; the heap gains exactly the non-zero prices that were not yet in the map; every map key stays in the heap |
| OrderBook.OrderBookManager.ApplyUpdate | apps/event-service/src/order-book-manager.ts:173-185 | One pair: quantity 0 deletes the level, otherwise the level is set and the price pushed only if it had no level |
| OrderBook.ApplyLevel | apps/event-service/src/order-book-manager.ts:177-184 | Quantity 0 removes the price (absent price: no change); otherwise sets it to the quantity; every other price keeps its level |
| OrderBook.ApplyLevels | apps/event-service/src/order-book-manager.ts:173-185 | A batch of pairs applied in turn; it never stores a zero quantity (a zero level in the result was already there), and `LastUpdateWins` gives each price's level |
| OrderBook.LastUpdateWins | apps/event-service/src/order-book-manager.ts:173-185 | After a batch of pairs a price's level is decided by the last pair for it (deleted for 0, set otherwise); a price no pair mentions keeps its level |
| OrderBook.ApplyStep | apps/event-service/src/order-book-manager.ts:173-185 | The map and the pushed prices after one more pair |
| OrderBook.EmptyHeapTracksNothing | apps/event-service/src/order-book-manager.ts:237-238 | If the heap is empty and tracks the map, the map is empty (so a null best price means no levels) |
| OrderBook.TrackedStep | apps/event-service/src/order-book-manager.ts:180-183 | Pushing exactly when the price had no level keeps every map key in the heap |
| OrderBook.OrderBookManager.GetBestBid | apps/event-service/src/order-book-manager.ts:235-242 | None iff the bid map is empty, otherwise its greatest key; only entries without a level are popped, so the maps and the invariant are kept |
| OrderBook.OrderBookManager.GetBestAsk | apps/event-service/src/order-book-manager.ts:244-251 | None iff the ask map is empty, otherwise its least key; only entries without a level are popped, so the maps and the invariant are kept |
| OrderBook.LevelsAt | apps/event-service/src/order-book-manager.ts:221 | One level per key, with that key's quantity |
| OrderBook.TopLevels | apps/event-service/src/order-book-manager.ts:218-226 | min(20, size) levels of the map, strictly ordered (descending for bids, ascending for asks), and every price left out comes after all those returned |
| OrderBook.OrderBookManager.GetOrderBook | apps/event-service/src/order-book-manager.ts:217-233 | A pure read: the top 20 bids descending, the top 20 asks ascending and the current update id |
| OrderBook.SnapshotThenUpdate | apps/event-service/src/order-book-manager.ts:104-122 | Snapshot id 100 with bid 50000:1 and ask 50010:1, then U=101, u=102, b=[[50000,0]], a=[[50005,2]]: best bid none, best ask 50005, update id 102 |
| Common.SetMax | apps/event-service/src/order-book-manager.ts:235-242 | The greatest element of a non-empty set of prices |
| Common.SetMin | apps/event-service/src/order-book-manager.ts:244-251 | The least element of a non-empty set of prices |
| Common.TopKeys | apps/event-service/src/order-book-manager.ts:218-220 | The first min(n, size) keys of the sorted key set, all keys of the set |
| Common.TopKeysSorted | apps/event-service/src/order-book-manager.ts:219 | `TopKeys` is strictly ordered in the requested direction |
| Common.TopKeysBest | apps/event-service/src/order-book-manager.ts:219-220 | Every key `TopKeys` leaves out comes after all the keys it keeps |
| Common.TopKeysAll | apps/web/lib/candlestick-aggregator.ts:100-101 | With n at least the set's size every key is kept |
| Common.SortedKeys | apps/web/lib/candlestick-aggregator.ts:100-101 | All keys, each once, strictly ascending |
| Market.AllTimeframesComplete | apps/event-service/src/index.ts:78-92 | Six timeframes, each once, with distinct keys "1m" … "1d" |
| Market.Index | apps/event-service/src/index.ts:127 | The position of a timeframe in the aggregator table |
| Market.IndexInverse | apps/event-service/src/index.ts:127 | Position and listing are inverse |
| Market.Bucket | apps/event-service/src/index.ts:131 | `floor(t / tf) * tf` is a multiple of `tf` with `start <= t < start + tf` |
| Market.BucketUnique | apps/event-service/src/index.ts:131 | That multiple is the only one within `tf` below `t` |
| Market.BucketMonotone | apps/event-service/src/index.ts:131 | Later times never have earlier bucket starts |
| Candles.CandlestickAggregator.constructor | apps/event-service/src/candlestick-aggregator.ts:11-14 | A new aggregator for the symbol has no ticks |
| Candles.CandlestickAggregator.AddPrice | apps/event-service/src/candlestick-aggregator.ts:16-18 | Appends exactly one (price, timestamp) at the end of the history; nothing else changes |
| Candles.CandlestickAggregator.AggregateCandles | apps/event-service/src/candlestick-aggregator.ts:51-76 | The `forEach` loop returns the fold of the history into buckets and modifies nothing |
| Candles.AddTick | apps/event-service/src/candlestick-aggregator.ts:54-72 | One `forEach` step adds the tick's bucket to the keys and leaves every other bucket's candle alone |
| Candles.Aggregate | apps/event-service/src/candlestick-aggregator.ts:51-76 | `aggregateCandles` over the history, oldest first; what it computes per bucket is stated by `AggregateIsPerBucket` |
| Candles.BucketPrices | apps/event-service/src/candlestick-aggregator.ts:54-56 | A bucket's price list is non-empty iff some tick falls in it |
| Candles.SeqMax | apps/event-service/src/candlestick-aggregator.ts:68 | The greatest of a bucket's prices |
| Candles.SeqMin | apps/event-service/src/candlestick-aggregator.ts:69 | The least of a bucket's prices |
| Candles.Summary | apps/event-service/src/candlestick-aggregator.ts:58-72 | The candle defined from a bucket's prices (first, max, min, last, count + 1) satisfies low <= open, close <= high |
| Candles.AggregateIsPerBucket | apps/event-service/src/candlestick-aggregator.ts:51-76 | A bucket has a candle iff a tick falls in it, and that candle is exactly: open = first price, high = max, low = min, close = last price, volume = tick count + 1 |
| Candles.AggregateKeys | apps/event-service/src/candlestick-aggregator.ts:55-66 | Every key is the bucket start of some tick, and every tick's bucket is a key |
| Candles.AggregateSnoc | apps/event-service/src/candlestick-aggregator.ts:16-18 | Adding a tick adds one aggregation step and the tick's bucket to the keys |
| Candles.AggregateWellFormed | apps/event-service/src/candlestick-aggregator.ts:58-72 | Every aggregated candle has low <= open <= high and low <= close <= high |
| Candles.MergeCandle | apps/event-service/src/candlestick-aggregator.ts:24-32 | The upsert merge: high widens (max), low widens (min), close is the new one, open is the old one, volumes add; well-formed inputs give a well-formed result |
| Candles.MergeHighLowLaws | apps/event-service/src/candlestick-aggregator.ts:29-30 | The high/low part of the merge is commutative and absorbs a repeated merge |
| Candles.MergeNotIdempotent | apps/event-service/src/candlestick-aggregator.ts:32 | Re-merging a candle with non-zero volume changes the row: the volume counts twice |
| Candles.PersistCandle | apps/event-service/src/candlestick-aggregator.ts:20-32 | `persistCandle` into the table: the key is inserted with the candle, or its row is merged (close time kept); all other rows unchanged |
| Candles.PersistKeepsWellFormed | apps/event-service/src/candlestick-aggregator.ts:24-32 | Upserting well-formed candles keeps every row well-formed |
| CandleService.TimeframeMs | apps/event-service/src/index.ts:95-109 | The six durations, all positive |
| CandleService.TimeframesNest | apps/event-service/src/index.ts:95-109 | Every duration is whole minutes, and each is longer than the one before and a multiple of it |
| CandleService.CheckBoundary | apps/event-service/src/index.ts:131-147 | Persists iff `lastTime > 0` and the tick's bucket is later, and then persists `lastTime`; the new last time is the tick's bucket start |
| CandleService.FirstTickPersistsNothing | apps/event-service/src/index.ts:132-135 | With no last time the first tick persists nothing |
| CandleService.OutOfOrderTick | apps/event-service/src/index.ts:135-147 | A tick from an earlier bucket persists nothing and moves the last bucket backwards |
| CandleService.PersistedAtLeast | apps/event-service/src/index.ts:132-147 | For one timeframe's `lastTimes` entry alone, folded with `CheckBoundary` over the tick times (`PersistedStarts`): with non-decreasing times, nothing below the current last bucket is ever persisted |
| CandleService.PersistedStartsIncrease | apps/event-service/src/index.ts:132-147 | For the same one-timeframe fold of `CheckBoundary`: with non-decreasing tick times the persisted bucket starts strictly increase |
| CandleService.FlushTimeframe | apps/event-service/src/index.ts:135-142 | The table gains the row `(BTCUSDT, tf, lastTime)` exactly when the bucket is complete and the aggregation has a candle for it; rows of other timeframes are unchanged |
| CandleService.FlushTimeframeValues | apps/event-service/src/index.ts:135-141 | The value `FlushTimeframe` writes: with a completed candle, the row at `(BTCUSDT, tf, lastTime)` is `Summary` of that bucket's prices with close time `lastTime + tf` when new, or that summary `MergeCandle`d into the stored row (its close time kept); every other row keeps its value; without a completed candle the table is unchanged |
| CandleService.CompletedRow | apps/event-service/src/index.ts:136-141 | The reference value of a completed bucket's row: the summary of its prices, inserted or merged |
| CandleService.TimeframeStep | apps/event-service/src/index.ts:127-147 | One loop iteration keeps one history per timeframe |
| CandleService.StepUpTo | apps/event-service/src/index.ts:127-147 | The loop after `n` timeframes keeps one history per timeframe |
| CandleService.HandleTrade | apps/event-service/src/index.ts:127-147 | The whole loop keeps one history per timeframe |
| CandleService.TimeframeStepFacts | apps/event-service/src/index.ts:128-147 | One iteration appends the tick to that timeframe's history only, sets its last time to the tick's bucket, leaves the others alone, and keeps "every stored last time has a candle" |
| CandleService.StepUpToMoves | apps/event-service/src/index.ts:127-147 | After `n` iterations exactly the first `n` timeframes have recorded the tick and moved to its bucket |
| CandleService.StepUpToUntouched | apps/event-service/src/index.ts:127 | A timeframe the loop has not reached keeps its history and last time |
| CandleService.CompletedKeysMeaning | apps/event-service/src/index.ts:135-140 | A key is a completed bucket iff it is the last bucket of a timeframe the tick completes |
| CandleService.TimeframeStepRows | apps/event-service/src/index.ts:135-142 | One iteration adds the completed bucket's row, if any, and no other row |
| CandleService.StepUpToRows | apps/event-service/src/index.ts:127-147 | After `n` iterations the rows are the old rows plus the buckets completed among the first `n` timeframes |
| CandleService.HandleTradeKeys | apps/event-service/src/index.ts:127-147 | The handler's rows are the old rows plus one per bucket the tick completes; every new row is such a bucket |
| CandleService.HandleTradeFacts | apps/event-service/src/index.ts:127-147 | Every one of the six aggregators records the tick; every last time becomes the tick's bucket; the invariant holds; exactly one row is added per completed bucket and no other row appears |
| CandleService.StepUpToValues | apps/event-service/src/index.ts:127-147 | After `n` iterations each bucket completed so far holds its `CompletedRow` and every other row keeps its old value |
| CandleService.HandleTradeRowValues | apps/event-service/src/index.ts:127-147 | After the handler, each bucket the tick completes holds `CompletedRow`: the summary of the prices it received before the tick (first, max, min, last, count + 1), closing at `lastTime + tf`, merged into any row already stored; every row not completed keeps its value |
| CandleService.EventService.constructor | apps/event-service/src/index.ts:78-92 | Six fresh aggregators with empty histories, an empty `lastCandleTime` and table |
| CandleService.EventService.OnTrade | apps/event-service/src/index.ts:121-157 | The handler's state is `HandleTrade` of the old state, the invariant is kept, and the price is published once |
| CandleService.EventService.ProcessTimeframe | apps/event-service/src/index.ts:128-147 | One iteration of the loop equals `TimeframeStep` |
| CandleService.EventService.PersistIfComplete | apps/event-service/src/index.ts:135-142 | The persist branch equals `FlushTimeframe` |
| WebCandles.TimeframeMs | apps/web/lib/candlestick-aggregator.ts:18-25 | The six durations, all positive |
| WebCandles.SameTimeframesAsServer | apps/web/lib/candlestick-aggregator.ts:18-25 | The browser's table equals the server's, and every duration is whole seconds |
| WebCandles.Step | apps/web/lib/candlestick-aggregator.ts:53-69 | One update adds its bucket to the keys and leaves every other candle alone |
| WebCandles.Fold | apps/web/lib/candlestick-aggregator.ts:49-97 | The loop of `updateCandles` and `rebuildCandles` over a list of updates, oldest first; it never drops a candle already in the map |
| WebCandles.FoldAppend | apps/web/lib/candlestick-aggregator.ts:43-47 | Folding two lists in turn is folding their concatenation |
| WebCandles.MatchesServer | apps/web/lib/candlestick-aggregator.ts:49-97 | The browser candles of a history have the server aggregation's keys, and equal open, high, low and close |
| WebCandles.FoldWellFormed | apps/web/lib/candlestick-aggregator.ts:56-69 | Every browser candle has low <= open <= high and low <= close <= high |
| WebCandles.BucketWholeSeconds | apps/web/lib/candlestick-aggregator.ts:53-54 | Bucket starts of whole-second timeframes are whole seconds |
| WebCandles.FoldAligned | apps/web/lib/candlestick-aggregator.ts:53-63 | Each candle's `time` is its bucket start divided by 1000 |
| WebCandles.AlignedOrder | apps/web/lib/candlestick-aggregator.ts:100-101 | For aligned candles, key order and time order agree |
| WebCandles.LatestKeys | apps/web/lib/candlestick-aggregator.ts:100-102 | The last min(100, size) keys in ascending order, holding every key from the first of them on and the greatest key |
| WebCandles.CandlesAt | apps/web/lib/candlestick-aggregator.ts:100 | The candles at the given keys |
| WebCandles.LatestCandlesOrdered | apps/web/lib/candlestick-aggregator.ts:100-102 | Aligned candles come out in strictly increasing time, and none at or after the first returned is left out |
| WebCandles.LastIsNewest | apps/web/lib/candlestick-aggregator.ts:105-108 | The last returned candle is the newest |
| WebCandles.LatestCandles | apps/web/lib/candlestick-aggregator.ts:99-103 | min(100, size) candles from the map; for aligned candles in ascending time, with no later candle left out |
| WebCandles.LatestCandle | apps/web/lib/candlestick-aggregator.ts:105-108 | None iff no candles; otherwise a candle of the map, the newest one for aligned candles |
| WebCandles.CandlestickAggregator.constructor | apps/web/lib/candlestick-aggregator.ts:27-35 | The given timeframe, empty lists and no candles; the invariant holds |
| WebCandles.CandlestickAggregator.SetTimeframe | apps/web/lib/candlestick-aggregator.ts:37-41 | The candles become the fold of the whole history under the new timeframe; the history is unchanged (so a second call with the same timeframe gives the same candles); the invariant is re-established |
| WebCandles.CandlestickAggregator.AddPrice | apps/web/lib/candlestick-aggregator.ts:43-47 | Appends one entry to the history, empties the pending updates and keeps the invariant |
| WebCandles.CandlestickAggregator.UpdateCandles | apps/web/lib/candlestick-aggregator.ts:49-73 | Folds the pending updates into the candles, then empties them |
| WebCandles.CandlestickAggregator.RebuildCandles | apps/web/lib/candlestick-aggregator.ts:75-97 | Folds the whole history into the candles |
| WebCandles.CandlestickAggregator.AddToCandle | apps/web/lib/candlestick-aggregator.ts:53-69 | A new bucket opens with open = high = low = close = price and time = start / 1000; an existing one takes max high, min low and the new close; open is unchanged |
| WebCandles.CandlestickAggregator.ValidAligned | apps/web/lib/candlestick-aggregator.ts:49-97 | Under the invariant every candle's time is its bucket start in seconds |
| WebCandles.CandlestickAggregator.GetCandles | apps/web/lib/candlestick-aggregator.ts:99-103 | The latest at most 100 candles, all from the map, in ascending time, none later left out |
| WebCandles.CandlestickAggregator.GetLatestCandle | apps/web/lib/candlestick-aggregator.ts:105-108 | None iff there are no candles, otherwise the candle with the greatest time |
| Store.FindLimit | apps/api-gateway/src/routes/orders.ts:126-128 | None iff no row has the id; otherwise a row with that id, the only one while the id is the table's key |
| Store.UpdateLimit | apps/execution-service/src/index.ts:118-121 | Every row with the id is rewritten, every other row kept, the length unchanged |
| Store.AsFilled | apps/execution-service/src/index.ts:118-121 | The row after `SET filled_quantity = quantity, status = 'FILLED'` |
| Store.AsCancelled | apps/api-gateway/src/routes/orders.ts:137 | The row after `SET status = 'CANCELLED'` |
| Store.UpdateKeepsUniqueIds | apps/api-gateway/src/routes/orders.ts:137 | An update that keeps ids keeps the primary key |
| Execution.Settle | apps/execution-service/src/index.ts:94-115 | Fails iff a BUY's balance is below `price * qty` or a SELL's BTC balance below `qty`, with the source's message; on success BTC moves by `qty`, the quote balance the other way by the cost, and `balance + price * btcBalance` is conserved |
| Execution.MarketOutcome | apps/execution-service/src/index.ts:193-221 | The MARKET checks in the source's order: a non-positive price fails "Invalid execution price" first, then an unknown user "User not found", then the balance checks of `Settle` |
| Execution.FillLimit | apps/execution-service/src/index.ts:72-158 | `fillLimitOrder` as one all-or-nothing transaction; its effects are stated by `FillLimitEffects`, `FillLimitConserves` and `FillLimitLog` |
| Execution.SettleKeepsNonNegative | apps/execution-service/src/index.ts:94-115 | Non-negative price and quantity keep non-negative balances non-negative |
| Execution.NegativeQuantityOverdraws | apps/execution-service/src/index.ts:215-236 | A negative quantity passes the check and drives the BTC balance negative |
| Execution.FillLimitEffects | apps/execution-service/src/index.ts:72-158 | A failed fill changes nothing (the row stays OPEN); a successful one marks the row FILLED with the whole quantity filled, appends one trade for the remaining quantity at the executed price against "LIMIT_ORDER", and one ORDER_FILLED message |
| Execution.FillLimitConserves | apps/execution-service/src/index.ts:103-115 | A limit fill keeps the set of users and every user's holdings valued at the executed price |
| Execution.Triggered | apps/execution-service/src/index.ts:49-52 | The selected rows are exactly the OPEN rows of the side with limit >= price (BUY) or <= price (SELL) |
| Execution.Triggers | apps/execution-service/src/index.ts:49-62 | The WHERE clauses of the two scans: the side, status OPEN and a price at or above (BUY) or at or below (SELL) the market price; a NULL price never matches |
| Execution.FillAll | apps/execution-service/src/index.ts:54-66 | `fillLimitOrder` for each selected row in turn at the same price; stated by `FillAllTable`, `FillAllConserves`, `FillAllLog` |
| Execution.ScanSide | apps/execution-service/src/index.ts:49-56 | One side's SELECT and fill loop; stated by `ScanSideFillsOnlyTriggered` |
| Execution.CheckAndFill | apps/execution-service/src/index.ts:46-70 | The BUY scan, then the SELL scan on the resulting tables; stated by `CheckAndFillFacts` and `CheckAndFillKeepsSolvent` |
| Execution.FillAllTable | apps/execution-service/src/index.ts:54-56 | A fill loop changes a row only by marking it filled, and only if its id was selected |
| Execution.FillAllConserves | apps/execution-service/src/index.ts:54-56 | A fill loop keeps the users and their holdings valued at the price and the order commands |
| Execution.FillLimitLog | apps/execution-service/src/index.ts:124-148 | One fill only appends: as many trades as ORDER_FILLED messages, and the trade is at the fill price |
| Execution.FillAllLog | apps/execution-service/src/index.ts:54-56 | A fill loop only appends trades and ORDER_FILLED messages, one of each per successful fill; every appended trade is at the scan's price, not at the row's limit |
| Execution.ScanSideFillsOnlyTriggered | apps/execution-service/src/index.ts:49-56 | A scan of one side fills only rows it triggered there and keeps the primary key; every trade it appends is at the current price |
| Execution.CheckAndFillFacts | apps/execution-service/src/index.ts:46-70 | After the BUY then SELL scan every row is unchanged or was a triggered OPEN row and is now FILLED; holdings valued at the price are unchanged; only ORDER_FILLED messages, one per new trade; every new trade is at the current price, not at the row's limit |
| Execution.FillAllKeepsSolvent | apps/execution-service/src/index.ts:94-115 | Fills at a non-negative price with non-negative remaining quantities keep balances non-negative |
| Execution.ScanSideKeepsRemaining | apps/execution-service/src/index.ts:118-121 | Marking rows filled keeps remaining quantities non-negative |
| Execution.CheckAndFillKeepsSolvent | apps/execution-service/src/index.ts:46-70 | A scan at a non-negative price keeps every balance and remaining quantity non-negative |
| Execution.LimitOrderPlaced | apps/execution-service/src/index.ts:164-183 | A LIMIT command adds one OPEN row with nothing filled and one ORDER_PLACED; no balance, trade or order command changes |
| Execution.ProcessCommand | apps/execution-service/src/index.ts:160-311 | `processOrder` as one transaction; its LIMIT, rejected and filled paths are stated by `LimitOrderPlaced`, `MarketOrderRejected` and `MarketOrderFilled` |
| Execution.MarketOrderRejected | apps/execution-service/src/index.ts:295-310 | A failed MARKET order changes no balance or trade, marks the order REJECTED and publishes ORDER_REJECTED with the error message |
| Execution.MarketBeforeFirstPrice | apps/execution-service/src/index.ts:193-197 | Before any price (0) a MARKET order is rejected with "Invalid execution price" |
| Execution.MarketOrderFilled | apps/execution-service/src/index.ts:193-286 | A MARKET order that passes its checks executes at `currentPrice`: FILLED with that executed price, one trade against "MARKET", ORDER_FILLED then TRADE_EXECUTED, holdings at that price unchanged, other users untouched |
| Execution.ProcessOrderKeepsUniqueIds | apps/execution-service/src/index.ts:165-168 | Storing a LIMIT order with an unused id keeps the primary key |
| Execution.TradeIdsStayCounted | apps/execution-service/src/index.ts:124-257 | Both transactions keep trade ids equal to trade positions |
| Execution.FillAllCounts | apps/execution-service/src/index.ts:54-56 | A fill loop keeps trade ids equal to trade positions |
| Execution.ExecutionService.constructor | apps/execution-service/src/index.ts:36 | `currentPrice` starts at 0 |
| Execution.ExecutionService.FillLimitOrder | apps/execution-service/src/index.ts:72-158 | The new tables are `FillLimit` of the old ones |
| Execution.ExecutionService.CheckAndFillLimitOrders | apps/execution-service/src/index.ts:46-70 | The new tables are `CheckAndFill` of the old ones |
| Execution.ExecutionService.ProcessOrder | apps/execution-service/src/index.ts:160-311 | The new tables are `ProcessCommand` of the old ones at the current price |
| Execution.ExecutionService.OnPriceUpdate | apps/execution-service/src/index.ts:325-330 | `currentPrice` becomes the update's price before the scan, and the tables are `CheckAndFill` at that price |
| Gateway.ValidateOrder | apps/api-gateway/src/routes/orders.ts:14-29 | Fails iff side, type or a truthy quantity is missing ("Missing required fields") or a LIMIT lacks a truthy price ("Price required for limit orders"); the command carries the user, side, type and quantity, and a price iff one was given |
| Gateway.CreateEffects | apps/api-gateway/src/routes/orders.ts:14-44 | A refused request changes nothing and gets 400; an accepted one stores exactly one PENDING row, publishes exactly one command with the order id, and replies PENDING |
| Gateway.Create | apps/api-gateway/src/routes/orders.ts:10-45 | `POST /` as one step: 400 on validation failure, 500 on an id already in `order_commands`, otherwise the PENDING row and the published command; stated by `CreateEffects` |
| Gateway.AcceptedLimitIsScannable | apps/api-gateway/src/routes/orders.ts:18-29 | An accepted LIMIT command becomes an OPEN row with a price that, when the price reaches it, is selected by the trigger scan |
| Gateway.CancelDecision | apps/api-gateway/src/routes/orders.ts:126-134 | 404 "Order not found" iff no row has the id; otherwise 403 "Unauthorized" or "Order cancelled successfully", the latter iff the row is the user's |
| Gateway.CancelEffects | apps/api-gateway/src/routes/orders.ts:126-149 | A refused cancel changes nothing; the owner's cancel marks the row CANCELLED, leaves all else alone and publishes one ORDER_CANCELLED |
| Gateway.Cancel | apps/api-gateway/src/routes/orders.ts:121-154 | `POST /:orderId/cancel` as one step; stated by `CancelDecision` and `CancelEffects` |
| Gateway.CancelIgnoresStatus | apps/api-gateway/src/routes/orders.ts:137 | A FILLED order can still be cancelled by its owner |
| Gateway.ListLimitOrders | apps/api-gateway/src/routes/orders.ts:96-119 | The listing holds exactly the user's rows that are not CANCELLED |
| Gateway.CancelledOrderIsGone | apps/api-gateway/src/routes/orders.ts:99 | After a cancel the order is in no listing and is never selected by the trigger scan |
| Gateway.OrderRoutes.CreateOrder | apps/api-gateway/src/routes/orders.ts:10-45 | Tables and reply are `Create` of the old tables |
| Gateway.OrderRoutes.CancelOrder | apps/api-gateway/src/routes/orders.ts:121-154 | Tables and reply are `Cancel` of the old tables |

## Left out

- Redis, Postgres, HTTP, WebSocket and the Binance streams are not modelled as I/O. Tables are values; channels are append-only sequences.
- Reconnects, logging and `persistOrderBook` (the delete-all-then-reinsert dump) are not modelled.
- Concurrency is not modelled. Handlers can interleave in the source, and `FOR UPDATE` locks guard them; here each transaction is one atomic step.
- Events are published before `COMMIT` in the source. Here they are recorded in the same atomic step, so the gap between publish and commit is not captured.
- Floating point is not modelled. Prices, quantities and balances are integers in a fixed unit. `parseFloat`, unary `+` and `Date` conversions are left out; times are integer milliseconds.
- Identity generation is not modelled. Order ids are parameters, and trade ids are a counter.
- `side` and `type` arrive already typed as enums, so strings outside the enums are not modelled.
- Gateway.ValidateOrder: `quantity` and `price` are taken to arrive as JSON numbers, so "falsy" means absent or 0. The route passes them through `Number.parseFloat`, which suggests strings. A string is truthy even when it reads `"0"`, so in the source `{side, type, quantity: "0"}` passes the first guard and is stored as a command of quantity 0. The model can only write that request as `Some(0)`, which it answers 400. String-valued fields are not modelled.
- The gateway accepts a negative quantity, because only 0 is falsy. The non-negativity results therefore assume non-negative quantities. `Execution.NegativeQuantityOverdraws` shows what happens otherwise.
- Gateway.Create: the 500 reply means an insert whose id is already in `order_commands`. Other database or publish failures are not modelled.
- Execution.ProcessCommand: a LIMIT insert that fails (an id clash) and is then rejected is not modelled. The lemma `Execution.ProcessOrderKeepsUniqueIds` requires an unused id.
- The catch in `checkAndFillLimitOrders` (a failed SELECT) is not modelled.
- Rows are selected in table (insertion) order. Postgres returns them in an unspecified order.
- Gateway.ListLimitOrders: the contract states membership only. The newest-first order of `ORDER BY created_at DESC` is not stated, nor how ties in `created_at` break.
- A LIMIT row's `filled_quantity` starts at 0, the column default the table is assumed to have.
- The server aggregator keys its map by `candleTime.toString()`. The model keys by the integer itself.
- WebCandles.CandlestickAggregator: the source mutates candle objects in the map in place, and `getCandles` and `getLatestCandle` hand out those same objects. The model stores candles as values, so a result kept by a caller is a snapshot. In the source, a later `updateCandles` would change that result too; this sharing is not modelled.
- WebCandles.CandlestickAggregator.AddPrice: the default argument `timestamp = new Date()` reads the clock; the model always takes the timestamp as a parameter. The constructors' default arguments are not modelled either: `symbol = "BTCUSDT"` of `OrderBookManager` and of the server `CandlestickAggregator`, and `timeframe = "1m"` of the browser `CandlestickAggregator`. Each constructor takes the value as a parameter.
- OrderBook.Heap: the source's heap takes an arbitrary comparator function. The model's `HeapKind` offers only the two orderings the order book uses, max for bids and min for asks.
- CandleService.EventService: the six aggregators are a sequence in the source's order, not a string-keyed map.
- The event service's `broadcast` to WebSocket clients is not modelled.
- The UI components, the auth, chat, user and market routes, and the service wiring are not part of this model.
