/**
 * The execution engine (apps/execution-service/src/index.ts): MARKET
 * orders execute at the latest observed price, LIMIT orders are stored as
 * OPEN and filled by a trigger scan on every price update. Each database
 * transaction is one atomic step over the in-memory tables; a transaction
 * that throws is rolled back, which here means the tables are unchanged.
 */
module Execution {
  import opened Common
  import opened Types
  import opened Store

  /** A user's holdings valued at `price`: quote balance plus BTC at that price. */
  function Value(u: User, price: int): int {
    u.balance + price * u.btcBalance
  }

  /**
   * The balance check and the balance update shared by `fillLimitOrder`
   * and the MARKET path of `processOrder`: a BUY needs `balance >= cost`, a
   * SELL needs `btcBalance >= qty`; then quote and BTC move in opposite
   * directions by `cost = price * qty` and `qty`.
   */
  function Settle(u: User, side: OrderSide, price: int, qty: int): (r: Result<User, string>)
    ensures r.Failure? <==> (side == Buy && u.balance < price * qty) || (side == Sell && u.btcBalance < qty)
    ensures r.Failure? ==> r.error == (if side == Buy then "Insufficient balance" else "Insufficient BTC balance")
    ensures r.Success? ==> r.value.id == u.id && r.value.email == u.email
    ensures r.Success? ==> Value(r.value, price) == Value(u, price)
    ensures r.Success? ==> r.value.btcBalance == (if side == Buy then u.btcBalance + qty else u.btcBalance - qty)
  {
    var cost := price * qty;
    if side == Buy && u.balance < cost then Failure("Insufficient balance")
    else if side == Sell && u.btcBalance < qty then Failure("Insufficient BTC balance")
    else if side == Buy then Success(u.(balance := u.balance - cost, btcBalance := u.btcBalance + qty))
    else Success(u.(balance := u.balance + cost, btcBalance := u.btcBalance - qty))
  }

  predicate NonNegative(u: User) {
    u.balance >= 0 && u.btcBalance >= 0
  }

  /** With a non-negative price and quantity, a settlement that passes its check leaves no balance negative. */
  lemma SettleKeepsNonNegative(u: User, side: OrderSide, price: int, qty: int)
    requires NonNegative(u) && price >= 0 && qty >= 0
    ensures Settle(u, side, price, qty).Success? ==> NonNegative(Settle(u, side, price, qty).value)
  {
    assert price * qty >= 0;
  }

  /**
   * Nothing rejects a negative quantity: a BUY of -1 at price 1 by a user
   * holding nothing passes the balance check and leaves BTC at -1.
   */
  lemma NegativeQuantityOverdraws()
    ensures var u := User("u", "u@example.com", 0, 0);
      Settle(u, Buy, 1, -1) == Success(User("u", "u@example.com", 1, -1))
  {
  }

  // ---------------------------------------------------------------------
  // fillLimitOrder

  /** `remainingQuantity = quantity - filled_quantity`. */
  function Remaining(row: LimitRow): int {
    row.quantity - row.filledQuantity
  }

  /** The checks of `fillLimitOrder`, in order: the user must exist, then the balance check. */
  function FillOutcome(s: Db, row: LimitRow, price: int): Result<User, string> {
    if row.userId !in s.users then Failure("User not found")
    else Settle(s.users[row.userId], row.side, price, Remaining(row))
  }

  /** The trade of a limit fill: the order on its own side, "LIMIT_ORDER" on the other. */
  function LimitTrade(id: nat, row: LimitRow, price: int): Trade {
    Trade(id,
          if row.side == Buy then row.id else "LIMIT_ORDER",
          if row.side == Sell then row.id else "LIMIT_ORDER",
          price, Remaining(row),
          if row.side == Buy then row.userId else "LIMIT_ORDER",
          if row.side == Sell then row.userId else "LIMIT_ORDER")
  }

  /** `fillLimitOrder(order, executedPrice)` as one transaction. */
  function FillLimit(s: Db, row: LimitRow, price: int): Db {
    match FillOutcome(s, row, price)
    case Failure(_) => s
    case Success(u) =>
      s.(users := s.users[row.userId := u],
         limitOrders := UpdateLimit(s.limitOrders, row.id, AsFilled),
         trades := s.trades + [LimitTrade(|s.trades|, row, price)],
         orderEvents := s.orderEvents + [OrderFilled(OrderFilledEvent(row.id, row.userId, price, Remaining(row)))])
  }

  /**
   * A failed limit fill changes nothing, so the order stays OPEN. A
   * successful one marks the order's row FILLED with its whole quantity
   * filled, records exactly one trade at the executed price for the
   * remaining quantity against "LIMIT_ORDER", and publishes exactly one
   * message, an ORDER_FILLED.
   */
  lemma FillLimitEffects(s: Db, row: LimitRow, price: int)
    ensures var r := FillLimit(s, row, price);
      && r.orderCommands == s.orderCommands && r.orderCommandChannel == s.orderCommandChannel
      && (FillOutcome(s, row, price).Failure? ==> r == s)
      && (FillOutcome(s, row, price).Success? ==>
            && |r.limitOrders| == |s.limitOrders|
            && (forall i :: 0 <= i < |s.limitOrders| && s.limitOrders[i].id == row.id ==>
                  r.limitOrders[i].status == LimitFilled && r.limitOrders[i].filledQuantity == r.limitOrders[i].quantity)
            && (forall i :: 0 <= i < |s.limitOrders| && s.limitOrders[i].id != row.id ==> r.limitOrders[i] == s.limitOrders[i])
            && r.trades[..|s.trades|] == s.trades && |r.trades| == |s.trades| + 1
            && r.trades[|s.trades|].price == price && r.trades[|s.trades|].quantity == Remaining(row)
            && (if row.side == Buy then r.trades[|s.trades|].buyOrderId == row.id && r.trades[|s.trades|].sellOrderId == "LIMIT_ORDER"
                else r.trades[|s.trades|].sellOrderId == row.id && r.trades[|s.trades|].buyOrderId == "LIMIT_ORDER")
            && r.orderEvents[..|s.orderEvents|] == s.orderEvents && |r.orderEvents| == |s.orderEvents| + 1
            && TypeOf(r.orderEvents[|s.orderEvents|]) == OrderFilledType)
  {
  }

  /** A limit fill never changes any user's holdings valued at the executed price, nor the set of users. */
  lemma FillLimitConserves(s: Db, row: LimitRow, price: int)
    ensures var r := FillLimit(s, row, price);
      && r.users.Keys == s.users.Keys
      && forall id :: id in s.users ==> Value(r.users[id], price) == Value(s.users[id], price)
  {
  }

  // ---------------------------------------------------------------------
  // checkAndFillLimitOrders

  /**
   * The scan's `WHERE side = .. AND status = 'OPEN' AND price >= $1` for
   * BUY, `price <= $1` for SELL; a NULL price never matches.
   */
  predicate Triggers(row: LimitRow, side: OrderSide, price: int) {
    row.side == side && row.status == Open && row.price.Some? &&
    (if side == Buy then row.price.value >= price else row.price.value <= price)
  }

  /** The rows the scan's query selects, in table order. */
  function Triggered(t: seq<LimitRow>, side: OrderSide, price: int): (r: seq<LimitRow>)
    ensures forall x :: x in r <==> x in t && Triggers(x, side, price)
    decreases |t|
  {
    if |t| == 0 then []
    else
      var init := Triggered(t[..|t| - 1], side, price);
      var last := t[|t| - 1];
      assert t == t[..|t| - 1] + [last];
      if Triggers(last, side, price) then init + [last] else init
  }

  /** `fillLimitOrder` for each selected row in turn, at the same price. */
  function FillAll(s: Db, rows: seq<LimitRow>, price: int): Db
    decreases |rows|
  {
    if |rows| == 0 then s
    else FillLimit(FillAll(s, rows[..|rows| - 1], price), rows[|rows| - 1], price)
  }

  function ScanSide(s: Db, side: OrderSide, price: int): Db {
    FillAll(s, Triggered(s.limitOrders, side, price), price)
  }

  /** `checkAndFillLimitOrders(price)`: the BUY scan, then the SELL scan on the resulting tables. */
  function CheckAndFill(s: Db, price: int): Db {
    ScanSide(ScanSide(s, Buy, price), Sell, price)
  }

  /** The ids of a list of rows. */
  function Ids(rows: seq<LimitRow>): set<string> {
    set i | 0 <= i < |rows| :: rows[i].id
  }

  /** A fill sequence changes a table row only by marking it filled, and only if its id was filled. */
  lemma {:induction false} FillAllTable(s: Db, rows: seq<LimitRow>, price: int)
    ensures var r := FillAll(s, rows, price);
      && |r.limitOrders| == |s.limitOrders|
      && forall i :: 0 <= i < |s.limitOrders| ==>
           r.limitOrders[i] == s.limitOrders[i] ||
           (r.limitOrders[i] == AsFilled(s.limitOrders[i]) && s.limitOrders[i].id in Ids(rows))
    decreases |rows|
  {
    if |rows| > 0 {
      var init := rows[..|rows| - 1];
      var last := rows[|rows| - 1];
      FillAllTable(s, init, price);
      var m := FillAll(s, init, price);
      FillLimitEffects(m, last, price);
      assert Ids(init) <= Ids(rows) by {
        forall id | id in Ids(init) ensures id in Ids(rows) {
          var i :| 0 <= i < |init| && init[i].id == id;
          assert rows[i] == init[i];
        }
      }
      assert last.id in Ids(rows) by {
        assert rows[|rows| - 1] == last;
      }
    }
  }

  /** A fill sequence keeps the users, their holdings valued at the fill price, and the order commands. */
  lemma {:induction false} FillAllConserves(s: Db, rows: seq<LimitRow>, price: int)
    ensures var r := FillAll(s, rows, price);
      && r.users.Keys == s.users.Keys
      && (forall id :: id in s.users ==> Value(r.users[id], price) == Value(s.users[id], price))
      && r.orderCommands == s.orderCommands && r.orderCommandChannel == s.orderCommandChannel
    decreases |rows|
  {
    if |rows| > 0 {
      FillAllConserves(s, rows[..|rows| - 1], price);
      FillLimitConserves(FillAll(s, rows[..|rows| - 1], price), rows[|rows| - 1], price);
      FillLimitEffects(FillAll(s, rows[..|rows| - 1], price), rows[|rows| - 1], price);
    }
  }

  /** Only ORDER_FILLED messages. */
  predicate AllFilled(events: seq<Event>) {
    forall i :: 0 <= i < |events| ==> TypeOf(events[i]) == OrderFilledType
  }

  /** Every trade is at `price`. */
  predicate TradesAt(trades: seq<Trade>, price: int) {
    forall i :: 0 <= i < |trades| ==> trades[i].price == price
  }

  /** Whether `b` extends `a`. */
  predicate Extends<T(==)>(a: seq<T>, b: seq<T>) {
    |a| <= |b| && b[..|a|] == a
  }

  /** Extension is transitive, and the new part of a two-step extension is the two new parts in order. */
  lemma ExtendsTrans<T>(a: seq<T>, b: seq<T>, c: seq<T>)
    requires Extends(a, b) && Extends(b, c)
    ensures Extends(a, c) && c[|a|..] == b[|a|..] + c[|b|..]
  {
    assert c[..|a|] == c[..|b|][..|a|];
  }

  /** One limit fill appends at most one trade, at the fill price, and with it one ORDER_FILLED. */
  lemma FillLimitLog(s: Db, row: LimitRow, price: int)
    ensures var r := FillLimit(s, row, price);
      && Extends(s.orderEvents, r.orderEvents) && Extends(s.trades, r.trades)
      && |r.trades| - |s.trades| == |r.orderEvents| - |s.orderEvents|
      && AllFilled(r.orderEvents[|s.orderEvents|..])
      && TradesAt(r.trades[|s.trades|..], price)
  {
    var r := FillLimit(s, row, price);
    if FillOutcome(s, row, price).Success? {
      assert r.orderEvents[|s.orderEvents|..] == [r.orderEvents[|s.orderEvents|]];
      assert r.trades[|s.trades|..] == [r.trades[|s.trades|]];
    }
  }

  /**
   * A fill sequence only appends: one trade and one ORDER_FILLED per
   * successful fill, every trade at the scan's price rather than at the
   * row's own limit.
   */
  lemma {:induction false} FillAllLog(s: Db, rows: seq<LimitRow>, price: int)
    ensures var r := FillAll(s, rows, price);
      && Extends(s.orderEvents, r.orderEvents) && Extends(s.trades, r.trades)
      && |r.trades| - |s.trades| == |r.orderEvents| - |s.orderEvents|
      && AllFilled(r.orderEvents[|s.orderEvents|..])
      && TradesAt(r.trades[|s.trades|..], price)
    decreases |rows|
  {
    if |rows| > 0 {
      var m := FillAll(s, rows[..|rows| - 1], price);
      var r := FillLimit(m, rows[|rows| - 1], price);
      FillAllLog(s, rows[..|rows| - 1], price);
      FillLimitLog(m, rows[|rows| - 1], price);
      ExtendsTrans(s.orderEvents, m.orderEvents, r.orderEvents);
      ExtendsTrans(s.trades, m.trades, r.trades);
    }
  }

  /**
   * A row changed by the scan of one side was OPEN and triggered on that
   * side; the primary key is kept; every trade the scan appends is at the
   * current price.
   */
  lemma ScanSideFillsOnlyTriggered(s: Db, side: OrderSide, price: int)
    requires UniqueIds(s.limitOrders)
    ensures var r := ScanSide(s, side, price);
      && |r.limitOrders| == |s.limitOrders|
      && UniqueIds(r.limitOrders)
      && (forall i :: 0 <= i < |s.limitOrders| ==>
           r.limitOrders[i] == s.limitOrders[i] ||
           (Triggers(s.limitOrders[i], side, price) && r.limitOrders[i] == AsFilled(s.limitOrders[i])))
      && Extends(s.trades, r.trades) && TradesAt(r.trades[|s.trades|..], price)
  {
    FillAllLog(s, Triggered(s.limitOrders, side, price), price);
    var t := s.limitOrders;
    var rows := Triggered(t, side, price);
    FillAllTable(s, rows, price);
    var r := FillAll(s, rows, price);
    forall i | 0 <= i < |t| && r.limitOrders[i] != t[i]
      ensures Triggers(t[i], side, price)
    {
      var j :| 0 <= j < |rows| && rows[j].id == t[i].id;
      assert rows[j] in rows;
      var k :| 0 <= k < |t| && t[k] == rows[j];
      assert k == i;
    }
    forall i, j | 0 <= i < j < |r.limitOrders| ensures r.limitOrders[i].id != r.limitOrders[j].id {
      assert r.limitOrders[i].id == t[i].id && r.limitOrders[j].id == t[j].id;
    }
  }

  /** A limit row after the scan at `price`: unchanged, or OPEN, triggered on its own side, and now filled. */
  predicate ScannedRow(before: LimitRow, after: LimitRow, price: int) {
    after == before || (Triggers(before, before.side, price) && after == AsFilled(before))
  }

  /**
   * `checkAndFillLimitOrders`: every row either stays as it was or was an
   * OPEN BUY with limit >= price or an OPEN SELL with limit <= price and
   * is now filled; no user's holdings valued at the price move; every
   * published message is an ORDER_FILLED, one per recorded trade; and
   * every recorded trade is at the current price.
   */
  lemma CheckAndFillFacts(s: Db, price: int)
    requires UniqueIds(s.limitOrders)
    ensures var r := CheckAndFill(s, price);
      && |r.limitOrders| == |s.limitOrders| && UniqueIds(r.limitOrders)
      && (forall i :: 0 <= i < |s.limitOrders| ==> ScannedRow(s.limitOrders[i], r.limitOrders[i], price))
      && r.users.Keys == s.users.Keys
      && (forall id :: id in s.users ==> Value(r.users[id], price) == Value(s.users[id], price))
      && r.orderCommands == s.orderCommands && r.orderCommandChannel == s.orderCommandChannel
      && Extends(s.orderEvents, r.orderEvents) && Extends(s.trades, r.trades)
      && |r.trades| - |s.trades| == |r.orderEvents| - |s.orderEvents|
      && AllFilled(r.orderEvents[|s.orderEvents|..])
      && TradesAt(r.trades[|s.trades|..], price)
  {
    var m := ScanSide(s, Buy, price);
    var r := ScanSide(m, Sell, price);
    ScanSideFillsOnlyTriggered(s, Buy, price);
    ScanSideFillsOnlyTriggered(m, Sell, price);
    forall i | 0 <= i < |s.limitOrders| ensures ScannedRow(s.limitOrders[i], r.limitOrders[i], price) {
      if m.limitOrders[i] != s.limitOrders[i] {
        assert !Triggers(m.limitOrders[i], Sell, price);
      }
    }
    FillAllConserves(s, Triggered(s.limitOrders, Buy, price), price);
    FillAllConserves(m, Triggered(m.limitOrders, Sell, price), price);
    FillAllLog(s, Triggered(s.limitOrders, Buy, price), price);
    FillAllLog(m, Triggered(m.limitOrders, Sell, price), price);
    ExtendsTrans(s.orderEvents, m.orderEvents, r.orderEvents);
    ExtendsTrans(s.trades, m.trades, r.trades);
  }

  /** Every user holds non-negative balances. */
  predicate Solvent(users: map<string, User>) {
    forall id :: id in users ==> NonNegative(users[id])
  }

  /** Every limit row's remaining quantity is non-negative. */
  predicate RemainingNonNegative(t: seq<LimitRow>) {
    forall i :: 0 <= i < |t| ==> Remaining(t[i]) >= 0
  }

  /** Fills at a non-negative price of rows with non-negative remaining quantities keep every balance non-negative. */
  lemma {:induction false} FillAllKeepsSolvent(s: Db, rows: seq<LimitRow>, price: int)
    requires Solvent(s.users) && price >= 0
    requires forall i :: 0 <= i < |rows| ==> Remaining(rows[i]) >= 0
    ensures Solvent(FillAll(s, rows, price).users)
    decreases |rows|
  {
    if |rows| > 0 {
      var init := rows[..|rows| - 1];
      var last := rows[|rows| - 1];
      assert forall i :: 0 <= i < |init| ==> init[i] == rows[i];
      FillAllKeepsSolvent(s, init, price);
      var m := FillAll(s, init, price);
      if last.userId in m.users {
        SettleKeepsNonNegative(m.users[last.userId], last.side, price, Remaining(last));
      }
    }
  }

  /** Marking rows filled keeps remaining quantities non-negative. */
  lemma ScanSideKeepsRemaining(s: Db, side: OrderSide, price: int)
    requires RemainingNonNegative(s.limitOrders)
    ensures RemainingNonNegative(ScanSide(s, side, price).limitOrders)
  {
    FillAllTable(s, Triggered(s.limitOrders, side, price), price);
  }

  /**
   * With a non-negative price and no negative remaining quantity, a scan
   * leaves every balance non-negative.
   */
  lemma CheckAndFillKeepsSolvent(s: Db, price: int)
    requires Solvent(s.users) && price >= 0 && RemainingNonNegative(s.limitOrders)
    ensures Solvent(CheckAndFill(s, price).users)
    ensures RemainingNonNegative(CheckAndFill(s, price).limitOrders)
  {
    var buys := Triggered(s.limitOrders, Buy, price);
    forall i | 0 <= i < |buys| ensures Remaining(buys[i]) >= 0 {
      assert buys[i] in buys;
    }
    FillAllKeepsSolvent(s, buys, price);
    ScanSideKeepsRemaining(s, Buy, price);
    var m := ScanSide(s, Buy, price);
    var sells := Triggered(m.limitOrders, Sell, price);
    forall i | 0 <= i < |sells| ensures Remaining(sells[i]) >= 0 {
      assert sells[i] in sells;
    }
    FillAllKeepsSolvent(m, sells, price);
    ScanSideKeepsRemaining(m, Sell, price);
  }

  // ---------------------------------------------------------------------
  // processOrder

  /** The checks of the MARKET path of `processOrder`, in order. */
  function MarketOutcome(s: Db, currentPrice: int, cmd: CreateOrderCommand): (r: Result<User, string>)
    ensures currentPrice <= 0 ==> r == Failure("Invalid execution price")
    ensures currentPrice > 0 && cmd.userId !in s.users ==> r == Failure("User not found")
    ensures currentPrice > 0 && cmd.userId in s.users ==> r == Settle(s.users[cmd.userId], cmd.side, currentPrice, cmd.quantity)
  {
    if currentPrice <= 0 then Failure("Invalid execution price")
    else if cmd.userId !in s.users then Failure("User not found")
    else Settle(s.users[cmd.userId], cmd.side, currentPrice, cmd.quantity)
  }

  /** The trade of a market order: the order on its own side, "MARKET" on the other. */
  function MarketTrade(id: nat, orderId: string, cmd: CreateOrderCommand, price: int): Trade {
    Trade(id,
          if cmd.side == Buy then orderId else "MARKET",
          if cmd.side == Sell then orderId else "MARKET",
          price, cmd.quantity,
          if cmd.side == Buy then cmd.userId else "MARKET",
          if cmd.side == Sell then cmd.userId else "MARKET")
  }

  /** `UPDATE order_commands SET status = 'FILLED', executed_price = $2 WHERE id = $3`. */
  function CommandFilled(m: map<string, CommandRow>, id: string, price: int): map<string, CommandRow> {
    if id in m then m[id := CommandRow(m[id].order.(status := Filled), Some(price))] else m
  }

  /** `UPDATE order_commands SET status = 'REJECTED' WHERE id = $2`. */
  function CommandRejected(m: map<string, CommandRow>, id: string): map<string, CommandRow> {
    if id in m then m[id := m[id].(order := m[id].order.(status := Rejected))] else m
  }

  /** The row a LIMIT command inserts into `limit_orders`. */
  function NewLimitRow(orderId: string, cmd: CreateOrderCommand): LimitRow {
    LimitRow(orderId, cmd.userId, cmd.side, cmd.price, cmd.quantity, 0, Open)
  }

  /** `processOrder(orderId, command)` with the engine's `currentPrice`. */
  function ProcessCommand(s: Db, currentPrice: int, orderId: string, cmd: CreateOrderCommand): Db {
    if cmd.orderType == Limit then
      s.(limitOrders := s.limitOrders + [NewLimitRow(orderId, cmd)],
         orderEvents := s.orderEvents + [OrderPlaced(orderId, cmd.userId, Limit, cmd.price, cmd.quantity)])
    else
      match MarketOutcome(s, currentPrice, cmd)
      case Failure(reason) =>
        s.(orderCommands := CommandRejected(s.orderCommands, orderId),
           orderEvents := s.orderEvents + [OrderRejected(orderId, reason)])
      case Success(u) =>
        var t := MarketTrade(|s.trades|, orderId, cmd, currentPrice);
        s.(users := s.users[cmd.userId := u],
           orderCommands := CommandFilled(s.orderCommands, orderId, currentPrice),
           trades := s.trades + [t],
           orderEvents := s.orderEvents + [OrderFilled(OrderFilledEvent(orderId, cmd.userId, currentPrice, cmd.quantity)),
                                           TradeExecuted(TradeEvent(t))])
  }

  /**
   * A LIMIT command is stored as one OPEN row with nothing filled and
   * announced by one ORDER_PLACED; no balance, trade or order command
   * changes (so its order command stays as the gateway stored it).
   */
  lemma LimitOrderPlaced(s: Db, currentPrice: int, orderId: string, cmd: CreateOrderCommand)
    requires cmd.orderType == Limit
    ensures var r := ProcessCommand(s, currentPrice, orderId, cmd);
      && r.users == s.users && r.trades == s.trades && r.orderCommands == s.orderCommands
      && r.limitOrders == s.limitOrders + [LimitRow(orderId, cmd.userId, cmd.side, cmd.price, cmd.quantity, 0, Open)]
      && |r.orderEvents| == |s.orderEvents| + 1 && TypeOf(r.orderEvents[|s.orderEvents|]) == OrderPlacedType
  {
  }

  /**
   * A MARKET order that fails any check (no positive price yet, unknown
   * user, insufficient balance) leaves balances and trades alone, marks the
   * order REJECTED and publishes one ORDER_REJECTED with the error message.
   */
  lemma MarketOrderRejected(s: Db, currentPrice: int, orderId: string, cmd: CreateOrderCommand)
    requires cmd.orderType == Market && MarketOutcome(s, currentPrice, cmd).Failure?
    ensures var r := ProcessCommand(s, currentPrice, orderId, cmd);
      && r.users == s.users && r.trades == s.trades && r.limitOrders == s.limitOrders
      && (orderId in s.orderCommands ==> r.orderCommands[orderId].order.status == Rejected)
      && r.orderEvents == s.orderEvents + [OrderRejected(orderId, MarketOutcome(s, currentPrice, cmd).error)]
  {
  }

  /** Before the first price update (`currentPrice` is 0), every MARKET order is rejected for its price. */
  lemma MarketBeforeFirstPrice(s: Db, orderId: string, cmd: CreateOrderCommand)
    requires cmd.orderType == Market
    ensures ProcessCommand(s, 0, orderId, cmd).orderEvents == s.orderEvents + [OrderRejected(orderId, "Invalid execution price")]
  {
  }

  /**
   * A MARKET order that passes its checks executes at `currentPrice`: the
   * order is FILLED with that executed price, one trade against "MARKET"
   * is recorded, ORDER_FILLED and then TRADE_EXECUTED are published, and
   * the user's holdings valued at that price do not move.
   */
  lemma MarketOrderFilled(s: Db, currentPrice: int, orderId: string, cmd: CreateOrderCommand)
    requires cmd.orderType == Market && MarketOutcome(s, currentPrice, cmd).Success?
    ensures var r := ProcessCommand(s, currentPrice, orderId, cmd);
      && currentPrice > 0 && cmd.userId in s.users
      && r.users.Keys == s.users.Keys
      && Value(r.users[cmd.userId], currentPrice) == Value(s.users[cmd.userId], currentPrice)
      && (forall id :: id in s.users && id != cmd.userId ==> r.users[id] == s.users[id])
      && (orderId in s.orderCommands ==>
            r.orderCommands[orderId].order.status == Filled && r.orderCommands[orderId].executedPrice == Some(currentPrice))
      && r.limitOrders == s.limitOrders
      && |r.trades| == |s.trades| + 1 && r.trades[|s.trades|].price == currentPrice
      && r.trades[|s.trades|].quantity == cmd.quantity
      && (if cmd.side == Buy then r.trades[|s.trades|].sellOrderId == "MARKET" else r.trades[|s.trades|].buyOrderId == "MARKET")
      && |r.orderEvents| == |s.orderEvents| + 2
      && TypeOf(r.orderEvents[|s.orderEvents|]) == OrderFilledType
      && TypeOf(r.orderEvents[|s.orderEvents| + 1]) == TradeExecutedType
  {
  }

  /** Trade ids are a counter: each trade's id is its position in the table. */
  predicate TradeIdsCount(trades: seq<Trade>) {
    forall i :: 0 <= i < |trades| ==> trades[i].id == i
  }

  /** Placing a LIMIT order with an unused id keeps the primary key of `limit_orders`. */
  lemma ProcessOrderKeepsUniqueIds(s: Db, currentPrice: int, orderId: string, cmd: CreateOrderCommand)
    requires UniqueIds(s.limitOrders) && !HasLimit(s.limitOrders, orderId)
    ensures UniqueIds(ProcessCommand(s, currentPrice, orderId, cmd).limitOrders)
  {
  }

  /** Both transactions number their trade by the size of the trade table. */
  lemma TradeIdsStayCounted(s: Db, currentPrice: int, orderId: string, cmd: CreateOrderCommand, price: int)
    requires TradeIdsCount(s.trades)
    ensures TradeIdsCount(ProcessCommand(s, currentPrice, orderId, cmd).trades)
    ensures TradeIdsCount(CheckAndFill(s, price).trades)
  {
    FillAllCounts(s, Triggered(s.limitOrders, Buy, price), price);
    var m := ScanSide(s, Buy, price);
    FillAllCounts(m, Triggered(m.limitOrders, Sell, price), price);
  }

  lemma {:induction false} FillAllCounts(s: Db, rows: seq<LimitRow>, price: int)
    requires TradeIdsCount(s.trades)
    ensures TradeIdsCount(FillAll(s, rows, price).trades)
    decreases |rows|
  {
    if |rows| > 0 {
      FillAllCounts(s, rows[..|rows| - 1], price);
    }
  }

  // ---------------------------------------------------------------------
  // The service

  class ExecutionService {
    const db: Database
    /** The latest price seen on `price:updates`; 0 before the first one. */
    var currentPrice: int

    constructor (db: Database)
      ensures this.db == db && currentPrice == 0
    {
      this.db := db;
      currentPrice := 0;
    }

    /** `fillLimitOrder`: the checks first, then the updates, all in one transaction. */
    method FillLimitOrder(order: LimitRow, executedPrice: int)
      modifies db
      ensures db.State() == FillLimit(old(db.State()), order, executedPrice)
    {
      var remainingQuantity := order.quantity - order.filledQuantity;
      var totalCost := executedPrice * remainingQuantity;
      if order.userId !in db.users {
        return;
      }
      var user := db.users[order.userId];
      if order.side == Buy && user.balance < totalCost {
        return;
      }
      if order.side == Sell && user.btcBalance < remainingQuantity {
        return;
      }
      if order.side == Buy {
        db.users := db.users[order.userId := user.(balance := user.balance - totalCost,
                                                   btcBalance := user.btcBalance + remainingQuantity)];
      } else {
        db.users := db.users[order.userId := user.(balance := user.balance + totalCost,
                                                   btcBalance := user.btcBalance - remainingQuantity)];
      }
      db.limitOrders := UpdateLimit(db.limitOrders, order.id, AsFilled);
      db.trades := db.trades + [LimitTrade(|db.trades|, order, executedPrice)];
      db.orderEvents := db.orderEvents +
        [OrderFilled(OrderFilledEvent(order.id, order.userId, executedPrice, remainingQuantity))];
    }

    /** `checkAndFillLimitOrders`: fill each selected BUY row, then select and fill the SELL rows. */
    method CheckAndFillLimitOrders(price: int)
      modifies db
      ensures db.State() == CheckAndFill(old(db.State()), price)
    {
      ghost var s0 := db.State();
      var buyOrders := Triggered(db.limitOrders, Buy, price);
      for i := 0 to |buyOrders|
        invariant db.State() == FillAll(s0, buyOrders[..i], price)
      {
        assert buyOrders[..i + 1][..i] == buyOrders[..i];
        FillLimitOrder(buyOrders[i], price);
      }
      assert buyOrders[..|buyOrders|] == buyOrders;
      ghost var s1 := db.State();
      var sellOrders := Triggered(db.limitOrders, Sell, price);
      for i := 0 to |sellOrders|
        invariant db.State() == FillAll(s1, sellOrders[..i], price)
      {
        assert sellOrders[..i + 1][..i] == sellOrders[..i];
        FillLimitOrder(sellOrders[i], price);
      }
      assert sellOrders[..|sellOrders|] == sellOrders;
    }

    /** `processOrder`: store a LIMIT order, or execute a MARKET order at `currentPrice`. */
    method ProcessOrder(orderId: string, command: CreateOrderCommand)
      modifies db
      ensures db.State() == ProcessCommand(old(db.State()), currentPrice, orderId, command)
    {
      if command.orderType == Limit {
        db.limitOrders := db.limitOrders + [LimitRow(orderId, command.userId, command.side, command.price,
                                                     command.quantity, 0, Open)];
        db.orderEvents := db.orderEvents +
          [OrderPlaced(orderId, command.userId, Limit, command.price, command.quantity)];
        return;
      }
      var executedPrice := currentPrice;
      var error: Option<string> := None;
      if executedPrice <= 0 {
        error := Some("Invalid execution price");
      } else if command.userId !in db.users {
        error := Some("User not found");
      } else {
        var totalCost := executedPrice * command.quantity;
        var user := db.users[command.userId];
        if command.side == Buy && user.balance < totalCost {
          error := Some("Insufficient balance");
        } else if command.side == Sell && user.btcBalance < command.quantity {
          error := Some("Insufficient BTC balance");
        } else {
          if command.side == Buy {
            db.users := db.users[command.userId := user.(balance := user.balance - totalCost,
                                                         btcBalance := user.btcBalance + command.quantity)];
          } else {
            db.users := db.users[command.userId := user.(balance := user.balance + totalCost,
                                                         btcBalance := user.btcBalance - command.quantity)];
          }
          db.orderCommands := CommandFilled(db.orderCommands, orderId, executedPrice);
          var trade := MarketTrade(|db.trades|, orderId, command, executedPrice);
          db.trades := db.trades + [trade];
          db.orderEvents := db.orderEvents +
            [OrderFilled(OrderFilledEvent(orderId, command.userId, executedPrice, command.quantity)),
             TradeExecuted(TradeEvent(trade))];
        }
      }
      if error.Some? {
        db.orderCommands := CommandRejected(db.orderCommands, orderId);
        db.orderEvents := db.orderEvents + [OrderRejected(orderId, error.value)];
      }
    }

    /** The `price:updates` handler: record the price, then run the trigger scan at it. */
    method OnPriceUpdate(price: int)
      modifies this, db
      ensures currentPrice == price
      ensures db.State() == CheckAndFill(old(db.State()), price)
    {
      currentPrice := price;
      CheckAndFillLimitOrders(currentPrice);
    }
  }
}
