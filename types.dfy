/**
 * The shared vocabulary of the platform (packages/shared/src/types.ts):
 * order sides, statuses and types, the event kinds, and the records the
 * services exchange. Prices, quantities and balances are integers in a
 * fixed smallest unit; the `Date` fields are not part of this model.
 */
module Types {
  import opened Common

  datatype OrderSide = Buy | Sell

  /** The statuses of an order command. */
  datatype OrderStatus = Pending | Filled | Cancelled | Rejected

  datatype OrderType = Market | Limit

  /**
   * The statuses the `limit_orders` table uses. "OPEN" is not an
   * `OrderStatus`, so limit orders get a status type of their own.
   */
  datatype LimitStatus = Open | LimitFilled | LimitCancelled

  datatype EventType =
    OrderCreated | OrderFilledType | OrderCancelledType | OrderRejectedType
    | TradeExecutedType | PriceUpdate | OrderPlacedType

  /** The string value each enum member carries in the source and in the database. */
  function SideName(s: OrderSide): string {
    match s
    case Buy => "BUY"
    case Sell => "SELL"
  }

  function StatusName(s: OrderStatus): string {
    match s
    case Pending => "PENDING"
    case Filled => "FILLED"
    case Cancelled => "CANCELLED"
    case Rejected => "REJECTED"
  }

  function TypeName(t: OrderType): string {
    match t
    case Market => "MARKET"
    case Limit => "LIMIT"
  }

  function LimitStatusName(s: LimitStatus): string {
    match s
    case Open => "OPEN"
    case LimitFilled => "FILLED"
    case LimitCancelled => "CANCELLED"
  }

  function EventName(e: EventType): string {
    match e
    case OrderCreated => "ORDER_CREATED"
    case OrderFilledType => "ORDER_FILLED"
    case OrderCancelledType => "ORDER_CANCELLED"
    case OrderRejectedType => "ORDER_REJECTED"
    case TradeExecutedType => "TRADE_EXECUTED"
    case PriceUpdate => "PRICE_UPDATE"
    case OrderPlacedType => "ORDER_PLACED"
  }

  /** Sides are exactly BUY and SELL and order types exactly MARKET and LIMIT, told apart by their names. */
  lemma SidesAndTypes()
    ensures forall s: OrderSide :: SideName(s) == "BUY" || SideName(s) == "SELL"
    ensures forall a: OrderSide, b: OrderSide :: SideName(a) == SideName(b) ==> a == b
    ensures forall t: OrderType :: TypeName(t) == "MARKET" || TypeName(t) == "LIMIT"
    ensures forall a: OrderType, b: OrderType :: TypeName(a) == TypeName(b) ==> a == b
  {
  }

  /** Order statuses have four distinct names, none of them "OPEN". */
  lemma StatusNames()
    ensures forall a: OrderStatus, b: OrderStatus :: StatusName(a) == StatusName(b) ==> a == b
    ensures forall s: OrderStatus :: StatusName(s) != LimitStatusName(Open)
  {
  }

  /** The seven event kinds have distinct names. */
  lemma EventNames()
    ensures forall a: EventType, b: EventType :: EventName(a) == EventName(b) ==> a == b
  {
  }

  /** An order command as the gateway builds it; `price` is the only optional field. */
  datatype CreateOrderCommand = CreateOrderCommand(
    userId: string, side: OrderSide, orderType: OrderType, quantity: int, price: Option<int>)

  /** An order, as stored in `order_commands`. */
  datatype Order = Order(
    id: string, userId: string, side: OrderSide, orderType: OrderType,
    quantity: int, price: Option<int>, status: OrderStatus)

  /** A trade row. Trade ids are modelled by a counter. */
  datatype Trade = Trade(
    id: nat, buyOrderId: string, sellOrderId: string, price: int, quantity: int,
    buyerId: string, sellerId: string)

  datatype User = User(id: string, email: string, balance: int, btcBalance: int)

  datatype OrderFilledEvent = OrderFilledEvent(
    orderId: string, userId: string, executedPrice: int, executedQuantity: int)

  datatype TradeExecutedEvent = TradeExecutedEvent(
    tradeId: nat, buyOrderId: string, sellOrderId: string, price: int, quantity: int,
    buyerId: string, sellerId: string)

  /** The messages published on the `order:events` channel. */
  datatype Event =
    | OrderPlaced(orderId: string, userId: string, orderType: OrderType, price: Option<int>, quantity: int)
    | OrderFilled(filled: OrderFilledEvent)
    | TradeExecuted(trade: TradeExecutedEvent)
    | OrderRejected(orderId: string, reason: string)
    | OrderCancelled(orderId: string, userId: string)

  /** The `type` tag each published message carries. */
  function TypeOf(e: Event): (t: EventType)
    ensures t != OrderCreated && t != PriceUpdate
  {
    match e
    case OrderPlaced(_, _, _, _, _) => OrderPlacedType
    case OrderFilled(_) => OrderFilledType
    case TradeExecuted(_) => TradeExecutedType
    case OrderRejected(_, _) => OrderRejectedType
    case OrderCancelled(_, _) => OrderCancelledType
  }

  /** A trade-executed message carries exactly the fields of its trade row. */
  function TradeEvent(t: Trade): TradeExecutedEvent {
    TradeExecutedEvent(t.id, t.buyOrderId, t.sellOrderId, t.price, t.quantity, t.buyerId, t.sellerId)
  }
}
