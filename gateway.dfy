/**
 * The order routes of the API gateway (apps/api-gateway/src/routes/orders.ts):
 * validating and publishing an order command, cancelling a limit order,
 * and the filter of the limit-order listing. The authenticated user id is
 * a parameter; the HTTP replies are values.
 */
module Gateway {
  import opened Common
  import opened Types
  import opened Store
  import Execution

  /**
   * The body of `POST /`. An absent field is `None`; `side` and `type`
   * arrive already as members of their enums.
   */
  datatype OrderRequest = OrderRequest(
    side: Option<OrderSide>, orderType: Option<OrderType>, quantity: Option<int>, price: Option<int>)

  /** JavaScript truthiness of a numeric field: present and not zero. */
  predicate Truthy(x: Option<int>) {
    x.Some? && x.value != 0
  }

  /** The JSON replies of the routes. */
  datatype Reply =
    | Accepted(orderId: string, status: OrderStatus)
    | Done(message: string)
    | Error(code: nat, message: string)

  predicate MissingFields(req: OrderRequest) {
    req.side.None? || req.orderType.None? || !Truthy(req.quantity)
  }

  /**
   * The two guards of `POST /` and the command it builds: a missing side,
   * type or quantity (quantity 0 included) is refused first, then a LIMIT
   * order without a truthy price; a falsy price becomes `undefined`.
   */
  function ValidateOrder(userId: string, req: OrderRequest): (r: Result<CreateOrderCommand, string>)
    ensures r.Failure? <==> MissingFields(req) || (req.orderType == Some(Limit) && !Truthy(req.price))
    ensures r.Failure? ==>
      r.error == (if MissingFields(req) then "Missing required fields" else "Price required for limit orders")
    ensures r.Success? ==>
      && r.value.userId == userId
      && req.side == Some(r.value.side) && req.orderType == Some(r.value.orderType)
      && req.quantity == Some(r.value.quantity) && r.value.quantity != 0
      && (r.value.price.Some? <==> Truthy(req.price))
      && (r.value.price.Some? ==> r.value.price == req.price)
      && (r.value.orderType == Limit ==> r.value.price.Some?)
  {
    if req.side.None? || req.orderType.None? || !Truthy(req.quantity) then Failure("Missing required fields")
    else if req.orderType.value == Limit && !Truthy(req.price) then Failure("Price required for limit orders")
    else Success(CreateOrderCommand(userId, req.side.value, req.orderType.value, req.quantity.value,
                                    if Truthy(req.price) then req.price else None))
  }

  /**
   * `POST /` as one step, for a fresh order id: refused requests change
   * nothing; an insert whose id is already taken fails and is answered
   * 500; otherwise the command is stored as PENDING and published.
   */
  function Create(s: Db, userId: string, req: OrderRequest, orderId: string): (Db, Reply) {
    match ValidateOrder(userId, req)
    case Failure(msg) => (s, Error(400, msg))
    case Success(cmd) =>
      if orderId in s.orderCommands then (s, Error(500, "Failed to create order"))
      else
        var row := CommandRow(Order(orderId, userId, cmd.side, cmd.orderType, cmd.quantity, cmd.price, Pending), None);
        (s.(orderCommands := s.orderCommands[orderId := row],
            orderCommandChannel := s.orderCommandChannel + [PublishedCommand(orderId, cmd)]),
         Accepted(orderId, Pending))
  }

  /**
   * A refused request changes nothing and is answered 400. An accepted
   * one stores exactly one PENDING row, publishes exactly one command
   * carrying the order id, and answers PENDING; nothing else changes.
   */
  lemma CreateEffects(s: Db, userId: string, req: OrderRequest, orderId: string)
    ensures var (r, reply) := Create(s, userId, req, orderId);
      && r.users == s.users && r.limitOrders == s.limitOrders && r.trades == s.trades && r.orderEvents == s.orderEvents
      && (ValidateOrder(userId, req).Failure? ==> r == s && reply.Error? && reply.code == 400)
      && (ValidateOrder(userId, req).Success? && orderId !in s.orderCommands ==>
            && reply == Accepted(orderId, Pending)
            && r.orderCommands.Keys == s.orderCommands.Keys + {orderId}
            && r.orderCommands[orderId].order.status == Pending
            && r.orderCommands[orderId].order.userId == userId
            && (forall id :: id in s.orderCommands ==> r.orderCommands[id] == s.orderCommands[id])
            && r.orderCommandChannel == s.orderCommandChannel + [PublishedCommand(orderId, ValidateOrder(userId, req).value)])
  {
  }

  /**
   * An accepted LIMIT command reaches the execution engine with a price,
   * so the OPEN row it becomes is selected by the trigger scan once the
   * price reaches its limit.
   */
  lemma AcceptedLimitIsScannable(userId: string, req: OrderRequest, orderId: string)
    requires ValidateOrder(userId, req).Success? && req.orderType == Some(Limit)
    ensures var row := Execution.NewLimitRow(orderId, ValidateOrder(userId, req).value);
      && row.status == Open && row.price.Some?
      && Execution.Triggers(row, row.side, row.price.value)
  {
  }

  /**
   * The cancel decision: 404 when no limit order has the id, 403 when it
   * belongs to someone else, otherwise the order is cancelled, whatever
   * its status.
   */
  function CancelDecision(t: seq<LimitRow>, orderId: string, userId: string): (r: Reply)
    ensures r == Error(404, "Order not found") <==> !HasLimit(t, orderId)
    ensures r.Error? ==> r == Error(404, "Order not found") || r == Error(403, "Unauthorized")
    ensures !r.Error? ==> r == Done("Order cancelled successfully")
    ensures UniqueIds(t) ==>
      (r.Done? <==> exists i :: 0 <= i < |t| && t[i].id == orderId && t[i].userId == userId)
  {
    match FindLimit(t, orderId)
    case None => Error(404, "Order not found")
    case Some(row) =>
      if row.userId != userId then Error(403, "Unauthorized")
      else Done("Order cancelled successfully")
  }

  /** `POST /:orderId/cancel` as one step. */
  function Cancel(s: Db, orderId: string, userId: string): (Db, Reply) {
    var reply := CancelDecision(s.limitOrders, orderId, userId);
    if reply.Done? then
      (s.(limitOrders := UpdateLimit(s.limitOrders, orderId, AsCancelled),
          orderEvents := s.orderEvents + [OrderCancelled(orderId, userId)]),
       reply)
    else (s, reply)
  }

  /**
   * A refused cancel changes nothing. A cancel by the owner marks every
   * row with that id CANCELLED, leaves the other rows and all other tables
   * alone, and publishes one ORDER_CANCELLED.
   */
  lemma CancelEffects(s: Db, orderId: string, userId: string)
    ensures var (r, reply) := Cancel(s, orderId, userId);
      && r.users == s.users && r.orderCommands == s.orderCommands && r.trades == s.trades
      && r.orderCommandChannel == s.orderCommandChannel
      && (reply.Error? ==> r == s)
      && (reply.Done? ==>
            && |r.limitOrders| == |s.limitOrders|
            && (forall i :: 0 <= i < |s.limitOrders| ==>
                  r.limitOrders[i] == (if s.limitOrders[i].id == orderId then AsCancelled(s.limitOrders[i]) else s.limitOrders[i]))
            && r.orderEvents == s.orderEvents + [OrderCancelled(orderId, userId)])
  {
  }

  /** A FILLED limit order can still be cancelled by its owner. */
  lemma CancelIgnoresStatus(s: Db, row: LimitRow)
    requires s.limitOrders == [row] && row.status == LimitFilled
    ensures Cancel(s, row.id, row.userId).1 == Done("Order cancelled successfully")
    ensures Cancel(s, row.id, row.userId).0.limitOrders == [row.(status := LimitCancelled)]
  {
    assert HasLimit(s.limitOrders, row.id) by {
      assert s.limitOrders[0].id == row.id;
    }
  }

  /** `GET /limit-orders`: the user's rows that are not CANCELLED, newest first. */
  function ListLimitOrders(t: seq<LimitRow>, userId: string): (r: seq<LimitRow>)
    ensures forall x :: x in r <==> x in t && x.userId == userId && x.status != LimitCancelled
    ensures |r| <= |t|
    decreases |t|
  {
    if |t| == 0 then []
    else
      var rest := ListLimitOrders(t[1..], userId);
      assert t == [t[0]] + t[1..];
      if t[0].userId == userId && t[0].status != LimitCancelled then rest + [t[0]] else rest
  }

  /**
   * Once cancelled, an order neither appears in any listing nor is
   * selected by the execution engine's trigger scan at any price.
   */
  lemma CancelledOrderIsGone(s: Db, orderId: string, userId: string, viewer: string, side: OrderSide, price: int)
    requires Cancel(s, orderId, userId).1.Done?
    ensures var t := Cancel(s, orderId, userId).0.limitOrders;
      && (forall x :: x in ListLimitOrders(t, viewer) ==> x.id != orderId)
      && (forall x :: x in Execution.Triggered(t, side, price) ==> x.id != orderId)
  {
    var t := Cancel(s, orderId, userId).0.limitOrders;
    forall x | x in t && x.id == orderId ensures x.status == LimitCancelled {
      var i :| 0 <= i < |t| && t[i] == x;
    }
  }

  /** The order routes over the shared tables. */
  class OrderRoutes {
    const db: Database

    constructor (db: Database)
      ensures this.db == db
    {
      this.db := db;
    }

    /** `POST /`: validate, insert the PENDING command, publish it on `order:commands`. */
    method CreateOrder(userId: string, req: OrderRequest, orderId: string) returns (reply: Reply)
      modifies db
      ensures (db.State(), reply) == Create(old(db.State()), userId, req, orderId)
    {
      if req.side.None? || req.orderType.None? || !Truthy(req.quantity) {
        return Error(400, "Missing required fields");
      }
      if req.orderType.value == Limit && !Truthy(req.price) {
        return Error(400, "Price required for limit orders");
      }
      var command := CreateOrderCommand(userId, req.side.value, req.orderType.value, req.quantity.value,
                                        if Truthy(req.price) then req.price else None);
      if orderId in db.orderCommands {
        return Error(500, "Failed to create order");
      }
      db.orderCommands := db.orderCommands[orderId := CommandRow(
        Order(orderId, command.userId, command.side, command.orderType, command.quantity, command.price, Pending), None)];
      db.orderCommandChannel := db.orderCommandChannel + [PublishedCommand(orderId, command)];
      reply := Accepted(orderId, Pending);
    }

    /** `POST /:orderId/cancel`: check existence and ownership, then cancel and publish. */
    method CancelOrder(userId: string, orderId: string) returns (reply: Reply)
      modifies db
      ensures (db.State(), reply) == Cancel(old(db.State()), orderId, userId)
    {
      var found := FindLimit(db.limitOrders, orderId);
      if found.None? {
        return Error(404, "Order not found");
      }
      if found.value.userId != userId {
        return Error(403, "Unauthorized");
      }
      db.limitOrders := UpdateLimit(db.limitOrders, orderId, AsCancelled);
      db.orderEvents := db.orderEvents + [OrderCancelled(orderId, userId)];
      reply := Done("Order cancelled successfully");
    }
  }
}
