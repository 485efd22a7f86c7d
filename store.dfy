/**
 * The Postgres tables and the Redis channels the gateway and the
 * execution engine share, as in-memory values: `users`, `order_commands`,
 * `limit_orders` (in insertion order), `trades`, the `order:events`
 * channel and the `order:commands` channel.
 */
module Store {
  import opened Common
  import opened Types

  /** A row of `order_commands`: the order and, once filled, its execution price. */
  datatype CommandRow = CommandRow(order: Order, executedPrice: Option<int>)

  /** A row of `limit_orders`. */
  datatype LimitRow = LimitRow(
    id: string, userId: string, side: OrderSide, price: Option<int>,
    quantity: int, filledQuantity: int, status: LimitStatus)

  /** A message on `order:commands`: the order id followed by the command's fields. */
  datatype PublishedCommand = PublishedCommand(orderId: string, command: CreateOrderCommand)

  datatype Db = Db(
    users: map<string, User>,
    orderCommands: map<string, CommandRow>,
    limitOrders: seq<LimitRow>,
    trades: seq<Trade>,
    orderEvents: seq<Event>,
    orderCommandChannel: seq<PublishedCommand>)

  /** `id` is the primary key of `limit_orders`. */
  predicate UniqueIds(t: seq<LimitRow>) {
    forall i, j :: 0 <= i < j < |t| ==> t[i].id != t[j].id
  }

  /** Whether some row of `limit_orders` has this id. */
  predicate HasLimit(t: seq<LimitRow>, id: string) {
    exists i :: 0 <= i < |t| && t[i].id == id
  }

  /** `SELECT ... FROM limit_orders WHERE id = $1`: the first row with this id. */
  function FindLimit(t: seq<LimitRow>, id: string): (r: Option<LimitRow>)
    ensures r.None? <==> !HasLimit(t, id)
    ensures r.Some? ==> r.value in t && r.value.id == id
    ensures r.Some? && UniqueIds(t) ==> forall i :: 0 <= i < |t| && t[i].id == id ==> t[i] == r.value
    decreases |t|
  {
    if |t| == 0 then None
    else if t[0].id == id then Some(t[0])
    else
      var r := FindLimit(t[1..], id);
      assert forall i :: 1 <= i < |t| ==> t[1..][i - 1] == t[i];
      r
  }

  /** `UPDATE limit_orders SET ... WHERE id = $1`: `f` applied to every row with this id. */
  function UpdateLimit(t: seq<LimitRow>, id: string, f: LimitRow -> LimitRow): (r: seq<LimitRow>)
    ensures |r| == |t|
    ensures forall i :: 0 <= i < |t| ==> r[i] == (if t[i].id == id then f(t[i]) else t[i])
  {
    seq(|t|, i requires 0 <= i < |t| => if t[i].id == id then f(t[i]) else t[i])
  }

  /** The row after `SET filled_quantity = quantity, status = 'FILLED'`. */
  function AsFilled(r: LimitRow): LimitRow {
    r.(filledQuantity := r.quantity, status := LimitFilled)
  }

  /** The row after `SET status = 'CANCELLED'`. */
  function AsCancelled(r: LimitRow): LimitRow {
    r.(status := LimitCancelled)
  }

  /** An update that keeps the row's id keeps the table's primary key intact. */
  lemma UpdateKeepsUniqueIds(t: seq<LimitRow>, id: string, f: LimitRow -> LimitRow)
    requires UniqueIds(t)
    requires forall r :: f(r).id == r.id
    ensures UniqueIds(UpdateLimit(t, id, f))
  {
    var u := UpdateLimit(t, id, f);
    forall i, j | 0 <= i < j < |u| ensures u[i].id != u[j].id {
      assert u[i].id == t[i].id && u[j].id == t[j].id;
    }
  }

  /** The tables as mutable state; every service holds the same instance. */
  class Database {
    var users: map<string, User>
    var orderCommands: map<string, CommandRow>
    var limitOrders: seq<LimitRow>
    var trades: seq<Trade>
    var orderEvents: seq<Event>
    var orderCommandChannel: seq<PublishedCommand>

    function State(): Db
      reads this
    {
      Db(users, orderCommands, limitOrders, trades, orderEvents, orderCommandChannel)
    }

    constructor (s: Db)
      ensures State() == s
    {
      users, orderCommands, limitOrders := s.users, s.orderCommands, s.limitOrders;
      trades, orderEvents, orderCommandChannel := s.trades, s.orderEvents, s.orderCommandChannel;
    }
  }
}
