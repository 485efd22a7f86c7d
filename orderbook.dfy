/**
 * The order-book maintainer of the event service
 * (apps/event-service/src/order-book-manager.ts): two price-to-quantity
 * level maps, a max-heap of bid prices and a min-heap of ask prices whose
 * entries are deleted lazily, and the update-id gate on depth updates.
 */
module OrderBook {
  import opened Common

  /** The two comparators the manager builds its heaps with. */
  datatype HeapKind = MaxHeap | MinHeap

  /** The heap's comparator: `a` belongs strictly above `b`. */
  predicate Beats(kind: HeapKind, a: int, b: int) {
    match kind
    case MaxHeap => a > b
    case MinHeap => a < b
  }

  function Parent(i: nat): nat
    requires i > 0
  {
    (i - 1) / 2
  }

  /** No element beats its parent. */
  ghost predicate IsHeap(kind: HeapKind, s: seq<int>) {
    forall i :: 0 < i < |s| ==> !Beats(kind, s[i], s[Parent(i)])
  }

  /** A heap whose element at `i` may still beat its parent (during bubbleUp). */
  ghost predicate HeapExceptUp(kind: HeapKind, s: seq<int>, i: nat) {
    && i < |s|
    && (forall k :: 0 < k < |s| && k != i ==> !Beats(kind, s[k], s[Parent(k)]))
    && (forall k :: 0 < k < |s| && i > 0 && Parent(k) == i ==> !Beats(kind, s[k], s[Parent(i)]))
  }

  /** A heap whose children of `i` may still beat it (during bubbleDown). */
  ghost predicate HeapExceptDown(kind: HeapKind, s: seq<int>, i: nat) {
    && i < |s|
    && (forall k :: 0 < k < |s| && Parent(k) != i ==> !Beats(kind, s[k], s[Parent(k)]))
    && (forall k :: 0 < k < |s| && i > 0 && Parent(k) == i ==> !Beats(kind, s[k], s[Parent(i)]))
  }

  /** In a heap no element beats the root. */
  lemma {:induction false} RootIsBest(kind: HeapKind, s: seq<int>, k: nat)
    requires IsHeap(kind, s) && k < |s|
    ensures !Beats(kind, s[k], s[0])
    decreases k
  {
    if k > 0 {
      RootIsBest(kind, s, Parent(k));
    }
  }

  lemma ChildrenOf(i: nat, k: nat)
    requires k > 0
    ensures Parent(k) == i <==> k == 2 * i + 1 || k == 2 * i + 2
  {
  }

  /** Swapping `i` with its parent, when the parent does not beat it, moves the hole to the parent. */
  lemma SwapUp(kind: HeapKind, s: seq<int>, i: nat)
    requires HeapExceptUp(kind, s, i) && i > 0
    requires !Beats(kind, s[Parent(i)], s[i])
    ensures HeapExceptUp(kind, Swap(s, Parent(i), i), Parent(i))
  {
    var p := Parent(i);
    var r := Swap(s, p, i);
    forall k | 0 < k < |r| && k != p
      ensures !Beats(kind, r[k], r[Parent(k)])
    {
      if k == i {
      } else if Parent(k) == i {
      } else if Parent(k) == p {
      } else if k == i {
      } else {
      }
    }
  }

  /** When `i` is the root or its parent beats it, the hole is closed. */
  lemma SettledUp(kind: HeapKind, s: seq<int>, i: nat)
    requires HeapExceptUp(kind, s, i)
    requires i > 0 ==> Beats(kind, s[Parent(i)], s[i])
    ensures IsHeap(kind, s)
  {
  }

  /** Swapping `i` with its best child `c`, when `c` is at least as good as `i`, moves the hole to `c`. */
  lemma SwapDown(kind: HeapKind, s: seq<int>, i: nat, c: nat)
    requires HeapExceptDown(kind, s, i)
    requires 0 < c < |s| && Parent(c) == i
    requires !Beats(kind, s[i], s[c])
    requires forall k :: 0 < k < |s| && Parent(k) == i ==> !Beats(kind, s[k], s[c])
    ensures HeapExceptDown(kind, Swap(s, i, c), c)
  {
    var r := Swap(s, i, c);
    forall k | 0 < k < |r| && Parent(k) != c
      ensures !Beats(kind, r[k], r[Parent(k)])
    {
      if k == c {
      } else if Parent(k) == i {
      } else if k == i {
      } else if Parent(k) == c {
      } else {
      }
    }
  }

  /** When no child of `i` is at least as good as `i`, the hole is closed. */
  lemma SettledDown(kind: HeapKind, s: seq<int>, i: nat)
    requires HeapExceptDown(kind, s, i)
    requires forall k :: 0 < k < |s| && Parent(k) == i ==> Beats(kind, s[i], s[k])
    ensures IsHeap(kind, s)
  {
  }

  function Swap(s: seq<int>, i: nat, j: nat): (r: seq<int>)
    requires i < |s| && j < |s|
    ensures |r| == |s| && r[i] == s[j] && r[j] == s[i]
    ensures forall k :: 0 <= k < |s| && k != i && k != j ==> r[k] == s[k]
    ensures multiset(r) == multiset(s)
  {
    s[i := s[j]][j := s[i]]
  }

  /** The binary heap of the source, over a growable array of prices. */
  class Heap {
    const kind: HeapKind
    var data: seq<int>

    ghost predicate Valid()
      reads this
    {
      IsHeap(kind, data)
    }

    constructor (kind: HeapKind)
      ensures this.kind == kind && data == [] && Valid()
    {
      this.kind := kind;
      data := [];
    }

    /** The top of the heap: the best element under the comparator, or none. */
    function Peek(): (r: Option<int>)
      requires Valid()
      reads this
      ensures r.None? <==> |data| == 0
      ensures r.Some? ==> r.value in data && forall x :: x in data ==> !Beats(kind, x, r.value)
    {
      if |data| > 0 then
        assert forall k :: 0 <= k < |data| ==> !Beats(kind, data[k], data[0]) by {
          forall k | 0 <= k < |data| { RootIsBest(kind, data, k); }
        }
        Some(data[0])
      else None
    }

    method Push(value: int)
      requires Valid()
      modifies this
      ensures Valid()
      ensures |data| == |old(data)| + 1
      ensures multiset(data) == multiset(old(data)) + multiset{value}
    {
      data := data + [value];
      BubbleUp();
    }

    method Pop() returns (r: Option<int>)
      requires Valid()
      modifies this
      ensures Valid()
      ensures r == old(Peek())
      ensures r.None? ==> data == old(data)
      ensures r.Some? ==> |data| == |old(data)| - 1
      ensures r.Some? ==> multiset(data) == multiset(old(data)) - multiset{r.value}
    {
      if |data| == 0 {
        return None;
      }
      var top := data[0];
      var last := data[|data| - 1];
      ghost var before := data;
      data := data[..|data| - 1];
      assert before == data + [last];
      if |data| > 0 {
        data := data[0 := last];
        BubbleDown();
      }
      r := Some(top);
    }

    /** Moves the last element up until its parent beats it. */
    method BubbleUp()
      requires |data| > 0 ==> HeapExceptUp(kind, data, |data| - 1)
      modifies this
      ensures Valid()
      ensures |data| == |old(data)| && multiset(data) == multiset(old(data))
    {
      if |data| == 0 {
        return;
      }
      var i: nat := |data| - 1;
      while i > 0
        invariant HeapExceptUp(kind, data, i)
        invariant |data| == |old(data)| && multiset(data) == multiset(old(data))
        decreases i
      {
        var p := Parent(i);
        if Beats(kind, data[p], data[i]) {
          break;
        }
        SwapUp(kind, data, i);
        data := Swap(data, p, i);
        i := p;
      }
      SettledUp(kind, data, i);
    }

    /** Moves the root down, swapping with its best child, until no child beats it. */
    method BubbleDown()
      requires |data| > 0 && HeapExceptDown(kind, data, 0)
      modifies this
      ensures Valid()
      ensures |data| == |old(data)| && multiset(data) == multiset(old(data))
    {
      var i: nat := 0;
      while true
        invariant HeapExceptDown(kind, data, i)
        invariant |data| == |old(data)| && multiset(data) == multiset(old(data))
        decreases |data| - i
      {
        var left := 2 * i + 1;
        var right := 2 * i + 2;
        var best := i;
        if left < |data| && !Beats(kind, data[best], data[left]) {
          best := left;
        }
        if right < |data| && !Beats(kind, data[best], data[right]) {
          best := right;
        }
        forall k | 0 < k < |data| ensures Parent(k) == i <==> k == left || k == right {
          ChildrenOf(i, k);
        }
        if best == i {
          SettledDown(kind, data, i);
          break;
        }
        SwapDown(kind, data, i, best);
        data := Swap(data, i, best);
        i := best;
      }
    }
  }

  /** One `[price, quantity]` pair of a snapshot or depth update, already parsed. */
  datatype Level = Level(price: int, quantity: int)

  /** `map.set(price, qty)` for each level in turn, as the snapshot load does. */
  function SetLevels(m: map<int, int>, levels: seq<Level>): map<int, int>
    decreases |levels|
  {
    if |levels| == 0 then m
    else
      var l := levels[|levels| - 1];
      SetLevels(m, levels[..|levels| - 1])[l.price := l.quantity]
  }

  /** The prices a snapshot load pushes: every one of its levels. */
  function Prices(levels: seq<Level>): multiset<int>
    decreases |levels|
  {
    if |levels| == 0 then multiset{}
    else Prices(levels[..|levels| - 1]) + multiset{levels[|levels| - 1].price}
  }

  /** One depth-update pair: quantity 0 deletes the level, anything else sets it. */
  function ApplyLevel(m: map<int, int>, l: Level): (r: map<int, int>)
    ensures l.quantity == 0 ==> l.price !in r
    ensures l.quantity == 0 && l.price !in m ==> r == m
    ensures l.quantity != 0 ==> l.price in r && r[l.price] == l.quantity
    ensures forall p :: p != l.price ==> (p in r <==> p in m) && (p in r ==> r[p] == m[p])
  {
    if l.quantity == 0 then m - {l.price} else m[l.price := l.quantity]
  }

  function ApplyLevels(m: map<int, int>, updates: seq<Level>): (r: map<int, int>)
    ensures forall p :: p in r && r[p] == 0 ==> p in m && m[p] == 0
    decreases |updates|
  {
    if |updates| == 0 then m
    else ApplyLevel(ApplyLevels(m, updates[..|updates| - 1]), updates[|updates| - 1])
  }

  /** The prices `applyUpdates` pushes: a non-zero level whose price is not yet in the map. */
  function Pushed(m: map<int, int>, updates: seq<Level>): multiset<int>
    decreases |updates|
  {
    if |updates| == 0 then multiset{}
    else
      var before := ApplyLevels(m, updates[..|updates| - 1]);
      var l := updates[|updates| - 1];
      Pushed(m, updates[..|updates| - 1])
        + if l.quantity != 0 && l.price !in before then multiset{l.price} else multiset{}
  }

  /**
   * After a sequence of depth-update pairs, a price's level is decided by
   * the last pair for that price: deleted if its quantity is 0, set to its
   * quantity otherwise; a price no pair mentions keeps its old level.
   */
  lemma {:induction false} LastUpdateWins(m: map<int, int>, updates: seq<Level>, p: int)
    ensures var r := ApplyLevels(m, updates);
      (forall i :: 0 <= i < |updates| ==> updates[i].price != p) ==>
        (p in r <==> p in m) && (p in r ==> r[p] == m[p])
    ensures var r := ApplyLevels(m, updates);
      forall j :: (0 <= j < |updates| && updates[j].price == p &&
                  forall i :: j < i < |updates| ==> updates[i].price != p) ==>
        (if updates[j].quantity == 0 then p !in r else p in r && r[p] == updates[j].quantity)
    decreases |updates|
  {
    if |updates| > 0 {
      var init := updates[..|updates| - 1];
      LastUpdateWins(m, init, p);
      assert forall i :: 0 <= i < |init| ==> init[i] == updates[i];
    }
  }

  /** Unfolds `ApplyLevels` and `Pushed` by one more pair. */
  lemma ApplyStep(m: map<int, int>, updates: seq<Level>, i: nat)
    requires i < |updates|
    ensures ApplyLevels(m, updates[..i + 1]) == ApplyLevel(ApplyLevels(m, updates[..i]), updates[i])
    ensures Pushed(m, updates[..i + 1]) == Pushed(m, updates[..i]) +
      if updates[i].quantity != 0 && updates[i].price !in ApplyLevels(m, updates[..i])
      then multiset{updates[i].price} else multiset{}
  {
    assert updates[..i + 1][..i] == updates[..i];
  }

  /** Every price with a level is somewhere in the heap (possibly with tombstones beside it). */
  ghost predicate Tracked(m: map<int, int>, data: seq<int>) {
    forall p :: p in m ==> p in multiset(data)
  }

  /** A heap with no entries tracks only the empty map. */
  lemma EmptyHeapTracksNothing(m: map<int, int>, data: seq<int>)
    requires Tracked(m, data) && data == []
    ensures m == map[]
  {
    assert forall p :: p !in m;
  }

  /** Applying one pair keeps the map tracked when its price is pushed exactly if `applyUpdates` pushes it. */
  lemma TrackedStep(m: map<int, int>, l: Level, before: seq<int>, after: seq<int>)
    requires Tracked(m, before)
    requires multiset(after) == multiset(before) +
      if l.quantity != 0 && l.price !in m then multiset{l.price} else multiset{}
    ensures Tracked(ApplyLevel(m, l), after)
  {
    forall p | p in ApplyLevel(m, l) ensures p in multiset(after) {
      if p != l.price {
        assert p in multiset(before);
      }
    }
  }

  /** A read-only view of the book: the best levels of each side and the update id. */
  datatype OrderBookView = OrderBookView(bids: seq<Level>, asks: seq<Level>, lastUpdateId: int)

  function LevelsAt(m: map<int, int>, keys: seq<int>): (r: seq<Level>)
    requires forall i :: 0 <= i < |keys| ==> keys[i] in m
    ensures |r| == |keys|
    ensures forall i :: 0 <= i < |r| ==> r[i].price == keys[i] && r[i].quantity == m[keys[i]]
  {
    seq(|keys|, i requires 0 <= i < |keys| => Level(keys[i], m[keys[i]]))
  }

  /** The depth the read API returns per side. */
  const BookDepth: nat := 20

  /** The best `BookDepth` levels of a side, best first. */
  function TopLevels(m: map<int, int>, descending: bool): (r: seq<Level>)
    ensures |r| == Min(BookDepth, |m|)
    ensures forall i :: 0 <= i < |r| ==> r[i].price in m && r[i].quantity == m[r[i].price]
    ensures forall i, j :: 0 <= i < j < |r| ==> Before(descending, r[i].price, r[j].price)
    ensures forall p :: p in m && (forall i :: 0 <= i < |r| ==> r[i].price != p) ==>
              forall i :: 0 <= i < |r| ==> Before(descending, r[i].price, p)
  {
    var keys := TopKeys(m.Keys, descending, BookDepth);
    TopKeysSorted(m.Keys, descending, BookDepth);
    TopKeysBest(m.Keys, descending, BookDepth);
    var r := LevelsAt(m, keys);
    assert forall p :: p in m && p !in keys ==> forall i :: 0 <= i < |r| ==> Before(descending, r[i].price, p);
    r
  }

  class OrderBookManager {
    var bidsMap: map<int, int>
    var asksMap: map<int, int>
    const bidHeap: Heap
    const askHeap: Heap
    var lastUpdateId: int
    const symbol: string

    ghost predicate Valid()
      reads this, bidHeap, askHeap
    {
      && bidHeap != askHeap
      && bidHeap.kind == MaxHeap && askHeap.kind == MinHeap
      && bidHeap.Valid() && askHeap.Valid()
      && Tracked(bidsMap, bidHeap.data) && Tracked(asksMap, askHeap.data)
    }

    constructor (symbol: string)
      ensures Valid() && fresh(bidHeap) && fresh(askHeap)
      ensures bidsMap == map[] && asksMap == map[] && lastUpdateId == 0 && this.symbol == symbol
      ensures bidHeap.data == [] && askHeap.data == []
    {
      bidsMap := map[];
      asksMap := map[];
      bidHeap := new Heap(MaxHeap);
      askHeap := new Heap(MinHeap);
      lastUpdateId := 0;
      this.symbol := symbol;
    }

    /**
     * Resets both level maps from a depth snapshot. The heaps are not
     * cleared: entries left over from before become tombstones.
     */
    method LoadSnapshot(snapshotId: int, bids: seq<Level>, asks: seq<Level>)
      requires Valid()
      modifies this, bidHeap, askHeap
      ensures Valid()
      ensures lastUpdateId == snapshotId
      ensures bidsMap == SetLevels(map[], bids) && asksMap == SetLevels(map[], asks)
      ensures multiset(bidHeap.data) == multiset(old(bidHeap.data)) + Prices(bids)
      ensures multiset(askHeap.data) == multiset(old(askHeap.data)) + Prices(asks)
    {
      lastUpdateId := snapshotId;
      bidsMap := map[];
      asksMap := map[];
      bidsMap := LoadLevels(bids, bidHeap);
      asksMap := LoadLevels(asks, askHeap);
    }

    static method LoadLevels(levels: seq<Level>, heap: Heap) returns (m: map<int, int>)
      requires heap.Valid()
      modifies heap
      ensures heap.Valid()
      ensures m == SetLevels(map[], levels)
      ensures multiset(heap.data) == multiset(old(heap.data)) + Prices(levels)
      ensures Tracked(m, heap.data)
    {
      m := map[];
      for i := 0 to |levels|
        invariant heap.Valid()
        invariant m == SetLevels(map[], levels[..i])
        invariant multiset(heap.data) == multiset(old(heap.data)) + Prices(levels[..i])
        invariant Tracked(m, heap.data)
      {
        assert levels[..i + 1][..i] == levels[..i];
        m := m[levels[i].price := levels[i].quantity];
        heap.Push(levels[i].price);
      }
      assert levels[..|levels|] == levels;
    }

    /**
     * The depth-stream handler: an update whose first id is not above
     * `lastUpdateId` is discarded; otherwise the id advances to the
     * update's final id and the bid, then the ask pairs are applied.
     */
    method HandleDepthUpdate(firstId: int, finalId: int, bids: seq<Level>, asks: seq<Level>)
      requires Valid()
      modifies this, bidHeap, askHeap
      ensures Valid()
      ensures firstId <= old(lastUpdateId) ==>
        && lastUpdateId == old(lastUpdateId)
        && bidsMap == old(bidsMap) && asksMap == old(asksMap)
        && bidHeap.data == old(bidHeap.data) && askHeap.data == old(askHeap.data)
      ensures firstId > old(lastUpdateId) ==>
        && lastUpdateId == finalId
        && bidsMap == ApplyLevels(old(bidsMap), bids)
        && asksMap == ApplyLevels(old(asksMap), asks)
        && multiset(bidHeap.data) == multiset(old(bidHeap.data)) + Pushed(old(bidsMap), bids)
        && multiset(askHeap.data) == multiset(old(askHeap.data)) + Pushed(old(asksMap), asks)
    {
      if firstId <= lastUpdateId {
        return;
      }
      lastUpdateId := finalId;
      bidsMap := ApplyUpdates(bids, bidsMap, bidHeap);
      asksMap := ApplyUpdates(asks, asksMap, askHeap);
    }

    static method ApplyUpdates(updates: seq<Level>, m: map<int, int>, heap: Heap) returns (m': map<int, int>)
      requires heap.Valid() && Tracked(m, heap.data)
      modifies heap
      ensures heap.Valid()
      ensures m' == ApplyLevels(m, updates)
      ensures multiset(heap.data) == multiset(old(heap.data)) + Pushed(m, updates)
      ensures Tracked(m', heap.data)
    {
      m' := m;
      for i := 0 to |updates|
        invariant heap.Valid()
        invariant m' == ApplyLevels(m, updates[..i])
        invariant multiset(heap.data) == multiset(old(heap.data)) + Pushed(m, updates[..i])
        invariant Tracked(m', heap.data)
      {
        ApplyStep(m, updates, i);
        m' := ApplyUpdate(updates[i], m', heap);
      }
      assert updates[..|updates|] == updates;
    }

    /** The body of the `applyUpdates` loop: one `[price, quantity]` pair. */
    static method ApplyUpdate(l: Level, m: map<int, int>, heap: Heap) returns (m': map<int, int>)
      requires heap.Valid() && Tracked(m, heap.data)
      modifies heap
      ensures heap.Valid()
      ensures m' == ApplyLevel(m, l)
      ensures multiset(heap.data) == multiset(old(heap.data)) +
        if l.quantity != 0 && l.price !in m then multiset{l.price} else multiset{}
      ensures Tracked(m', heap.data)
    {
      var price := l.price;
      var qty := l.quantity;
      if qty == 0 {
        m' := m - {price};
      } else {
        if price !in m {
          heap.Push(price);
        }
        m' := m[price := qty];
      }
      TrackedStep(m, l, old(heap.data), heap.data);
    }

    /** The read API: the 20 best bids descending, the 20 best asks ascending, and the update id. */
    function GetOrderBook(): (book: OrderBookView)
      reads this
      ensures book.bids == TopLevels(bidsMap, true)
      ensures book.asks == TopLevels(asksMap, false)
      ensures book.lastUpdateId == lastUpdateId
    {
      OrderBookView(TopLevels(bidsMap, true), TopLevels(asksMap, false), lastUpdateId)
    }

    /** Pops tombstones off the bid heap until its top has a level; that top is the best bid. */
    method GetBestBid() returns (r: Option<int>)
      requires Valid()
      modifies bidHeap
      ensures Valid()
      ensures r.None? <==> bidsMap == map[]
      ensures r.Some? ==> r.value in bidsMap && forall p :: p in bidsMap ==> p <= r.value
      ensures multiset(bidHeap.data) <= multiset(old(bidHeap.data))
      ensures forall x :: x in multiset(old(bidHeap.data)) - multiset(bidHeap.data) ==> x !in bidsMap
    {
      while true
        invariant Valid()
        invariant multiset(bidHeap.data) <= multiset(old(bidHeap.data))
        invariant forall x :: x in multiset(old(bidHeap.data)) - multiset(bidHeap.data) ==> x !in bidsMap
        decreases |bidHeap.data|
      {
        var price := bidHeap.Peek();
        if price.None? {
          EmptyHeapTracksNothing(bidsMap, bidHeap.data);
          return None;
        }
        if price.value in bidsMap {
          assert forall p :: p in bidsMap ==> p in bidHeap.data;
          return price;
        }
        var _ := bidHeap.Pop();
      }
    }

    /** Pops tombstones off the ask heap until its top has a level; that top is the best ask. */
    method GetBestAsk() returns (r: Option<int>)
      requires Valid()
      modifies askHeap
      ensures Valid()
      ensures r.None? <==> asksMap == map[]
      ensures r.Some? ==> r.value in asksMap && forall p :: p in asksMap ==> r.value <= p
      ensures multiset(askHeap.data) <= multiset(old(askHeap.data))
      ensures forall x :: x in multiset(old(askHeap.data)) - multiset(askHeap.data) ==> x !in asksMap
    {
      while true
        invariant Valid()
        invariant multiset(askHeap.data) <= multiset(old(askHeap.data))
        invariant forall x :: x in multiset(old(askHeap.data)) - multiset(askHeap.data) ==> x !in asksMap
        decreases |askHeap.data|
      {
        var price := askHeap.Peek();
        if price.None? {
          EmptyHeapTracksNothing(asksMap, askHeap.data);
          return None;
        }
        if price.value in asksMap {
          assert forall p :: p in asksMap ==> p in askHeap.data;
          return price;
        }
        var _ := askHeap.Pop();
      }
    }
  }

  /**
   * Snapshot {id 100, bids 50000:1, asks 50010:1}, then the update
   * U=101, u=102, b=[[50000,0]], a=[[50005,2]]: the bid side is empty,
   * the best ask is 50005 and the update id is 102.
   */
  method SnapshotThenUpdate() returns (bid: Option<int>, ask: Option<int>, id: int)
    ensures bid == None && ask == Some(50005) && id == 102
  {
    var book := new OrderBookManager("BTCUSDT");
    book.LoadSnapshot(100, [Level(50000, 1)], [Level(50010, 1)]);
    assert [Level(50000, 1)][..0] == [];
    assert [Level(50010, 1)][..0] == [];
    book.HandleDepthUpdate(101, 102, [Level(50000, 0)], [Level(50005, 2)]);
    assert [Level(50000, 0)][..0] == [];
    assert [Level(50005, 2)][..0] == [];
    bid := book.GetBestBid();
    ask := book.GetBestAsk();
    id := book.lastUpdateId;
  }
}
