/** The order book as an object: fixed level arrays shifted in place, proved against BookSpec. */
module OrderBook {
  import opened BookSpec
  import BookLaws

  /** Linear search for a price among the first `count` levels. */
  method FindLevelIndex(levels: array<PriceLevel>, count: nat, price: int) returns (i: nat)
    requires count <= levels.Length
    ensures i == FindLevel(levels[..count], price)
  {
    i := 0;
    while i < count
      invariant i <= count
      invariant FindFrom(levels[..count], price, i) == FindLevel(levels[..count], price)
    {
      if levels[i].price == price { return; }
      i := i + 1;
    }
  }

  /** Opens a blank level at index i by shifting the ones behind it. */
  method OpenLevel(levels: array<PriceLevel>, count: nat, i: nat, price: int)
    requires i <= count < levels.Length
    modifies levels
    ensures levels[..count + 1] == old(levels[..i]) + [PriceLevel(price, 0, 0)] + old(levels[i..count])
  {
    ghost var was := levels[..count];
    var j := count;
    while j > i
      invariant i <= j <= count
      invariant forall k | 0 <= k < j :: levels[k] == was[k]
      invariant forall k | j < k <= count :: levels[k] == was[k - 1]
    {
      levels[j] := levels[j - 1];
      j := j - 1;
    }
    levels[i] := PriceLevel(price, 0, 0);
  }

  /** The slot of `price`, opening one in sorted position when there is room. */
  method FindOrInsertLevel(levels: array<PriceLevel>, count: nat, side: Side, price: int) returns (i: nat, newCount: nat)
    requires count <= levels.Length
    modifies levels
    ensures newCount <= levels.Length
    ensures i == ScanStop(old(levels[..count]), side, price)
    ensures levels[..newCount] == InsertLevel(old(levels[..count]), side, price, levels.Length)
  {
    ghost var was := levels[..count];
    i := 0;
    while i < count
      invariant i <= count
      invariant ScanFrom(was, side, price, i) == ScanStop(was, side, price)
    {
      if levels[i].price == price { return i, count; }
      var past := if side == Bid then levels[i].price < price else levels[i].price > price;
      if past { break; }
      i := i + 1;
    }
    newCount := count;
    if count < levels.Length {
      assert levels[..i] == was[..i] && levels[i..count] == was[i..];
      OpenLevel(levels, count, i, price);
      newCount := count + 1;
    }
  }

  /** Close the gap of the first level at `price`. */
  method EraseLevel(levels: array<PriceLevel>, count: nat, price: int) returns (newCount: nat)
    requires count <= levels.Length
    modifies levels
    ensures newCount <= levels.Length
    ensures var was := old(levels[..count]);
      var i := FindLevel(was, price);
      levels[..newCount] == if i < count then Erase(was, i) else was
  {
    ghost var was := levels[..count];
    var i := 0;
    while i < count
      invariant i <= count && levels[..count] == was
      invariant FindFrom(was, price, i) == FindLevel(was, price)
    {
      assert was[i] == levels[i];
      if levels[i].price != price {
        i := i + 1;
        continue;
      }
      var j := i;
      while j + 1 < count
        invariant i <= j < count
        invariant forall k | 0 <= k < i :: levels[k] == was[k]
        invariant forall k | i <= k < j :: levels[k] == was[k + 1]
        invariant forall k | j < k < count :: levels[k] == was[k]
      {
        levels[j] := levels[j + 1];
        j := j + 1;
      }
      return count - 1;
    }
    newCount := count;
  }

  class OrderBook {
    const symbolId: nat
    const lim: Limits
    var sequence: nat
    const bids: array<PriceLevel>
    var numBids: nat
    const asks: array<PriceLevel>
    var numAsks: nat
    var orders: map<OrderId, OrderLoc>

    ghost predicate Valid()
      reads this
    {
      bids != asks && bids.Length == asks.Length == lim.maxLevels && numBids <= bids.Length && numAsks <= asks.Length
    }

    /** The book's value. */
    ghost function View(): Book
      requires Valid()
      reads this, bids, asks
    {
      Book(symbolId, sequence, bids[..numBids], asks[..numAsks], orders)
    }

    constructor (symbolId: nat, lim: Limits)
      ensures Valid() && fresh(bids) && fresh(asks) && this.lim == lim
      ensures View() == EmptyBook(symbolId)
    {
      this.symbolId := symbolId;
      this.lim := lim;
      sequence, numBids, numAsks, orders := 0, 0, 0, map[];
      bids := new PriceLevel[lim.maxLevels](i => PriceLevel(0, 0, 0));
      asks := new PriceLevel[lim.maxLevels](i => PriceLevel(0, 0, 0));
    }

    /** The array, and how many of its levels are live, of one side. */
    function Levels(side: Side): array<PriceLevel>
    {
      if side == Bid then bids else asks
    }

    function Count(side: Side): nat
      reads this
    {
      if side == Bid then numBids else numAsks
    }

    method SetCount(side: Side, count: nat)
      requires Valid() && count <= lim.maxLevels
      modifies this`numBids, this`numAsks
      ensures Valid()
      ensures numBids == (if side == Bid then count else old(numBids))
      ensures numAsks == (if side == Bid then old(numAsks) else count)
    {
      if side == Bid { numBids := count; } else { numAsks := count; }
    }

    /** `find_or_insert_level` on one side of this book. */
    method PlaceFor(side: Side, price: int) returns (i: nat)
      requires Valid()
      modifies this`numBids, this`numAsks, bids, asks
      ensures Valid()
      ensures i == ScanStop(old(LevelsOf(View(), side)), side, price)
      ensures View() == WithLevels(old(View()), side, InsertLevel(old(LevelsOf(View(), side)), side, price, lim.maxLevels))
    {
      var levels := Levels(side);
      assert levels[..Count(side)] == LevelsOf(View(), side);
      var count;
      i, count := FindOrInsertLevel(levels, Count(side), side, price);
      SetCount(side, count);
    }

    /** Puts a new level in place of level i of a side. */
    method SetLevel(side: Side, i: nat, l: PriceLevel)
      requires Valid() && i < Count(side)
      modifies bids, asks
      ensures View() == WithLevels(old(View()), side, old(LevelsOf(View(), side))[i := l])
    {
      var levels := Levels(side);
      ghost var was := levels[..Count(side)];
      levels[i] := l;
      assert levels[..Count(side)] == was[i := l];
    }

    method OnAdd(id: OrderId, side: Side, price: int, qty: nat) returns (accepted: bool)
      requires Valid() && (!Refuses(View(), lim) ==> AddInBounds(View(), lim, side, price))
      modifies this, bids, asks
      ensures Valid()
      ensures accepted <==> !Refuses(old(View()), lim)
      ensures View() == BookSpec.OnAdd(old(View()), lim, id, side, price, qty)
    {
      if |orders| >= lim.maxOrders { return false; }
      var i := PlaceFor(side, price);
      SetLevel(side, i, AddToLevel(Levels(side)[i], qty));
      orders := orders[id := OrderLoc(side, price, qty)];
      sequence := Wrap64(sequence + 1);
      return true;
    }

    /** Takes an order's quantity and count out of its level, erasing the level with its last order. */
    method RemoveQty(loc: OrderLoc, qty: nat)
      requires Valid()
      modifies this`numBids, this`numAsks, bids, asks
      ensures Valid()
      ensures var levels := old(LevelsOf(View(), loc.side));
        var i := FindLevel(levels, loc.price);
        View() == if i < |levels| then WithLevels(old(View()), loc.side, DropOrder(levels, i, qty)) else old(View())
    {
      ghost var b := View();
      var levels := Levels(loc.side);
      ghost var was := levels[..Count(loc.side)];
      assert was == LevelsOf(b, loc.side);
      var i := FindLevelIndex(levels, Count(loc.side), loc.price);
      if i == Count(loc.side) { return; }
      levels[i] := levels[i].(qty := Wrap64(levels[i].qty - qty));
      levels[i] := levels[i].(orderCount := Wrap32(levels[i].orderCount - 1));
      ghost var updated := levels[..Count(loc.side)];
      assert updated == was[i := updated[i]];
      if levels[i].orderCount == 0 {
        var count := EraseLevel(levels, Count(loc.side), loc.price);
        SameFind(was, updated, loc.price);
        SetCount(loc.side, count);
        assert levels[..count] == Erase(was, i);
      }
    }

    /** Where a price is found depends on the prices only. */
    static lemma SameFind(a: seq<PriceLevel>, b: seq<PriceLevel>, price: int)
      requires |a| == |b| && forall j | 0 <= j < |a| :: a[j].price == b[j].price
      ensures FindLevel(a, price) == FindLevel(b, price)
    {}

    /** `find_level` on one side of this book. */
    method FindOn(side: Side, price: int) returns (i: nat)
      requires Valid()
      ensures i == FindLevel(LevelsOf(View(), side), price) <= Count(side) == |LevelsOf(View(), side)|
    {
      assert Levels(side)[..Count(side)] == LevelsOf(View(), side);
      i := FindLevelIndex(Levels(side), Count(side), price);
    }

    /** Order `id` leaves; its level, if found, gives up `qty`. */
    method Discard(id: OrderId, qty: nat)
      requires Valid() && id in orders
      modifies this`orders, this`numBids, this`numAsks, bids, asks
      ensures Valid()
      ensures var b := old(View());
        var levels := LevelsOf(b, b.orders[id].side);
        var i := FindLevel(levels, b.orders[id].price);
        View() == if i < |levels| then Without(b, id, i, qty) else b.(orders := b.orders - {id})
    {
      RemoveQty(orders[id], qty);
      orders := orders - {id};
    }

    /** Order `id` stays with `qty`, its level i at `levelQty`. */
    method Requantify(id: OrderId, i: nat, qty: nat, levelQty: nat)
      requires Valid() && id in orders && i < Count(orders[id].side)
      modifies this`orders, bids, asks
      ensures Valid()
      ensures View() == Requantified(old(View()), id, i, qty, levelQty)
    {
      var loc := orders[id];
      SetLevel(loc.side, i, Levels(loc.side)[i].(qty := levelQty));
      orders := orders[id := loc.(qty := qty)];
    }

    method OnCancel(id: OrderId)
      requires Valid()
      modifies this, bids, asks
      ensures Valid()
      ensures View() == BookSpec.OnCancel(old(View()), id)
    {
      if id !in orders { return; }
      Discard(id, orders[id].qty);
      sequence := Wrap64(sequence + 1);
    }

    method OnModify(id: OrderId, newQty: nat)
      requires Valid()
      modifies this, bids, asks
      ensures Valid()
      ensures View() == BookSpec.OnModify(old(View()), id, newQty)
    {
      if id !in orders { return; }
      var loc := orders[id];
      var i := FindOn(loc.side, loc.price);
      if i == Count(loc.side) { return; }
      Requantify(id, i, newQty, Wrap64(Levels(loc.side)[i].qty - loc.qty + newQty));
      sequence := Wrap64(sequence + 1);
    }

    /**
     * A fill. Side and price are taken before the order is erased; the source reads them from the
     * erased entry.
     */
    method OnExecute(id: OrderId, execQty: nat)
      requires Valid()
      modifies this, bids, asks
      ensures Valid()
      ensures View() == BookSpec.OnExecute(old(View()), id, execQty)
    {
      if id !in orders { return; }
      var loc := orders[id];
      var i := FindOn(loc.side, loc.price);
      if i == Count(loc.side) { return; }
      var rest := Wrap64(loc.qty - execQty);
      if rest == 0 {
        Discard(id, execQty);
      } else {
        Requantify(id, i, rest, Wrap64(Levels(loc.side)[i].qty - execQty));
      }
      sequence := Wrap64(sequence + 1);
    }

    /** The fixed-depth top of book that crosses to other threads. */
    method TakeSnapshot(depth: nat) returns (s: BookLaws.Snapshot)
      requires Valid()
      ensures s == BookLaws.SnapshotOf(View(), depth)
    {
      var b := CopyTop(bids, numBids, depth);
      var a := CopyTop(asks, numAsks, depth);
      s := BookLaws.Snapshot(symbolId, sequence, BookLaws.Min(numBids, depth), BookLaws.Min(numAsks, depth), b, a);
    }

    static method CopyTop(levels: array<PriceLevel>, count: nat, depth: nat) returns (r: seq<PriceLevel>)
      requires count <= levels.Length
      ensures r == BookLaws.TopOf(levels[..count], depth)
    {
      var out := new PriceLevel[depth](i => BookLaws.BlankLevel);
      var shown := BookLaws.Min(count, depth);
      var i := 0;
      while i < shown
        invariant i <= shown
        invariant forall k | 0 <= k < i :: out[k] == levels[k]
        invariant forall k | i <= k < depth :: out[k] == BookLaws.BlankLevel
      {
        out[i] := levels[i];
        i := i + 1;
      }
      r := out[..];
    }
  }
}
