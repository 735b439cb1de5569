/**
 * The order book on values: every call as a function from book to book, with the source's integer
 * widths, and the meaning it must keep: each side is the sorted aggregate of the resting orders.
 */
module BookSpec {
  import opened Wrappers

  const TWO_64: int := 0x1_0000_0000_0000_0000
  const TWO_32: int := 0x1_0000_0000

  function Wrap64(x: int): (r: nat)
    ensures r < TWO_64
  {
    x % TWO_64
  }

  function Wrap32(x: int): (r: nat)
    ensures r < TWO_32
  {
    x % TWO_32
  }

  lemma WrapShift(a: int, k: int)
    ensures Wrap64(Wrap64(a) + k) == Wrap64(a + k)
  {}

  lemma WrapCancel(a: int, k: int)
    requires Wrap64(k) == 0
    ensures Wrap64(a + k) == Wrap64(a)
  {}

  type OrderId = id: int | 0 <= id < TWO_64

  datatype Side = Bid | Ask

  datatype PriceLevel = PriceLevel(price: int, qty: nat, orderCount: nat)

  datatype OrderLoc = OrderLoc(side: Side, price: int, qty: nat)

  datatype Book = Book(symbol: nat, sequence: nat, bids: seq<PriceLevel>, asks: seq<PriceLevel>, orders: map<OrderId, OrderLoc>)

  /** Template arguments of the book. */
  datatype Limits = Limits(maxLevels: nat, maxOrders: nat)

  function EmptyBook(symbol: nat): Book {
    Book(symbol, 0, [], [], map[])
  }

  function LevelsOf(b: Book, side: Side): seq<PriceLevel> {
    if side == Bid then b.bids else b.asks
  }

  function WithLevels(b: Book, side: Side, levels: seq<PriceLevel>): Book {
    if side == Bid then b.(bids := levels) else b.(asks := levels)
  }

  /** Price a ranks behind price b on this side. */
  predicate Behind(side: Side, a: int, b: int) {
    if side == Bid then a < b else a > b
  }

  /** The first level at `price`, or the number of levels. */
  function FindLevel(levels: seq<PriceLevel>, price: int): (i: nat)
    ensures i <= |levels|
    ensures i < |levels| ==> levels[i].price == price
    ensures forall j | 0 <= j < i :: levels[j].price != price
  {
    FindFrom(levels, price, 0)
  }

  function FindFrom(levels: seq<PriceLevel>, price: int, from: nat): (i: nat)
    requires from <= |levels|
    ensures from <= i <= |levels|
    ensures i < |levels| ==> levels[i].price == price
    ensures forall j | from <= j < i :: levels[j].price != price
    decreases |levels| - from
  {
    if from == |levels| || levels[from].price == price then from else FindFrom(levels, price, from + 1)
  }

  /** Where the scan for `price` stops: at its level, at the first level behind it, or at the end. */
  function ScanStop(levels: seq<PriceLevel>, side: Side, price: int): (i: nat)
    ensures i <= |levels|
    ensures i < |levels| ==> levels[i].price == price || Behind(side, levels[i].price, price)
    ensures forall j | 0 <= j < i :: levels[j].price != price && !Behind(side, levels[j].price, price)
  {
    ScanFrom(levels, side, price, 0)
  }

  function ScanFrom(levels: seq<PriceLevel>, side: Side, price: int, from: nat): (i: nat)
    requires from <= |levels|
    ensures from <= i <= |levels|
    ensures i < |levels| ==> levels[i].price == price || Behind(side, levels[i].price, price)
    ensures forall j | from <= j < i :: levels[j].price != price && !Behind(side, levels[j].price, price)
    decreases |levels| - from
  {
    if from == |levels| || levels[from].price == price || Behind(side, levels[from].price, price) then from
    else ScanFrom(levels, side, price, from + 1)
  }

  function Erase(levels: seq<PriceLevel>, i: nat): seq<PriceLevel>
    requires i < |levels|
  {
    levels[..i] + levels[i + 1..]
  }

  /** The levels after `find_or_insert_level`; its index is the scan's stopping point. */
  function InsertLevel(levels: seq<PriceLevel>, side: Side, price: int, maxLevels: nat): seq<PriceLevel> {
    var i := ScanStop(levels, side, price);
    if i < |levels| && levels[i].price == price then levels
    else if |levels| < maxLevels then levels[..i] + [PriceLevel(price, 0, 0)] + levels[i..]
    else levels
  }

  /** The index the source writes through; beyond the array it is out of bounds. */
  predicate AddInBounds(b: Book, lim: Limits, side: Side, price: int) {
    ScanStop(LevelsOf(b, side), side, price) < |InsertLevel(LevelsOf(b, side), side, price, lim.maxLevels)|
  }

  function AddToLevel(l: PriceLevel, qty: nat): PriceLevel {
    l.(qty := Wrap64(l.qty + qty), orderCount := Wrap32(l.orderCount + 1))
  }

  predicate Refuses(b: Book, lim: Limits) {
    |b.orders| >= lim.maxOrders
  }

  function Next(b: Book): Book {
    b.(sequence := Wrap64(b.sequence + 1))
  }

  function OnAdd(b: Book, lim: Limits, id: OrderId, side: Side, price: int, qty: nat): Book
    requires !Refuses(b, lim) ==> AddInBounds(b, lim, side, price)
  {
    if Refuses(b, lim) then b else
      var i := ScanStop(LevelsOf(b, side), side, price);
      var levels := InsertLevel(LevelsOf(b, side), side, price, lim.maxLevels);
      Next(WithLevels(b, side, levels[i := AddToLevel(levels[i], qty)]).(orders := b.orders[id := OrderLoc(side, price, qty)]))
  }

  /** Take one order out of level i, erasing the level with its last order. */
  function DropOrder(levels: seq<PriceLevel>, i: nat, qty: nat): seq<PriceLevel>
    requires i < |levels|
  {
    var l := levels[i].(qty := Wrap64(levels[i].qty - qty), orderCount := Wrap32(levels[i].orderCount - 1));
    if l.orderCount == 0 then Erase(levels, i) else levels[i := l]
  }

  /** Order `id` leaves, its level i giving up `qty`. */
  function Without(b: Book, id: OrderId, i: nat, qty: nat): Book
    requires id in b.orders && i < |LevelsOf(b, b.orders[id].side)|
  {
    var side := b.orders[id].side;
    WithLevels(b, side, DropOrder(LevelsOf(b, side), i, qty)).(orders := b.orders - {id})
  }

  /** Order `id` stays with quantity `qty`, its level i at `levelQty`. */
  function Requantified(b: Book, id: OrderId, i: nat, qty: nat, levelQty: nat): Book
    requires id in b.orders && i < |LevelsOf(b, b.orders[id].side)|
  {
    var loc := b.orders[id];
    var levels := LevelsOf(b, loc.side);
    WithLevels(b, loc.side, levels[i := levels[i].(qty := levelQty)]).(orders := b.orders[id := loc.(qty := qty)])
  }

  function OnCancel(b: Book, id: OrderId): Book {
    if id !in b.orders then b else
      var loc := b.orders[id];
      var i := FindLevel(LevelsOf(b, loc.side), loc.price);
      if i == |LevelsOf(b, loc.side)| then Next(b.(orders := b.orders - {id}))
      else Next(Without(b, id, i, loc.qty))
  }

  function OnModify(b: Book, id: OrderId, newQty: nat): Book {
    if id !in b.orders then b else
      var loc := b.orders[id];
      var levels := LevelsOf(b, loc.side);
      var i := FindLevel(levels, loc.price);
      if i == |levels| then b
      else Next(Requantified(b, id, i, newQty, Wrap64(levels[i].qty - loc.qty + newQty)))
  }

  /** A fill; the order leaves when its remaining quantity is zero in the 64-bit width. */
  function OnExecute(b: Book, id: OrderId, execQty: nat): Book {
    if id !in b.orders then b else
      var loc := b.orders[id];
      var levels := LevelsOf(b, loc.side);
      var i := FindLevel(levels, loc.price);
      if i == |levels| then b
      else if Wrap64(loc.qty - execQty) == 0 then Next(Without(b, id, i, execQty))
      else Next(Requantified(b, id, i, Wrap64(loc.qty - execQty), Wrap64(levels[i].qty - execQty)))
  }

  // ---------------------------------------------------------------- the aggregate of the resting orders

  datatype Total = Total(qty: nat, count: nat)

  function Share(loc: OrderLoc, side: Side, price: int): Total {
    if loc.side == side && loc.price == price then Total(loc.qty, 1) else Total(0, 0)
  }

  function Plus(a: Total, b: Total): Total {
    Total(a.qty + b.qty, a.count + b.count)
  }

  /** Sum and number of the orders with an id below n that rest at a price. */
  ghost function SumBelow(orders: map<OrderId, OrderLoc>, n: nat, side: Side, price: int): Total {
    if n == 0 then Total(0, 0)
    else Plus(ShareOf(orders, n - 1, side, price), SumBelow(orders, n - 1, side, price))
  }

  ghost function ShareOf(orders: map<OrderId, OrderLoc>, id: nat, side: Side, price: int): Total {
    if id in orders then Share(orders[id], side, price) else Total(0, 0)
  }

  /** Beyond every order id. */
  ghost function IdBound(): (n: nat)
    ensures n >= TWO_64
  {
    var n: nat :| n >= TWO_64;
    n
  }

  /** Sum and number of the resting orders at a price. */
  ghost function Tally(orders: map<OrderId, OrderLoc>, side: Side, price: int): Total {
    SumBelow(orders, IdBound(), side, price)
  }

  /** Changing what is known of one id moves the sum by the difference of its shares. */
  lemma {:induction false} SumMoves(a: map<OrderId, OrderLoc>, b: map<OrderId, OrderLoc>, id: OrderId, n: nat, side: Side, price: int)
    requires forall x: nat | x != id :: ShareOf(a, x, side, price) == ShareOf(b, x, side, price)
    ensures id >= n ==> SumBelow(a, n, side, price) == SumBelow(b, n, side, price)
    ensures id < n ==> Plus(SumBelow(a, n, side, price), ShareOf(b, id, side, price))
                       == Plus(SumBelow(b, n, side, price), ShareOf(a, id, side, price))
  {
    if n > 0 {
      SumMoves(a, b, id, n - 1, side, price);
    }
  }

  lemma TallyTakeOut(orders: map<OrderId, OrderLoc>, id: OrderId, side: Side, price: int)
    requires id in orders
    ensures Tally(orders, side, price) == Plus(Share(orders[id], side, price), Tally(orders - {id}, side, price))
  {
    SumMoves(orders, orders - {id}, id, IdBound(), side, price);
  }

  lemma TallyPutIn(orders: map<OrderId, OrderLoc>, id: OrderId, loc: OrderLoc, side: Side, price: int)
    ensures Tally(orders[id := loc], side, price) == Plus(Share(loc, side, price), Tally(orders - {id}, side, price))
  {
    SumMoves(orders[id := loc], orders - {id}, id, IdBound(), side, price);
  }

  predicate RestsAt(loc: OrderLoc, side: Side, price: int) {
    loc.side == side && loc.price == price
  }

  lemma {:induction false} SumOfNone(orders: map<OrderId, OrderLoc>, n: nat, side: Side, price: int)
    ensures SumBelow(orders, n, side, price).count == 0 ==> SumBelow(orders, n, side, price).qty == 0
  {
    if n > 0 {
      SumOfNone(orders, n - 1, side, price);
    }
  }

  lemma {:induction false} SumOfSome(orders: map<OrderId, OrderLoc>, n: nat, side: Side, price: int)
    ensures SumBelow(orders, n, side, price).count > 0 <==> exists id: OrderId :: id < n && id in orders && RestsAt(orders[id], side, price)
  {
    if n > 0 {
      SumOfSome(orders, n - 1, side, price);
    }
  }

  lemma {:induction false} TallyCountBound(orders: map<OrderId, OrderLoc>, side: Side, price: int)
    ensures Tally(orders, side, price).count <= |orders|
    decreases |orders|
  {
    if |orders| == 0 {
      SumOfSome(orders, IdBound(), side, price);
    } else {
      var id :| id in orders;
      TallyTakeOut(orders, id, side, price);
      CardinalityAfterRemoval(orders, id);
      TallyCountBound(orders - {id}, side, price);
    }
  }

  lemma CardinalityAfterRemoval(orders: map<OrderId, OrderLoc>, id: OrderId)
    requires id in orders
    ensures |orders - {id}| == |orders| - 1
  {
    assert (orders - {id}).Keys == orders.Keys - {id};
    assert |orders.Keys| == |orders|;
    assert |(orders - {id}).Keys| == |orders - {id}|;
  }

  lemma CardinalityAfterPut(orders: map<OrderId, OrderLoc>, id: OrderId, loc: OrderLoc)
    ensures |orders[id := loc]| == if id in orders then |orders| else |orders| + 1
  {
    assert orders[id := loc].Keys == orders.Keys + {id};
    assert |orders[id := loc].Keys| == |orders[id := loc]| && |orders.Keys| == |orders|;
  }

  lemma TallyCounts(orders: map<OrderId, OrderLoc>, side: Side, price: int)
    ensures Tally(orders, side, price).count <= |orders|
    ensures Tally(orders, side, price).count > 0 <==> exists id :: id in orders && RestsAt(orders[id], side, price)
    ensures Tally(orders, side, price).count == 0 ==> Tally(orders, side, price).qty == 0
  {
    TallyCountBound(orders, side, price);
    SumOfNone(orders, IdBound(), side, price);
    SumOfSome(orders, IdBound(), side, price);
  }

  /** One side's tallies as a function of the price. */
  ghost function Tallies(orders: map<OrderId, OrderLoc>, side: Side): int -> Total {
    (price: int) => Tally(orders, side, price)
  }

  ghost predicate BestFirst(side: Side, levels: seq<PriceLevel>) {
    forall i, j | 0 <= i < j < |levels| :: Behind(side, levels[j].price, levels[i].price)
  }

  ghost predicate HasPrice(levels: seq<PriceLevel>, price: int) {
    exists i :: 0 <= i < |levels| && levels[i].price == price
  }

  /** A level carries its price's total, the quantity in 64 bits, and is never empty. */
  ghost predicate LevelFits(t: int -> Total, l: PriceLevel) {
    l.qty == Wrap64(t(l.price).qty) && l.orderCount == t(l.price).count > 0
  }

  ghost predicate SideFits(t: int -> Total, side: Side, levels: seq<PriceLevel>) {
    && BestFirst(side, levels)
    && (forall i | 0 <= i < |levels| :: LevelFits(t, levels[i]))
    && (forall price | t(price).count > 0 :: HasPrice(levels, price))
  }

  /** Both sides are the aggregate of the resting orders, and the capacities hold. */
  ghost predicate Consistent(b: Book, lim: Limits) {
    && SideFits(Tallies(b.orders, Bid), Bid, b.bids) && SideFits(Tallies(b.orders, Ask), Ask, b.asks)
    && |b.bids| <= lim.maxLevels && |b.asks| <= lim.maxLevels
    && |b.orders| <= lim.maxOrders < TWO_32
  }

  /** The aggregate is unique: the tallies determine every level of a side. */
  lemma SideDetermined(t: int -> Total, side: Side, a: seq<PriceLevel>, b: seq<PriceLevel>)
    requires SideFits(t, side, a) && SideFits(t, side, b)
    ensures a == b
  {
    SidePrefix(t, side, a, b, |a|);
    SidePrefix(t, side, b, a, |b|);
  }

  lemma NotEarlier(side: Side, a: seq<PriceLevel>, b: seq<PriceLevel>, m: nat, i: nat)
    requires BestFirst(side, a) && m < |a| && m <= |b| && a[..m] == b[..m] && i < |b| && b[i] == a[m]
    ensures i >= m
  {
    forall k | 0 <= k < m ensures b[k] != a[m] {
      assert a[k] == a[..m][k] && b[k] == b[..m][k];
      assert Behind(side, a[m].price, a[k].price);
    }
  }

  lemma {:induction false} SidePrefix(t: int -> Total, side: Side, a: seq<PriceLevel>, b: seq<PriceLevel>, k: nat)
    requires SideFits(t, side, a) && SideFits(t, side, b) && k <= |a|
    ensures k <= |b| && a[..k] == b[..k]
  {
    if k > 0 {
      SidePrefix(t, side, a, b, k - 1);
      var i := HasLevel(t, side, a[k - 1], b);
      NotEarlier(side, a, b, k - 1, i);
      var j := HasLevel(t, side, b[k - 1], a);
      NotEarlier(side, b, a, k - 1, j);
      SameNext(side, a, b, k - 1, i, j);
      assert a[..k] == a[..k - 1] + [a[k - 1]] && b[..k] == b[..k - 1] + [b[k - 1]];
    }
  }

  lemma SameNext(side: Side, a: seq<PriceLevel>, b: seq<PriceLevel>, m: nat, i: nat, j: nat)
    requires BestFirst(side, a) && BestFirst(side, b) && m <= i < |b| && m <= j < |a|
    requires a[m] == b[i] && b[m] == a[j]
    ensures a[m] == b[m]
  {
    assert i != m ==> Behind(side, b[i].price, b[m].price);
    assert j != m ==> Behind(side, a[j].price, a[m].price);
  }

  lemma HasLevel(t: int -> Total, side: Side, l: PriceLevel, levels: seq<PriceLevel>) returns (i: nat)
    requires SideFits(t, side, levels) && LevelFits(t, l)
    ensures i < |levels| && levels[i] == l
  {
    i := FindLevel(levels, l.price);
    assert LevelFits(t, levels[i]);
  }
}
