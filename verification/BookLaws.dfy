/** What the book's calls keep: after any proper run both sides aggregate a plain map of orders. */
module BookLaws {
  import opened BookSpec

  // ---------------------------------------------------------------- one side

  /** The tallies of a side changed at one price only. */
  ghost predicate OnlyAt(t: int -> Total, t': int -> Total, price: int) {
    forall p: int | p != price :: t'(p) == t(p)
  }

  lemma FoundAt(side: Side, levels: seq<PriceLevel>, i: nat)
    requires BestFirst(side, levels) && i < |levels|
    ensures FindLevel(levels, levels[i].price) == i
  {}

  lemma OtherPrice(side: Side, levels: seq<PriceLevel>, i: nat, j: nat)
    requires BestFirst(side, levels) && i < |levels| && j < |levels| && i != j
    ensures levels[i].price != levels[j].price
  {}

  /** Replacing level i, same price, by one that matches the new tally. */
  lemma SetKeepsSide(t: int -> Total, t': int -> Total, side: Side, levels: seq<PriceLevel>, i: nat, l: PriceLevel)
    requires SideFits(t, side, levels) && i < |levels| && l.price == levels[i].price
    requires OnlyAt(t, t', l.price) && LevelFits(t', l)
    ensures SideFits(t', side, levels[i := l])
  {
    var levels' := levels[i := l];
    forall j | 0 <= j < |levels'| ensures LevelFits(t', levels'[j]) {
      if j != i { assert LevelFits(t, levels[j]); OtherPrice(side, levels, i, j); }
    }
    forall price | t'(price).count > 0 ensures HasPrice(levels', price) {
      if price == l.price {
        assert levels'[i].price == price;
      } else {
        assert t(price).count > 0;
        var k :| 0 <= k < |levels| && levels[k].price == price;
        assert levels'[k].price == price;
      }
    }
  }

  lemma EraseBestFirst(side: Side, levels: seq<PriceLevel>, i: nat)
    requires BestFirst(side, levels) && i < |levels|
    ensures BestFirst(side, Erase(levels, i))
    ensures forall k | 0 <= k < |levels| - 1 :: Erase(levels, i)[k] == levels[if k < i then k else k + 1]
  {}

  /** Erasing level i once nothing rests at its price. */
  lemma EraseKeepsSide(t: int -> Total, t': int -> Total, side: Side, levels: seq<PriceLevel>, i: nat)
    requires SideFits(t, side, levels) && i < |levels|
    requires OnlyAt(t, t', levels[i].price) && t'(levels[i].price).count == 0
    ensures SideFits(t', side, Erase(levels, i))
  {
    var levels' := Erase(levels, i);
    EraseBestFirst(side, levels, i);
    forall j | 0 <= j < |levels'| ensures LevelFits(t', levels'[j]) {
      var k := if j < i then j else j + 1;
      assert levels'[j] == levels[k] && LevelFits(t, levels[k]);
      OtherPrice(side, levels, i, k);
    }
    forall price | t'(price).count > 0 ensures HasPrice(levels', price) {
      assert t(price).count > 0;
      var k :| 0 <= k < |levels| && levels[k].price == price;
      assert levels'[if k < i then k else k - 1].price == price;
    }
  }

  /** Taking one order out of the level at its price. */
  lemma DropKeepsSide(t: int -> Total, t': int -> Total, side: Side, levels: seq<PriceLevel>, i: nat, qty: nat)
    requires SideFits(t, side, levels) && i < |levels| && OnlyAt(t, t', levels[i].price)
    requires t(levels[i].price).count == t'(levels[i].price).count + 1 < TWO_32
    requires Wrap64(t'(levels[i].price).qty) == Wrap64(t(levels[i].price).qty - qty)
    ensures SideFits(t', side, DropOrder(levels, i, qty))
    ensures |DropOrder(levels, i, qty)| <= |levels|
  {
    var total := t'(levels[i].price);
    assert LevelFits(t, levels[i]);
    var l := levels[i].(qty := Wrap64(levels[i].qty - qty), orderCount := Wrap32(levels[i].orderCount - 1));
    WrapShift(t(levels[i].price).qty, 0 - qty);
    assert l.orderCount == total.count && l.qty == Wrap64(total.qty);
    if total.count == 0 {
      EraseKeepsSide(t, t', side, levels, i);
    } else {
      SetKeepsSide(t, t', side, levels, i, l);
    }
  }

  /** The place where the scan stops keeps the order best first. */
  lemma InsertBestFirst(side: Side, levels: seq<PriceLevel>, l: PriceLevel)
    requires BestFirst(side, levels) && FindLevel(levels, l.price) == |levels|
    ensures var i := ScanStop(levels, side, l.price); BestFirst(side, levels[..i] + [l] + levels[i..])
  {
    var i := ScanStop(levels, side, l.price);
    var levels' := levels[..i] + [l] + levels[i..];
    forall a, b | 0 <= a < b < |levels'| ensures Behind(side, levels'[b].price, levels'[a].price) {
      if i < |levels| && b > i { assert levels[b - 1] == levels[i] || Behind(side, levels[b - 1].price, levels[i].price); }
    }
  }

  /** Where an old element k is once x was put in at i. */
  lemma InsertedAt<T>(s: seq<T>, i: nat, x: T, k: nat)
    requires i <= |s| && k < |s|
    ensures (s[..i] + [x] + s[i..])[if k < i then k else k + 1] == s[k]
  {}

  lemma InsertedFits(t: int -> Total, t': int -> Total, side: Side, levels: seq<PriceLevel>, i: nat, l: PriceLevel)
    requires SideFits(t, side, levels) && FindLevel(levels, l.price) == |levels| && i <= |levels|
    requires OnlyAt(t, t', l.price) && LevelFits(t', l)
    ensures var out := levels[..i] + [l] + levels[i..];
      (forall j | 0 <= j < |out| :: LevelFits(t', out[j])) && (forall p | t'(p).count > 0 :: HasPrice(out, p))
  {
    var out := levels[..i] + [l] + levels[i..];
    forall j | 0 <= j < |out| ensures LevelFits(t', out[j]) {
      if j != i {
        var k := if j < i then j else j - 1;
        InsertedAt(levels, i, l, k);
        assert LevelFits(t, levels[k]);
      }
    }
    forall p | t'(p).count > 0 ensures HasPrice(out, p) {
      if p == l.price { assert out[i].price == p; }
      else {
        assert t(p).count > 0;
        var k :| 0 <= k < |levels| && levels[k].price == p;
        InsertedAt(levels, i, l, k);
        assert out[if k < i then k else k + 1].price == p;
      }
    }
  }

  lemma InsertKeepsSide(t: int -> Total, t': int -> Total, side: Side, levels: seq<PriceLevel>, l: PriceLevel)
    requires SideFits(t, side, levels) && FindLevel(levels, l.price) == |levels|
    requires OnlyAt(t, t', l.price) && LevelFits(t', l)
    ensures var i := ScanStop(levels, side, l.price); SideFits(t', side, levels[..i] + [l] + levels[i..])
  {
    InsertBestFirst(side, levels, l);
    InsertedFits(t, t', side, levels, ScanStop(levels, side, l.price), l);
    hide ScanStop;
    hide FindLevel;
    hide BestFirst;
    hide LevelFits;
    hide HasPrice;
  }

  lemma ScanFinds(side: Side, levels: seq<PriceLevel>, k: nat)
    requires BestFirst(side, levels) && k < |levels|
    ensures ScanStop(levels, side, levels[k].price) == k
  {}

  lemma AddToExisting(t: int -> Total, t': int -> Total, side: Side, levels: seq<PriceLevel>, i: nat, qty: nat)
    requires SideFits(t, side, levels) && i < |levels| && OnlyAt(t, t', levels[i].price)
    requires t'(levels[i].price) == Plus(Total(qty, 1), t(levels[i].price)) && t'(levels[i].price).count < TWO_32
    ensures SideFits(t', side, levels[i := AddToLevel(levels[i], qty)])
  {
    assert LevelFits(t, levels[i]);
    WrapShift(t(levels[i].price).qty, qty);
    SetKeepsSide(t, t', side, levels, i, AddToLevel(levels[i], qty));
  }

  /** Adding at a price that has a level, or finds room for one. */
  lemma AddKeepsSide(t: int -> Total, t': int -> Total, side: Side, levels: seq<PriceLevel>, price: int, qty: nat, max: nat)
    requires SideFits(t, side, levels) && OnlyAt(t, t', price)
    requires FindLevel(levels, price) < |levels| || (|levels| < max && t(price).qty == 0)
    requires t'(price) == Plus(Total(qty, 1), t(price)) && t'(price).count < TWO_32
    ensures var i, levels' := ScanStop(levels, side, price), InsertLevel(levels, side, price, max);
      i < |levels'| && SideFits(t', side, levels'[i := AddToLevel(levels'[i], qty)])
      && (|levels| <= max ==> |levels'| <= max)
  {
    var i, levels' := ScanStop(levels, side, price), InsertLevel(levels, side, price, max);
    var k := FindLevel(levels, price);
    if k < |levels| {
      ScanFinds(side, levels, k);
      AddToExisting(t, t', side, levels, i, qty);
    } else {
      var l := AddToLevel(PriceLevel(price, 0, 0), qty);
      InsertKeepsSide(t, t', side, levels, l);
      assert levels'[i := l] == levels[..i] + [l] + levels[i..];
    }
  }

  // ---------------------------------------------------------------- how each call moves the tallies

  /** Order `id` left: its share is gone from its own price, and nothing else moved. */
  lemma RemovalMoves(orders: map<OrderId, OrderLoc>, id: OrderId, side: Side, price: int)
    requires id in orders && side == orders[id].side && price == orders[id].price
    ensures var t, t' := Tallies(orders, side), Tallies(orders - {id}, side);
      OnlyAt(t, t', price) && t(price) == Plus(Total(orders[id].qty, 1), t'(price))
    ensures SameTallies(Tallies(orders, Other(side)), Tallies(orders - {id}, Other(side)))
  {
    forall s, p ensures Tallies(orders, s)(p) == Plus(Share(orders[id], s, p), Tallies(orders - {id}, s)(p)) {
      TallyTakeOut(orders, id, s, p);
    }
  }

  /** A fresh order came. */
  lemma ArrivalMoves(orders: map<OrderId, OrderLoc>, id: OrderId, loc: OrderLoc)
    requires id !in orders
    ensures var t, t' := Tallies(orders, loc.side), Tallies(orders[id := loc], loc.side);
      OnlyAt(t, t', loc.price) && t'(loc.price) == Plus(Total(loc.qty, 1), t(loc.price))
    ensures SameTallies(Tallies(orders, Other(loc.side)), Tallies(orders[id := loc], Other(loc.side)))
  {
    assert orders - {id} == orders;
    forall s, p ensures Tallies(orders[id := loc], s)(p) == Plus(Share(loc, s, p), Tallies(orders, s)(p)) {
      TallyPutIn(orders, id, loc, s, p);
    }
  }

  /** Order `id` has another quantity. */
  lemma ReplacementMoves(orders: map<OrderId, OrderLoc>, id: OrderId, qty: nat)
    requires id in orders
    ensures var loc := orders[id];
      var t, t' := Tallies(orders, loc.side), Tallies(orders[id := loc.(qty := qty)], loc.side);
      OnlyAt(t, t', loc.price) && t'(loc.price).count == t(loc.price).count
      && t'(loc.price).qty == t(loc.price).qty - loc.qty + qty
    ensures SameTallies(Tallies(orders, Other(orders[id].side)), Tallies(orders[id := orders[id].(qty := qty)], Other(orders[id].side)))
  {
    var loc := orders[id];
    forall s, p
      ensures Tallies(orders, s)(p) == Plus(Share(loc, s, p), Tallies(orders - {id}, s)(p))
      ensures Tallies(orders[id := loc.(qty := qty)], s)(p) == Plus(Share(loc.(qty := qty), s, p), Tallies(orders - {id}, s)(p))
    {
      TallyTakeOut(orders, id, s, p);
      TallyPutIn(orders, id, loc.(qty := qty), s, p);
    }
  }

  ghost predicate SameTallies(t: int -> Total, t': int -> Total) {
    forall p: int :: t'(p) == t(p)
  }

  /** A side whose tallies did not move needs no change. */
  lemma SideUntouched(t: int -> Total, t': int -> Total, side: Side, levels: seq<PriceLevel>)
    requires SideFits(t, side, levels) && SameTallies(t, t')
    ensures SideFits(t', side, levels)
  {
    forall j | 0 <= j < |levels| ensures LevelFits(t', levels[j]) { assert LevelFits(t, levels[j]); }
  }

  function Other(side: Side): Side { if side == Bid then Ask else Bid }

  /** Consistency side by side. */
  lemma ConsistentOf(b: Book, lim: Limits, side: Side)
    requires SideFits(Tallies(b.orders, side), side, LevelsOf(b, side))
    requires SideFits(Tallies(b.orders, Other(side)), Other(side), LevelsOf(b, Other(side)))
    requires |b.bids| <= lim.maxLevels && |b.asks| <= lim.maxLevels && |b.orders| <= lim.maxOrders < TWO_32
    ensures Consistent(b, lim)
  {}

  lemma SidesOf(b: Book, lim: Limits, side: Side)
    requires Consistent(b, lim)
    ensures SideFits(Tallies(b.orders, side), side, LevelsOf(b, side)) && |LevelsOf(b, side)| <= lim.maxLevels
  {}

  /** A resting order's price has a level. */
  lemma RestingHasLevel(b: Book, lim: Limits, id: OrderId)
    requires Consistent(b, lim) && id in b.orders
    ensures var loc := b.orders[id];
      FindLevel(LevelsOf(b, loc.side), loc.price) < |LevelsOf(b, loc.side)|
      && 0 < Tallies(b.orders, loc.side)(loc.price).count < TWO_32
  {
    var loc := b.orders[id];
    TallyCounts(b.orders, loc.side, loc.price);
    assert RestsAt(b.orders[id], loc.side, loc.price);
    SidesOf(b, lim, loc.side);
    assert HasPrice(LevelsOf(b, loc.side), loc.price);
  }

  lemma NextConsistent(b: Book, lim: Limits)
    requires Consistent(b, lim)
    ensures Consistent(Next(b), lim)
  {}

  /** Both ways an order leaves: its level gives up `qty`, equal to the order's own modulo 2^64. */
  lemma WithoutConsistent(b: Book, lim: Limits, id: OrderId, i: nat, qty: nat)
    requires Consistent(b, lim) && id in b.orders && Wrap64(b.orders[id].qty - qty) == 0
    requires i == FindLevel(LevelsOf(b, b.orders[id].side), b.orders[id].price) < |LevelsOf(b, b.orders[id].side)|
    ensures Consistent(Without(b, id, i, qty), lim)
  {
    var loc := b.orders[id];
    var orders' := b.orders - {id};
    var levels, side := LevelsOf(b, loc.side), loc.side;
    RestingHasLevel(b, lim, id);
    RemovalMoves(b.orders, id, side, loc.price);
    WrapCancel(Tallies(orders', side)(loc.price).qty, loc.qty - qty);
    SidesOf(b, lim, side);
    SidesOf(b, lim, Other(side));
    DropKeepsSide(Tallies(b.orders, side), Tallies(orders', side), side, levels, i, qty);
    SideUntouched(Tallies(b.orders, Other(side)), Tallies(orders', Other(side)), Other(side), LevelsOf(b, Other(side)));
    CardinalityAfterRemoval(b.orders, id);
    ConsistentOf(Without(b, id, i, qty), lim, side);
  }

  /** An order stays with a new quantity, and its level moves by the difference. */
  lemma RequantifiedConsistent(b: Book, lim: Limits, id: OrderId, i: nat, qty: nat, levelQty: nat)
    requires Consistent(b, lim) && id in b.orders
    requires i == FindLevel(LevelsOf(b, b.orders[id].side), b.orders[id].price) < |LevelsOf(b, b.orders[id].side)|
    requires levelQty == Wrap64(LevelsOf(b, b.orders[id].side)[i].qty - b.orders[id].qty + qty)
    ensures Consistent(Requantified(b, id, i, qty, levelQty), lim)
  {
    var loc := b.orders[id];
    var levels, side := LevelsOf(b, loc.side), loc.side;
    var orders' := b.orders[id := loc.(qty := qty)];
    ReplacementMoves(b.orders, id, qty);
    SidesOf(b, lim, side);
    SidesOf(b, lim, Other(side));
    assert LevelFits(Tallies(b.orders, side), levels[i]);
    WrapShift(Tallies(b.orders, side)(loc.price).qty, qty - loc.qty);
    SetKeepsSide(Tallies(b.orders, side), Tallies(orders', side), side, levels, i, levels[i].(qty := levelQty));
    SideUntouched(Tallies(b.orders, Other(side)), Tallies(orders', Other(side)), Other(side), LevelsOf(b, Other(side)));
    CardinalityAfterPut(b.orders, id, loc.(qty := qty));
    ConsistentOf(Requantified(b, id, i, qty, levelQty), lim, side);
  }

  lemma CancelKeepsConsistent(b: Book, lim: Limits, id: OrderId)
    requires Consistent(b, lim)
    ensures Consistent(OnCancel(b, id), lim)
  {
    if id in b.orders {
      var loc := b.orders[id];
      var i := FindLevel(LevelsOf(b, loc.side), loc.price);
      RestingHasLevel(b, lim, id);
      WithoutConsistent(b, lim, id, i, loc.qty);
      NextConsistent(Without(b, id, i, loc.qty), lim);
    }
  }

  lemma ModifyCase(b: Book, id: OrderId, newQty: nat, i: nat)
    requires id in b.orders && i == FindLevel(LevelsOf(b, b.orders[id].side), b.orders[id].price) < |LevelsOf(b, b.orders[id].side)|
    ensures var levelQty := Wrap64(LevelsOf(b, b.orders[id].side)[i].qty - b.orders[id].qty + newQty);
      OnModify(b, id, newQty) == Next(Requantified(b, id, i, newQty, levelQty))
  {}

  lemma ModifyKeepsConsistent(b: Book, lim: Limits, id: OrderId, newQty: nat)
    requires Consistent(b, lim)
    ensures Consistent(OnModify(b, id, newQty), lim)
  {
    if id in b.orders {
      var loc := b.orders[id];
      var i := FindLevel(LevelsOf(b, loc.side), loc.price);
      RestingHasLevel(b, lim, id);
      ModifyCase(b, id, newQty, i);
      var levelQty := Wrap64(LevelsOf(b, loc.side)[i].qty - loc.qty + newQty);
      RequantifiedConsistent(b, lim, id, i, newQty, levelQty);
      NextConsistent(Requantified(b, id, i, newQty, levelQty), lim);
    }
  }

  lemma WrapDifference(total: int, qty: int, execQty: int)
    ensures Wrap64(total - execQty) == Wrap64(total - qty + Wrap64(qty - execQty))
  {
    WrapShift(qty - execQty, total - qty);
  }

  /** What a fill does when the order's level is there. */
  lemma ExecuteCases(b: Book, id: OrderId, execQty: nat, i: nat)
    requires id in b.orders && i == FindLevel(LevelsOf(b, b.orders[id].side), b.orders[id].price) < |LevelsOf(b, b.orders[id].side)|
    ensures var rest := Wrap64(b.orders[id].qty - execQty);
      var levelQty := Wrap64(LevelsOf(b, b.orders[id].side)[i].qty - execQty);
      OnExecute(b, id, execQty) == (if rest == 0 then Next(Without(b, id, i, execQty)) else Next(Requantified(b, id, i, rest, levelQty)))
      && levelQty == Wrap64(LevelsOf(b, b.orders[id].side)[i].qty - b.orders[id].qty + rest)
  {
    WrapDifference(LevelsOf(b, b.orders[id].side)[i].qty, b.orders[id].qty, execQty);
  }

  /** Whatever is executed, even beyond what rests, the levels follow the orders. */
  lemma ExecuteKeepsConsistent(b: Book, lim: Limits, id: OrderId, execQty: nat)
    requires Consistent(b, lim)
    ensures Consistent(OnExecute(b, id, execQty), lim)
  {
    if id in b.orders {
      var loc := b.orders[id];
      var i := FindLevel(LevelsOf(b, loc.side), loc.price);
      RestingHasLevel(b, lim, id);
      ExecuteCases(b, id, execQty, i);
      var rest := Wrap64(loc.qty - execQty);
      if rest == 0 {
        WithoutConsistent(b, lim, id, i, execQty);
        NextConsistent(Without(b, id, i, execQty), lim);
      } else {
        var levelQty := Wrap64(LevelsOf(b, loc.side)[i].qty - execQty);
        RequantifiedConsistent(b, lim, id, i, rest, levelQty);
        NextConsistent(Requantified(b, id, i, rest, levelQty), lim);
      }
    }
  }

  // ---------------------------------------------------------------- adding, exactly when it is safe

  ghost predicate HasRoom(b: Book, lim: Limits, side: Side, price: int) {
    FindLevel(LevelsOf(b, side), price) < |LevelsOf(b, side)| || |LevelsOf(b, side)| < lim.maxLevels
  }

  lemma AbsentLevelIsEmpty(b: Book, lim: Limits, side: Side, price: int)
    requires Consistent(b, lim) && FindLevel(LevelsOf(b, side), price) == |LevelsOf(b, side)|
    ensures Tallies(b.orders, side)(price) == Total(0, 0)
  {
    TallyCounts(b.orders, side, price);
    SidesOf(b, lim, side);
  }

  lemma AddFreshKeepsConsistent(b: Book, lim: Limits, id: OrderId, side: Side, price: int, qty: nat)
    requires Consistent(b, lim) && !Refuses(b, lim) && id !in b.orders && HasRoom(b, lim, side, price)
    ensures AddInBounds(b, lim, side, price) && Consistent(OnAdd(b, lim, id, side, price, qty), lim)
  {
    if FindLevel(LevelsOf(b, side), price) == |LevelsOf(b, side)| { AbsentLevelIsEmpty(b, lim, side, price); }
    hide SideFits;
    hide InsertLevel;
    hide ScanStop;
    var loc := OrderLoc(side, price, qty);
    var orders' := b.orders[id := loc];
    ArrivalMoves(b.orders, id, loc);
    TallyCounts(b.orders, side, price);
    SidesOf(b, lim, side);
    SidesOf(b, lim, Other(side));
    AddKeepsSide(Tallies(b.orders, side), Tallies(orders', side), side, LevelsOf(b, side), price, qty, lim.maxLevels);
    SideUntouched(Tallies(b.orders, Other(side)), Tallies(orders', Other(side)), Other(side), LevelsOf(b, Other(side)));
    CardinalityAfterPut(b.orders, id, loc);
    ConsistentOf(OnAdd(b, lim, id, side, price, qty), lim, side);
  }

  /** Aggregating into a level at another price leaves the new order's price without a level. */
  lemma SpillBreaks(b: Book, lim: Limits, id: OrderId, side: Side, price: int, qty: nat)
    requires Consistent(b, lim) && !Refuses(b, lim) && !HasRoom(b, lim, side, price) && AddInBounds(b, lim, side, price)
    ensures !Consistent(OnAdd(b, lim, id, side, price, qty), lim)
  {
    var b' := OnAdd(b, lim, id, side, price, qty);
    SpillOpensNoLevel(b, lim, id, side, price, qty);
    assert id in b'.orders && RestsAt(b'.orders[id], side, price);
    TallyCounts(b'.orders, side, price);
    hide OnAdd;
    assert Tallies(b'.orders, side)(price).count > 0;
    if Consistent(b', lim) { SidesOf(b', lim, side); }
  }

  lemma SpillOpensNoLevel(b: Book, lim: Limits, id: OrderId, side: Side, price: int, qty: nat)
    requires Consistent(b, lim) && !Refuses(b, lim) && !HasRoom(b, lim, side, price) && AddInBounds(b, lim, side, price)
    ensures !HasPrice(LevelsOf(OnAdd(b, lim, id, side, price, qty), side), price)
  {
    var levels, levels' := LevelsOf(b, side), LevelsOf(OnAdd(b, lim, id, side, price, qty), side);
    assert FindLevel(levels, price) == |levels|;
    assert |levels'| == |levels| && forall j | 0 <= j < |levels| :: levels'[j].price == levels[j].price;
  }

  /** A level that does not carry its price's tally shows the book is not the aggregate. */
  lemma MisfitBreaks(b: Book, lim: Limits, side: Side, l: PriceLevel)
    requires l in LevelsOf(b, side) && !LevelFits(Tallies(b.orders, side), l)
    ensures !Consistent(b, lim)
  {
    var j :| 0 <= j < |LevelsOf(b, side)| && LevelsOf(b, side)[j] == l;
    assert !LevelFits(Tallies(b.orders, side), LevelsOf(b, side)[j]);
  }

  /** Overwriting a resting order leaves its old count behind in its level. */
  lemma ReusedIdBreaks(b: Book, lim: Limits, id: OrderId, side: Side, price: int, qty: nat)
    requires Consistent(b, lim) && !Refuses(b, lim) && HasRoom(b, lim, side, price) && id in b.orders
    requires AddInBounds(b, lim, side, price)
    ensures !Consistent(OnAdd(b, lim, id, side, price, qty), lim)
  {
    var loc := b.orders[id];
    RestingHasLevel(b, lim, id);
    TallyCounts(b.orders, loc.side, loc.price);
    var i := FindLevel(LevelsOf(b, loc.side), loc.price);
    var l := LevelsOf(b, loc.side)[i];
    SidesOf(b, lim, loc.side);
    assert LevelFits(Tallies(b.orders, loc.side), l);
    var l' := if loc.side == side && loc.price == price then AddToLevel(l, qty) else l;
    LevelSurvivesAdd(b, lim, id, side, price, qty, loc.side, i);
    CountTooHigh(b.orders, id, side, price, qty, l, l');
    MisfitBreaks(OnAdd(b, lim, id, side, price, qty), lim, loc.side, l');
  }

  lemma CountTooHigh(orders: map<OrderId, OrderLoc>, id: OrderId, side: Side, price: int, qty: nat, l: PriceLevel, l': PriceLevel)
    requires id in orders && l.price == orders[id].price && LevelFits(Tallies(orders, orders[id].side), l)
    requires l.orderCount + 1 < TWO_32 || !(orders[id].side == side && orders[id].price == price)
    requires l' == if orders[id].side == side && orders[id].price == price then AddToLevel(l, qty) else l
    ensures !LevelFits(Tallies(orders[id := OrderLoc(side, price, qty)], orders[id].side), l')
  {
    TallyTakeOut(orders, id, orders[id].side, l.price);
    TallyPutIn(orders, id, OrderLoc(side, price, qty), orders[id].side, l.price);
  }

  /** Every level is still there after an add, the one at the added price enlarged. */
  lemma LevelSurvivesAdd(b: Book, lim: Limits, id: OrderId, side: Side, price: int, qty: nat, s: Side, i: nat)
    requires Consistent(b, lim) && !Refuses(b, lim) && HasRoom(b, lim, side, price) && AddInBounds(b, lim, side, price)
    requires i < |LevelsOf(b, s)|
    ensures var l := LevelsOf(b, s)[i];
      (if s == side && l.price == price then AddToLevel(l, qty) else l) in LevelsOf(OnAdd(b, lim, id, side, price, qty), s)
  {
    if s == side {
      SidesOf(b, lim, side);
      LevelSurvivesInsert(LevelsOf(b, s), side, price, qty, lim.maxLevels, i);
    } else {
      assert LevelsOf(OnAdd(b, lim, id, side, price, qty), s) == LevelsOf(b, s);
    }
  }

  lemma LevelSurvivesInsert(levels: seq<PriceLevel>, side: Side, price: int, qty: nat, max: nat, i: nat)
    requires BestFirst(side, levels) && i < |levels| && (FindLevel(levels, price) < |levels| || |levels| < max)
    ensures var stop, levels1 := ScanStop(levels, side, price), InsertLevel(levels, side, price, max);
      stop < |levels1|
      && (if levels[i].price == price then AddToLevel(levels[i], qty) else levels[i]) in levels1[stop := AddToLevel(levels1[stop], qty)]
  {
    var stop, levels1 := ScanStop(levels, side, price), InsertLevel(levels, side, price, max);
    var k := FindLevel(levels, price);
    if k < |levels| {
      ScanFinds(side, levels, k);
      FoundAt(side, levels, i);
      var out := levels[stop := AddToLevel(levels[stop], qty)];
      assert out[i] == if i == k then AddToLevel(levels[i], qty) else levels[i];
    } else {
      var out := levels1[stop := AddToLevel(levels1[stop], qty)];
      assert out[if i < stop then i else i + 1] == levels[i];
    }
  }

  /** An accepted add keeps the book the aggregate of its orders exactly when the id is fresh and the price finds a level. */
  lemma AddConsistentIff(b: Book, lim: Limits, id: OrderId, side: Side, price: int, qty: nat)
    requires Consistent(b, lim) && !Refuses(b, lim) && AddInBounds(b, lim, side, price)
    ensures Consistent(OnAdd(b, lim, id, side, price, qty), lim) <==> id !in b.orders && HasRoom(b, lim, side, price)
  {
    if !HasRoom(b, lim, side, price) {
      SpillBreaks(b, lim, id, side, price, qty);
    } else if id in b.orders {
      ReusedIdBreaks(b, lim, id, side, price, qty);
    } else {
      AddFreshKeepsConsistent(b, lim, id, side, price, qty);
    }
  }

  /** The write leaves the level array exactly when the side is full and every level ranks ahead of the price. */
  lemma AddOutOfBoundsIff(b: Book, lim: Limits, side: Side, price: int)
    requires Consistent(b, lim)
    ensures !AddInBounds(b, lim, side, price) <==>
            |LevelsOf(b, side)| == lim.maxLevels
            && forall j | 0 <= j < |LevelsOf(b, side)| :: Behind(side, price, LevelsOf(b, side)[j].price)
  {
    var levels := LevelsOf(b, side);
    var i := ScanStop(levels, side, price);
    if i < |levels| { assert !Behind(side, price, levels[i].price); }
  }

  // ---------------------------------------------------------------- whole runs

  datatype Op =
    | Add(id: OrderId, side: Side, price: int, qty: nat)
    | Cancel(id: OrderId)
    | Modify(id: OrderId, qty: nat)
    | Execute(id: OrderId, qty: nat)

  ghost predicate InBounds(b: Book, lim: Limits, op: Op) {
    op.Add? && !Refuses(b, lim) ==> AddInBounds(b, lim, op.side, op.price)
  }

  function Apply(b: Book, lim: Limits, op: Op): Book
    requires InBounds(b, lim, op)
  {
    match op
    case Add(id, side, price, qty) => OnAdd(b, lim, id, side, price, qty)
    case Cancel(id) => OnCancel(b, id)
    case Modify(id, qty) => OnModify(b, id, qty)
    case Execute(id, qty) => OnExecute(b, id, qty)
  }

  /** What callers owe the book: an add is refused, or brings a fresh id at a price with a level or room for one. */
  ghost predicate Proper(b: Book, lim: Limits, op: Op) {
    op.Add? ==> Refuses(b, lim) || (op.id !in b.orders && HasRoom(b, lim, op.side, op.price))
  }

  /** The simple form: a plain map of resting orders, no levels at all. */
  function PlainApply(orders: map<OrderId, OrderLoc>, lim: Limits, op: Op): map<OrderId, OrderLoc> {
    match op
    case Add(id, side, price, qty) => if |orders| >= lim.maxOrders then orders else orders[id := OrderLoc(side, price, qty)]
    case Cancel(id) => orders - {id}
    case Modify(id, qty) => if id in orders then orders[id := orders[id].(qty := qty)] else orders
    case Execute(id, qty) =>
      if id !in orders then orders
      else if Wrap64(orders[id].qty - qty) == 0 then orders - {id}
      else orders[id := orders[id].(qty := Wrap64(orders[id].qty - qty))]
  }

  /** Whether a call does anything; ignored calls do not advance the sequence. */
  predicate Effective(b: Book, lim: Limits, op: Op) {
    match op
    case Add(_, _, _, _) => !Refuses(b, lim)
    case _ => op.id in b.orders
  }

  lemma StepKeepsConsistent(b: Book, lim: Limits, op: Op)
    requires Consistent(b, lim) && Proper(b, lim, op)
    ensures InBounds(b, lim, op) && Consistent(Apply(b, lim, op), lim)
  {
    match op
    case Add(id, side, price, qty) => if !Refuses(b, lim) { AddFreshKeepsConsistent(b, lim, id, side, price, qty); }
    case Cancel(id) => CancelKeepsConsistent(b, lim, id);
    case Modify(id, qty) => ModifyKeepsConsistent(b, lim, id, qty);
    case Execute(id, qty) => ExecuteKeepsConsistent(b, lim, id, qty);
  }

  ghost predicate LevelPresent(b: Book, id: OrderId) {
    id in b.orders ==> FindLevel(LevelsOf(b, b.orders[id].side), b.orders[id].price) < |LevelsOf(b, b.orders[id].side)|
  }

  /** With the order's level present, a call's effect on the orders is the plain map's. */
  lemma OrdersAfter(b: Book, lim: Limits, op: Op)
    requires InBounds(b, lim, op) && LevelPresent(b, op.id)
    ensures var b' := Apply(b, lim, op);
      && b'.orders == PlainApply(b.orders, lim, op)
      && b'.symbol == b.symbol
      && b'.sequence == (if Effective(b, lim, op) then Wrap64(b.sequence + 1) else b.sequence)
      && (!Effective(b, lim, op) ==> b' == b)
  {
    hide ScanStop;
    hide InsertLevel;
    hide DropOrder;
    hide FindLevel;
    match op
    case Cancel(id) => if id !in b.orders { assert b.orders - {id} == b.orders; }
    case _ =>
  }

  lemma StepRefinesPlain(b: Book, lim: Limits, op: Op)
    requires Consistent(b, lim) && Proper(b, lim, op)
    ensures InBounds(b, lim, op) && Consistent(Apply(b, lim, op), lim)
    ensures Apply(b, lim, op).orders == PlainApply(b.orders, lim, op)
    ensures Apply(b, lim, op).symbol == b.symbol
    ensures Apply(b, lim, op).sequence == (if Effective(b, lim, op) then Wrap64(b.sequence + 1) else b.sequence)
    ensures !Effective(b, lim, op) ==> Apply(b, lim, op) == b
  {
    StepKeepsConsistent(b, lim, op);
    if op.id in b.orders { RestingHasLevel(b, lim, op.id); }
    OrdersAfter(b, lim, op);
  }

  ghost predicate ProperRun(b: Book, lim: Limits, ops: seq<Op>)
    decreases |ops|
  {
    ops == [] || (Proper(b, lim, ops[0]) && InBounds(b, lim, ops[0]) && ProperRun(Apply(b, lim, ops[0]), lim, ops[1..]))
  }

  ghost function Replay(b: Book, lim: Limits, ops: seq<Op>): Book
    requires ProperRun(b, lim, ops)
    decreases |ops|
  {
    if ops == [] then b else Replay(Apply(b, lim, ops[0]), lim, ops[1..])
  }

  function PlainReplay(orders: map<OrderId, OrderLoc>, lim: Limits, ops: seq<Op>): map<OrderId, OrderLoc>
    decreases |ops|
  {
    if ops == [] then orders else PlainReplay(PlainApply(orders, lim, ops[0]), lim, ops[1..])
  }

  /**
   * After every proper run the book's orders are the plain map's, and its levels are the one and only
   * sorted aggregate of that map.
   */
  lemma {:induction false} RunRefinesPlain(b: Book, lim: Limits, ops: seq<Op>)
    requires Consistent(b, lim) && ProperRun(b, lim, ops)
    ensures Consistent(Replay(b, lim, ops), lim)
    ensures Replay(b, lim, ops).orders == PlainReplay(b.orders, lim, ops)
    decreases |ops|
  {
    if ops != [] {
      StepRefinesPlain(b, lim, ops[0]);
      RunRefinesPlain(Apply(b, lim, ops[0]), lim, ops[1..]);
    }
  }

  /** The book the constructor makes is the aggregate of no orders. */
  lemma EmptyIsConsistent(symbol: nat, lim: Limits)
    requires lim.maxOrders < TWO_32
    ensures Consistent(EmptyBook(symbol), lim)
  {
    forall side: Side, price: int ensures Tallies(EmptyBook(symbol).orders, side)(price).count == 0 {
      TallyCounts(EmptyBook(symbol).orders, side, price);
    }
  }

  /**
   * From the constructor's empty book on: after every proper run the orders are those of a plain map
   * that started empty, and the levels are their sorted aggregate.
   */
  lemma BookIsPlainAggregate(symbol: nat, lim: Limits, ops: seq<Op>)
    requires lim.maxOrders < TWO_32 && ProperRun(EmptyBook(symbol), lim, ops)
    ensures Consistent(Replay(EmptyBook(symbol), lim, ops), lim)
    ensures Replay(EmptyBook(symbol), lim, ops).orders == PlainReplay(map[], lim, ops)
  {
    EmptyIsConsistent(symbol, lim);
    RunRefinesPlain(EmptyBook(symbol), lim, ops);
  }

  /** A proper run is a proper shorter run and one more proper call. */
  lemma {:induction false} RunAppend(b: Book, lim: Limits, ops: seq<Op>, op: Op)
    ensures ProperRun(b, lim, ops + [op]) <==>
      ProperRun(b, lim, ops) && Proper(Replay(b, lim, ops), lim, op) && InBounds(Replay(b, lim, ops), lim, op)
    ensures ProperRun(b, lim, ops + [op]) ==> Replay(b, lim, ops + [op]) == Apply(Replay(b, lim, ops), lim, op)
    decreases |ops|
  {
    if ops == [] {
      assert [] + [op] == [op] && [op][1..] == [];
    } else {
      assert (ops + [op])[1..] == ops[1..] + [op];
      if Proper(b, lim, ops[0]) && InBounds(b, lim, ops[0]) {
        RunAppend(Apply(b, lim, ops[0]), lim, ops[1..], op);
      }
    }
  }

  /**
   * The excluded adds at real inputs: with one level per side and one bid resting at 100, a bid at 101 is
   * accepted and breaks the aggregate, a bid at 99 is written past the array, and the resting id added
   * again breaks the aggregate too.
   */
  lemma FullSideWitness(symbol: nat, maxOrders: nat, qty: nat)
    requires 2 <= maxOrders < TWO_32
    ensures var lim := Limits(1, maxOrders);
      && AddInBounds(EmptyBook(symbol), lim, Bid, 100)
      && (var b := OnAdd(EmptyBook(symbol), lim, 1, Bid, 100, qty);
          && Consistent(b, lim) && !Refuses(b, lim)
          && AddInBounds(b, lim, Bid, 101) && !Consistent(OnAdd(b, lim, 2, Bid, 101, qty), lim)
          && !AddInBounds(b, lim, Bid, 99)
          && AddInBounds(b, lim, Bid, 100) && !Consistent(OnAdd(b, lim, 1, Bid, 100, qty), lim))
  {
    var lim, empty := Limits(1, maxOrders), EmptyBook(symbol);
    EmptyIsConsistent(symbol, lim);
    AddFreshKeepsConsistent(empty, lim, 1, Bid, 100, qty);
    var b := OnAdd(empty, lim, 1, Bid, 100, qty);
    OneLevel(symbol, lim, qty);
    AddOutOfBoundsIff(b, lim, Bid, 99);
    AddOutOfBoundsIff(b, lim, Bid, 101);
    AddOutOfBoundsIff(b, lim, Bid, 100);
    AddConsistentIff(b, lim, 2, Bid, 101, qty);
    AddConsistentIff(b, lim, 1, Bid, 100, qty);
  }

  lemma OneLevel(symbol: nat, lim: Limits, qty: nat)
    requires lim.maxLevels >= 1 && lim.maxOrders >= 2 && AddInBounds(EmptyBook(symbol), lim, Bid, 100)
    ensures var b := OnAdd(EmptyBook(symbol), lim, 1, Bid, 100, qty);
      |b.bids| == 1 && b.bids[0].price == 100 && b.orders == map[1 := OrderLoc(Bid, 100, qty)] && |b.orders| == 1
  {}

  /** Two consistent books over the same orders differ at most in their sequence. */
  lemma SameOrdersSameBook(a: Book, b: Book, lim: Limits)
    requires Consistent(a, lim) && Consistent(b, lim) && a.orders == b.orders && a.symbol == b.symbol
    ensures a == b.(sequence := a.sequence)
  {
    SideDetermined(Tallies(a.orders, Bid), Bid, a.bids, b.bids);
    SideDetermined(Tallies(a.orders, Ask), Ask, a.asks, b.asks);
  }

  /** Cancelling an order just added restores every level, whatever the insertion shifted. */
  lemma CancelUndoesAdd(b: Book, lim: Limits, id: OrderId, side: Side, price: int, qty: nat)
    requires Consistent(b, lim) && !Refuses(b, lim) && id !in b.orders && HasRoom(b, lim, side, price)
    ensures AddInBounds(b, lim, side, price)
    ensures var b' := OnCancel(OnAdd(b, lim, id, side, price, qty), id);
      b' == b.(sequence := Wrap64(b.sequence + 2))
  {
    hide Consistent;
    hide SideFits;
    hide InsertLevel;
    hide ScanStop;
    hide OnCancel;
    hide FindLevel;
    AddFreshKeepsConsistent(b, lim, id, side, price, qty);
    var b1 := OnAdd(b, lim, id, side, price, qty);
    UndoAdded(b, b1, lim, id, OrderLoc(side, price, qty));
    WrapShift(b.sequence + 1, 1);
  }

  lemma UndoAdded(b: Book, b1: Book, lim: Limits, id: OrderId, loc: OrderLoc)
    requires Consistent(b, lim) && Consistent(b1, lim) && id !in b.orders && b1.orders == b.orders[id := loc] && b1.symbol == b.symbol
    ensures OnCancel(b1, id) == b.(sequence := Wrap64(b1.sequence + 1))
  {
    StepRefinesPlain(b1, lim, Cancel(id));
    var b2 := OnCancel(b1, id);
    assert b2.orders == b.orders;
    SameOrdersSameBook(b2, b, lim);
  }

  // ---------------------------------------------------------------- calls against each other

  lemma Unwrapped(x: int)
    requires 0 <= x < TWO_64
    ensures Wrap64(x) == x
  {}

  /** From the same book: calls that leave the same orders and take effect alike leave the same book. */
  lemma SameEffect(b: Book, lim: Limits, x: Op, y: Op)
    requires Consistent(b, lim) && !x.Add? && !y.Add? && Effective(b, lim, x) && Effective(b, lim, y)
    requires PlainApply(b.orders, lim, x) == PlainApply(b.orders, lim, y)
    ensures Apply(b, lim, x) == Apply(b, lim, y)
  {
    StepRefinesPlain(b, lim, x);
    StepRefinesPlain(b, lim, y);
    hide *;
    SameOrdersSameBook(Apply(b, lim, x), Apply(b, lim, y), lim);
  }

  /** Two calls in a row do what one does, but for one more step of the sequence, when the orders say so. */
  lemma SameAfterTwo(b: Book, lim: Limits, first: Op, second: Op, both: Op)
    requires Consistent(b, lim) && !first.Add? && !second.Add? && !both.Add?
    requires Effective(b, lim, first) && Effective(b, lim, both) && second.id in PlainApply(b.orders, lim, first)
    requires PlainApply(PlainApply(b.orders, lim, first), lim, second) == PlainApply(b.orders, lim, both)
    ensures Apply(Apply(b, lim, first), lim, second) == Next(Apply(b, lim, both))
  {
    hide Apply;
    hide Consistent;
    hide PlainApply;
    hide Wrap64;
    StepRefinesPlain(b, lim, first);
    StepRefinesPlain(b, lim, both);
    var one, whole := Apply(b, lim, first), Apply(b, lim, both);
    assert one.sequence == whole.sequence == Wrap64(b.sequence + 1);
    StepRefinesPlain(one, lim, second);
    NextConsistent(whole, lim);
    var two := Apply(one, lim, second);
    assert two.sequence == Wrap64(one.sequence + 1) == Next(whole).sequence;
    SameOrdersSameBook(two, Next(whole), lim);
  }

  /** Executing all that rests is cancelling. */
  lemma FullFillIsCancel(b: Book, lim: Limits, id: OrderId)
    requires Consistent(b, lim) && id in b.orders
    ensures OnExecute(b, id, b.orders[id].qty) == OnCancel(b, id)
  {
    Unwrapped(0);
    hide Consistent;
    hide OnExecute;
    hide OnCancel;
    SameEffect(b, lim, Execute(id, b.orders[id].qty), Cancel(id));
  }

  /** Executing less than rests is modifying the order to the remainder. */
  lemma PartialFillIsModify(b: Book, lim: Limits, id: OrderId, qty: nat)
    requires Consistent(b, lim) && id in b.orders && qty < b.orders[id].qty < TWO_64
    ensures OnExecute(b, id, qty) == OnModify(b, id, b.orders[id].qty - qty)
  {
    Unwrapped(b.orders[id].qty - qty);
    hide Consistent;
    hide OnExecute;
    hide OnModify;
    hide Wrap64;
    SameEffect(b, lim, Execute(id, qty), Modify(id, b.orders[id].qty - qty));
  }

  /** Two fills in a row do what one fill of both quantities does. */
  lemma FillsAddUp(b: Book, lim: Limits, id: OrderId, first: nat, second: nat)
    requires Consistent(b, lim) && id in b.orders && first < b.orders[id].qty < TWO_64 && first + second <= b.orders[id].qty
    ensures OnExecute(OnExecute(b, id, first), id, second) == Next(OnExecute(b, id, first + second))
  {
    hide Consistent;
    hide OnExecute;
    PlainFillsAddUp(b.orders, lim, id, first, second);
    hide Wrap64;
    hide PlainApply;
    SameAfterTwo(b, lim, Execute(id, first), Execute(id, second), Execute(id, first + second));
  }

  lemma PlainFillsAddUp(orders: map<OrderId, OrderLoc>, lim: Limits, id: OrderId, first: nat, second: nat)
    requires id in orders && first < orders[id].qty < TWO_64 && first + second <= orders[id].qty
    ensures var once := PlainApply(orders, lim, Execute(id, first));
      id in once && PlainApply(once, lim, Execute(id, second)) == PlainApply(orders, lim, Execute(id, first + second))
  {
    var rest := orders[id].qty - first;
    Unwrapped(rest);
    Unwrapped(rest - second);
    hide Wrap64;
    var once := orders[id := orders[id].(qty := rest)];
    assert PlainApply(orders, lim, Execute(id, first)) == once;
    assert once - {id} == orders - {id};
    assert once[id := orders[id].(qty := rest - second)] == orders[id := orders[id].(qty := rest - second)];
  }

  /** The last of two modifications counts. */
  lemma LastModifyCounts(b: Book, lim: Limits, id: OrderId, first: nat, second: nat)
    requires Consistent(b, lim) && id in b.orders
    ensures OnModify(OnModify(b, id, first), id, second) == Next(OnModify(b, id, second))
  {
    hide Consistent;
    hide OnModify;
    assert b.orders[id := b.orders[id].(qty := first)][id := b.orders[id].(qty := second)] == b.orders[id := b.orders[id].(qty := second)];
    SameAfterTwo(b, lim, Modify(id, first), Modify(id, second), Modify(id, second));
  }

  // ---------------------------------------------------------------- the published top of book

  datatype Snapshot = Snapshot(symbol: nat, lastSequence: nat, bidCount: nat, askCount: nat, bids: seq<PriceLevel>, asks: seq<PriceLevel>)

  const BlankLevel := PriceLevel(0, 0, 0)

  function Min(a: nat, b: nat): nat { if a < b then a else b }

  /** The first `depth` levels, padded with blank ones to the fixed depth. */
  function TopOf(levels: seq<PriceLevel>, depth: nat): (r: seq<PriceLevel>)
    ensures |r| == depth
  {
    levels[..Min(|levels|, depth)] + seq(depth - Min(|levels|, depth), i => BlankLevel)
  }

  function SnapshotOf(b: Book, depth: nat): Snapshot {
    Snapshot(b.symbol, b.sequence, Min(|b.bids|, depth), Min(|b.asks|, depth), TopOf(b.bids, depth), TopOf(b.asks, depth))
  }

  /** Every resting bid is in a shown bid level, or is lower than all of a full depth; every ask likewise, or higher. */
  lemma SnapshotIsBest(b: Book, lim: Limits, depth: nat, id: OrderId)
    requires Consistent(b, lim) && id in b.orders
    ensures var s, loc := SnapshotOf(b, depth), b.orders[id];
      && s.bidCount <= |s.bids| == depth && s.askCount <= |s.asks| == depth
      && (loc.side == Bid ==>
            || (exists k :: 0 <= k < s.bidCount && s.bids[k].price == loc.price)
            || (s.bidCount == depth && forall k | 0 <= k < depth :: loc.price < s.bids[k].price))
      && (loc.side == Ask ==>
            || (exists k :: 0 <= k < s.askCount && s.asks[k].price == loc.price)
            || (s.askCount == depth && forall k | 0 <= k < depth :: loc.price > s.asks[k].price))
  {
    var loc := b.orders[id];
    var levels := LevelsOf(b, loc.side);
    RestingHasLevel(b, lim, id);
    SidesOf(b, lim, loc.side);
    var i := FindLevel(levels, loc.price);
    if i < depth {
      assert TopOf(levels, depth)[i] == levels[i];
    }
  }

  /**
   * Each shown level is the total and the number of the orders resting on its own side at its price; bids
   * are shown highest first, asks lowest first, the rest of the fixed depth is blank, and symbol and
   * sequence are the book's.
   */
  lemma SnapshotIsAggregate(b: Book, lim: Limits, depth: nat)
    requires Consistent(b, lim)
    ensures var s := SnapshotOf(b, depth);
      && s.symbol == b.symbol && s.lastSequence == b.sequence
      && s.bidCount <= |s.bids| == depth && s.askCount <= |s.asks| == depth
      && (forall k | 0 <= k < s.bidCount :: LevelFits(Tallies(b.orders, Bid), s.bids[k]))
      && (forall k | 0 <= k < s.askCount :: LevelFits(Tallies(b.orders, Ask), s.asks[k]))
      && (forall j, k | 0 <= j < k < s.bidCount :: s.bids[j].price > s.bids[k].price)
      && (forall j, k | 0 <= j < k < s.askCount :: s.asks[j].price < s.asks[k].price)
      && (forall k | s.bidCount <= k < depth :: s.bids[k] == PriceLevel(0, 0, 0))
      && (forall k | s.askCount <= k < depth :: s.asks[k] == PriceLevel(0, 0, 0))
  {
    TopIsPrefix(b.bids, depth);
    TopIsPrefix(b.asks, depth);
    hide TopOf;
    hide Tallies;
    assert forall k | 0 <= k < |b.bids| :: LevelFits(Tallies(b.orders, Bid), b.bids[k]);
    assert forall k | 0 <= k < |b.asks| :: LevelFits(Tallies(b.orders, Ask), b.asks[k]);
    hide LevelFits;
  }

  lemma TopIsPrefix(levels: seq<PriceLevel>, depth: nat)
    ensures Min(|levels|, depth) <= |levels| && Min(|levels|, depth) <= depth
    ensures forall k | 0 <= k < Min(|levels|, depth) :: TopOf(levels, depth)[k] == levels[k]
    ensures forall k | Min(|levels|, depth) <= k < depth :: TopOf(levels, depth)[k] == BlankLevel
  {}
}
