/**
 * The feed handler: one receiver routes each symbol's packets to the worker that owns its book.
 * The pool is the step machine of ThreadPool with the book update as its handler.
 */
module Dispatch {
  import opened Wrappers
  import opened BookSpec
  import opened Sequences
  import opened ThreadPool
  import MpscQueue
  import BookLaws
  import OrderBook

  const NUM_BOOK_WORKERS := 4
  const MAX_SYMBOLS := 1024
  const MAX_PAYLOAD := 64
  const QUEUE_CAPACITY := 4096
  const SNAPSHOT_DEPTH := 5
  const BOOK_LIMITS := Limits(32, 8192)

  type Byte = b: int | 0 <= b < 256

  datatype MarketDataTask = MarketDataTask(symbolId: nat, sequence: nat, length: nat, payload: seq<Byte>)

  /** A book, or what is left once a write has gone past the level array. */
  datatype BookState = Live(book: Book) | Corrupt

  type Books = map<nat, BookState>

  // ---------------------------------------------------------------- the packet and its message

  /** `on_packet` copies at most 64 payload bytes into a zeroed array. */
  function MakeTask(symbolId: nat, sequence: nat, payload: seq<Byte>): (t: MarketDataTask)
    ensures |t.payload| == 64 && t.length == (if |payload| < 64 then |payload| else 64)
    ensures t.payload[..t.length] == payload[..t.length] && forall i | t.length <= i < 64 :: t.payload[i] == 0
    ensures t.symbolId == symbolId && t.sequence == sequence
  {
    var n := BookLaws.Min(|payload|, MAX_PAYLOAD);
    MarketDataTask(symbolId, sequence, n, payload[..n] + seq(MAX_PAYLOAD - n, i => 0 as Byte))
  }

  /** A little-endian unsigned integer; bytes beyond the payload read as zero. */
  function ReadUnsigned(p: seq<Byte>, at: nat, width: nat): nat
    decreases width
  {
    if width == 0 then 0
    else (if at < |p| then p[at] else 0) + 256 * ReadUnsigned(p, at + 1, width - 1)
  }

  function ReadU64(p: seq<Byte>, at: nat): (r: nat)
    ensures r < TWO_64
  {
    Wrap64(ReadUnsigned(p, at, 8))
  }

  function ReadI64(p: seq<Byte>, at: nat): int {
    var u := ReadU64(p, at);
    if u < TWO_64 / 2 then u else u - TWO_64
  }

  function ReadU8(p: seq<Byte>, at: nat): nat {
    ReadUnsigned(p, at, 1)
  }

  const MSG_ADD := 65
  const MSG_CANCEL := 88
  const MSG_EXECUTE := 69

  /** The book call a payload asks for, if its type is known. */
  function Decode(p: seq<Byte>): Option<BookLaws.Op> {
    var id: OrderId := ReadU64(p, 1);
    var kind := ReadU8(p, 0);
    if kind == MSG_ADD then
      Some(BookLaws.Add(id, if ReadU8(p, 9) != 0 then Ask else Bid, ReadI64(p, 10), ReadU64(p, 18)))
    else if kind == MSG_CANCEL then Some(BookLaws.Cancel(id))
    else if kind == MSG_EXECUTE then Some(BookLaws.Execute(id, ReadU64(p, 9)))
    else None
  }

  // ---------------------------------------------------------------- the wire format

  /** An unsigned number, least significant byte first. */
  function LittleEndian(v: nat, width: nat): (b: seq<Byte>)
    ensures |b| == width
  {
    if width == 0 then [] else [v % 256] + LittleEndian(v / 256, width - 1)
  }

  /** Calls the wire format can express: there is no modify, and fields have 64 bits, the price's signed. */
  predicate Expressible(op: BookLaws.Op) {
    match op
    case Add(_, _, price, qty) => -TWO_64 / 2 <= price < TWO_64 / 2 && qty < TWO_64
    case Cancel(_) => true
    case Execute(_, qty) => qty < TWO_64
    case Modify(_, _) => false
  }

  /** The unsigned 64-bit pattern of a signed price. */
  function PriceBits(price: int): nat
    requires -TWO_64 / 2 <= price < TWO_64 / 2
  {
    if price < 0 then price + TWO_64 else price
  }

  /** The sender's side: type character and order id, then side byte, price and quantity, or the quantity. */
  function Encode(op: BookLaws.Op): seq<Byte>
    requires Expressible(op)
  {
    match op
    case Add(id, side, price, qty) =>
      ['A' as int] + LittleEndian(id, 8) + [if side == Ask then 1 else 0]
      + LittleEndian(PriceBits(price), 8) + LittleEndian(qty, 8)
    case Cancel(id) => ['X' as int] + LittleEndian(id, 8)
    case Execute(id, qty) => ['E' as int] + LittleEndian(id, 8) + LittleEndian(qty, 8)
  }

  function Pow256(width: nat): nat {
    if width == 0 then 1 else 256 * Pow256(width - 1)
  }

  lemma Pow256Of8()
    ensures Pow256(1) == 256 && Pow256(8) == TWO_64
  {
    assert Pow256(4) == 0x1_0000_0000;
  }

  /** Reading where a number was written gives it back; what is read was written there. */
  lemma {:induction false} ReadIffWritten(p: seq<Byte>, at: nat, width: nat, v: nat)
    requires at + width <= |p|
    ensures v < Pow256(width) && p[at..at + width] == LittleEndian(v, width) <==> ReadUnsigned(p, at, width) == v
    decreases width
  {
    if width > 0 {
      ReadIffWritten(p, at + 1, width - 1, v / 256);
      assert p[at..at + width] == [p[at]] + p[at + 1..at + width];
      if p[at..at + width] == LittleEndian(v, width) {
        assert p[at..at + width][0] == v % 256 && p[at..at + width][1..] == LittleEndian(v / 256, width - 1);
      }
    }
  }

  /** A 64-bit field and a byte of a payload. */
  lemma FieldIs(p: seq<Byte>, at: nat, v: nat)
    requires at + 8 <= |p|
    ensures v < TWO_64 && p[at..at + 8] == LittleEndian(v, 8) <==> ReadU64(p, at) == v
    ensures ReadU8(p, at) == p[at]
  {
    Pow256Of8();
    ReadIffWritten(p, at, 8, v);
    ReadIffWritten(p, at, 8, ReadUnsigned(p, at, 8));
    assert ReadUnsigned(p, at, 8) < TWO_64;
    assert ReadU64(p, at) == ReadUnsigned(p, at, 8);
  }

  /** The payload with the side byte of an add reduced to 0 and 1; any other value than 0 means ask. */
  function Normalised(p: seq<Byte>): seq<Byte>
    requires |p| == MAX_PAYLOAD
  {
    if p[0] == 'A' as int && p[9] != 0 then p[9 := 1] else p
  }

  lemma SplitPrefix<T>(a: seq<T>, b: seq<T>, q: seq<T>)
    requires |a| + |b| <= |q|
    ensures a + b <= q <==> a <= q && q[|a|..|a| + |b|] == b
  {
    if a + b <= q {
      assert a == (a + b)[..|a|] && b == (a + b)[|a|..];
    }
    if a <= q && q[|a|..|a| + |b|] == b {
      assert q[..|a| + |b|] == a + b;
    }
  }

  lemma CancelWire(p: seq<Byte>, id: OrderId)
    requires |p| == MAX_PAYLOAD
    ensures Decode(p) == Some(BookLaws.Cancel(id)) <==> Encode(BookLaws.Cancel(id)) <= Normalised(p)
  {
    var q := Normalised(p);
    SplitPrefix(['X' as int as Byte], LittleEndian(id, 8), q);
    FieldIs(p, 0, 0);
    FieldIs(p, 1, id);
    hide ReadUnsigned;
    hide LittleEndian;
    assert q[1..9] == p[1..9];
  }

  lemma ExecuteWire(p: seq<Byte>, id: OrderId, qty: nat)
    requires |p| == MAX_PAYLOAD
    ensures Decode(p) == Some(BookLaws.Execute(id, qty)) <==> qty < TWO_64 && Encode(BookLaws.Execute(id, qty)) <= Normalised(p)
  {
    var q := Normalised(p);
    SplitPrefix(['E' as int as Byte], LittleEndian(id, 8), q);
    SplitPrefix(['E' as int as Byte] + LittleEndian(id, 8), LittleEndian(qty, 8), q);
    FieldIs(p, 0, 0);
    FieldIs(p, 1, id);
    FieldIs(p, 9, qty);
    hide ReadUnsigned;
    hide LittleEndian;
    assert p[0] == 'E' as int ==> q == p;
  }

  lemma PriceIs(p: seq<Byte>, at: nat, price: int)
    requires at + 8 <= |p|
    ensures ReadI64(p, at) == price <==>
      -TWO_64 / 2 <= price < TWO_64 / 2 && p[at..at + 8] == LittleEndian(PriceBits(price), 8)
  {
    if -TWO_64 / 2 <= price < TWO_64 / 2 { FieldIs(p, at, PriceBits(price)); }
  }

  /** An add's encoding, field by field. */
  lemma AddFields(q: seq<Byte>, id: OrderId, side: Side, price: int, qty: nat)
    requires |q| == MAX_PAYLOAD && Expressible(BookLaws.Add(id, side, price, qty))
    ensures Encode(BookLaws.Add(id, side, price, qty)) <= q <==>
      && q[0] == 'A' as int && q[1..9] == LittleEndian(id, 8) && q[9] == (if side == Ask then 1 else 0)
      && q[10..18] == LittleEndian(PriceBits(price), 8) && q[18..26] == LittleEndian(qty, 8)
  {
    var head: seq<Byte>, sideByte: seq<Byte> := ['A' as int], [if side == Ask then 1 else 0];
    var wire := PriceBits(price);
    SplitPrefix(head, LittleEndian(id, 8), q);
    SplitPrefix(head + LittleEndian(id, 8), sideByte, q);
    SplitPrefix(head + LittleEndian(id, 8) + sideByte, LittleEndian(wire, 8), q);
    SplitPrefix(head + LittleEndian(id, 8) + sideByte + LittleEndian(wire, 8), LittleEndian(qty, 8), q);
    hide LittleEndian;
    assert head <= q <==> q[0] == 'A' as int;
    assert q[9..10] == [q[9]];
  }

  lemma AddWire(p: seq<Byte>, id: OrderId, side: Side, price: int, qty: nat)
    requires |p| == MAX_PAYLOAD
    ensures var op := BookLaws.Add(id, side, price, qty);
      Decode(p) == Some(op) <==> Expressible(op) && Encode(op) <= Normalised(p)
  {
    var q, op := Normalised(p), BookLaws.Add(id, side, price, qty);
    FieldIs(p, 0, 0);
    FieldIs(p, 1, id);
    FieldIs(p, 9, 0);
    PriceIs(p, 10, price);
    FieldIs(p, 18, qty);
    hide ReadU64;
    hide ReadI64;
    hide ReadU8;
    if Expressible(op) {
      AddFields(q, id, side, price, qty);
      hide Encode;
      assert q[1..9] == p[1..9] && q[10..18] == p[10..18] && q[18..26] == p[18..26];
    }
  }

  /**
   * What bytes mean, for every payload and every call: a payload is taken for a call exactly when the call
   * can be expressed and the payload begins with the call's encoding.
   */
  lemma DecodeIffEncoded(p: seq<Byte>, op: BookLaws.Op)
    requires |p| == MAX_PAYLOAD
    ensures Decode(p) == Some(op) <==> Expressible(op) && Encode(op) <= Normalised(p)
  {
    match op
    case Add(id, side, price, qty) => AddWire(p, id, side, price, qty);
    case Cancel(id) => CancelWire(p, id);
    case Execute(id, qty) => ExecuteWire(p, id, qty);
    case Modify(_, _) =>
  }

  /** Every other first byte asks for nothing. */
  lemma OtherKindsIgnored(p: seq<Byte>)
    requires |p| == MAX_PAYLOAD
    ensures Decode(p).None? <==> p[0] != 'A' as int && p[0] != 'X' as int && p[0] != 'E' as int
  {
    FieldIs(p, 0, 0);
  }

  /** Sent and received: the task made of a packet that holds a call's encoding asks for that call. */
  lemma EncodingSurvives(op: BookLaws.Op, symbolId: nat, sequence: nat)
    requires Expressible(op)
    ensures Decode(MakeTask(symbolId, sequence, Encode(op)).payload) == Some(op)
  {
    var wire, p := Encode(op), MakeTask(symbolId, sequence, Encode(op)).payload;
    assert |wire| <= 26;
    assert wire[..|wire|] == wire && wire <= p;
    DecodeIffEncoded(p, op);
  }

  /** One message against one book. */
  ghost function ApplyTask(s: BookState, task: MarketDataTask): BookState {
    match (s, Decode(task.payload))
    case (Live(b), Some(op)) => if BookLaws.InBounds(b, BOOK_LIMITS, op) then Live(BookLaws.Apply(b, BOOK_LIMITS, op)) else Corrupt
    case _ => s
  }

  /** `process_market_data` on a worker's books; a symbol without a book is dropped. */
  ghost function Process(books: Books, task: MarketDataTask): Books {
    if task.symbolId !in books then books else books[task.symbolId := ApplyTask(books[task.symbolId], task)]
  }

  /** The objects a handler call may touch: the book of the task's symbol, if there is one. */
  function Touched(books: map<nat, OrderBook.OrderBook>, sym: nat): set<object> {
    if sym in books then {books[sym], books[sym].bids, books[sym].asks} else {}
  }

  /** The slot of the shared table a symbol's snapshot is published in. */
  function TableSlot(sym: nat, capacity: nat): (slot: nat)
    requires capacity > 0
    ensures slot < capacity && (sym < capacity ==> slot == sym)
  {
    sym % capacity
  }

  /** The table after the symbol's book was published; each slot is one sequence lock, written as a whole. */
  ghost function Published(table: seq<BookLaws.Snapshot>, book: Book): (r: seq<BookLaws.Snapshot>)
    requires |table| > 0
    ensures |r| == |table| && r[book.symbol % |table|] == BookLaws.SnapshotOf(book, 5)
    ensures forall i | 0 <= i < |table| && i != book.symbol % |table| :: r[i] == table[i]
  {
    table[TableSlot(book.symbol, |table|) := BookLaws.SnapshotOf(book, SNAPSHOT_DEPTH)]
  }

  function TableObjects(table: array?<BookLaws.Snapshot>): set<object> {
    if table == null then {} else {table}
  }

  /**
   * The handler over the book objects and the shared table, if there is one; it stays defined while the
   * decoded call stays in bounds. A symbol without a book changes nothing.
   */
  method ProcessMarketData(books: map<nat, OrderBook.OrderBook>, table: array?<BookLaws.Snapshot>, task: MarketDataTask)
    requires table != null ==> table.Length > 0
    requires task.symbolId in books ==>
      var book := books[task.symbolId];
      && book.Valid() && book.lim == BOOK_LIMITS && book.symbolId == task.symbolId
      && ApplyTask(Live(book.View()), task).Live?
    modifies Touched(books, task.symbolId), TableObjects(table)
    ensures task.symbolId in books ==>
      var book := books[task.symbolId];
      && book.Valid() && Live(book.View()) == ApplyTask(old(Live(book.View())), task)
      && (table != null ==> table[..] == Published(old(table[..]), book.View()))
    ensures task.symbolId !in books && table != null ==> table[..] == old(table[..])
  {
    if task.symbolId !in books { return; }
    var book := books[task.symbolId];
    var id: OrderId := ReadU64(task.payload, 1);
    var kind := ReadU8(task.payload, 0);
    if kind == MSG_ADD {
      var side := if ReadU8(task.payload, 9) != 0 then Ask else Bid;
      var accepted := book.OnAdd(id, side, ReadI64(task.payload, 10), ReadU64(task.payload, 18));
    } else if kind == MSG_CANCEL {
      book.OnCancel(id);
    } else if kind == MSG_EXECUTE {
      book.OnExecute(id, ReadU64(task.payload, 9));
    }
    if table != null {
      ghost var view := book.View();
      var snapshot := book.TakeSnapshot(SNAPSHOT_DEPTH);
      table[TableSlot(task.symbolId, table.Length)] := snapshot;
      assert book.View() == view;
    }
  }

  ghost function OfSymbol(sym: nat): MarketDataTask -> bool { (t: MarketDataTask) => t.symbolId == sym }

  /** Books do not interfere: folding the handler is folding each symbol's own messages into its own book. */
  lemma {:induction false} ProcessIsPerSymbol(books: Books, tasks: seq<MarketDataTask>, sym: nat)
    ensures Fold<Books, MarketDataTask>(Process, books, tasks).Keys == books.Keys
    ensures sym in books ==> Fold<Books, MarketDataTask>(Process, books, tasks)[sym] == Fold<BookState, MarketDataTask>(ApplyTask, books[sym], Filter(tasks, OfSymbol(sym)))
  {
    if tasks != [] {
      var front, last := tasks[..|tasks| - 1], tasks[|tasks| - 1];
      ProcessIsPerSymbol(books, front, sym);
      var before := Fold<Books, MarketDataTask>(Process, books, front);
      assert Fold<Books, MarketDataTask>(Process, books, tasks) == Process(before, last);
      if last.symbolId != sym {
        assert Filter(tasks, OfSymbol(sym)) == Filter(front, OfSymbol(sym));
      } else if sym in books {
        FoldAppend<BookState, MarketDataTask>(ApplyTask, books[sym], Filter(front, OfSymbol(sym)), last);
      }
    }
  }

  // ---------------------------------------------------------------- seeding

  /** Before the pool starts, each worker owns an empty book for exactly the symbols routed to it. */
  ghost predicate Seeded(hash: nat -> nat, contexts: seq<Books>, symbols: nat) {
    && |contexts| == NUM_BOOK_WORKERS
    && forall w | 0 <= w < |contexts| :: SeededWorker(hash, contexts[w], w, symbols)
  }

  ghost predicate SeededWorker(hash: nat -> nat, books: Books, w: nat, symbols: nat) {
    forall sym: nat :: (sym in books <==> sym < symbols && WorkerForKey<nat>(hash, NUM_BOOK_WORKERS, sym) == w)
                       && (sym in books ==> books[sym] == Live(EmptyBook(sym)))
  }

  /** The two seeding loops of `main`: group the symbols by worker, then build each worker's books. */
  method SeedBooks(hash: nat -> nat, symbols: nat) returns (contexts: seq<Books>)
    ensures Seeded(hash, contexts, symbols)
  {
    var owned: array<seq<nat>> := new seq<nat>[NUM_BOOK_WORKERS](i => []);
    for sym := 0 to symbols
      invariant owned.Length == NUM_BOOK_WORKERS
      invariant forall w | 0 <= w < NUM_BOOK_WORKERS :: OwnedBelow(hash, owned[w], w, sym)
    {
      var w := WorkerForKey<nat>(hash, NUM_BOOK_WORKERS, sym);
      owned[w] := owned[w] + [sym];
    }
    contexts := [];
    for w := 0 to NUM_BOOK_WORKERS
      invariant |contexts| == w
      invariant forall v | 0 <= v < NUM_BOOK_WORKERS :: OwnedBelow(hash, owned[v], v, symbols)
      invariant forall v | 0 <= v < w :: SeededWorker(hash, contexts[v], v, symbols)
    {
      var books: Books := map[];
      for i := 0 to |owned[w]|
        invariant forall sym: nat :: sym in books <==> sym in owned[w][..i]
        invariant forall sym: nat | sym in books :: books[sym] == Live(EmptyBook(sym))
      {
        books := books[owned[w][i] := Live(EmptyBook(owned[w][i]))];
        assert owned[w][..i + 1] == owned[w][..i] + [owned[w][i]];
      }
      assert owned[w][..|owned[w]|] == owned[w];
      assert OwnedBelow(hash, owned[w], w, symbols);
      contexts := contexts + [books];
    }
  }

  ghost predicate OwnedBelow(hash: nat -> nat, owned: seq<nat>, w: nat, symbols: nat) {
    forall sym: nat :: sym in owned <==> sym < symbols && WorkerForKey<nat>(hash, NUM_BOOK_WORKERS, sym) == w
  }

  // ---------------------------------------------------------------- the running system

  /** The receiver is the one submitter, and it always routes by the task's own symbol. */
  ghost predicate FromReceiver(actions: seq<Action<nat, MarketDataTask>>) {
    forall i | 0 <= i < |actions| :: actions[i].Submit? ==> actions[i].mode == ByKey && actions[i].key == actions[i].task.symbolId
  }

  ghost function System(hash: nat -> nat): Config<nat, MarketDataTask, Books> {
    Config(hash, [Group(0, NUM_BOOK_WORKERS)], Process)
  }

  ghost predicate IsDispatchRun(hash: nat -> nat, start: seq<Books>, run: seq<Pool<nat, MarketDataTask, Books>>,
                                actions: seq<Action<nat, MarketDataTask>>)
  {
    && Seeded(hash, start, MAX_SYMBOLS)
    && IsPoolRun(System(hash), QUEUE_CAPACITY, 1, start, run, actions)
    && FromReceiver(actions)
  }

  ghost predicate KeysAreSymbols(p: Pool<nat, MarketDataTask, Books>) {
    && (forall t, x | 0 <= t < |p.accepted| && x in p.accepted[t] :: x.key == x.task.symbolId)
    && (forall t | 0 <= t < |p.calls| && p.calls[t].Some? :: p.calls[t].value.key == p.calls[t].value.task.symbolId)
  }

  lemma {:induction false} KeysStaySymbols(hash: nat -> nat, start: seq<Books>, run: seq<Pool<nat, MarketDataTask, Books>>,
                                           actions: seq<Action<nat, MarketDataTask>>, i: nat)
    requires IsDispatchRun(hash, start, run, actions) && i < |run|
    ensures KeysAreSymbols(run[i])
  {
    if i > 0 {
      KeysStaySymbols(hash, start, run, actions, i - 1);
      PoolRunKeepsInv(System(hash), QUEUE_CAPACITY, 1, start, run, actions, i - 1);
      KeysStep(hash, start, run[i - 1], actions[i - 1]);
    }
  }

  lemma KeysStep(hash: nat -> nat, start: seq<Books>, p: Pool<nat, MarketDataTask, Books>, a: Action<nat, MarketDataTask>)
    requires PoolInv(System(hash), start, p) && Enabled(System(hash), p, a) && KeysAreSymbols(p)
    requires a.Submit? ==> a.key == a.task.symbolId
    ensures KeysAreSymbols(PoolStep(System(hash), p, a))
  {}

  /** Filtering items by key and then reading the tasks is reading the tasks and filtering by symbol. */
  lemma {:induction false} TasksOfKey(items: seq<Item<nat, MarketDataTask>>, sym: nat)
    requires forall x | x in items :: x.key == x.task.symbolId
    ensures TaskOf(Filter(items, HasKey(sym))) == Filter(TaskOf(items), OfSymbol(sym))
  {
    if items != [] {
      var front, last := items[..|items| - 1], items[|items| - 1];
      TasksOfKey(front, sym);
      assert TaskOf(items) == TaskOf(front) + [last.task];
      FilterAppend(TaskOf(front), last.task, OfSymbol(sym));
      assert last in items;
    }
  }

  /** Symbol sym's messages among everything the receiver got accepted, in arrival order. */
  ghost function AcceptedOf(p: Pool<nat, MarketDataTask, Books>, sym: nat): seq<MarketDataTask>
    requires |p.accepted| == 1
  {
    Filter(TaskOf(p.accepted[0]), OfSymbol(sym))
  }

  /** Of one submitter, everything: each worker's handled items are a prefix of the items routed to it. */
  lemma HandledPrefix(hash: nat -> nat, start: seq<Books>, p: Pool<nat, MarketDataTask, Books>, w: nat)
    requires PoolInv(System(hash), start, p) && |p.calls| == 1 && w < |p.queues|
    ensures p.handled[w] <= Filter(p.accepted[0], To(w))
    ensures AllExited(p) ==> p.handled[w] == Filter(p.accepted[0], To(w))
  {
    HandledInOrder(System(hash), start, p, 0, w);
    FilterAll(p.handled[w], By(0));
    if AllExited(p) {
      DrainHandlesExactlyAccepted(System(hash), start, p, 0, w);
    }
  }

  /** The messages of sym among the items routed to its home worker are all of them. */
  lemma HomeGetsAll(p: Pool<nat, MarketDataTask, Books>, sym: nat, home: nat)
    requires |p.accepted| == 1 && KeysAreSymbols(p) && KeyAt(p, sym, home)
    ensures Filter(TaskOf(Filter(p.accepted[0], To(home))), OfSymbol(sym)) == AcceptedOf(p, sym)
  {
    var all := p.accepted[0];
    var hasKey, to := HasKey<nat, MarketDataTask>(sym), To<nat, MarketDataTask>(home);
    FilterMembers(all, to);
    FilterMembers(all, hasKey);
    TasksOfKey(Filter(all, to), sym);
    TasksOfKey(all, sym);
    FilterCommutes(all, to, hasKey);
    forall x | x in Filter(all, hasKey) ensures to(x) { assert x in all && hasKey(x); }
    FilterAll(Filter(all, hasKey), to);
  }

  lemma {:induction false} TaskOfPrefix(a: seq<Item<nat, MarketDataTask>>, b: seq<Item<nat, MarketDataTask>>)
    requires a <= b
    ensures TaskOf(a) <= TaskOf(b)
  {
    forall i | 0 <= i < |a| ensures TaskOf(a)[i] == TaskOf(b)[i] { assert a[i] == b[i]; }
  }

  /**
   * In every reachable state the book of every symbol of the universe sits with the worker its packets
   * are routed to, with no one else, and equals the sequential replay of a prefix of that symbol's
   * accepted messages in arrival order.
   */
  lemma BookIsReplayOfPrefix(hash: nat -> nat, start: seq<Books>, run: seq<Pool<nat, MarketDataTask, Books>>,
                             actions: seq<Action<nat, MarketDataTask>>, i: nat, sym: nat) returns (done: seq<MarketDataTask>)
    requires IsDispatchRun(hash, start, run, actions) && i < |run| && sym < MAX_SYMBOLS
    ensures PoolShape(run[i]) && |run[i].contexts| == NUM_BOOK_WORKERS && |run[i].accepted| == 1
    ensures var home := WorkerForKey<nat>(hash, NUM_BOOK_WORKERS, sym);
      && (forall w | 0 <= w < NUM_BOOK_WORKERS :: sym in run[i].contexts[w] <==> w == home)
      && run[i].contexts[home][sym] == Fold<BookState, MarketDataTask>(ApplyTask, Live(EmptyBook(sym)), done)
    ensures done <= AcceptedOf(run[i], sym)
    ensures AllExited(run[i]) ==> done == AcceptedOf(run[i], sym)
  {
    var p := run[i];
    var home := WorkerForKey<nat>(hash, NUM_BOOK_WORKERS, sym);
    PoolRunKeepsInv(System(hash), QUEUE_CAPACITY, 1, start, run, actions, i);
    KeysStaySymbols(hash, start, run, actions, i);
    KeyIsSticky(System(hash), QUEUE_CAPACITY, 1, start, run, actions, sym, ByKey, i);
    forall w: nat | w < NUM_BOOK_WORKERS ensures sym in p.contexts[w] <==> w == home {
      ContextIsFold(System(hash), QUEUE_CAPACITY, 1, start, run, actions, i, w);
      ProcessIsPerSymbol(start[w], TaskOf(p.handled[w]), sym);
      assert SeededWorker(hash, start[w], w, MAX_SYMBOLS);
    }
    ContextIsFold(System(hash), QUEUE_CAPACITY, 1, start, run, actions, i, home);
    assert SeededWorker(hash, start[home], home, MAX_SYMBOLS);
    ProcessIsPerSymbol(start[home], TaskOf(p.handled[home]), sym);
    done := Filter(TaskOf(p.handled[home]), OfSymbol(sym));
    HandledPrefix(hash, start, p, home);
    HomeGetsAll(p, sym, home);
    TaskOfPrefix(p.handled[home], Filter(p.accepted[0], To(home)));
    FilterPrefix(TaskOf(p.handled[home]), TaskOf(Filter(p.accepted[0], To(home))), OfSymbol(sym));
  }

  /**
   * End to end: once the receiver has stopped and the workers have drained, every symbol's book is
   * the sequential replay of that symbol's accepted messages in arrival order.
   */
  lemma DrainedBookIsSequentialReplay(hash: nat -> nat, start: seq<Books>, run: seq<Pool<nat, MarketDataTask, Books>>,
                                      actions: seq<Action<nat, MarketDataTask>>, i: nat, sym: nat)
    requires IsDispatchRun(hash, start, run, actions) && i < |run| && sym < MAX_SYMBOLS
    requires PoolShape(run[i]) && AllExited(run[i])
    ensures |run[i].contexts| == NUM_BOOK_WORKERS && |run[i].accepted| == 1
    ensures var home := WorkerForKey<nat>(hash, NUM_BOOK_WORKERS, sym);
      sym in run[i].contexts[home]
      && run[i].contexts[home][sym] == Fold<BookState, MarketDataTask>(ApplyTask, Live(EmptyBook(sym)), AcceptedOf(run[i], sym))
  {
    var done := BookIsReplayOfPrefix(hash, start, run, actions, i, sym);
  }

  // ---------------------------------------------------------------- what the drained book is

  /** The book calls a symbol's messages ask for; unknown message types ask for none. */
  function OpsOf(tasks: seq<MarketDataTask>): seq<BookLaws.Op> {
    if tasks == [] then []
    else
      OpsOf(tasks[..|tasks| - 1]) +
      match Decode(tasks[|tasks| - 1].payload)
      case Some(op) => [op]
      case None => []
  }

  /** A stream of messages that decodes to a proper run never corrupts the book, and replays that run. */
  lemma {:induction false} ReplayOfMessages(b: Book, tasks: seq<MarketDataTask>)
    requires BookLaws.ProperRun(b, BOOK_LIMITS, OpsOf(tasks))
    ensures Fold<BookState, MarketDataTask>(ApplyTask, Live(b), tasks) == Live(BookLaws.Replay(b, BOOK_LIMITS, OpsOf(tasks)))
  {
    if tasks != [] {
      var front, last := tasks[..|tasks| - 1], tasks[|tasks| - 1];
      match Decode(last.payload)
      case Some(op) =>
        BookLaws.RunAppend(b, BOOK_LIMITS, OpsOf(front), op);
        ReplayOfMessages(b, front);
      case None =>
        assert OpsOf(tasks) == OpsOf(front);
        ReplayOfMessages(b, front);
    }
  }

  /**
   * The whole system against a plain map: if a symbol's accepted messages decode to a proper run, the
   * drained book is intact, its levels are the sorted aggregate of its orders, and its orders are those
   * of a plain map that replays the messages in arrival order.
   */
  lemma DrainedBookIsPlainAggregate(hash: nat -> nat, start: seq<Books>, run: seq<Pool<nat, MarketDataTask, Books>>,
                                    actions: seq<Action<nat, MarketDataTask>>, i: nat, sym: nat)
    requires IsDispatchRun(hash, start, run, actions) && i < |run| && sym < MAX_SYMBOLS
    requires PoolShape(run[i]) && AllExited(run[i])
    requires |run[i].accepted| == 1 && BookLaws.ProperRun(EmptyBook(sym), BOOK_LIMITS, OpsOf(AcceptedOf(run[i], sym)))
    ensures |run[i].contexts| == NUM_BOOK_WORKERS
    ensures var home := WorkerForKey<nat>(hash, NUM_BOOK_WORKERS, sym);
      && sym in run[i].contexts[home] && run[i].contexts[home][sym].Live?
      && (var book := run[i].contexts[home][sym].book;
          && Consistent(book, BOOK_LIMITS)
          && book.orders == BookLaws.PlainReplay(map[], BOOK_LIMITS, OpsOf(AcceptedOf(run[i], sym))))
  {
    var tasks := AcceptedOf(run[i], sym);
    DrainedBookIsSequentialReplay(hash, start, run, actions, i, sym);
    ReplayOfMessages(EmptyBook(sym), tasks);
    BookLaws.BookIsPlainAggregate(sym, BOOK_LIMITS, OpsOf(tasks));
  }

  /** Task by task, the payloads begin with these calls' encodings. */
  ghost predicate OnTheWire(tasks: seq<MarketDataTask>, ops: seq<BookLaws.Op>) {
    |tasks| == |ops| && forall i | 0 <= i < |ops| :: Sends(tasks[i], ops[i])
  }

  predicate Sends(task: MarketDataTask, op: BookLaws.Op) {
    |task.payload| == MAX_PAYLOAD && Expressible(op) && Encode(op) <= Normalised(task.payload)
  }

  lemma {:induction false} OpsOfWire(tasks: seq<MarketDataTask>, ops: seq<BookLaws.Op>)
    requires OnTheWire(tasks, ops)
    ensures OpsOf(tasks) == ops
  {
    hide Sends;
    if tasks != [] {
      var n := |tasks| - 1;
      OpsOfWire(tasks[..n], ops[..n]);
      assert Sends(tasks[n], ops[n]);
      SentIsDecoded(tasks[n], ops[n]);
      assert ops == ops[..n] + [ops[n]];
    }
  }

  lemma SentIsDecoded(task: MarketDataTask, op: BookLaws.Op)
    requires Sends(task, op)
    ensures Decode(task.payload) == Some(op)
  {
    DecodeIffEncoded(task.payload, op);
  }

  /**
   * A packet leaves the receiver in one of two ways: as an accepted task of its own symbol for that symbol's
   * worker, or dropped, at a moment when that worker's queue holds 4096 tasks.
   */
  lemma PacketDroppedOnlyWhenFull(hash: nat -> nat, start: seq<Books>, run: seq<Pool<nat, MarketDataTask, Books>>,
                                  actions: seq<Action<nat, MarketDataTask>>, i: nat)
    requires IsDispatchRun(hash, start, run, actions) && i < |actions|
    requires |run[i].calls| == 1 == |run[i + 1].calls| && run[i].calls[0].Some? && run[i + 1].calls[0].None?
    ensures PoolShape(run[i]) && PoolShape(run[i + 1]) && |run[i].queues| == 4
    ensures var item := run[i].calls[0].value;
      && item.worker == hash(item.task.symbolId) % 4
      && (|| run[i + 1].accepted[0] == run[i].accepted[0] + [item]
          || (run[i + 1].accepted[0] == run[i].accepted[0]
              && run[i].queues[item.worker].head == MpscQueue.Released(run[i].queues[item.worker]) + 4096))
  {
    var a := EverySubmissionIsAnswered(System(hash), QUEUE_CAPACITY, 1, start, run, actions, i, 0);
    CapacityStays(System(hash), QUEUE_CAPACITY, 1, start, run, actions, i, run[i].calls[0].value.worker);
  }

  /**
   * From the bytes on: if the payloads accepted for a symbol are the encodings of a proper run of calls, the
   * drained book holds the orders a plain map has after those calls, in intact sorted levels.
   */
  lemma DrainedBookFollowsTheWire(hash: nat -> nat, start: seq<Books>, run: seq<Pool<nat, MarketDataTask, Books>>,
                                  actions: seq<Action<nat, MarketDataTask>>, i: nat, sym: nat, ops: seq<BookLaws.Op>)
    requires IsDispatchRun(hash, start, run, actions) && i < |run| && sym < 1024
    requires PoolShape(run[i]) && AllExited(run[i]) && |run[i].accepted| == 1
    requires OnTheWire(AcceptedOf(run[i], sym), ops) && BookLaws.ProperRun(EmptyBook(sym), Limits(32, 8192), ops)
    ensures |run[i].contexts| == 4
    ensures var home := hash(sym) % 4;
      && sym in run[i].contexts[home] && run[i].contexts[home][sym].Live?
      && (var book := run[i].contexts[home][sym].book;
          Consistent(book, Limits(32, 8192)) && book.orders == BookLaws.PlainReplay(map[], Limits(32, 8192), ops))
  {
    OpsOfWire(AcceptedOf(run[i], sym), ops);
    DrainedBookIsPlainAggregate(hash, start, run, actions, i, sym);
  }

  /**
   * The shared table has one lock per symbol of the universe, so whoever publishes in a slot is always
   * the same worker: the single-writer demand of the sequence lock is met in every reachable state.
   */
  lemma SlotHasOneWriter(hash: nat -> nat, start: seq<Books>, run: seq<Pool<nat, MarketDataTask, Books>>,
                         actions: seq<Action<nat, MarketDataTask>>, i: nat, k: nat, w: nat, v: nat, sym: nat, other: nat)
    requires IsDispatchRun(hash, start, run, actions) && i < |run| && k < |run| && w < NUM_BOOK_WORKERS && v < NUM_BOOK_WORKERS
    requires TableSlot(sym, MAX_SYMBOLS) == TableSlot(other, MAX_SYMBOLS)
    ensures |run[i].contexts| == NUM_BOOK_WORKERS == |run[k].contexts|
    ensures sym in run[i].contexts[w] && other in run[k].contexts[v] ==> w == v && sym == other
  {
    OwnsOnlyItsSymbols(hash, start, run, actions, i, w, sym);
    OwnsOnlyItsSymbols(hash, start, run, actions, k, v, other);
  }

  lemma OwnsOnlyItsSymbols(hash: nat -> nat, start: seq<Books>, run: seq<Pool<nat, MarketDataTask, Books>>,
                           actions: seq<Action<nat, MarketDataTask>>, i: nat, w: nat, sym: nat)
    requires IsDispatchRun(hash, start, run, actions) && i < |run| && w < NUM_BOOK_WORKERS
    ensures |run[i].contexts| == NUM_BOOK_WORKERS
    ensures sym in run[i].contexts[w] <==> sym < MAX_SYMBOLS && WorkerForKey<nat>(hash, NUM_BOOK_WORKERS, sym) == w
  {
    ContextIsFold(System(hash), QUEUE_CAPACITY, 1, start, run, actions, i, w);
    ProcessIsPerSymbol(start[w], TaskOf(run[i].handled[w]), sym);
    assert SeededWorker(hash, start[w], w, MAX_SYMBOLS);
  }
}
