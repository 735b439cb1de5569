/**
 * The single-producer single-consumer ring with its real 64-bit counters, as a step machine: counters
 * wrap, occupancy is an unsigned difference, slots are chosen with a mask, and each side works from a
 * possibly stale load of the other's counter. `pushed` and `popped` are history, as are the unbounded
 * counts `at` kept beside the loaded values.
 */
module SpscQueue {
  import opened Wrappers
  import opened Ring
  import Bits

  datatype Producer<T> =
    | PIdle
    | PHead(value: T, head: nat)
    | PTail(value: T, head: nat, tail: nat, at: nat)
    | PConstructed(head: nat, value: T)

  datatype Consumer<T> =
    | CIdle
    | CTail(tail: nat)
    | CHead(tail: nat, head: nat, at: nat)
    | CMoved(tail: nat, out: T)
    | CDestroyed(tail: nat, out: T)

  datatype State<T> = State(
    producer: nat,
    consumer: nat,
    slots: seq<Option<T>>,
    p: Producer<T>,
    c: Consumer<T>,
    pushed: seq<T>,
    popped: seq<T>)

  datatype Action<T> = Push(value: T) | ProducerStep | Pop | ConsumerStep

  // ---------------------------------------------------------------- 64-bit arithmetic

  /** Unsigned subtraction and increment. */
  function Minus(a: nat, b: nat): nat {
    (a - b) % Bits.WORD
  }

  function Next(a: nat): nat {
    (a + 1) % Bits.WORD
  }

  function Index(counter: nat, n: nat): (i: nat)
    requires Bits.IsPow2(n)
    ensures i < n
  {
    Bits.MaskIsMod(counter, n);
    Bits.And(counter, n - 1)
  }

  /** Subtracting wrapped counters gives the true difference modulo 2^64. */
  lemma MinusOfWrapped(a: nat, b: nat)
    ensures Minus(a % Bits.WORD, b % Bits.WORD) == (a - b) % Bits.WORD
    ensures 0 <= a - b < Bits.WORD ==> Minus(a % Bits.WORD, b % Bits.WORD) == a - b
    ensures 0 < b - a <= Bits.WORD ==> Minus(a % Bits.WORD, b % Bits.WORD) == Bits.WORD - (b - a)
  {}

  lemma {:induction false} PowersDivide(a: nat, b: nat)
    requires Bits.IsPow2(a) && Bits.IsPow2(b) && a <= b
    ensures b % a == 0
  {
    if a > 1 {
      PowersDivide(a / 2, b / 2);
      Bits.ModByHalves(b, a / 2);
    }
  }

  /** Reducing modulo a multiple of n first does not change the remainder modulo n. */
  lemma ModOfMod(pos: nat, w: nat, n: nat)
    requires 0 < n <= w && w % n == 0
    ensures (pos % w) % n == pos % n
  {
    var q, m, r := pos / w, w / n, pos % w;
    assert pos == w * q + r && w == n * m && r == n * (r / n) + r % n;
    Regroup(n, m, q, r / n, r % n);
    Bits.ModUnique(pos, n, m * q + r / n, r % n);
  }

  lemma Regroup(n: int, m: int, q: int, q': int, r: int)
    ensures (n * m) * q + (n * q' + r) == n * (m * q + q') + r
  {
    assert (n * m) * q == n * (m * q);
  }

  /** Because N divides 2^64, a wrapped counter still selects the slot of the true position. */
  lemma WrappingKeepsIndex(pos: nat, n: nat)
    requires Bits.IsPow2(n) && n < Bits.WORD
    ensures Index(pos % Bits.WORD, n) == SlotIndex(pos, n)
  {
    Bits.WordIsPow2();
    PowersDivide(n, Bits.WORD);
    ModOfMod(pos, Bits.WORD, n);
    Bits.MaskIsMod(pos % Bits.WORD, n);
    SlotIndexIsMod(pos, n);
  }

  // ---------------------------------------------------------------- steps

  function Init<T>(n: nat): State<T> {
    State(0, 0, seq(n, i => None), PIdle, CIdle, [], [])
  }

  ghost predicate Shape<T>(s: State<T>) {
    2 <= |s.slots| < Bits.WORD && Bits.IsPow2(|s.slots|)
  }

  ghost predicate Enabled<T>(s: State<T>, a: Action<T>) {
    match a
    case Push(_) => s.p.PIdle?
    case ProducerStep => !s.p.PIdle?
    case Pop => s.c.CIdle?
    case ConsumerStep => !s.c.CIdle?
  }

  function SetSlot<T>(s: State<T>, counter: nat, v: Option<T>): State<T>
    requires Bits.IsPow2(|s.slots|)
  {
    s.(slots := s.slots[Index(counter, |s.slots|) := v])
  }

  ghost function Step<T>(s: State<T>, a: Action<T>): State<T>
    requires Shape(s) && Enabled(s, a)
  {
    match a
    case Push(value) => s.(p := PHead(value, s.producer))
    case ProducerStep => StepProducer(s)
    case Pop => s.(c := CTail(s.consumer))
    case ConsumerStep => StepConsumer(s)
  }

  ghost function StepProducer<T>(s: State<T>): State<T>
    requires Shape(s) && !s.p.PIdle?
  {
    match s.p
    case PHead(value, head) => s.(p := PTail(value, head, s.consumer, |s.popped|))
    case PTail(value, head, tail, _) =>
      if Minus(head, tail) >= |s.slots| then s.(p := PIdle)
      else SetSlot(s, head, Some(value)).(p := PConstructed(head, value))
    case PConstructed(head, value) => s.(producer := Next(head), p := PIdle, pushed := s.pushed + [value])
  }

  ghost function StepConsumer<T>(s: State<T>): State<T>
    requires Shape(s) && !s.c.CIdle?
  {
    match s.c
    case CTail(tail) => s.(c := CHead(tail, s.producer, |s.pushed|))
    case CHead(tail, head, _) =>
      if head == tail then s.(c := CIdle)
      else
        (match s.slots[Index(tail, |s.slots|)]
         case Some(v) => s.(c := CMoved(tail, v))
         case None => s)
    case CMoved(tail, out) => SetSlot(s, tail, None).(c := CDestroyed(tail, out))
    case CDestroyed(tail, out) => s.(consumer := Next(tail), c := CIdle, popped := s.popped + [out])
  }

  // ---------------------------------------------------------------- invariant

  /** What slot i holds, going by the unbounded positions. */
  ghost predicate LiveAt<T>(s: State<T>, k: nat) {
    || |s.popped| < k < |s.pushed|
    || (k == |s.popped| < |s.pushed| && !s.c.CDestroyed?)
    || (k == |s.pushed| && s.p.PConstructed?)
  }

  ghost function ValueAt<T>(s: State<T>, k: nat): Option<T> {
    if !LiveAt(s, k) then None
    else if k < |s.pushed| then Some(s.pushed[k])
    else if s.p.PConstructed? then Some(s.p.value)
    else None
  }

  /** Position k of the window [popped, popped + N) is live exactly when the model says so. */
  ghost predicate SlotOk<T>(s: State<T>, k: nat)
    requires Shape(s)
  {
    s.slots[SlotIndex(k, |s.slots|)] == ValueAt(s, k)
  }

  ghost predicate ProducerOk<T>(s: State<T>) {
    var n := |s.slots|;
    match s.p
    case PIdle => true
    case PHead(_, head) => head == s.producer
    case PTail(_, head, tail, at) => head == s.producer && tail == at % Bits.WORD && at <= |s.popped| && |s.pushed| <= at + n
    case PConstructed(head, _) => head == s.producer && |s.pushed| < |s.popped| + n
  }

  ghost predicate ConsumerOk<T>(s: State<T>) {
    match s.c
    case CIdle => true
    case CTail(tail) => tail == s.consumer
    case CHead(tail, head, at) => tail == s.consumer && head == at % Bits.WORD && |s.popped| <= at <= |s.pushed| && at <= |s.popped| + |s.slots|
    case CMoved(tail, out) => tail == s.consumer && |s.popped| < |s.pushed| && out == s.pushed[|s.popped|]
    case CDestroyed(tail, out) => tail == s.consumer && |s.popped| < |s.pushed| && out == s.pushed[|s.popped|]
  }

  ghost predicate Inv<T>(s: State<T>) {
    && Shape(s)
    && s.producer == |s.pushed| % Bits.WORD
    && s.consumer == |s.popped| % Bits.WORD
    && s.popped <= s.pushed
    && |s.pushed| <= |s.popped| + |s.slots|
    && ProducerOk(s)
    && ConsumerOk(s)
    && forall k: nat | |s.popped| <= k < |s.popped| + |s.slots| :: SlotOk(s, k)
  }

  lemma InitInv<T>(n: nat)
    requires 2 <= n < Bits.WORD && Bits.IsPow2(n)
    ensures Inv(Init<T>(n))
  {}

  lemma ConstructKeepsInv<T>(s: State<T>)
    requires Inv(s) && s.p.PTail? && Minus(s.p.head, s.p.tail) < |s.slots|
    ensures Inv(StepProducer(s))
  {
    var n, P := |s.slots|, |s.pushed|;
    MinusOfWrapped(P, s.p.at);
    WrappingKeepsIndex(P, n);
    var s' := StepProducer(s);
    forall k: nat | |s.popped| <= k < |s.popped| + n ensures SlotOk(s', k) {
      assert SlotOk(s, k);
      if k < P { Distinct(k, P, n); } else if k > P { Distinct(P, k, n); }
    }
  }

  lemma PublishKeepsInv<T>(s: State<T>)
    requires Inv(s) && s.p.PConstructed?
    ensures Inv(StepProducer(s))
  {
    hide SlotIndex;
    var s' := StepProducer(s);
    forall k: nat | |s.popped| <= k < |s.popped| + |s.slots| ensures SlotOk(s', k) { assert SlotOk(s, k); }
  }

  lemma DestroyKeepsInv<T>(s: State<T>)
    requires Inv(s) && s.c.CMoved?
    ensures Inv(StepConsumer(s))
  {
    var n, C := |s.slots|, |s.popped|;
    WrappingKeepsIndex(C, n);
    var s' := StepConsumer(s);
    forall k: nat | C <= k < C + n ensures SlotOk(s', k) {
      assert SlotOk(s, k);
      if k > C { Distinct(C, k, n); }
    }
  }

  /** Releasing the head position moves no value; the position it adds to the window is dead. */
  lemma ReleaseValues<T>(s: State<T>, k: nat)
    requires Inv(s) && s.c.CDestroyed? && |s.popped| < k <= |s.popped| + |s.slots|
    ensures var s' := StepConsumer(s);
      ValueAt(s', k) == if k < |s.popped| + |s.slots| then ValueAt(s, k) else None
    ensures ValueAt(s, |s.popped|) == None
  {
    hide SlotIndex;
    hide SlotOk;
  }

  lemma ReleaseKeepsInv<T>(s: State<T>)
    requires Inv(s) && s.c.CDestroyed?
    ensures Inv(StepConsumer(s))
  {
    var n, C := |s.slots|, |s.popped|;
    var s' := StepConsumer(s);
    ReleaseCounters(s);
    hide StepConsumer;
    hide SlotOk;
    forall k: nat | C + 1 <= k < C + 1 + n ensures SlotOk(s', k) {
      ReleasedSlot(s, k);
    }
  }

  /** Everything but the slots. */
  lemma ReleaseCounters<T>(s: State<T>)
    requires Inv(s) && s.c.CDestroyed?
    ensures var s' := StepConsumer(s);
      && Shape(s') && |s'.slots| == |s.slots| && |s'.popped| == |s.popped| + 1
      && s'.producer == |s'.pushed| % Bits.WORD && s'.consumer == |s'.popped| % Bits.WORD
      && s'.popped <= s'.pushed && |s'.pushed| <= |s'.popped| + |s'.slots| && ProducerOk(s') && ConsumerOk(s')
  {
    hide SlotOk;
    hide Bits.IsPow2;
  }

  lemma ReleasedSlot<T>(s: State<T>, k: nat)
    requires Inv(s) && s.c.CDestroyed? && |s.popped| < k <= |s.popped| + |s.slots|
    ensures Shape(StepConsumer(s)) && SlotOk(StepConsumer(s), k)
  {
    var n, C := |s.slots|, |s.popped|;
    ReleaseValues(s, k);
    hide SlotIndex;
    hide ValueAt;
    hide LiveAt;
    hide Bits.IsPow2;
    if k < C + n { assert SlotOk(s, k); }
    else { Lap(C, n); assert SlotOk(s, C); }
  }

  /** The consumer always finds a live element where it looks. */
  lemma HeadIsLive<T>(s: State<T>)
    requires Inv(s) && s.c.CHead? && s.c.head != s.c.tail
    ensures |s.popped| < |s.pushed|
    ensures s.slots[Index(s.c.tail, |s.slots|)] == Some(s.pushed[|s.popped|])
  {
    assert SlotOk(s, |s.popped|);
    WrappingKeepsIndex(|s.popped|, |s.slots|);
  }

  lemma LoadKeepsInv<T>(s: State<T>, a: Action<T>)
    requires Inv(s) && Enabled(s, a)
    requires a.ProducerStep? ==> s.p.PHead? || (s.p.PTail? && Minus(s.p.head, s.p.tail) >= |s.slots|)
    requires a.ConsumerStep? ==> s.c.CTail? || s.c.CHead?
    ensures Inv(Step(s, a))
  {
    if a.ConsumerStep? && s.c.CHead? && s.c.head != s.c.tail { HeadIsLive(s); }
    var s' := Step(s, a);
    forall k: nat | |s.popped| <= k < |s.popped| + |s.slots| ensures SlotOk(s', k) { assert SlotOk(s, k); }
  }

  lemma StepKeepsInv<T>(s: State<T>, a: Action<T>)
    requires Inv(s) && Enabled(s, a)
    ensures Inv(Step(s, a))
  {
    if a.ProducerStep? && s.p.PTail? && Minus(s.p.head, s.p.tail) < |s.slots| { ConstructKeepsInv(s); }
    else if a.ProducerStep? && s.p.PConstructed? { PublishKeepsInv(s); }
    else if a.ConsumerStep? && s.c.CMoved? { DestroyKeepsInv(s); }
    else if a.ConsumerStep? && s.c.CDestroyed? { ReleaseKeepsInv(s); }
    else { LoadKeepsInv(s, a); }
  }

  // ---------------------------------------------------------------- refinement

  /** The bounded FIFO that the ring stands for. */
  datatype FifoEvent<T> = Enqueue(x: T) | Dequeue(y: T) | Silent

  ghost predicate FifoStep<T>(n: nat, q: seq<T>, e: FifoEvent<T>, q': seq<T>) {
    match e
    case Enqueue(x) => |q| < n && q' == q + [x]
    case Dequeue(y) => q == [y] + q'
    case Silent => q' == q
  }

  ghost function Contents<T>(s: State<T>): seq<T>
    requires Inv(s)
  {
    s.pushed[|s.popped|..]
  }

  function EventOf<T>(s: State<T>, a: Action<T>): FifoEvent<T> {
    if a.ProducerStep? && s.p.PConstructed? then Enqueue(s.p.value)
    else if a.ConsumerStep? && s.c.CDestroyed? then Dequeue(s.c.out)
    else Silent
  }

  /** Every step, wrapped counters and stale loads included, is a step of the bounded FIFO. */
  lemma StepRefinesFifo<T>(s: State<T>, a: Action<T>)
    requires Inv(s) && Enabled(s, a)
    ensures Inv(Step(s, a)) && FifoStep(|s.slots|, Contents(s), EventOf(s, a), Contents(Step(s, a)))
  {
    StepKeepsInv(s, a);
    if a.ConsumerStep? && s.c.CDestroyed? {
      assert Contents(s) == [s.c.out] + Contents(Step(s, a));
    }
  }

  /** A push is refused exactly when, at its load of the consumer counter, N elements were inside. */
  lemma PushRefusedIffFull<T>(s: State<T>)
    requires Inv(s) && s.p.PTail?
    ensures StepProducer(s).p.PIdle? <==> |s.pushed| - s.p.at == |s.slots|
    ensures StepProducer(s).p.PConstructed? ==> s.slots[Index(s.p.head, |s.slots|)] == None
  {
    MinusOfWrapped(|s.pushed|, s.p.at);
    WrappingKeepsIndex(|s.pushed|, |s.slots|);
    if |s.pushed| < s.p.at + |s.slots| { assert SlotOk(s, |s.pushed|); }
  }

  /** A pop is refused exactly when, at its load of the producer counter, nothing was inside. */
  lemma PopRefusedIffEmpty<T>(s: State<T>)
    requires Inv(s) && s.c.CHead?
    ensures StepConsumer(s).c.CIdle? <==> s.c.at == |s.popped|
    ensures StepConsumer(s).c.CMoved? <==> s.c.at > |s.popped|
  {
    MinusOfWrapped(s.c.at, |s.popped|);
    if s.c.head != s.c.tail { HeadIsLive(s); }
  }

  // ---------------------------------------------------------------- whole executions

  ghost predicate IsExecution<T>(n: nat, run: seq<State<T>>, actions: seq<Action<T>>) {
    && 2 <= n < Bits.WORD && Bits.IsPow2(n)
    && |run| == |actions| + 1
    && run[0] == Init(n)
    && forall i: nat | i < |actions| :: Shape(run[i]) && Enabled(run[i], actions[i]) && run[i + 1] == Step(run[i], actions[i])
  }

  lemma {:induction false} ExecutionKeepsInv<T>(n: nat, run: seq<State<T>>, actions: seq<Action<T>>, i: nat)
    requires IsExecution(n, run, actions) && i < |run|
    ensures Inv(run[i]) && |run[i].slots| == n
  {
    if i == 0 {
      InitInv<T>(n);
    } else {
      ExecutionKeepsInv(n, run, actions, i - 1);
      StepKeepsInv(run[i - 1], actions[i - 1]);
    }
  }

  lemma {:induction false} HistoryGrows<T>(n: nat, run: seq<State<T>>, actions: seq<Action<T>>, i: nat, k: nat)
    requires IsExecution(n, run, actions) && i <= k < |run|
    ensures run[i].pushed <= run[k].pushed && run[i].popped <= run[k].popped
    decreases k
  {
    if i < k {
      HistoryGrows(n, run, actions, i, k - 1);
    }
  }

  /** In every run what was popped is a prefix of what was pushed, at most N elements behind. */
  lemma PopsArePrefixOfPushes<T>(n: nat, run: seq<State<T>>, actions: seq<Action<T>>, i: nat)
    requires IsExecution(n, run, actions) && i < |run|
    ensures run[i].popped <= run[i].pushed && |run[i].pushed| - |run[i].popped| <= n
    ensures Minus(run[i].producer, run[i].consumer) == |run[i].pushed| - |run[i].popped|
  {
    ExecutionKeepsInv(n, run, actions, i);
    MinusOfWrapped(|run[i].pushed|, |run[i].popped|);
  }

  /**
   * `size` loads the two counters one after the other (in either order). Called by the producer or the
   * consumer, whose own counter stands still meanwhile, it is a true occupancy between 0 and N.
   */
  lemma SizeFromEitherSide<T>(n: nat, run: seq<State<T>>, actions: seq<Action<T>>, i: nat, k: nat)
    requires IsExecution(n, run, actions) && i < |run| && k < |run|
    requires |run[i].pushed| == |run[k].pushed| || |run[i].popped| == |run[k].popped|
    ensures Minus(run[i].producer, run[k].consumer) == |run[i].pushed| - |run[k].popped| <= n
  {
    ExecutionKeepsInv(n, run, actions, i);
    ExecutionKeepsInv(n, run, actions, k);
    MinusOfWrapped(|run[i].pushed|, |run[k].popped|);
  }

  /**
   * Called by a third thread that loads the producer counter first, the result stays within the
   * capacity exactly when the consumer has not overtaken that load; otherwise it wraps to a huge value.
   */
  lemma SizeProducerFirst<T>(n: nat, run: seq<State<T>>, actions: seq<Action<T>>, i: nat, k: nat)
    requires IsExecution(n, run, actions) && i <= k < |run|
    requires |run[k].popped| - |run[i].pushed| < Bits.WORD - n
    ensures Minus(run[i].producer, run[k].consumer) <= n <==> |run[k].popped| <= |run[i].pushed|
    ensures |run[k].popped| > |run[i].pushed| ==>
      Minus(run[i].producer, run[k].consumer) == Bits.WORD - (|run[k].popped| - |run[i].pushed|)
  {
    ExecutionKeepsInv(n, run, actions, i);
    ExecutionKeepsInv(n, run, actions, k);
    HistoryGrows(n, run, actions, i, k);
    MinusOfWrapped(|run[i].pushed|, |run[k].popped|);
  }

  /** Loading the consumer counter first it never wraps, but counts elements popped meanwhile too. */
  lemma SizeConsumerFirst<T>(n: nat, run: seq<State<T>>, actions: seq<Action<T>>, i: nat, k: nat)
    requires IsExecution(n, run, actions) && i <= k < |run|
    requires |run[k].pushed| - |run[i].popped| < Bits.WORD
    ensures Minus(run[k].producer, run[i].consumer) == |run[k].pushed| - |run[i].popped|
    ensures Minus(run[k].producer, run[i].consumer) <= n + (|run[k].popped| - |run[i].popped|)
  {
    ExecutionKeepsInv(n, run, actions, i);
    ExecutionKeepsInv(n, run, actions, k);
    HistoryGrows(n, run, actions, i, k);
    MinusOfWrapped(|run[k].pushed|, |run[i].popped|);
  }

  // ---------------------------------------------------------------- what the calls return

  function Stage<T>(p: Producer<T>): nat {
    match p case PIdle => 0 case PHead(_, _) => 3 case PTail(_, _, _, _) => 2 case PConstructed(_, _) => 1
  }

  function StageC<T>(c: Consumer<T>): nat {
    match c case CIdle => 0 case CTail(_) => 4 case CHead(_, _, _) => 3 case CMoved(_, _) => 2 case CDestroyed(_, _) => 1
  }

  function Carried<T>(p: Producer<T>): T
    requires !p.PIdle?
  {
    p.value
  }

  /**
   * Every step of a push: it comes back refused exactly after a load that found N elements inside, comes back
   * having enqueued its value by the store of the counter, and otherwise moves one stage on with its value.
   */
  lemma PushStep<T>(s: State<T>)
    requires Inv(s) && !s.p.PIdle?
    ensures var s' := StepProducer(s);
      && (s'.p.PIdle? <==> s.p.PConstructed? || (s.p.PTail? && |s.pushed| - s.p.at == |s.slots|))
      && s'.pushed == (if s.p.PConstructed? then s.pushed + [s.p.value] else s.pushed)
      && (!s'.p.PIdle? ==> Carried(s'.p) == Carried(s.p) && Stage(s'.p) == Stage(s.p) - 1)
      && (s'.p.PTail? ==> s'.p.at == |s.popped|)
  {
    if s.p.PTail? { PushRefusedIffFull(s); }
  }

  /** Every step of a pop, likewise: refused exactly after a load that found nothing inside. */
  lemma PopStep<T>(s: State<T>)
    requires Inv(s) && !s.c.CIdle?
    ensures var s' := StepConsumer(s);
      && (s'.c.CIdle? <==> s.c.CDestroyed? || (s.c.CHead? && s.c.at == |s.popped|))
      && (s.c.CDestroyed? ==> |s.popped| < |s.pushed| && s'.popped == s.popped + [s.pushed[|s.popped|]])
      && (!s.c.CDestroyed? ==> s'.popped == s.popped)
      && (!s'.c.CIdle? ==> StageC(s'.c) == StageC(s.c) - 1)
      && (s'.c.CHead? ==> s'.c.at == |s.pushed|)
  {
    if s.c.CHead? { PopRefusedIffEmpty(s); }
  }

  /** What a step of the run does to a push under way. */
  lemma PushAfter<T>(s: State<T>, a: Action<T>)
    requires Inv(s) && Enabled(s, a)
    ensures var s' := Step(s, a);
      if s.p.PIdle? then s'.pushed == s.pushed && (!s'.p.PIdle? ==> a == Push(Carried(s'.p)) && !s'.p.PTail?)
      else if a.ProducerStep? then
        !s'.p.PIdle? ==> s'.pushed == s.pushed && Carried(s'.p) == Carried(s.p) && (s'.p.PTail? ==> s'.p.at == |s.popped|)
      else s'.p == s.p && s'.pushed == s.pushed
  {
    if a.ProducerStep? { PushStep(s); }
  }

  lemma PopAfter<T>(s: State<T>, a: Action<T>)
    requires Inv(s) && Enabled(s, a)
    ensures var s' := Step(s, a);
      if s.c.CIdle? then s'.popped == s.popped && (!s'.c.CIdle? ==> a.Pop? && !s'.c.CHead?)
      else if a.ConsumerStep? then
        !s'.c.CIdle? ==> s'.popped == s.popped && (s'.c.CHead? ==> s'.c.at == |s.pushed|)
      else s'.c == s.c && s'.popped == s.popped
  {
    if a.ConsumerStep? { PopStep(s); }
  }

  lemma {:induction false} PushBegan<T>(n: nat, run: seq<State<T>>, actions: seq<Action<T>>, i: nat) returns (a: nat, l: nat)
    requires IsExecution(n, run, actions) && i < |run| && !run[i].p.PIdle?
    ensures a < i && actions[a] == Push(Carried(run[i].p)) && (forall m: nat | a < m <= i :: !run[m].p.PIdle?)
    ensures |run[a].pushed| == |run[i].pushed|
    ensures run[i].p.PTail? ==> a < l < i && |run[l].pushed| == |run[i].pushed| && |run[l].popped| == run[i].p.at
    decreases i
  {
    a, l := 0, 0;
    if i > 0 {
      ExecutionKeepsInv(n, run, actions, i - 1);
      PushAfter(run[i - 1], actions[i - 1]);
      hide Inv;
      hide Step;
      if run[i - 1].p.PIdle? {
        a := i - 1;
      } else {
        a, l := PushBegan(n, run, actions, i - 1);
        if actions[i - 1].ProducerStep? { l := i - 1; }
      }
    }
  }

  /**
   * In every execution a push that comes back either enqueued the value it was called with, or at its load,
   * during the call, N elements were inside.
   */
  lemma EveryPushIsAnswered<T>(n: nat, run: seq<State<T>>, actions: seq<Action<T>>, i: nat) returns (a: nat, l: nat)
    requires IsExecution(n, run, actions) && i < |actions| && !run[i].p.PIdle? && run[i + 1].p.PIdle?
    ensures a < i && actions[a] == Push(Carried(run[i].p)) && (forall m: nat | a < m <= i :: !run[m].p.PIdle?)
    ensures || run[i + 1].pushed == run[i].pushed + [Carried(run[i].p)]
            || (run[i + 1].pushed == run[i].pushed && a < l < i && |run[l].pushed| - |run[l].popped| == n)
  {
    ExecutionKeepsInv(n, run, actions, i);
    a, l := PushBegan(n, run, actions, i);
    PushStep(run[i]);
  }

  lemma {:induction false} PopBegan<T>(n: nat, run: seq<State<T>>, actions: seq<Action<T>>, i: nat) returns (a: nat, l: nat)
    requires IsExecution(n, run, actions) && i < |run| && !run[i].c.CIdle?
    ensures a < i && actions[a].Pop? && (forall m: nat | a < m <= i :: !run[m].c.CIdle?)
    ensures |run[a].popped| == |run[i].popped|
    ensures run[i].c.CHead? ==> a < l < i && |run[l].popped| == |run[i].popped| && |run[l].pushed| == run[i].c.at
    decreases i
  {
    a, l := 0, 0;
    if i > 0 {
      ExecutionKeepsInv(n, run, actions, i - 1);
      PopAfter(run[i - 1], actions[i - 1]);
      hide Inv;
      hide Step;
      if run[i - 1].c.CIdle? {
        a := i - 1;
      } else {
        a, l := PopBegan(n, run, actions, i - 1);
        if actions[i - 1].ConsumerStep? { l := i - 1; }
      }
    }
  }

  /** In every execution a pop that comes back either took the oldest element, or at its load nothing was inside. */
  lemma EveryPopIsAnswered<T>(n: nat, run: seq<State<T>>, actions: seq<Action<T>>, i: nat) returns (a: nat, l: nat)
    requires IsExecution(n, run, actions) && i < |actions| && !run[i].c.CIdle? && run[i + 1].c.CIdle?
    ensures a < i && actions[a].Pop? && (forall m: nat | a < m <= i :: !run[m].c.CIdle?)
    ensures || (|run[i].popped| < |run[i].pushed| && run[i + 1].popped == run[i].popped + [run[i].pushed[|run[i].popped|]])
            || (run[i + 1].popped == run[i].popped && a < l < i && |run[l].pushed| == |run[l].popped|)
  {
    ExecutionKeepsInv(n, run, actions, i);
    a, l := PopBegan(n, run, actions, i);
    PopStep(run[i]);
  }
}
