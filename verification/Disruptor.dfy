/**
 * The single-producer fan-out ring as a step machine: the producer scans the consumers' cursors one
 * load at a time while they move, waits while the slowest is a full ring behind, writes the slot and
 * commits; each consumer polls, reads through its reference and stores its cursor. A slot being
 * assigned holds no readable value. `published`, `seen` and `scan`, the cursors loaded in the scan under
 * way, are history.
 */
module Disruptor {
  import opened Wrappers
  import opened Ring

  /** Where `publish` stands; `min` starts at the largest integer, here None. */
  datatype Producer<T> =
    | Idle
    | Scanning(event: T, i: nat, min: Option<int>)
    | Writing(event: T)
    | Assigning(event: T)
    | Committing(event: T)

  /** A consumer's token and whether it holds a reference to its next slot. */
  datatype Consumer =
    | Waiting(next: nat)
    | Holding(next: nat)
    | HasRead(next: nat)

  datatype State<T> = State(
    slots: seq<Option<T>>,
    producer: int,
    cursors: seq<int>,
    pc: Producer<T>,
    consumers: seq<Consumer>,
    published: seq<T>,
    seen: seq<seq<T>>,
    scan: seq<int>)

  datatype Action<T> = Publish(event: T) | ProducerStep | ConsumerStep(id: nat)

  function Init<T>(n: nat, consumers: nat): State<T> {
    State(seq(n, i => None), -1, seq(consumers, i => -1), Idle, seq(consumers, i => Waiting(0)), [], seq(consumers, i => []), [])
  }

  ghost predicate Shape<T>(s: State<T>) {
    |s.slots| >= 2 && |s.consumers| == |s.cursors| == |s.seen| && s.producer >= -1
  }

  function At<T>(s: State<T>, pos: nat): Option<T>
    requires |s.slots| >= 2
  {
    s.slots[SlotIndex(pos, |s.slots|)]
  }

  function SetSlot<T>(s: State<T>, pos: nat, v: Option<T>): State<T>
    requires |s.slots| >= 2
  {
    s.(slots := s.slots[SlotIndex(pos, |s.slots|) := v])
  }

  function Lower(min: Option<int>, c: int): Option<int> {
    if min.None? || c < min.value then Some(c) else min
  }

  /** The producer keeps spinning while its next position is more than N ahead of the minimum. */
  predicate Stalls(next: int, min: Option<int>, n: nat) {
    min.Some? && next - min.value > n
  }

  ghost predicate Enabled<T>(s: State<T>, a: Action<T>) {
    match a
    case Publish(_) => s.pc.Idle?
    case ProducerStep => !s.pc.Idle?
    case ConsumerStep(j) => j < |s.consumers|
  }

  ghost function Step<T>(s: State<T>, a: Action<T>): State<T>
    requires Shape(s) && Enabled(s, a)
  {
    match a
    case Publish(event) => s.(pc := Scanning(event, 0, None), scan := [])
    case ProducerStep => StepProducer(s)
    case ConsumerStep(j) => StepConsumer(s, j)
  }

  ghost function StepProducer<T>(s: State<T>): State<T>
    requires Shape(s) && !s.pc.Idle?
  {
    var next := s.producer + 1;
    match s.pc
    case Scanning(event, i, min) =>
      if i < |s.cursors| then s.(pc := Scanning(event, i + 1, Lower(min, s.cursors[i])), scan := s.scan + [s.cursors[i]])
      else if Stalls(next, min, |s.slots|) then s.(pc := Scanning(event, 0, None), scan := [])
      else s.(pc := Writing(event))
    case Writing(event) => SetSlot(s, next, None).(pc := Assigning(event))
    case Assigning(event) => SetSlot(s, next, Some(event)).(pc := Committing(event))
    case Committing(event) => s.(producer := next, published := s.published + [event], pc := Idle)
  }

  ghost function StepConsumer<T>(s: State<T>, j: nat): State<T>
    requires Shape(s) && j < |s.consumers|
  {
    match s.consumers[j]
    case Waiting(next) => if s.producer < next then s else s.(consumers := s.consumers[j := Holding(next)])
    case Holding(next) =>
      (match At(s, next)
       case Some(v) => s.(consumers := s.consumers[j := HasRead(next)], seen := s.seen[j := s.seen[j] + [v]])
       case None => s)
    case HasRead(next) => s.(consumers := s.consumers[j := Waiting(next + 1)], cursors := s.cursors[j := next])
  }

  // ---------------------------------------------------------------- invariant

  /** The producer is past its wait: the slot it is about to replace was consumed by everyone. */
  predicate Cleared<T>(pc: Producer<T>) {
    pc.Writing? || pc.Assigning? || pc.Committing?
  }

  ghost predicate ConsumerOk<T>(s: State<T>, j: nat)
    requires Shape(s) && j < |s.consumers|
  {
    var c := s.consumers[j];
    var p := |s.published|;
    && s.cursors[j] == c.next - 1
    && c.next <= p <= c.next + |s.slots|
    && (!c.Waiting? ==> c.next < p)
    && (Cleared(s.pc) ==> p + 1 <= c.next + |s.slots|)
    && (s.pc.Scanning? && j < s.pc.i ==> s.pc.min.Some? && s.pc.min.value <= s.cursors[j])
    && s.seen[j] == s.published[..if c.HasRead? then c.next + 1 else c.next]
  }

  ghost predicate SlotOk<T>(s: State<T>, k: nat)
    requires Shape(s) && k < |s.published|
  {
    (s.pc.Assigning? || s.pc.Committing? ==> k + |s.slots| != |s.published|) ==> At(s, k) == Some(s.published[k])
  }

  ghost predicate Inv<T>(s: State<T>) {
    && Shape(s)
    && s.producer == |s.published| - 1
    && (forall j: nat | j < |s.consumers| :: ConsumerOk(s, j))
    && (forall k: nat | k < |s.published| <= k + |s.slots| :: SlotOk(s, k))
    && (s.pc.Committing? ==> At(s, |s.published|) == Some(s.pc.event))
    && (s.pc.Scanning? ==> s.pc.i == |s.scan| <= |s.cursors| && IsLeast(s.pc.min, s.scan))
  }

  /** The least of the values loaded, or nothing. */
  predicate IsLeast(min: Option<int>, values: seq<int>) {
    if min.None? then values == [] else min.value in values && forall v | v in values :: min.value <= v
  }

  lemma InitInv<T>(n: nat, consumers: nat)
    requires n >= 2
    ensures Inv(Init<T>(n, consumers))
  {}

  lemma WriteKeepsInv<T>(s: State<T>)
    requires Inv(s) && (s.pc.Writing? || s.pc.Assigning?)
    ensures Inv(StepProducer(s))
  {
    var n, p := |s.slots|, |s.published|;
    var s' := StepProducer(s);
    forall k: nat | k < p <= k + n ensures SlotOk(s', k) {
      assert SlotOk(s, k);
      if k + n != p { Distinct(k, p, n); }
    }
    forall j: nat | j < |s.consumers| ensures ConsumerOk(s', j) { assert ConsumerOk(s, j); }
  }

  lemma CommitKeepsInv<T>(s: State<T>)
    requires Inv(s) && s.pc.Committing?
    ensures Inv(StepProducer(s))
  {
    var s' := StepProducer(s);
    forall k: nat | k < |s'.published| <= k + |s'.slots| ensures SlotOk(s', k) {
      if k < |s.published| { assert SlotOk(s, k); }
    }
    forall j: nat | j < |s.consumers| ensures ConsumerOk(s', j) { assert ConsumerOk(s, j); }
  }

  lemma ScanKeepsInv<T>(s: State<T>)
    requires Inv(s) && s.pc.Scanning?
    ensures Inv(StepProducer(s))
  {
    var s' := StepProducer(s);
    forall k: nat | k < |s'.published| <= k + |s'.slots| ensures SlotOk(s', k) { assert SlotOk(s, k); }
    forall j: nat | j < |s.consumers| ensures ConsumerOk(s', j) { assert ConsumerOk(s, j); }
  }

  /** A consumer's next slot is intact whenever it holds a reference into it. */
  lemma HeldSlotIntact<T>(s: State<T>, j: nat)
    requires Inv(s) && j < |s.consumers| && !s.consumers[j].Waiting?
    ensures var next := s.consumers[j].next;
      next < |s.published| && At(s, next) == Some(s.published[next])
      && (Cleared(s.pc) ==> SlotIndex(next, |s.slots|) != SlotIndex(|s.published|, |s.slots|))
  {
    var next, n, p := s.consumers[j].next, |s.slots|, |s.published|;
    assert ConsumerOk(s, j);
    assert SlotOk(s, next);
    if Cleared(s.pc) { Distinct(next, p, n); }
  }

  lemma ConsumerKeepsInv<T>(s: State<T>, j: nat)
    requires Inv(s) && j < |s.consumers|
    ensures Inv(StepConsumer(s, j))
  {
    var s' := StepConsumer(s, j);
    assert ConsumerOk(s, j);
    if s.consumers[j].Holding? { HeldSlotIntact(s, j); }
    forall k: nat | k < |s'.published| <= k + |s'.slots| ensures SlotOk(s', k) { assert SlotOk(s, k); }
    forall i: nat | i < |s.consumers| ensures ConsumerOk(s', i) { assert ConsumerOk(s, i); }
  }

  lemma StepKeepsInv<T>(s: State<T>, a: Action<T>)
    requires Inv(s) && Enabled(s, a)
    ensures Inv(Step(s, a))
  {
    match a
    case Publish(event) =>
      var s' := Step(s, a);
      forall k: nat | k < |s'.published| <= k + |s'.slots| ensures SlotOk(s', k) { assert SlotOk(s, k); }
      forall j: nat | j < |s.consumers| ensures ConsumerOk(s', j) { assert ConsumerOk(s, j); }
    case ProducerStep =>
      if s.pc.Scanning? { ScanKeepsInv(s); }
      else if s.pc.Committing? { CommitKeepsInv(s); }
      else { WriteKeepsInv(s); }
    case ConsumerStep(j) => ConsumerKeepsInv(s, j);
  }

  // ---------------------------------------------------------------- whole executions

  ghost predicate IsExecution<T>(n: nat, consumers: nat, run: seq<State<T>>, actions: seq<Action<T>>) {
    && n >= 2
    && |run| == |actions| + 1
    && run[0] == Init(n, consumers)
    && forall i: nat | i < |actions| :: Shape(run[i]) && Enabled(run[i], actions[i]) && run[i + 1] == Step(run[i], actions[i])
  }

  lemma {:induction false} ExecutionKeepsInv<T>(n: nat, consumers: nat, run: seq<State<T>>, actions: seq<Action<T>>, i: nat)
    requires IsExecution(n, consumers, run, actions) && i < |run|
    ensures Inv(run[i]) && |run[i].slots| == n && |run[i].consumers| == consumers
  {
    if i > 0 {
      ExecutionKeepsInv(n, consumers, run, actions, i - 1);
      StepKeepsInv(run[i - 1], actions[i - 1]);
    } else {
      InitInv<T>(n, consumers);
    }
  }

  /** What the producer was asked to publish up to step i, in order. */
  ghost function Asked<T>(actions: seq<Action<T>>): seq<T> {
    if actions == [] then []
    else
      var last := actions[|actions| - 1];
      Asked(actions[..|actions| - 1]) + (if last.Publish? then [last.event] else [])
  }

  ghost function InProgress<T>(pc: Producer<T>): seq<T> {
    if pc.Idle? then [] else [pc.event]
  }

  /** Nothing is published but what was asked, in the order asked. */
  lemma {:induction false} PublishedIsAsked<T>(n: nat, consumers: nat, run: seq<State<T>>, actions: seq<Action<T>>, i: nat)
    requires IsExecution(n, consumers, run, actions) && i < |run|
    ensures run[i].published + InProgress(run[i].pc) == Asked(actions[..i])
  {
    if i > 0 {
      PublishedIsAsked(n, consumers, run, actions, i - 1);
      ExecutionKeepsInv(n, consumers, run, actions, i - 1);
      assert actions[..i][..i - 1] == actions[..i - 1];
    }
  }

  /**
   * Fan-out: in every reachable state each consumer has read exactly the first events published, in
   * order, none skipped, none overwritten before it was read, and is at most a ring behind.
   */
  lemma EveryConsumerSeesEveryEvent<T>(n: nat, consumers: nat, run: seq<State<T>>, actions: seq<Action<T>>, i: nat, j: nat)
    requires IsExecution(n, consumers, run, actions) && i < |run| && j < consumers
    ensures Inv(run[i]) && |run[i].consumers| == consumers
    ensures run[i].seen[j] <= run[i].published <= Asked(actions[..i])
    ensures |run[i].seen[j]| >= run[i].consumers[j].next && |run[i].published| <= |run[i].seen[j]| + n
  {
    ExecutionKeepsInv(n, consumers, run, actions, i);
    PublishedIsAsked(n, consumers, run, actions, i);
    assert ConsumerOk(run[i], j);
  }

  // ---------------------------------------------------------------- progress

  /** A consumer whose next step changes the state. */
  ghost predicate CanStep<T>(s: State<T>, j: nat)
    requires Shape(s)
  {
    j < |s.consumers| && StepConsumer(s, j) != s
  }

  /** One of these cursors leaves no room for the next event. */
  ghost predicate NoRoom<T>(s: State<T>, cursors: seq<int>) {
    exists j: nat :: j < |cursors| && s.producer + 1 - cursors[j] > |s.slots|
  }

  /** A scan made now, with no cursor moving, would send the producer round again. */
  ghost predicate WouldStall<T>(s: State<T>) {
    NoRoom(s, s.cursors)
  }

  /** No deadlock: whoever makes the producer wait can take a step, and never waits for anyone itself. */
  lemma StalledProducerHasAConsumerToRun<T>(s: State<T>)
    requires Inv(s) && WouldStall(s)
    ensures exists j: nat :: CanStep(s, j) && s.producer + 1 - s.cursors[j] > |s.slots|
  {
    var j: nat :| j < |s.cursors| && s.producer + 1 - s.cursors[j] > |s.slots|;
    assert ConsumerOk(s, j);
    if s.consumers[j].Holding? { HeldSlotIntact(s, j); }
    assert StepConsumer(s, j).consumers[j] != s.consumers[j];
    assert CanStep(s, j);
  }

  /** What a consumer still has to do: three steps for every event it has not finished. */
  function Behind(c: Consumer, published: nat): int {
    3 * (published - c.next) - (if c.Waiting? then 0 else if c.Holding? then 1 else 2)
  }

  /** Every step a consumer can take brings it one closer to having nothing left; then it can take none. */
  lemma ConsumerProgress<T>(s: State<T>, j: nat)
    requires Inv(s) && j < |s.consumers|
    ensures Behind(s.consumers[j], |s.published|) >= 0
    ensures CanStep(s, j) <==> Behind(s.consumers[j], |s.published|) > 0
    ensures CanStep(s, j) ==> Behind(StepConsumer(s, j).consumers[j], |s.published|) == Behind(s.consumers[j], |s.published|) - 1
  {
    assert ConsumerOk(s, j);
    if s.consumers[j].Holding? { HeldSlotIntact(s, j); }
    assert StepConsumer(s, j) == s || StepConsumer(s, j).consumers[j] != s.consumers[j];
  }

  /** The cursors were read one by one while they moved; the producer still goes on only when all have made room. */
  lemma WaitEndsOnlyWithRoom<T>(s: State<T>, j: nat)
    requires Inv(s) && s.pc.Scanning? && StepProducer(s).pc.Writing? && j < |s.cursors|
    ensures s.producer + 1 - s.cursors[j] <= |s.slots|
  {
    assert ConsumerOk(s, j);
  }

  /**
   * The wait, decided by the values loaded alone: the scan done, the producer goes on to write exactly when
   * every one of them leaves room, and starts another scan otherwise.
   */
  lemma WaitEndsIff<T>(s: State<T>)
    requires Inv(s) && s.pc.Scanning? && |s.scan| == |s.cursors|
    ensures StepProducer(s).pc == if NoRoom(s, s.scan) then Scanning(s.pc.event, 0, None) else Writing(s.pc.event)
  {
    var next, min := s.producer + 1, s.pc.min;
    if NoRoom(s, s.scan) {
      var j: nat :| j < |s.scan| && next - s.scan[j] > |s.slots|;
      assert s.scan[j] in s.scan;
    } else if min.Some? {
      var j :| 0 <= j < |s.scan| && s.scan[j] == min.value;
      assert next - s.scan[j] <= |s.slots|;
    }
  }

  /** Steps of its own the producer takes to publish while no cursor moves: one scan more if it loaded stale ones. */
  ghost function PublishLeft<T>(s: State<T>): int {
    match s.pc
    case Idle => 0
    case Scanning(_, i, _) => |s.cursors| - i + 4 + (if NoRoom(s, s.scan) then |s.cursors| + 1 else 0)
    case Writing(_) => 3
    case Assigning(_) => 2
    case Committing(_) => 1
  }

  /**
   * With room at every consumer, each step the producer takes alone brings it one closer to having published,
   * at most two scans and five steps away; a scan begun now is the only one it needs.
   */
  lemma ProducerProgress<T>(s: State<T>)
    requires Inv(s) && !s.pc.Idle? && (s.pc.Scanning? ==> !WouldStall(s))
    ensures var s' := StepProducer(s);
      && Inv(s') && s'.cursors == s.cursors && (s'.pc.Scanning? ==> !WouldStall(s'))
      && 1 <= PublishLeft(s) <= 2 * |s.cursors| + 5 && PublishLeft(s') == PublishLeft(s) - 1
      && (s.pc.Scanning? && s.scan == [] ==> PublishLeft(s) == |s.cursors| + 4)
      && (if s'.pc.Idle? then s'.published == s.published + [s.pc.event]
          else s'.pc.event == s.pc.event && s'.published == s.published)
  {
    StepKeepsInv(s, ProducerStep);
    hide Inv;
    if s.pc.Scanning? { ScanProgress(s); }
  }

  lemma ScanProgress<T>(s: State<T>)
    requires Inv(s) && s.pc.Scanning? && !WouldStall(s)
    ensures PublishLeft(StepProducer(s)) == PublishLeft(s) - 1 && |s.scan| == s.pc.i <= |s.cursors|
    ensures s.scan == [] ==> !NoRoom(s, s.scan)
  {
    var s' := StepProducer(s);
    if |s.scan| == |s.cursors| {
      WaitEndsIff(s);
    } else {
      assert s'.scan[..|s.scan|] == s.scan && s'.scan[|s.scan|] == s.cursors[|s.scan|];
      if NoRoom(s, s.scan) {
        var j: nat :| j < |s.scan| && s.producer + 1 - s.scan[j] > |s.slots|;
        assert s'.scan[j] == s.scan[j];
        assert NoRoom(s', s'.scan);
      }
      if NoRoom(s', s'.scan) {
        var j: nat :| j < |s'.scan| && s'.producer + 1 - s'.scan[j] > |s'.slots|;
        if j < |s.scan| { assert s'.scan[j] == s.scan[j]; }
      }
    }
  }

  /** k steps of the producer in a row, nobody else moving, until it has published. */
  ghost function ProducerAlone<T>(s: State<T>, k: nat): (r: State<T>)
    requires Inv(s) && (s.pc.Scanning? ==> !WouldStall(s))
    decreases k
  {
    if k == 0 || s.pc.Idle? then s else
      ProducerProgress(s);
      ProducerAlone(StepProducer(s), k - 1)
  }

  /** Left alone with room at every consumer, `publish` returns after exactly the steps it has left, its event published. */
  lemma {:induction false} PublishReturns<T>(s: State<T>, k: nat)
    requires Inv(s) && !s.pc.Idle? && (s.pc.Scanning? ==> !WouldStall(s))
    ensures ProducerAlone(s, k).pc.Idle? <==> k >= PublishLeft(s)
    ensures k >= PublishLeft(s) ==> ProducerAlone(s, k).published == s.published + [s.pc.event]
    decreases k
  {
    ProducerProgress(s);
    hide StepProducer;
    hide Inv;
    if k > 0 && !StepProducer(s).pc.Idle? { PublishReturns(StepProducer(s), k - 1); }
  }

  /** Without room at some consumer it scans on, step after step: it publishes exactly when there is room. */
  lemma ProducerWaits<T>(s: State<T>)
    requires Inv(s) && s.pc.Scanning? && WouldStall(s)
    ensures var s' := StepProducer(s); Inv(s') && s'.pc.Scanning? && s'.pc.event == s.pc.event && WouldStall(s')
  {
    var j: nat :| j < |s.cursors| && s.producer + 1 - s.cursors[j] > |s.slots|;
    StepKeepsInv(s, ProducerStep);
    if StepProducer(s).pc.Writing? { WaitEndsOnlyWithRoom(s, j); }
    assert StepProducer(s).cursors[j] == s.cursors[j];
  }

  /** The scan itself: the least cursor, or nothing without consumers. */
  method MinConsumerSeq(cursors: seq<int>) returns (min: Option<int>)
    ensures min.None? <==> cursors == []
    ensures min.Some? ==> min.value in cursors && forall j | 0 <= j < |cursors| :: min.value <= cursors[j]
  {
    min := None;
    for i := 0 to |cursors|
      invariant min.None? <==> i == 0
      invariant min.Some? ==> min.value in cursors[..i] && forall j | 0 <= j < i :: min.value <= cursors[j]
    {
      min := Lower(min, cursors[i]);
      assert cursors[..i + 1] == cursors[..i] + [cursors[i]];
    }
  }

  // ---------------------------------------------------------------- subscribing late

  ghost function Subscribe<T>(s: State<T>): State<T> {
    s.(cursors := s.cursors + [-1], consumers := s.consumers + [Waiting(0)], seen := s.seen + [[]])
  }

  /**
   * Subscribing between two publishes is safe exactly while no slot has been reused: a later
   * subscriber would find its event 0 already overwritten.
   */
  lemma LateSubscriptionSafeIff<T>(s: State<T>)
    requires Inv(s) && s.pc.Idle?
    ensures Inv(Subscribe(s)) <==> |s.published| <= |s.slots|
  {
    var s' := Subscribe(s);
    if |s.published| <= |s.slots| {
      forall k: nat | k < |s'.published| <= k + |s'.slots| ensures SlotOk(s', k) { assert SlotOk(s, k); }
      forall i: nat | i < |s'.consumers| ensures ConsumerOk(s', i) {
        if i < |s.consumers| { assert ConsumerOk(s, i); }
      }
    } else {
      assert !(Shape(s') && ConsumerOk(s', |s.consumers|));
    }
  }

  /** The event a subscriber joining after N publishes would read as its event 0. */
  lemma LateSubscriberReadsLaterEvent<T>(s: State<T>) returns (k: nat)
    requires Inv(s) && s.pc.Idle? && |s.published| > |s.slots|
    ensures 0 < k < |s.published| && At(Subscribe(s), 0) == Some(s.published[k])
  {
    var n := |s.slots|;
    k := WindowHas(0, |s.published| - n, n);
    assert SlotOk(s, k);
  }
}
