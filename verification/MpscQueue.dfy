/**
 * The multi-producer single-consumer ring under the thread pool, as a step machine. Producers claim
 * by CAS exactly as in the multi-consumer ring; the one consumer owns its counter, releases the slot
 * first and advances the counter one store later. `claims`, `taken` and `holders` are history.
 */
module MpscQueue {
  import opened Wrappers
  import opened Ring
  import opened MpmcQueue

  /** Where the consumer stands in `try_pop`; `Resting` is outside it, with the last result. */
  datatype Consumer<T> =
    | Resting(last: Option<T>)
    | TakeLoad
    | TakeCheck(pos: nat)
    | TakeMove(pos: nat)
    | TakeDestroy(pos: nat, v: T)
    | TakeRelease(pos: nat, v: T)
    | TakeAdvance(pos: nat, v: T)

  datatype Mpsc<T> = Mpsc(
    head: nat,
    tail: nat,
    slots: seq<Slot<T>>,
    producers: seq<Pc<T>>,
    consumer: Consumer<T>,
    claims: seq<T>,
    taken: seq<T>,
    holders: seq<Option<nat>>)

  ghost predicate QueueShape<T>(s: Mpsc<T>) {
    |s.slots| >= 2 && |s.holders| == |s.slots| && |s.claims| == s.head
  }

  function SlotAt<T>(s: Mpsc<T>, pos: nat): Slot<T>
    requires |s.slots| >= 2
  {
    s.slots[SlotIndex(pos, |s.slots|)]
  }

  function HolderAt<T>(s: Mpsc<T>, pos: nat): Option<nat>
    requires |s.slots| >= 2 && |s.holders| == |s.slots|
  {
    s.holders[SlotIndex(pos, |s.slots|)]
  }

  function InitQueue<T>(n: nat, producers: nat): Mpsc<T>
    requires n >= 2
  {
    Mpsc(0, 0, seq(n, i requires 0 <= i => Slot(i, None)), seq(producers, i => Ready(Fresh)), Resting(None),
         [], [], seq(n, i => None))
  }

  function MoveTo<T>(s: Mpsc<T>, t: nat, pc: Pc<T>): Mpsc<T>
    requires t < |s.producers|
  {
    s.(producers := s.producers[t := pc])
  }

  function WithSlot<T>(s: Mpsc<T>, pos: nat, slot: Slot<T>): Mpsc<T>
    requires |s.slots| >= 2
  {
    s.(slots := s.slots[SlotIndex(pos, |s.slots|) := slot])
  }

  function WithHolder<T>(s: Mpsc<T>, pos: nat, h: Option<nat>): Mpsc<T>
    requires |s.slots| >= 2 && |s.holders| == |s.slots|
  {
    s.(holders := s.holders[SlotIndex(pos, |s.slots|) := h])
  }

  /** One step of producer `t`, which only ever pushes. */
  ghost function ProducerStep<T>(s: Mpsc<T>, t: nat, c: Choice<T>): Mpsc<T>
    requires QueueShape(s) && t < |s.producers|
  {
    match s.producers[t]
    case Ready(_) => (match c case CallPush(v) => MoveTo(s, t, PushLoad(v)) case _ => s)
    case PushLoad(v) => MoveTo(s, t, PushCheck(v, s.head))
    case PushCheck(v, pos) =>
      var diff := SlotAt(s, pos).seqNo - pos;
      MoveTo(s, t, if diff == 0 then PushCas(v, pos) else if diff < 0 then Ready(PushFull) else PushLoad(v))
    case PushCas(v, pos) =>
      if s.head == pos && !c.SpuriousFail? then
        MoveTo(WithHolder(s.(head := pos + 1, claims := s.claims + [v]), pos, Some(t)), t, PushConstruct(v, pos))
      else
        MoveTo(s, t, PushCheck(v, s.head))
    case PushConstruct(v, pos) =>
      MoveTo(WithSlot(s, pos, SlotAt(s, pos).(storage := Some(v))), t, PushPublish(v, pos))
    case PushPublish(v, pos) =>
      MoveTo(WithHolder(WithSlot(s, pos, SlotAt(s, pos).(seqNo := pos + 1)), pos, None), t, Ready(Pushed(pos, v)))
    case _ => s
  }

  /** One step of the consumer; from `Resting` it enters `try_pop`. */
  ghost function ConsumerStep<T>(s: Mpsc<T>): Mpsc<T>
    requires QueueShape(s)
  {
    match s.consumer
    case Resting(_) => s.(consumer := TakeLoad)
    case TakeLoad => s.(consumer := TakeCheck(s.tail))
    case TakeCheck(pos) =>
      s.(consumer := if SlotAt(s, pos).seqNo == pos + 1 then TakeMove(pos) else Resting(None))
    case TakeMove(pos) =>
      (match SlotAt(s, pos).storage
       case Some(v) => s.(consumer := TakeDestroy(pos, v), taken := s.taken + [v])
       case None => s)
    case TakeDestroy(pos, v) =>
      WithSlot(s, pos, SlotAt(s, pos).(storage := None)).(consumer := TakeRelease(pos, v))
    case TakeRelease(pos, v) =>
      WithSlot(s, pos, SlotAt(s, pos).(seqNo := pos + |s.slots|)).(consumer := TakeAdvance(pos, v))
    case TakeAdvance(pos, v) =>
      s.(tail := pos + 1, consumer := Resting(Some(v)))
  }

  // ---------------------------------------------------------------- invariant

  /** Positions released to the producers: the counter lags one store behind the slot. */
  function Released<T>(s: Mpsc<T>): nat {
    if s.consumer.TakeAdvance? then s.tail + 1 else s.tail
  }

  /** The value moved out of the queue but not yet returned by `try_pop`. */
  function InHand<T>(c: Consumer<T>): seq<T> {
    match c
    case TakeDestroy(_, v) => [v]
    case TakeRelease(_, v) => [v]
    case TakeAdvance(_, v) => [v]
    case _ => []
  }

  ghost predicate PositionFine<T>(s: Mpsc<T>, q: nat)
    requires QueueShape(s)
  {
    match HolderAt(s, q)
    case None =>
      if q >= s.head then SlotAt(s, q) == Slot(q, None)
      else SlotAt(s, q) == Slot(q + 1, if q == s.tail && s.consumer.TakeRelease? then None else Some(s.claims[q]))
    case Some(t) => t < |s.producers| && q < s.head && Pushing(s.producers[t], q)
  }

  ghost predicate ProducerFine<T>(s: Mpsc<T>, t: nat)
    requires QueueShape(s) && t < |s.producers|
  {
    match s.producers[t]
    case Ready(Pushed(pos, v)) => pos < s.head && s.claims[pos] == v
    case Ready(_) => true
    case PushLoad(v) => true
    case PushCheck(v, pos) => pos <= s.head
    case PushCas(v, pos) => pos <= s.head && (pos == s.head ==> pos < Released(s) + |s.slots| && SlotAt(s, pos).seqNo == pos)
    case PushConstruct(v, pos) =>
      Released(s) <= pos < s.head && HolderAt(s, pos) == Some(t) && SlotAt(s, pos) == Slot(pos, None) && s.claims[pos] == v
    case PushPublish(v, pos) =>
      Released(s) <= pos < s.head && HolderAt(s, pos) == Some(t) && SlotAt(s, pos) == Slot(pos, Some(v)) && s.claims[pos] == v
    case _ => false
  }

  ghost predicate ConsumerFine<T>(s: Mpsc<T>)
    requires QueueShape(s)
  {
    match s.consumer
    case Resting(Some(v)) => s.tail > 0 && s.tail <= s.head && s.claims[s.tail - 1] == v
    case Resting(None) => true
    case TakeLoad => true
    case TakeCheck(pos) => pos == s.tail
    case TakeMove(pos) => pos == s.tail < s.head && HolderAt(s, pos) == None && SlotAt(s, pos) == Slot(pos + 1, Some(s.claims[pos]))
    case TakeDestroy(pos, v) => pos == s.tail < s.head && HolderAt(s, pos) == None && SlotAt(s, pos) == Slot(pos + 1, Some(v)) && s.claims[pos] == v
    case TakeRelease(pos, v) => pos == s.tail < s.head && HolderAt(s, pos) == None && SlotAt(s, pos) == Slot(pos + 1, None) && s.claims[pos] == v
    case TakeAdvance(pos, v) => pos == s.tail < s.head && s.claims[pos] == v
  }

  ghost predicate QueueInv<T>(s: Mpsc<T>) {
    && QueueShape(s)
    && Released(s) <= s.head <= Released(s) + |s.slots|
    && (forall q: nat | Released(s) <= q < Released(s) + |s.slots| :: PositionFine(s, q))
    && (forall t: nat | t < |s.producers| :: ProducerFine(s, t))
    && ConsumerFine(s)
    && |s.taken| == s.tail + |InHand(s.consumer)|
    && s.taken <= s.claims
  }

  lemma InitQueueInv<T>(n: nat, producers: nat)
    requires n >= 2
    ensures QueueInv(InitQueue<T>(n, producers))
  {}

  lemma MoveKeepsQueueInv<T>(s: Mpsc<T>, t: nat, pc: Pc<T>)
    requires QueueInv(s) && t < |s.producers|
    requires ProducerFine(MoveTo(s, t, pc), t)
    requires forall q: nat :: !Pushing(s.producers[t], q)
    ensures QueueInv(MoveTo(s, t, pc))
  {
    var s' := MoveTo(s, t, pc);
    forall u: nat | u < |s'.producers| ensures ProducerFine(s', u) {
      if u != t { assert ProducerFine(s, u); }
    }
    forall q: nat | Released(s) <= q < Released(s) + |s.slots| ensures PositionFine(s', q) {
      assert PositionFine(s, q);
    }
  }

  /** A full window's first slot has not been released for its next lap. */
  lemma FullQueueIsBehind<T>(s: Mpsc<T>)
    requires QueueInv(s) && s.head == Released(s) + |s.slots|
    ensures SlotAt(s, Released(s)).seqNo <= Released(s) + 1
  {
    assert PositionFine(s, Released(s));
    var h := HolderAt(s, Released(s));
    assert h.Some? ==> ProducerFine(s, h.value);
  }

  lemma ClaimKeepsQueueInv<T>(s: Mpsc<T>, t: nat, v: T, pos: nat)
    requires QueueInv(s) && t < |s.producers| && s.producers[t] == PushCas(v, pos) && pos == s.head
    ensures QueueInv(ProducerStep(s, t, Proceed))
  {
    hide SlotIndex;
    var n := |s.slots|;
    assert ProducerFine(s, t);
    assert PositionFine(s, pos);
    var s' := ProducerStep(s, t, Proceed);
    assert forall p: nat | p < s.head :: s'.claims[p] == s.claims[p];
    forall q: nat | Released(s) <= q < Released(s) + n ensures PositionFine(s', q) {
      assert PositionFine(s, q);
      if q < pos { Distinct(q, pos, n); } else if q > pos { Distinct(pos, q, n); }
    }
    forall u: nat | u < |s'.producers| ensures ProducerFine(s', u) {
      if u != t { assert ProducerFine(s, u); }
    }
    if s.consumer.TakeMove? || s.consumer.TakeDestroy? || s.consumer.TakeRelease? { Distinct(s.tail, pos, n); }
  }

  lemma WriteKeepsQueueInv<T>(s: Mpsc<T>, t: nat, v: T, pos: nat)
    requires QueueInv(s) && t < |s.producers|
    requires s.producers[t] == PushConstruct(v, pos) || s.producers[t] == PushPublish(v, pos)
    ensures QueueInv(ProducerStep(s, t, Proceed))
  {
    hide SlotIndex;
    var n := |s.slots|;
    assert ProducerFine(s, t);
    var s' := ProducerStep(s, t, Proceed);
    forall q: nat | Released(s) <= q < Released(s) + n ensures PositionFine(s', q) {
      assert PositionFine(s, q);
      if q < pos { Distinct(q, pos, n); } else if q > pos { Distinct(pos, q, n); }
    }
    forall u: nat | u < |s'.producers| ensures ProducerFine(s', u) {
      if u != t { assert ProducerFine(s, u); }
    }
  }

  lemma ProducerStepKeepsInv<T>(s: Mpsc<T>, t: nat, c: Choice<T>)
    requires QueueInv(s) && t < |s.producers|
    ensures QueueInv(ProducerStep(s, t, c))
  {
    assert ProducerFine(s, t);
    match s.producers[t]
    case Ready(_) => if c.CallPush? { MoveKeepsQueueInv(s, t, PushLoad(c.v)); }
    case PushLoad(v) => MoveKeepsQueueInv(s, t, PushCheck(v, s.head));
    case PushCheck(v, pos) =>
      if SlotAt(s, pos).seqNo == pos {
        if pos == s.head == Released(s) + |s.slots| {
          Lap(Released(s), |s.slots|);
          FullQueueIsBehind(s);
        }
        MoveKeepsQueueInv(s, t, PushCas(v, pos));
      } else if SlotAt(s, pos).seqNo < pos {
        MoveKeepsQueueInv(s, t, Ready(PushFull));
      } else {
        MoveKeepsQueueInv(s, t, PushLoad(v));
      }
    case PushCas(v, pos) =>
      if s.head == pos && !c.SpuriousFail? { ClaimKeepsQueueInv(s, t, v, pos); }
      else { MoveKeepsQueueInv(s, t, PushCheck(v, s.head)); }
    case PushConstruct(v, pos) => WriteKeepsQueueInv(s, t, v, pos);
    case PushPublish(v, pos) => WriteKeepsQueueInv(s, t, v, pos);
    case _ =>
  }

  lemma PublishedTail<T>(s: Mpsc<T>)
    requires QueueInv(s) && s.consumer == TakeCheck(s.tail) && SlotAt(s, s.tail).seqNo == s.tail + 1
    ensures s.tail < s.head && HolderAt(s, s.tail) == None && SlotAt(s, s.tail) == Slot(s.tail + 1, Some(s.claims[s.tail]))
  {
    assert PositionFine(s, s.tail);
    var h := HolderAt(s, s.tail);
    assert h.Some? ==> ProducerFine(s, h.value);
  }

  lemma ReleaseKeepsQueueInv<T>(s: Mpsc<T>)
    requires QueueInv(s) && s.consumer.TakeRelease?
    ensures QueueInv(ConsumerStep(s))
  {
    var n, pos := |s.slots|, s.tail;
    var s' := ConsumerStep(s);
    Lap(pos, n);
    forall q: nat | pos + 1 <= q < pos + 1 + n ensures PositionFine(s', q) {
      if q < pos + n {
        assert PositionFine(s, q);
        Distinct(pos, q, n);
      }
    }
    forall t: nat | t < |s'.producers| ensures ProducerFine(s', t) {
      assert ProducerFine(s, t);
      if s.producers[t].PushCas? && s.head > 0 { Distinct(s.head - 1, s.head, n); }
    }
  }

  lemma DestroyKeepsQueueInv<T>(s: Mpsc<T>)
    requires QueueInv(s) && s.consumer.TakeDestroy?
    ensures QueueInv(ConsumerStep(s))
  {
    var n, pos := |s.slots|, s.tail;
    var s' := ConsumerStep(s);
    forall q: nat | pos <= q < pos + n ensures PositionFine(s', q) {
      assert PositionFine(s, q);
      if q > pos { Distinct(pos, q, n); }
    }
    forall t: nat | t < |s'.producers| ensures ProducerFine(s', t) { assert ProducerFine(s, t); }
  }

  /** Consumer steps that touch no slot. */
  lemma RestKeepsQueueInv<T>(s: Mpsc<T>, s': Mpsc<T>)
    requires QueueInv(s)
    requires s' == s.(consumer := s'.consumer, taken := s'.taken, tail := s'.tail)
    requires Released(s') == Released(s) && ConsumerFine(s')
    requires !s.consumer.TakeRelease? && !s'.consumer.TakeRelease?
    requires |s'.taken| == s'.tail + |InHand(s'.consumer)| && s'.taken <= s'.claims
    ensures QueueInv(s')
  {
    forall q: nat | Released(s') <= q < Released(s') + |s'.slots| ensures PositionFine(s', q) {
      assert PositionFine(s, q);
    }
    forall t: nat | t < |s'.producers| ensures ProducerFine(s', t) { assert ProducerFine(s, t); }
  }

  lemma ConsumerStepKeepsInv<T>(s: Mpsc<T>)
    requires QueueInv(s)
    ensures QueueInv(ConsumerStep(s))
  {
    hide SlotIndex;
    match s.consumer
    case TakeDestroy(_, _) => DestroyKeepsQueueInv(s);
    case TakeRelease(_, _) => ReleaseKeepsQueueInv(s);
    case TakeCheck(pos) =>
      if SlotAt(s, pos).seqNo == pos + 1 { PublishedTail(s); }
      RestKeepsQueueInv(s, ConsumerStep(s));
    case _ => RestKeepsQueueInv(s, ConsumerStep(s));
  }

  // ---------------------------------------------------------------- what a pool sees of its queue

  ghost predicate PushInFlight<T>(s: Mpsc<T>, q: nat) {
    exists t: nat :: t < |s.producers| && Pushing(s.producers[t], q)
  }

  /** `try_pop` comes back empty exactly when nothing is claimed or the oldest claim is unpublished. */
  lemma TakeRefusedIff<T>(s: Mpsc<T>)
    requires QueueInv(s) && s.consumer.TakeCheck?
    ensures ConsumerStep(s).consumer == Resting(None) <==> s.tail == s.head || PushInFlight(s, s.tail)
  {
    assert PositionFine(s, s.tail);
    var h := HolderAt(s, s.tail);
    assert h.Some? ==> ProducerFine(s, h.value);
    forall t: nat | t < |s.producers| && Pushing(s.producers[t], s.tail) ensures h == Some(t) {
      assert ProducerFine(s, t);
    }
  }

  /** A push is refused exactly at the head with the position one lap back not yet released. */
  lemma OfferRefusedIff<T>(s: Mpsc<T>, t: nat, v: T, pos: nat)
    requires QueueInv(s) && t < |s.producers| && s.producers[t] == PushCheck(v, pos)
    ensures ProducerStep(s, t, Proceed).producers[t] == Ready(PushFull) <==>
            pos == s.head == Released(s) + |s.slots|
  {
    var n := |s.slots|;
    assert ProducerFine(s, t);
    var q := WindowHas(SlotIndex(pos, n), Released(s), n);
    assert PositionFine(s, q);
    var h := HolderAt(s, q);
    assert h.Some? ==> ProducerFine(s, h.value);
    if q < pos {
      if pos < q + n { Distinct(q, pos, n); }
      Lap(Released(s), n);
    } else if pos < q < pos + n {
      Distinct(pos, q, n);
    }
  }

  // ---------------------------------------------------------------- every step of a call

  /** Inside `try_push` with value v. */
  ghost predicate Carries<T>(pc: Pc<T>, v: T) {
    (pc.PushLoad? || pc.PushCheck? || pc.PushCas? || pc.PushConstruct? || pc.PushPublish?) && pc.v == v
  }

  /** N elements are claimed and not yet released. */
  predicate RingFull<T>(s: Mpsc<T>) {
    s.head == Released(s) + |s.slots|
  }

  predicate OfferBlocked<T>(s: Mpsc<T>, pc: Pc<T>) {
    pc.PushCheck? && pc.pos == s.head && RingFull(s)
  }

  /** At the head itself the check never finds a later lap. */
  lemma OfferCheckAtHead<T>(s: Mpsc<T>)
    requires QueueInv(s)
    ensures SlotAt(s, s.head).seqNo <= s.head
    ensures SlotAt(s, s.head).seqNo < s.head <==> RingFull(s)
  {
    if RingFull(s) {
      Lap(Released(s), |s.slots|);
      FullQueueIsBehind(s);
    } else {
      assert PositionFine(s, s.head);
    }
  }

  /**
   * Whatever a producer inside a push does next: it gives up exactly when it reads the sequence of the head
   * of a full ring, returns success exactly by its publishing store, and goes on with its value otherwise;
   * it claims exactly by a CAS on the head, and tries again only after a spurious failure or when overtaken.
   */
  lemma OfferStep<T>(s: Mpsc<T>, t: nat, c: Choice<T>, v: T)
    requires QueueInv(s) && t < |s.producers| && Carries(s.producers[t], v)
    ensures |ProducerStep(s, t, c).producers| == |s.producers|
    ensures var pc, pc' := s.producers[t], ProducerStep(s, t, c).producers[t];
      && (pc' == Ready(PushFull) <==> OfferBlocked(s, pc))
      && (pc'.Ready? && pc'.last.Pushed? <==> pc.PushPublish?)
      && (pc.PushPublish? ==> pc' == Ready(Pushed(pc.pos, v)))
      && (pc'.Ready? ==> pc'.last.Pushed? || pc'.last.PushFull?)
      && (!pc'.Ready? ==> Carries(pc', v))
      && (pc'.PushConstruct? <==> pc.PushCas? && pc.pos == s.head && !c.SpuriousFail?)
      && ((pc.PushCas? && pc'.PushCheck?) || (pc.PushCheck? && pc'.PushLoad?) ==> c.SpuriousFail? || pc.pos < s.head)
  {
    hide SlotIndex;
    assert ProducerFine(s, t);
    var pc := s.producers[t];
    if pc.PushCheck? {
      OfferRefusedIff(s, t, v, pc.pos);
      OfferCheckAtHead(s);
    }
  }

  /**
   * Whatever the consumer inside a pop does next: it comes back empty exactly when it reads the sequence of
   * a tail with nothing published, comes back with an element exactly by advancing its counter, and stays
   * inside otherwise.
   */
  lemma TakeStep<T>(s: Mpsc<T>)
    requires QueueInv(s) && !s.consumer.Resting?
    ensures var c, c' := s.consumer, ConsumerStep(s).consumer;
      && (c' == Resting(None) <==> c.TakeCheck? && (s.tail == s.head || PushInFlight(s, s.tail)))
      && (c'.Resting? && c'.last.Some? <==> c.TakeAdvance?)
      && (c.TakeAdvance? ==> c' == Resting(Some(s.claims[s.tail])))
      && c' != c
  {
    if s.consumer.TakeCheck? { TakeRefusedIff(s); }
  }

  /** Steps of its own a producer needs to return while nobody else moves and no CAS fails spuriously. */
  ghost function OfferStepsLeft<T>(s: Mpsc<T>, t: nat): nat
    requires t < |s.producers|
  {
    var fromHead := if RingFull(s) then 1 else 4;
    match s.producers[t]
    case PushLoad(_) => 1 + fromHead
    case PushCheck(_, pos) => if pos == s.head then fromHead else 2 + fromHead
    case PushCas(_, pos) => if pos == s.head then 3 else 1 + fromHead
    case PushConstruct(_, _) => 2
    case PushPublish(_, _) => 1
    case _ => 0
  }

  /** Each step a producer takes alone brings it one closer to its return, at most six away. */
  lemma OfferProgress<T>(s: Mpsc<T>, t: nat, v: T)
    requires QueueInv(s) && t < |s.producers| && Carries(s.producers[t], v)
    ensures var s' := ProducerStep(s, t, Proceed);
      && QueueInv(s') && |s'.producers| == |s.producers|
      && 1 <= OfferStepsLeft(s, t) <= 6 && OfferStepsLeft(s', t) == OfferStepsLeft(s, t) - 1
  {
    hide SlotIndex;
    ProducerStepKeepsInv(s, t, Proceed);
    assert ProducerFine(s, t);
    OfferStep(s, t, Proceed, v);
    OfferCheckAtHead(s);
  }
}
