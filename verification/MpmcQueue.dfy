/**
 * The bounded multi-producer multi-consumer ring as a step machine: any number of threads
 * interleave at the grain of one atomic load, store or CAS, one construction, one move or one
 * destruction. `claims`, `takes` and `holders` are history: what was claimed for push, what was
 * moved out, and which thread is between its claim and its publishing store. No step reads them.
 */
module MpmcQueue {
  import opened Wrappers
  import opened Ring

  datatype Slot<T> = Slot(seqNo: nat, storage: Option<T>)

  datatype Outcome<T> =
    | Fresh
    | Pushed(pos: nat, v: T)
    | PushFull
    | Popped(pos: nat, v: T)
    | PopEmpty

  /** Where a thread stands in `try_push` or `try_pop`; `Ready` is outside both. */
  datatype Pc<T> =
    | Ready(last: Outcome<T>)
    | PushLoad(v: T)
    | PushCheck(v: T, pos: nat)
    | PushCas(v: T, pos: nat)
    | PushConstruct(v: T, pos: nat)
    | PushPublish(v: T, pos: nat)
    | PopLoad
    | PopCheck(pos: nat)
    | PopCas(pos: nat)
    | PopMove(pos: nat)
    | PopDestroy(pos: nat, v: T)
    | PopRelease(pos: nat, v: T)

  datatype State<T> = State(
    head: nat,
    tail: nat,
    slots: seq<Slot<T>>,
    threads: seq<Pc<T>>,
    claims: seq<T>,
    takes: seq<Option<T>>,
    holders: seq<Option<nat>>)

  /** What the scheduler decides: run on, fail a weak CAS for no reason, or start a call. */
  datatype Choice<T> = Proceed | SpuriousFail | CallPush(v: T) | CallPop

  ghost predicate Shape<T>(s: State<T>) {
    && |s.slots| >= 2
    && |s.holders| == |s.slots|
    && |s.claims| == s.head
    && |s.takes| == s.tail
  }

  function At<T>(s: State<T>, pos: nat): Slot<T>
    requires |s.slots| >= 2
  {
    s.slots[SlotIndex(pos, |s.slots|)]
  }

  function Holder<T>(s: State<T>, pos: nat): Option<nat>
    requires |s.slots| >= 2 && |s.holders| == |s.slots|
  {
    s.holders[SlotIndex(pos, |s.slots|)]
  }

  function Init<T>(n: nat, threads: nat): State<T>
    requires n >= 2
  {
    State(0, 0, seq(n, i requires 0 <= i => Slot(i, None)), seq(threads, i => Ready(Fresh)), [], [], seq(n, i => None))
  }

  function Goto<T>(s: State<T>, t: nat, pc: Pc<T>): State<T>
    requires t < |s.threads|
  {
    s.(threads := s.threads[t := pc])
  }

  function SetSlot<T>(s: State<T>, pos: nat, slot: Slot<T>): State<T>
    requires |s.slots| >= 2
  {
    s.(slots := s.slots[SlotIndex(pos, |s.slots|) := slot])
  }

  function SetHolder<T>(s: State<T>, pos: nat, h: Option<nat>): State<T>
    requires |s.slots| >= 2 && |s.holders| == |s.slots|
  {
    s.(holders := s.holders[SlotIndex(pos, |s.slots|) := h])
  }

  /** One step of thread `t`. */
  ghost function Step<T>(s: State<T>, t: nat, c: Choice<T>): State<T>
    requires Shape(s) && t < |s.threads|
  {
    match s.threads[t]
    case Ready(_) => StepReady(s, t, c)
    case PushLoad(v) => Goto(s, t, PushCheck(v, s.head))
    case PushCheck(v, pos) => StepPushCheck(s, t, v, pos)
    case PushCas(v, pos) => StepPushCas(s, t, v, pos, c)
    case PushConstruct(v, pos) => StepConstruct(s, t, v, pos)
    case PushPublish(v, pos) => StepPublish(s, t, v, pos)
    case PopLoad => Goto(s, t, PopCheck(s.tail))
    case PopCheck(pos) => StepPopCheck(s, t, pos)
    case PopCas(pos) => StepPopCas(s, t, pos, c)
    case PopMove(pos) => StepMove(s, t, pos)
    case PopDestroy(pos, v) => StepDestroy(s, t, pos, v)
    case PopRelease(pos, v) => StepRelease(s, t, pos, v)
  }

  ghost function StepReady<T>(s: State<T>, t: nat, c: Choice<T>): State<T>
    requires t < |s.threads|
  {
    match c
    case CallPush(v) => Goto(s, t, PushLoad(v))
    case CallPop => Goto(s, t, PopLoad)
    case _ => s
  }

  /** The signed difference seq - pos decides: claim, give up as full, or reload the position. */
  ghost function StepPushCheck<T>(s: State<T>, t: nat, v: T, pos: nat): State<T>
    requires Shape(s) && t < |s.threads|
  {
    var diff := At(s, pos).seqNo - pos;
    if diff == 0 then Goto(s, t, PushCas(v, pos))
    else if diff < 0 then Goto(s, t, Ready(PushFull))
    else Goto(s, t, PushLoad(v))
  }

  /** A failed CAS leaves the current head in `pos` and checks again. */
  ghost function StepPushCas<T>(s: State<T>, t: nat, v: T, pos: nat, c: Choice<T>): State<T>
    requires Shape(s) && t < |s.threads|
  {
    if s.head == pos && !c.SpuriousFail? then
      Goto(SetHolder(s.(head := pos + 1, claims := s.claims + [v]), pos, Some(t)), t, PushConstruct(v, pos))
    else
      Goto(s, t, PushCheck(v, s.head))
  }

  ghost function StepConstruct<T>(s: State<T>, t: nat, v: T, pos: nat): State<T>
    requires Shape(s) && t < |s.threads|
  {
    Goto(SetSlot(s, pos, At(s, pos).(storage := Some(v))), t, PushPublish(v, pos))
  }

  ghost function StepPublish<T>(s: State<T>, t: nat, v: T, pos: nat): State<T>
    requires Shape(s) && t < |s.threads|
  {
    Goto(SetHolder(SetSlot(s, pos, At(s, pos).(seqNo := pos + 1)), pos, None), t, Ready(Pushed(pos, v)))
  }

  ghost function StepPopCheck<T>(s: State<T>, t: nat, pos: nat): State<T>
    requires Shape(s) && t < |s.threads|
  {
    var diff := At(s, pos).seqNo - (pos + 1);
    if diff == 0 then Goto(s, t, PopCas(pos))
    else if diff < 0 then Goto(s, t, Ready(PopEmpty))
    else Goto(s, t, PopLoad)
  }

  ghost function StepPopCas<T>(s: State<T>, t: nat, pos: nat, c: Choice<T>): State<T>
    requires Shape(s) && t < |s.threads|
  {
    if s.tail == pos && !c.SpuriousFail? then
      Goto(SetHolder(s.(tail := pos + 1, takes := s.takes + [None]), pos, Some(t)), t, PopMove(pos))
    else
      Goto(s, t, PopCheck(s.tail))
  }

  /** Moving out of raw storage is undefined; the machine then makes no step. */
  ghost function StepMove<T>(s: State<T>, t: nat, pos: nat): State<T>
    requires Shape(s) && t < |s.threads|
  {
    match At(s, pos).storage
    case Some(v) =>
      var s1 := if pos < |s.takes| then s.(takes := s.takes[pos := Some(v)]) else s;
      Goto(s1, t, PopDestroy(pos, v))
    case None => s
  }

  ghost function StepDestroy<T>(s: State<T>, t: nat, pos: nat, v: T): State<T>
    requires Shape(s) && t < |s.threads|
  {
    Goto(SetSlot(s, pos, At(s, pos).(storage := None)), t, PopRelease(pos, v))
  }

  ghost function StepRelease<T>(s: State<T>, t: nat, pos: nat, v: T): State<T>
    requires Shape(s) && t < |s.threads|
  {
    Goto(SetHolder(SetSlot(s, pos, At(s, pos).(seqNo := pos + |s.slots|)), pos, None), t, Ready(Popped(pos, v)))
  }

  // ---------------------------------------------------------------- invariant

  predicate Pushing<T>(pc: Pc<T>, q: nat) {
    (pc.PushConstruct? || pc.PushPublish?) && pc.pos == q
  }

  predicate Popping<T>(pc: Pc<T>, q: nat) {
    (pc.PopMove? || pc.PopDestroy? || pc.PopRelease?) && pc.pos == q
  }

  /** The slot of position q, tail <= q < tail + N: free for q, full with q, or in somebody's hands. */
  ghost predicate PositionOk<T>(s: State<T>, q: nat)
    requires Shape(s)
  {
    match Holder(s, q)
    case None =>
      || (q >= s.head && At(s, q) == Slot(q, None))
      || (q < s.head && At(s, q) == Slot(q + 1, Some(s.claims[q])))
    case Some(t) =>
      && t < |s.threads|
      && (|| (q < s.head && Pushing(s.threads[t], q))
          || (q >= s.head && q >= |s.slots| && Popping(s.threads[t], q - |s.slots|)))
  }

  ghost predicate ThreadOk<T>(s: State<T>, t: nat)
    requires Shape(s) && t < |s.threads|
  {
    var n := |s.slots|;
    match s.threads[t]
    case Ready(Pushed(pos, v)) => pos < s.head && s.claims[pos] == v
    case Ready(Popped(pos, v)) => pos < s.tail <= s.head && s.takes[pos] == Some(v) && s.claims[pos] == v
    case Ready(_) => true
    case PushLoad(v) => true
    case PushCheck(v, pos) => pos <= s.head
    case PushCas(v, pos) => pos <= s.head && (pos == s.head ==> pos < s.tail + n && At(s, pos).seqNo == pos)
    case PushConstruct(v, pos) =>
      s.tail <= pos < s.head && Holder(s, pos) == Some(t) && At(s, pos) == Slot(pos, None) && s.claims[pos] == v
    case PushPublish(v, pos) =>
      s.tail <= pos < s.head && Holder(s, pos) == Some(t) && At(s, pos) == Slot(pos, Some(v)) && s.claims[pos] == v
    case PopLoad => true
    case PopCheck(pos) => pos <= s.tail
    case PopCas(pos) => pos <= s.tail && (pos == s.tail ==> pos < s.head && At(s, pos).seqNo == pos + 1)
    case PopMove(pos) =>
      && pos < s.tail <= pos + n && s.tail <= s.head
      && Holder(s, pos) == Some(t) && At(s, pos) == Slot(pos + 1, Some(s.claims[pos])) && s.takes[pos] == None
    case PopDestroy(pos, v) =>
      && pos < s.tail <= pos + n && s.tail <= s.head && s.claims[pos] == v
      && Holder(s, pos) == Some(t) && At(s, pos) == Slot(pos + 1, Some(v)) && s.takes[pos] == Some(v)
    case PopRelease(pos, v) =>
      && pos < s.tail <= pos + n && s.tail <= s.head && s.claims[pos] == v
      && Holder(s, pos) == Some(t) && At(s, pos) == Slot(pos + 1, None) && s.takes[pos] == Some(v)
  }

  /** A claimed pop either has moved out exactly what was pushed there, or its owner is about to. */
  ghost predicate TakeOk<T>(s: State<T>, p: nat)
    requires Shape(s) && p < s.tail <= s.head
  {
    || s.takes[p] == Some(s.claims[p])
    || (&& s.takes[p] == None
        && s.tail <= p + |s.slots|
        && Holder(s, p).Some? && Holder(s, p).value < |s.threads|
        && s.threads[Holder(s, p).value] == PopMove(p))
  }

  ghost predicate Inv<T>(s: State<T>) {
    && Shape(s)
    && s.tail <= s.head <= s.tail + |s.slots|
    && (forall q: nat | s.tail <= q < s.tail + |s.slots| :: PositionOk(s, q))
    && (forall t: nat | t < |s.threads| :: ThreadOk(s, t))
    && (forall p: nat | p < s.tail :: TakeOk(s, p))
  }

  lemma InitInv<T>(n: nat, threads: nat)
    requires n >= 2
    ensures Inv(Init<T>(n, threads))
  {}

  // ---------------------------------------------------------------- preservation, step by step

  /** Steps that only move thread t's program counter to one whose own condition holds. */
  lemma GotoKeepsInv<T>(s: State<T>, t: nat, pc: Pc<T>)
    requires Inv(s) && t < |s.threads|
    requires ThreadOk(Goto(s, t, pc), t)
    requires forall q: nat :: !Pushing(s.threads[t], q) && !Popping(s.threads[t], q)
    ensures Inv(Goto(s, t, pc))
  {
    var s' := Goto(s, t, pc);
    forall u: nat | u < |s'.threads| ensures ThreadOk(s', u) {
      if u != t { assert ThreadOk(s, u); }
    }
    forall q: nat | s.tail <= q < s.tail + |s.slots| ensures PositionOk(s', q) {
      assert PositionOk(s, q);
    }
    forall p: nat | p < s.tail ensures TakeOk(s', p) {
      assert TakeOk(s, p);
      if s.threads[t] == PopMove(p) { assert Popping(s.threads[t], p); }
    }
  }

  /** When every position of the window is claimed, the head's slot has not been released. */
  lemma FullRingIsBehind<T>(s: State<T>)
    requires Inv(s) && s.head == s.tail + |s.slots|
    ensures At(s, s.tail).seqNo <= s.tail + 1
  {
    assert PositionOk(s, s.tail);
    var h := Holder(s, s.tail);
    assert h.Some? ==> ThreadOk(s, h.value);
  }

  lemma PushCheckKeepsInv<T>(s: State<T>, t: nat, v: T, pos: nat)
    requires Inv(s) && t < |s.threads| && s.threads[t] == PushCheck(v, pos)
    ensures Inv(StepPushCheck(s, t, v, pos))
  {
    assert ThreadOk(s, t);
    var n := |s.slots|;
    if At(s, pos).seqNo == pos {
      if pos == s.head == s.tail + n {
        Lap(s.tail, n);
        FullRingIsBehind(s);
      }
      GotoKeepsInv(s, t, PushCas(v, pos));
    } else if At(s, pos).seqNo < pos {
      GotoKeepsInv(s, t, Ready(PushFull));
    } else {
      GotoKeepsInv(s, t, PushLoad(v));
    }
  }

  /** A position about to be claimed lies in a free, raw slot. */
  lemma ClaimableIsFree<T>(s: State<T>)
    requires Inv(s) && s.head < s.tail + |s.slots| && At(s, s.head).seqNo == s.head
    ensures Holder(s, s.head) == None && At(s, s.head) == Slot(s.head, None)
  {
    assert PositionOk(s, s.head);
    var h := Holder(s, s.head);
    if h.Some? { assert ThreadOk(s, h.value); Lap(s.head - |s.slots|, |s.slots|); }
  }

  lemma PushClaimKeepsInv<T>(s: State<T>, t: nat, v: T, pos: nat)
    requires Inv(s) && t < |s.threads| && s.threads[t] == PushCas(v, pos) && pos == s.head
    ensures Inv(StepPushCas(s, t, v, pos, Proceed))
  {
    hide SlotIndex;
    var n := |s.slots|;
    assert ThreadOk(s, t);
    ClaimableIsFree(s);
    var s' := StepPushCas(s, t, v, pos, Proceed);
    assert forall p: nat | p < s.head :: s'.claims[p] == s.claims[p];
    forall q: nat | s.tail <= q < s.tail + n ensures PositionOk(s', q) {
      assert PositionOk(s, q);
      if q < pos { Distinct(q, pos, n); } else if q > pos { Distinct(pos, q, n); }
    }
    forall u: nat | u < |s'.threads| ensures ThreadOk(s', u) {
      if u != t { assert ThreadOk(s, u); }
    }
    forall p: nat | p < s.tail ensures TakeOk(s', p) { assert TakeOk(s, p); }
  }

  lemma ConstructKeepsInv<T>(s: State<T>, t: nat, v: T, pos: nat)
    requires Inv(s) && t < |s.threads| && s.threads[t] == PushConstruct(v, pos)
    ensures Inv(StepConstruct(s, t, v, pos))
  {
    var n := |s.slots|;
    assert ThreadOk(s, t);
    var s' := StepConstruct(s, t, v, pos);
    forall q: nat | s.tail <= q < s.tail + n ensures PositionOk(s', q) {
      assert PositionOk(s, q);
      if q < pos { Distinct(q, pos, n); } else if q > pos { Distinct(pos, q, n); }
    }
    forall u: nat | u < |s'.threads| ensures ThreadOk(s', u) {
      if u != t { assert ThreadOk(s, u); }
    }
    forall p: nat | p < s.tail ensures TakeOk(s', p) { assert TakeOk(s, p); }
  }

  lemma PublishKeepsInv<T>(s: State<T>, t: nat, v: T, pos: nat)
    requires Inv(s) && t < |s.threads| && s.threads[t] == PushPublish(v, pos)
    ensures Inv(StepPublish(s, t, v, pos))
  {
    var n := |s.slots|;
    assert ThreadOk(s, t);
    var s' := StepPublish(s, t, v, pos);
    forall q: nat | s.tail <= q < s.tail + n ensures PositionOk(s', q) {
      assert PositionOk(s, q);
      if q < pos { Distinct(q, pos, n); } else if q > pos { Distinct(pos, q, n); }
    }
    forall u: nat | u < |s'.threads| ensures ThreadOk(s', u) {
      if u != t {
        assert ThreadOk(s, u);
        if s.threads[u].PopCas? { Distinct(s.tail, s.tail + 1, n); }
      }
    }
    forall p: nat | p < s.tail ensures TakeOk(s', p) { assert TakeOk(s, p); }
  }

  lemma PopCheckKeepsInv<T>(s: State<T>, t: nat, pos: nat)
    requires Inv(s) && t < |s.threads| && s.threads[t] == PopCheck(pos)
    ensures Inv(StepPopCheck(s, t, pos))
  {
    assert ThreadOk(s, t);
    if pos >= |s.slots| { Lap(pos - |s.slots|, |s.slots|); }
    if At(s, pos).seqNo == pos + 1 {
      if pos == s.tail {
        assert PositionOk(s, pos);
        assert Holder(s, pos).Some? ==> ThreadOk(s, Holder(s, pos).value);
      }
      GotoKeepsInv(s, t, PopCas(pos));
    } else if At(s, pos).seqNo < pos + 1 {
      GotoKeepsInv(s, t, Ready(PopEmpty));
    } else {
      GotoKeepsInv(s, t, PopLoad);
    }
  }

  /** A position about to be popped holds exactly the value claimed for it. */
  lemma PoppableIsFull<T>(s: State<T>)
    requires Inv(s) && s.tail < s.head && At(s, s.tail).seqNo == s.tail + 1
    ensures Holder(s, s.tail) == None && At(s, s.tail) == Slot(s.tail + 1, Some(s.claims[s.tail]))
  {
    assert PositionOk(s, s.tail);
    var h := Holder(s, s.tail);
    assert h.Some? ==> ThreadOk(s, h.value);
  }

  lemma PopClaimPositions<T>(s: State<T>, t: nat, pos: nat, q: nat)
    requires Inv(s) && t < |s.threads| && s.threads[t] == PopCas(pos) && pos == s.tail
    requires pos + 1 <= q < pos + 1 + |s.slots|
    ensures var s' := StepPopCas(s, t, pos, Proceed); Shape(s') && PositionOk(s', q)
  {
    var n := |s.slots|;
    assert ThreadOk(s, t);
    PoppableIsFull(s);
    if q == pos + n {
      Lap(pos, n);
    } else {
      assert PositionOk(s, q);
      Distinct(pos, q, n);
    }
  }

  lemma PopClaimKeepsInv<T>(s: State<T>, t: nat, pos: nat)
    requires Inv(s) && t < |s.threads| && s.threads[t] == PopCas(pos) && pos == s.tail
    ensures Inv(StepPopCas(s, t, pos, Proceed))
  {
    var n := |s.slots|;
    assert ThreadOk(s, t);
    PoppableIsFull(s);
    var s' := StepPopCas(s, t, pos, Proceed);
    forall q: nat | s'.tail <= q < s'.tail + n ensures PositionOk(s', q) {
      PopClaimPositions(s, t, pos, q);
    }
    forall u: nat | u < |s'.threads| ensures ThreadOk(s', u) {
      if u != t {
        assert ThreadOk(s, u);
        LapOfHeld(s, u);
      }
    }
    forall p: nat | p < s'.tail ensures TakeOk(s', p) {
      if p < pos { assert TakeOk(s, p); if p + n == pos { Lap(p, n); } }
    }
  }

  /** While the tail slot is full, no thread is still working on that slot. */
  lemma LapOfHeld<T>(s: State<T>, u: nat)
    requires Inv(s) && u < |s.threads| && Holder(s, s.tail) == None
    ensures forall p: nat | Pushing(s.threads[u], p) :: p != s.tail
    ensures forall p: nat | Popping(s.threads[u], p) :: p + |s.slots| != s.tail
  {
    assert ThreadOk(s, u);
    forall p: nat | Popping(s.threads[u], p) ensures p + |s.slots| != s.tail {
      Lap(p, |s.slots|);
    }
  }

  lemma MoveKeepsInv<T>(s: State<T>, t: nat, pos: nat)
    requires Inv(s) && t < |s.threads| && s.threads[t] == PopMove(pos)
    ensures Inv(StepMove(s, t, pos))
  {
    var n := |s.slots|;
    assert ThreadOk(s, t);
    var s' := StepMove(s, t, pos);
    forall q: nat | s.tail <= q < s.tail + n ensures PositionOk(s', q) { assert PositionOk(s, q); }
    forall u: nat | u < |s'.threads| ensures ThreadOk(s', u) {
      if u != t { assert ThreadOk(s, u); }
    }
    forall p: nat | p < s.tail ensures TakeOk(s', p) { assert TakeOk(s, p); }
  }

  lemma DestroyKeepsInv<T>(s: State<T>, t: nat, pos: nat, v: T)
    requires Inv(s) && t < |s.threads| && s.threads[t] == PopDestroy(pos, v)
    ensures Inv(StepDestroy(s, t, pos, v))
  {
    var n := |s.slots|;
    assert ThreadOk(s, t);
    var s' := StepDestroy(s, t, pos, v);
    Lap(pos, n);
    forall q: nat | s.tail <= q < s.tail + n ensures PositionOk(s', q) {
      assert PositionOk(s, q);
      if q < pos + n { Distinct(q, pos + n, n); } else if q > pos + n { Distinct(pos + n, q, n); }
    }
    forall u: nat | u < |s'.threads| ensures ThreadOk(s', u) {
      if u != t { assert ThreadOk(s, u); }
    }
    forall p: nat | p < s.tail ensures TakeOk(s', p) { assert TakeOk(s, p); }
  }

  lemma ReleaseKeepsInv<T>(s: State<T>, t: nat, pos: nat, v: T)
    requires Inv(s) && t < |s.threads| && s.threads[t] == PopRelease(pos, v)
    ensures Inv(StepRelease(s, t, pos, v))
  {
    hide SlotIndex;
    var n := |s.slots|;
    assert ThreadOk(s, t);
    var s' := StepRelease(s, t, pos, v);
    Lap(pos, n);
    assert PositionOk(s, pos + n);
    forall q: nat | s.tail <= q < s.tail + n ensures PositionOk(s', q) {
      assert PositionOk(s, q);
      if q < pos + n { Distinct(q, pos + n, n); } else if q > pos + n { Distinct(pos + n, q, n); }
    }
    forall u: nat | u < |s'.threads| ensures ThreadOk(s', u) {
      if u != t {
        assert ThreadOk(s, u);
        if s.threads[u].PushCas? && s.head > 0 { Distinct(s.head - 1, s.head, n); }
      }
    }
    forall p: nat | p < s.tail ensures TakeOk(s', p) { assert TakeOk(s, p); }
  }

  lemma StepKeepsInv<T>(s: State<T>, t: nat, c: Choice<T>)
    requires Inv(s) && t < |s.threads|
    ensures Inv(Step(s, t, c))
  {
    assert ThreadOk(s, t);
    match s.threads[t]
    case Ready(_) =>
      match c {
        case CallPush(v) => GotoKeepsInv(s, t, PushLoad(v));
        case CallPop => GotoKeepsInv(s, t, PopLoad);
        case _ =>
      }
    case PushLoad(v) => GotoKeepsInv(s, t, PushCheck(v, s.head));
    case PushCheck(v, pos) => PushCheckKeepsInv(s, t, v, pos);
    case PushCas(v, pos) =>
      if s.head == pos && !c.SpuriousFail? { PushClaimKeepsInv(s, t, v, pos); }
      else { GotoKeepsInv(s, t, PushCheck(v, s.head)); }
    case PushConstruct(v, pos) => ConstructKeepsInv(s, t, v, pos);
    case PushPublish(v, pos) => PublishKeepsInv(s, t, v, pos);
    case PopLoad => GotoKeepsInv(s, t, PopCheck(s.tail));
    case PopCheck(pos) => PopCheckKeepsInv(s, t, pos);
    case PopCas(pos) =>
      if s.tail == pos && !c.SpuriousFail? { PopClaimKeepsInv(s, t, pos); }
      else { GotoKeepsInv(s, t, PopCheck(s.tail)); }
    case PopMove(pos) => MoveKeepsInv(s, t, pos);
    case PopDestroy(pos, v) => DestroyKeepsInv(s, t, pos, v);
    case PopRelease(pos, v) => ReleaseKeepsInv(s, t, pos, v);
  }

  // ---------------------------------------------------------------- the calls over mutable fields

  /**
   * The object itself, with `try_push` and `try_pop` as loops over its fields, run without
   * interference. `spurious` counts the times the weak CAS fails for no reason before it succeeds.
   */
  class Queue<T> {
    const slots: array<Slot<T>>
    var head: nat
    var tail: nat
    ghost var contents: seq<T>

    ghost predicate Valid()
      reads this, slots
    {
      && slots.Length >= 2
      && head == tail + |contents| && |contents| <= slots.Length
      && forall p: nat | tail <= p < tail + slots.Length ::
           slots[SlotIndex(p, slots.Length)] == if p < head then Slot(p + 1, Some(contents[p - tail])) else Slot(p, None)
    }

    constructor (n: nat)
      requires n >= 2
      ensures Valid() && fresh(slots) && slots.Length == n && contents == []
    {
      slots := new Slot<T>[n](i => Slot(0, None));
      head, tail, contents := 0, 0, [];
      new;
      for i := 0 to n
        invariant slots.Length == n && fresh(slots) && contents == [] && head == tail == 0
        invariant forall j :: 0 <= j < i ==> slots[j] == Slot(j, None)
        invariant forall j :: i <= j < n ==> slots[j].storage == None
      {
        slots[i] := slots[i].(seqNo := i);
      }
    }

    method TryPush(v: T, spurious: nat) returns (ok: bool)
      requires Valid()
      modifies this, slots
      ensures Valid()
      ensures ok <==> |old(contents)| < slots.Length
      ensures contents == if ok then old(contents) + [v] else old(contents)
    {
      var n := slots.Length;
      var pos := head;
      var failures := spurious;
      Lap(tail, n);
      while true
        invariant Valid() && pos == head && tail == old(tail) && contents == old(contents)
        decreases failures
      {
        var diff := slots[SlotIndex(pos, n)].seqNo - pos;
        if diff == 0 && failures == 0 {
          head := pos + 1;
          break;
        } else if diff < 0 {
          return false;
        }
        pos := head;
        failures := failures - 1;
      }
      var i := SlotIndex(pos, n);
      slots[i] := slots[i].(storage := Some(v));
      slots[i] := slots[i].(seqNo := pos + 1);
      contents := contents + [v];
      ok := true;
      OthersUntouched(pos, i);
    }

    method TryPop(spurious: nat) returns (r: Option<T>)
      requires Valid()
      modifies this, slots
      ensures Valid()
      ensures |old(contents)| == 0 ==> r == None && contents == []
      ensures |old(contents)| > 0 ==> r == Some(old(contents)[0]) && contents == old(contents)[1..]
    {
      var n := slots.Length;
      var pos := tail;
      var failures := spurious;
      while true
        invariant Valid() && pos == tail && head == old(head) && contents == old(contents)
        decreases failures
      {
        var diff := slots[SlotIndex(pos, n)].seqNo - (pos + 1);
        if diff == 0 && failures == 0 {
          tail := pos + 1;
          break;
        } else if diff < 0 {
          return None;
        }
        pos := tail;
        failures := failures - 1;
      }
      var i := SlotIndex(pos, n);
      r := slots[i].storage;
      slots[i] := slots[i].(storage := None);
      slots[i] := slots[i].(seqNo := pos + n);
      contents := contents[1..];
      Lap(pos, n);
      OthersUntouched(pos, i);
    }

    /** Every other position of the two windows around `pos` has another slot. */
    lemma OthersUntouched(pos: nat, i: nat)
      requires slots.Length >= 2 && i == SlotIndex(pos, slots.Length)
      ensures forall p: nat | pos - slots.Length < p < pos + slots.Length && p != pos :: SlotIndex(p, slots.Length) != i
    {
      forall p: nat | pos - slots.Length < p < pos + slots.Length && p != pos ensures SlotIndex(p, slots.Length) != i {
        if p < pos { Distinct(p, pos, slots.Length); } else { Distinct(pos, p, slots.Length); }
      }
    }
  }
}
