/**
 * What the queue's invariant means over whole executions: pops are a prefix of pushes, the ring refines an
 * atomic FIFO, slots have one owner, and refusals happen exactly when they should.
 */
module MpmcLaws {
  import opened Wrappers
  import opened Ring
  import opened MpmcQueue

  // ---------------------------------------------------------------- whole executions

  /** `run` is an execution of `k` threads over a ring of `n` slots under `schedule`. */
  ghost predicate IsExecution<T>(n: nat, k: nat, run: seq<State<T>>, schedule: seq<(nat, Choice<T>)>) {
    && n >= 2
    && |run| == |schedule| + 1
    && run[0] == Init(n, k)
    && forall i: nat | i < |schedule| ::
         Shape(run[i]) && schedule[i].0 < |run[i].threads| && run[i + 1] == Step(run[i], schedule[i].0, schedule[i].1)
  }

  lemma {:induction false} ExecutionKeepsInv<T>(n: nat, k: nat, run: seq<State<T>>, schedule: seq<(nat, Choice<T>)>, i: nat)
    requires IsExecution(n, k, run, schedule) && i < |run|
    ensures Inv(run[i]) && |run[i].slots| == n && |run[i].threads| == k
  {
    if i > 0 {
      ExecutionKeepsInv(n, k, run, schedule, i - 1);
      StepKeepsInv(run[i - 1], schedule[i - 1].0, schedule[i - 1].1);
    } else {
      InitInv<T>(n, k);
    }
  }

  /** History only grows: a claim, once made, keeps its value, and so does a completed take. */
  ghost predicate Extends<T>(s: State<T>, s': State<T>) {
    && s.claims <= s'.claims
    && |s.takes| <= |s'.takes|
    && forall p: nat | p < |s.takes| :: s.takes[p].Some? ==> s'.takes[p] == s.takes[p]
  }

  lemma StepExtends<T>(s: State<T>, t: nat, c: Choice<T>)
    requires Inv(s) && t < |s.threads|
    ensures Extends(s, Step(s, t, c))
  {
    assert ThreadOk(s, t);
  }

  lemma {:induction false} ExecutionExtends<T>(n: nat, k: nat, run: seq<State<T>>, schedule: seq<(nat, Choice<T>)>, i: nat, j: nat)
    requires IsExecution(n, k, run, schedule) && i <= j < |run|
    ensures Extends(run[i], run[j])
    decreases j - i
  {
    hide Step;
    hide Inv;
    if i < j {
      ExecutionExtends(n, k, run, schedule, i, j - 1);
      ExecutionKeepsInv(n, k, run, schedule, j - 1);
      StepExtends(run[j - 1], schedule[j - 1].0, schedule[j - 1].1);
      ExtendsTransitive(run[i], run[j - 1], run[j]);
    }
  }

  lemma ExtendsTransitive<T>(a: State<T>, b: State<T>, c: State<T>)
    requires Extends(a, b) && Extends(b, c)
    ensures Extends(a, c)
  {}

  /**
   * In every reachable state the pops, in claim order, are a prefix of the pushes in claim order:
   * whatever was moved out at claim position p is what was pushed at claim position p, and a thread
   * back from a pop or push returned with exactly that value.
   */
  lemma PopsArePrefixOfPushes<T>(n: nat, k: nat, run: seq<State<T>>, schedule: seq<(nat, Choice<T>)>, i: nat, j: nat)
    requires IsExecution(n, k, run, schedule) && i <= j < |run|
    ensures |run[i].threads| == k
    ensures |run[i].takes| <= |run[i].claims| <= |run[i].takes| + n && |run[i].claims| <= |run[j].claims|
    ensures forall p: nat | p < |run[i].takes| && run[i].takes[p].Some? :: run[i].takes[p].value == run[j].claims[p]
    ensures forall t: nat | t < k && run[i].threads[t].Ready? ::
              match run[i].threads[t].last
              case Popped(pos, v) => pos < |run[i].takes| && run[j].claims[pos] == v
              case Pushed(pos, v) => pos < |run[i].claims| && run[j].claims[pos] == v
              case _ => true
  {
    ExecutionKeepsInv(n, k, run, schedule, i);
    ExecutionExtends(n, k, run, schedule, i, j);
    var s := run[i];
    forall p: nat | p < |s.takes| && s.takes[p].Some? ensures s.takes[p].value == run[j].claims[p] {
      assert TakeOk(s, p);
    }
    forall t: nat | t < k && s.threads[t].Ready?
      ensures match s.threads[t].last
              case Popped(pos, v) => pos < |s.takes| && run[j].claims[pos] == v
              case Pushed(pos, v) => pos < |s.claims| && run[j].claims[pos] == v
              case _ => true
    {
      assert ThreadOk(s, t);
    }
  }

  // ---------------------------------------------------------------- every position has one owner

  /** Step i is the CAS by which thread t claims position p for a push. */
  ghost predicate WinsPush<T>(run: seq<State<T>>, schedule: seq<(nat, Choice<T>)>, i: nat, t: nat, p: nat)
    requires i < |schedule| && i < |run| && schedule[i].0 < |run[i].threads|
  {
    var pc := run[i].threads[schedule[i].0];
    schedule[i].0 == t && pc.PushCas? && pc.pos == p == run[i].head && !schedule[i].1.SpuriousFail?
  }

  ghost predicate WinsPop<T>(run: seq<State<T>>, schedule: seq<(nat, Choice<T>)>, i: nat, t: nat, p: nat)
    requires i < |schedule| && i < |run| && schedule[i].0 < |run[i].threads|
  {
    var pc := run[i].threads[schedule[i].0];
    schedule[i].0 == t && pc.PopCas? && pc.pos == p == run[i].tail && !schedule[i].1.SpuriousFail?
  }

  /** Both counters only grow, by a winning CAS each time. */
  lemma CounterStep<T>(n: nat, k: nat, run: seq<State<T>>, schedule: seq<(nat, Choice<T>)>, i: nat)
    requires IsExecution(n, k, run, schedule) && i < |schedule|
    ensures run[i].head <= run[i + 1].head <= run[i].head + 1 && run[i].tail <= run[i + 1].tail <= run[i].tail + 1
    ensures run[i + 1].head == run[i].head + 1 <==> WinsPush(run, schedule, i, schedule[i].0, run[i].head)
    ensures run[i + 1].tail == run[i].tail + 1 <==> WinsPop(run, schedule, i, schedule[i].0, run[i].tail)
  {
    hide Inv;
  }

  lemma {:induction false} CountersGrow<T>(n: nat, k: nat, run: seq<State<T>>, schedule: seq<(nat, Choice<T>)>, i: nat, j: nat)
    requires IsExecution(n, k, run, schedule) && i <= j < |run|
    ensures run[i].head <= run[j].head && run[i].tail <= run[j].tail
    decreases j
  {
    hide Step;
    hide WinsPush;
    hide WinsPop;
    if i < j {
      CountersGrow(n, k, run, schedule, i, j - 1);
      CounterStep(n, k, run, schedule, j - 1);
    }
  }

  /** The one step that claimed position p for a push, and the one that claimed it for a pop. */
  lemma {:induction false} ClaimedOnce<T>(n: nat, k: nat, run: seq<State<T>>, schedule: seq<(nat, Choice<T>)>, j: nat, p: nat)
    requires IsExecution(n, k, run, schedule) && j < |run|
    ensures p < run[j].head <==> exists i: nat :: i < j && WinsPush(run, schedule, i, schedule[i].0, p)
    ensures p < run[j].tail <==> exists i: nat :: i < j && WinsPop(run, schedule, i, schedule[i].0, p)
    decreases j
  {
    if j > 0 {
      ClaimedOnce(n, k, run, schedule, j - 1, p);
      CounterStep(n, k, run, schedule, j - 1);
    }
  }

  /** No position is claimed twice for a push, or twice for a pop. */
  lemma ClaimsAreUnique<T>(n: nat, k: nat, run: seq<State<T>>, schedule: seq<(nat, Choice<T>)>, i: nat, j: nat, t: nat, u: nat, p: nat)
    requires IsExecution(n, k, run, schedule) && i < |schedule| && j < |schedule|
    requires || (WinsPush(run, schedule, i, t, p) && WinsPush(run, schedule, j, u, p))
             || (WinsPop(run, schedule, i, t, p) && WinsPop(run, schedule, j, u, p))
    ensures i == j && t == u
  {
    CounterStep(n, k, run, schedule, i);
    CounterStep(n, k, run, schedule, j);
    hide Step;
    if i < j { CountersGrow(n, k, run, schedule, i + 1, j); }
    if j < i { CountersGrow(n, k, run, schedule, j + 1, i); }
  }

  /** A thread at work on a popped position has been since its winning CAS. */
  lemma {:induction false} PoppingSinceClaim<T>(n: nat, k: nat, run: seq<State<T>>, schedule: seq<(nat, Choice<T>)>, j: nat, t: nat, p: nat)
    returns (i: nat)
    requires IsExecution(n, k, run, schedule) && j < |run| && t < |run[j].threads| && Popping(run[j].threads[t], p)
    ensures i < j && schedule[i].0 < |run[i].threads| && WinsPop(run, schedule, i, t, p)
    ensures forall m: nat | i < m <= j :: t < |run[m].threads| && Popping(run[m].threads[t], p)
    decreases j
  {
    if j > 0 {
      PoppingStep(run[j - 1], schedule[j - 1].0, schedule[j - 1].1, t, p);
      if t < |run[j - 1].threads| && Popping(run[j - 1].threads[t], p) {
        i := PoppingSinceClaim(n, k, run, schedule, j - 1, t, p);
      } else {
        i := j - 1;
      }
    }
  }

  lemma PoppingStep<T>(s: State<T>, actor: nat, c: Choice<T>, t: nat, p: nat)
    requires Shape(s) && actor < |s.threads| && t < |Step(s, actor, c).threads| && Popping(Step(s, actor, c).threads[t], p)
    ensures t < |s.threads|
    ensures Popping(s.threads[t], p) || (actor == t && s.threads[t] == PopCas(p) && s.tail == p && !c.SpuriousFail?)
  {
    hide SlotIndex;
    if t != actor { OthersStay(s, actor, c, t); }
  }

  lemma OthersStay<T>(s: State<T>, actor: nat, c: Choice<T>, t: nat)
    requires Shape(s) && actor < |s.threads|
    ensures |Step(s, actor, c).threads| == |s.threads|
    ensures t < |s.threads| && t != actor ==> Step(s, actor, c).threads[t] == s.threads[t]
  {
    hide SlotIndex;
  }

  /** The step by which thread t's pop of position p returns. */
  ghost predicate CompletesPop<T>(run: seq<State<T>>, schedule: seq<(nat, Choice<T>)>, i: nat, t: nat, p: nat)
    requires i < |schedule| && i < |run| && schedule[i].0 < |run[i].threads|
  {
    var pc := run[i].threads[schedule[i].0];
    schedule[i].0 == t && pc.PopRelease? && pc.pos == p
  }

  /** Nothing is popped twice: two completed pops of one execution have different claim positions. */
  lemma CompletedPopsDiffer<T>(n: nat, k: nat, run: seq<State<T>>, schedule: seq<(nat, Choice<T>)>, i: nat, j: nat, t: nat, u: nat, p: nat)
    requires IsExecution(n, k, run, schedule) && i < |schedule| && j < |schedule|
    requires CompletesPop(run, schedule, i, t, p) && CompletesPop(run, schedule, j, u, p)
    ensures i == j && t == u
  {
    var a := PoppingSinceClaim(n, k, run, schedule, i, t, p);
    var b := PoppingSinceClaim(n, k, run, schedule, j, u, p);
    ClaimsAreUnique(n, k, run, schedule, a, b, t, u, p);
    ReturnedIsIdle(run[i], t, schedule[i].1, p);
    ReturnedIsIdle(run[j], u, schedule[j].1, p);
    assert run[i + 1] == Step(run[i], t, schedule[i].1) && run[j + 1] == Step(run[j], u, schedule[j].1);
  }

  lemma ReturnedIsIdle<T>(s: State<T>, t: nat, c: Choice<T>, p: nat)
    requires Shape(s) && t < |s.threads| && s.threads[t].PopRelease?
    ensures t < |Step(s, t, c).threads| && !Popping(Step(s, t, c).threads[t], p)
  {}

  // ---------------------------------------------------------------- refinement of a FIFO queue

  datatype Event<T> = Enqueue(v: T) | Dequeue(v: T) | Internal

  /** What an atomic bounded FIFO queue may do. */
  ghost predicate FifoStep<T>(q: seq<T>, e: Event<T>, q': seq<T>, capacity: nat) {
    match e
    case Enqueue(v) => |q| < capacity && q' == q + [v]
    case Dequeue(v) => |q| > 0 && v == q[0] && q' == q[1..]
    case Internal => q' == q
  }

  /** The abstract queue: claimed for push and not yet claimed for pop. */
  ghost function Contents<T>(s: State<T>): seq<T>
    requires Shape(s) && s.tail <= s.head
  {
    s.claims[s.tail..]
  }

  /** A winning CAS is the linearization point; the pop's event carries what that thread will return. */
  ghost function EventOf<T>(s: State<T>, t: nat, c: Choice<T>): Event<T>
    requires Inv(s) && t < |s.threads|
  {
    match s.threads[t]
    case PushCas(v, pos) => if s.head == pos && !c.SpuriousFail? then Enqueue(v) else Internal
    case PopCas(pos) =>
      assert ThreadOk(s, t);
      if s.tail == pos && !c.SpuriousFail? then Dequeue(s.claims[pos]) else Internal
    case _ => Internal
  }

  lemma StepRefinesFifo<T>(s: State<T>, t: nat, c: Choice<T>)
    requires Inv(s) && t < |s.threads|
    ensures var s' := Step(s, t, c);
            Inv(s') && FifoStep(Contents(s), EventOf(s, t, c), Contents(s'), |s.slots|)
  {
    StepKeepsInv(s, t, c);
    assert ThreadOk(s, t);
  }

  // ---------------------------------------------------------------- slots and refusals

  /** At most one thread is between its claim and its publishing store on any slot. */
  lemma OneThreadPerSlot<T>(s: State<T>, t: nat, u: nat, p: nat, q: nat)
    requires Inv(s) && t < |s.threads| && u < |s.threads|
    requires Pushing(s.threads[t], p) || Popping(s.threads[t], p)
    requires Pushing(s.threads[u], q) || Popping(s.threads[u], q)
    requires SlotIndex(p, |s.slots|) == SlotIndex(q, |s.slots|)
    ensures t == u
  {
    assert ThreadOk(s, t) && ThreadOk(s, u);
  }

  ghost predicate BeingPushed<T>(s: State<T>, q: nat) {
    exists t: nat :: t < |s.threads| && Pushing(s.threads[t], q)
  }

  ghost predicate BeingPopped<T>(s: State<T>, q: nat) {
    exists t: nat :: t < |s.threads| && Popping(s.threads[t], q)
  }

  /** Each slot's sequence number is fixed by the phase of the one position that owns the slot. */
  lemma SequenceNumberIsPhase<T>(s: State<T>, q: nat)
    requires Inv(s) && s.tail <= q < s.tail + |s.slots|
    ensures At(s, q).seqNo == q + 1 <==> q < s.head && !BeingPushed(s, q)
    ensures At(s, q).seqNo == q <==> BeingPushed(s, q) || (q >= s.head && !(q >= |s.slots| && BeingPopped(s, q - |s.slots|)))
    ensures At(s, q).seqNo < q <==> q >= |s.slots| && BeingPopped(s, q - |s.slots|)
  {
    assert PositionOk(s, q);
    var h := Holder(s, q);
    assert h.Some? ==> ThreadOk(s, h.value);
    forall t: nat | t < |s.threads| && Pushing(s.threads[t], q) ensures h == Some(t) && q < s.head {
      assert ThreadOk(s, t);
    }
    if q >= |s.slots| {
      Lap(q - |s.slots|, |s.slots|);
      forall t: nat | t < |s.threads| && Popping(s.threads[t], q - |s.slots|) ensures h == Some(t) && q >= s.head {
        assert ThreadOk(s, t);
        assert PositionOk(s, q);
      }
    }
  }

  /**
   * A push gives up at its sequence read exactly when its position is the head and the slot one lap
   * back has not been released: either all N positions are claimed and unpopped, or the pop of
   * position head - N is still between its claim and its releasing store.
   */
  lemma PushRefusedIff<T>(s: State<T>, t: nat, v: T, pos: nat)
    requires Inv(s) && t < |s.threads| && s.threads[t] == PushCheck(v, pos)
    ensures StepPushCheck(s, t, v, pos).threads[t] == Ready(PushFull) <==>
            pos == s.head && pos >= |s.slots|
            && (s.head == s.tail + |s.slots| || BeingPopped(s, pos - |s.slots|))
  {
    var n := |s.slots|;
    assert ThreadOk(s, t);
    if pos < s.head {
      PassedPositionIsNotBehind(s, pos);
    } else if s.head == s.tail + n {
      Lap(s.tail, n);
      FullRingIsBehind(s);
    } else {
      SequenceNumberIsPhase(s, pos);
    }
  }

  /** Once claimed, a position's slot never again reads below that position. */
  lemma PassedPositionIsNotBehind<T>(s: State<T>, pos: nat)
    requires Inv(s) && pos < s.head
    ensures At(s, pos).seqNo >= pos
  {
    var n := |s.slots|;
    var q := WindowHas(SlotIndex(pos, n), s.tail, n);
    SequenceNumberIsPhase(s, q);
    var h := Holder(s, q);
    assert PositionOk(s, q);
    assert h.Some? ==> ThreadOk(s, h.value);
    if q < pos {
      Distinct(q, pos, n);
    } else if pos < q < pos + n {
      Distinct(pos, q, n);
    }
  }

  /** A pop gives up exactly when its position is the tail and that position is not yet published. */
  lemma PopRefusedIff<T>(s: State<T>, t: nat, pos: nat)
    requires Inv(s) && t < |s.threads| && s.threads[t] == PopCheck(pos)
    ensures StepPopCheck(s, t, pos).threads[t] == Ready(PopEmpty) <==>
            pos == s.tail && (s.head == s.tail || BeingPushed(s, pos))
  {
    assert ThreadOk(s, t);
    if pos < s.tail {
      PoppedPositionIsPublished(s, pos);
    } else {
      SequenceNumberIsPhase(s, pos);
      forall u: nat | u < |s.threads| && Pushing(s.threads[u], pos) ensures pos < s.head {
        assert ThreadOk(s, u);
      }
    }
  }

  lemma PoppedPositionIsPublished<T>(s: State<T>, pos: nat)
    requires Inv(s) && pos < s.tail
    ensures At(s, pos).seqNo >= pos + 1
  {
    var n := |s.slots|;
    var q := WindowHas(SlotIndex(pos, n), s.tail, n);
    SequenceNumberIsPhase(s, q);
    var h := Holder(s, q);
    assert PositionOk(s, q);
    assert h.Some? ==> ThreadOk(s, h.value);
    if q < pos + n { Distinct(pos, q, n); }
  }

  // ---------------------------------------------------------------- quiescence

  ghost predicate Quiescent<T>(s: State<T>) {
    forall t: nat | t < |s.threads| :: s.threads[t].Ready?
  }

  /**
   * With every call returned nothing is lost: all claimed pops were delivered, every other claimed
   * value sits full in its slot, and the remaining slots are raw and ready for their next push.
   */
  lemma QuiescentLosesNothing<T>(s: State<T>)
    requires Inv(s) && Quiescent(s)
    ensures forall p: nat | p < s.tail :: s.takes[p] == Some(s.claims[p])
    ensures forall p: nat | s.tail <= p < s.head :: At(s, p) == Slot(p + 1, Some(s.claims[p]))
    ensures forall p: nat | s.head <= p < s.tail + |s.slots| :: At(s, p) == Slot(p, None)
  {
    forall p: nat | p < s.tail ensures s.takes[p] == Some(s.claims[p]) { assert TakeOk(s, p); }
    forall q: nat | s.tail <= q < s.tail + |s.slots|
      ensures At(s, q) == if q < s.head then Slot(q + 1, Some(s.claims[q])) else Slot(q, None)
    {
      assert PositionOk(s, q);
    }
  }
}
