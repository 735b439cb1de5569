/**
 * What the queue's calls return and that they do: a refusal happens at one place and under one condition
 * only, every return answers the call that began it, and a call left alone comes back.
 */
module MpmcCalls {
  import opened Wrappers
  import opened Ring
  import opened MpmcQueue
  import opened MpmcLaws

  // ---------------------------------------------------------------- one step of a call

  ghost predicate InPush<T>(pc: Pc<T>, v: T) {
    (pc.PushLoad? || pc.PushCheck? || pc.PushCas? || pc.PushConstruct? || pc.PushPublish?) && pc.v == v
  }

  predicate InPop<T>(pc: Pc<T>) {
    pc.PopLoad? || pc.PopCheck? || pc.PopCas? || pc.PopMove? || pc.PopDestroy? || pc.PopRelease?
  }

  /** The next position to push has no free slot: N elements are inside, or its last pop is not finished. */
  ghost predicate HeadBlocked<T>(s: State<T>)
    requires Shape(s)
  {
    s.head >= |s.slots| && (s.head == s.tail + |s.slots| || BeingPopped(s, s.head - |s.slots|))
  }

  /** The next position to pop has no element: none is inside, or its push is not finished. */
  ghost predicate TailBlocked<T>(s: State<T>)
    requires Shape(s)
  {
    s.head == s.tail || BeingPushed(s, s.tail)
  }

  ghost predicate PushBlocked<T>(s: State<T>, pc: Pc<T>)
    requires Shape(s)
  {
    pc.PushCheck? && pc.pos == s.head && HeadBlocked(s)
  }

  ghost predicate PopBlocked<T>(s: State<T>, pc: Pc<T>)
    requires Shape(s)
  {
    pc.PopCheck? && pc.pos == s.tail && TailBlocked(s)
  }

  /**
   * Whatever a thread inside a push does next: it gives up exactly when it reads the sequence of a blocked
   * head, returns success exactly by its publishing store, and goes on with its value otherwise; it claims
   * exactly by a CAS on the head, and tries again only after a spurious failure or when overtaken.
   */
  lemma PushStep<T>(s: State<T>, t: nat, c: Choice<T>, v: T)
    requires Inv(s) && t < |s.threads| && InPush(s.threads[t], v)
    ensures |Step(s, t, c).threads| == |s.threads|
    ensures var pc, pc' := s.threads[t], Step(s, t, c).threads[t];
      && (pc' == Ready(PushFull) <==> PushBlocked(s, pc))
      && (pc'.Ready? && pc'.last.Pushed? <==> pc.PushPublish?)
      && (pc.PushPublish? ==> pc' == Ready(Pushed(pc.pos, v)))
      && (pc'.Ready? ==> pc'.last.Pushed? || pc'.last.PushFull?)
      && (!pc'.Ready? ==> InPush(pc', v))
      && (pc'.PushConstruct? <==> pc.PushCas? && pc.pos == s.head && !c.SpuriousFail?)
      && ((pc.PushCas? && pc'.PushCheck?) || (pc.PushCheck? && pc'.PushLoad?) ==> c.SpuriousFail? || pc.pos < s.head)
  {
    hide SlotIndex;
    OthersStay(s, t, c, t);
    assert ThreadOk(s, t);
    var pc := s.threads[t];
    if pc.PushCheck? {
      PushRefusedIff(s, t, v, pc.pos);
      CheckAtHead(s, t, v);
    }
  }

  /** At the head itself the check never finds a later lap. */
  lemma CheckAtHead<T>(s: State<T>, t: nat, v: T)
    requires Inv(s) && t < |s.threads|
    ensures At(s, s.head).seqNo <= s.head
    ensures At(s, s.head).seqNo < s.head <==> HeadBlocked(s)
  {
    var n := |s.slots|;
    if s.head == s.tail + n {
      Lap(s.tail, n);
      FullRingIsBehind(s);
    } else {
      SequenceNumberIsPhase(s, s.head);
      assert PositionOk(s, s.head);
      var h := Holder(s, s.head);
      assert h.Some? ==> ThreadOk(s, h.value);
      if h.Some? { Lap(s.head - n, n); }
    }
  }

  /** The same for a thread inside a pop. */
  lemma PopStep<T>(s: State<T>, t: nat, c: Choice<T>)
    requires Inv(s) && t < |s.threads| && InPop(s.threads[t])
    ensures |Step(s, t, c).threads| == |s.threads|
    ensures var pc, pc' := s.threads[t], Step(s, t, c).threads[t];
      && (pc' == Ready(PopEmpty) <==> PopBlocked(s, pc))
      && (pc'.Ready? && pc'.last.Popped? <==> pc.PopRelease?)
      && (pc.PopRelease? ==> pc' == Ready(Popped(pc.pos, pc.v)))
      && (pc'.Ready? ==> pc'.last.Popped? || pc'.last.PopEmpty?)
      && (!pc'.Ready? ==> InPop(pc'))
      && (pc'.PopMove? <==> pc.PopCas? && pc.pos == s.tail && !c.SpuriousFail?)
      && ((pc.PopCas? && pc'.PopCheck?) || (pc.PopCheck? && pc'.PopLoad?) ==> c.SpuriousFail? || pc.pos < s.tail)
  {
    hide SlotIndex;
    OthersStay(s, t, c, t);
    assert ThreadOk(s, t);
    var pc := s.threads[t];
    if pc.PopCheck? {
      PopRefusedIff(s, t, pc.pos);
      CheckAtTail(s);
    }
  }

  lemma CheckAtTail<T>(s: State<T>)
    requires Inv(s)
    ensures At(s, s.tail).seqNo <= s.tail + 1
    ensures At(s, s.tail).seqNo < s.tail + 1 <==> TailBlocked(s)
  {
    SequenceNumberIsPhase(s, s.tail);
    assert PositionOk(s, s.tail);
    var h := Holder(s, s.tail);
    assert h.Some? ==> ThreadOk(s, h.value);
    forall u: nat | u < |s.threads| && Pushing(s.threads[u], s.tail) ensures s.tail < s.head { assert ThreadOk(s, u); }
  }

  // ---------------------------------------------------------------- a call left alone comes back

  /** Steps of its own a thread needs to return while nobody else moves and no CAS fails spuriously. */
  ghost function StepsLeft<T>(s: State<T>, t: nat): nat
    requires Shape(s) && t < |s.threads|
  {
    var fromHead, fromTail := if HeadBlocked(s) then 1 else 4, if TailBlocked(s) then 1 else 5;
    match s.threads[t]
    case Ready(_) => 0
    case PushLoad(_) => 1 + fromHead
    case PushCheck(_, pos) => if pos == s.head then fromHead else 2 + fromHead
    case PushCas(_, pos) => if pos == s.head then 3 else 1 + fromHead
    case PushConstruct(_, _) => 2
    case PushPublish(_, _) => 1
    case PopLoad => 1 + fromTail
    case PopCheck(pos) => if pos == s.tail then fromTail else 2 + fromTail
    case PopCas(pos) => if pos == s.tail then 4 else 1 + fromTail
    case PopMove(_) => 3
    case PopDestroy(_, _) => 2
    case PopRelease(_, _) => 1
  }

  /** Each step a thread takes alone brings it one closer to its return, which is at most seven away. */
  lemma SoloProgress<T>(s: State<T>, t: nat)
    requires Inv(s) && t < |s.threads| && !s.threads[t].Ready?
    ensures var s' := Step(s, t, Proceed);
      Inv(s') && |s'.threads| == |s.threads| && 1 <= StepsLeft(s, t) <= 7 && StepsLeft(s', t) == StepsLeft(s, t) - 1
  {
    hide SlotIndex;
    StepKeepsInv(s, t, Proceed);
    assert ThreadOk(s, t);
    var pc := s.threads[t];
    if pc.PushLoad? || pc.PushCheck? || pc.PushCas? { SoloPush(s, t); }
    if pc.PopLoad? || pc.PopCheck? || pc.PopCas? { SoloPop(s, t); }
  }

  lemma SoloPush<T>(s: State<T>, t: nat)
    requires Inv(s) && t < |s.threads| && (s.threads[t].PushLoad? || s.threads[t].PushCheck? || s.threads[t].PushCas?)
    ensures var s' := Step(s, t, Proceed); Inv(s') && |s'.threads| == |s.threads| && StepsLeft(s', t) == StepsLeft(s, t) - 1
  {
    hide SlotIndex;
    StepKeepsInv(s, t, Proceed);
    assert ThreadOk(s, t);
    var pc, s' := s.threads[t], Step(s, t, Proceed);
    PushStep(s, t, Proceed, pc.v);
    CheckAtHead(s, t, pc.v);
    CheckAtHead(s', t, pc.v);
  }

  lemma SoloPop<T>(s: State<T>, t: nat)
    requires Inv(s) && t < |s.threads| && (s.threads[t].PopLoad? || s.threads[t].PopCheck? || s.threads[t].PopCas?)
    ensures var s' := Step(s, t, Proceed); Inv(s') && |s'.threads| == |s.threads| && StepsLeft(s', t) == StepsLeft(s, t) - 1
  {
    hide SlotIndex;
    StepKeepsInv(s, t, Proceed);
    assert ThreadOk(s, t);
    var pc, s' := s.threads[t], Step(s, t, Proceed);
    PopStep(s, t, Proceed);
    CheckAtTail(s);
    CheckAtTail(s');
  }

  /** k steps of thread t in a row, nobody else moving. */
  ghost function Alone<T>(s: State<T>, t: nat, k: nat): (r: State<T>)
    requires Inv(s) && t < |s.threads|
    ensures Inv(r) && |r.threads| == |s.threads|
    decreases k
  {
    if k == 0 || s.threads[t].Ready? then s else
      SoloProgress(s, t);
      Alone(Step(s, t, Proceed), t, k - 1)
  }

  /** What a call will return when it is left alone from here on. */
  ghost predicate WillBeRefused<T>(s: State<T>, t: nat)
    requires Shape(s) && t < |s.threads|
  {
    match s.threads[t]
    case PushLoad(_) => HeadBlocked(s)
    case PushCheck(_, _) => HeadBlocked(s)
    case PushCas(_, pos) => pos != s.head && HeadBlocked(s)
    case PopLoad => TailBlocked(s)
    case PopCheck(_) => TailBlocked(s)
    case PopCas(pos) => pos != s.tail && TailBlocked(s)
    case _ => false
  }

  /**
   * From every reachable state, a call left alone returns after exactly the steps it has left; a push is
   * refused exactly when it has not claimed and the head is blocked, a pop when the tail is.
   */
  lemma {:induction false} CallLeftAloneReturns<T>(s: State<T>, t: nat, k: nat)
    requires Inv(s) && t < |s.threads| && !s.threads[t].Ready?
    ensures Alone(s, t, k).threads[t].Ready? <==> k >= StepsLeft(s, t)
    ensures k >= StepsLeft(s, t) ==>
      var last := Alone(s, t, k).threads[t].last;
      if WillBeRefused(s, t) then last == (if InPop(s.threads[t]) then PopEmpty else PushFull)
      else if InPop(s.threads[t]) then last.Popped?
      else last.Pushed? && last.v == s.threads[t].v
    decreases k
  {
    SoloProgress(s, t);
    if k > 0 {
      var s' := Step(s, t, Proceed);
      SoloOutcome(s, t);
      if s'.threads[t].Ready? {
        assert Alone(s, t, k) == Alone(s', t, k - 1) == s';
      } else {
        CallLeftAloneReturns(s', t, k - 1);
      }
    }
  }

  /** A step alone does not change what the call will return. */
  lemma SoloOutcome<T>(s: State<T>, t: nat)
    requires Inv(s) && t < |s.threads| && !s.threads[t].Ready?
    ensures var s' := Step(s, t, Proceed);
      var pc, pc' := s.threads[t], s'.threads[t];
      && Inv(s') && |s'.threads| == |s.threads|
      && (pc'.Ready? ==>
            if WillBeRefused(s, t) then pc'.last == (if InPop(pc) then PopEmpty else PushFull)
            else if InPop(pc) then pc'.last.Popped? else pc'.last.Pushed? && pc'.last.v == pc.v)
      && (!pc'.Ready? ==>
            && WillBeRefused(s', t) == WillBeRefused(s, t) && InPop(pc') == InPop(pc)
            && (!InPop(pc) ==> InPush(pc, pc.v) && InPush(pc', pc.v)))
  {
    hide SlotIndex;
    StepKeepsInv(s, t, Proceed);
    var pc, s' := s.threads[t], Step(s, t, Proceed);
    if InPop(pc) {
      PopStep(s, t, Proceed);
      CheckAtTail(s);
      CheckAtTail(s');
    } else {
      PushStep(s, t, Proceed, pc.v);
      CheckAtHead(s, t, pc.v);
      CheckAtHead(s', t, pc.v);
    }
  }

  // ---------------------------------------------------------------- whole executions

  /** The thread is inside the call that choice c starts. */
  ghost predicate InCall<T>(pc: Pc<T>, c: Choice<T>) {
    match c
    case CallPush(v) => InPush(pc, v)
    case CallPop => InPop(pc)
    case _ => false
  }

  lemma CallStep<T>(s: State<T>, t: nat, c: Choice<T>, call: Choice<T>)
    requires Inv(s) && t < |s.threads| && InCall(s.threads[t], call)
    ensures |Step(s, t, c).threads| == |s.threads|
    ensures var pc, pc' := s.threads[t], Step(s, t, c).threads[t];
      && (!pc'.Ready? ==> InCall(pc', call))
      && (pc'.Ready? ==>
            match pc'.last
            case Pushed(pos, v) => call == CallPush(v) && pc == PushPublish(v, pos)
            case PushFull => call.CallPush? && PushBlocked(s, pc)
            case Popped(pos, v) => call.CallPop? && pc == PopRelease(pos, v)
            case PopEmpty => call.CallPop? && PopBlocked(s, pc)
            case Fresh => false)
  {
    hide Inv;
    hide Step;
    if call.CallPush? { PushStep(s, t, c, call.v); } else { PopStep(s, t, c); }
  }

  /** A thread outside every call enters the one it is told to start, or stays where it is. */
  lemma StartStep<T>(s: State<T>, t: nat, c: Choice<T>)
    requires Shape(s) && t < |s.threads| && s.threads[t].Ready?
    ensures |Step(s, t, c).threads| == |s.threads|
    ensures var pc' := Step(s, t, c).threads[t];
      if c.CallPush? || c.CallPop? then !pc'.Ready? && InCall(pc', c) else pc' == s.threads[t]
  {}

  /** Thread t is inside one and the same call after every step from `from` to `to`. */
  ghost predicate InsideThroughout<T>(run: seq<State<T>>, t: nat, call: Choice<T>, from: nat, to: nat)
    requires to < |run|
  {
    forall m: nat | from < m <= to :: t < |run[m].threads| && InCall(run[m].threads[t], call)
  }

  /** A thread inside a call has been since the step that began it. */
  lemma {:induction false} CallBegan<T>(n: nat, k: nat, run: seq<State<T>>, schedule: seq<(nat, Choice<T>)>, j: nat, t: nat) returns (a: nat)
    requires IsExecution(n, k, run, schedule) && j < |run| && t < |run[j].threads| && !run[j].threads[t].Ready?
    ensures a < j && schedule[a].0 == t && InsideThroughout(run, t, schedule[a].1, a, j)
    decreases j
  {
    hide Inv;
    hide Step;
    if j > 0 {
      ExecutionKeepsInv(n, k, run, schedule, j - 1);
      ExecutionKeepsInv(n, k, run, schedule, j);
      var s, actor, c := run[j - 1], schedule[j - 1].0, schedule[j - 1].1;
      if actor != t { OthersStay(s, actor, c, t); }
      if s.threads[t].Ready? {
        StartStep(s, t, c);
        a := j - 1;
      } else {
        a := CallBegan(n, k, run, schedule, j - 1, t);
        if actor == t { CallStep(s, t, c, schedule[a].1); }
      }
    }
  }

  /** Thread t comes back at step i from the call it began at step a, with this outcome. */
  ghost predicate Answers<T>(run: seq<State<T>>, schedule: seq<(nat, Choice<T>)>, a: nat, i: nat, t: nat, last: Outcome<T>)
    requires i < |run| && i < |schedule|
  {
    && a < i && schedule[a].0 == t == schedule[i].0 && t < |run[i].threads| && Shape(run[i])
    && InsideThroughout(run, t, schedule[a].1, a, i)
    && (var call, pc := schedule[a].1, run[i].threads[t];
        match last
        case Pushed(pos, v) => call == CallPush(v) && pc == PushPublish(v, pos)
        case PushFull => call.CallPush? && PushBlocked(run[i], pc)
        case Popped(pos, v) => call.CallPop? && pc == PopRelease(pos, v)
        case PopEmpty => call.CallPop? && PopBlocked(run[i], pc)
        case Fresh => false)
  }

  /**
   * In every execution every return answers the call that began it: a success carries the value the call
   * was given, and a refusal was decided at a moment during the call when the ring had no free slot at the
   * head, or no finished element at the tail.
   */
  lemma {:induction false} EveryReturnAnswersItsCall<T>(n: nat, k: nat, run: seq<State<T>>, schedule: seq<(nat, Choice<T>)>, j: nat, t: nat)
    returns (a: nat, i: nat)
    requires IsExecution(n, k, run, schedule) && j < |run| && t < |run[j].threads|
    requires run[j].threads[t].Ready? && run[j].threads[t].last != Fresh
    ensures i < j && Answers(run, schedule, a, i, t, run[j].threads[t].last)
    ensures forall m: nat | i < m <= j :: t < |run[m].threads| && run[m].threads[t] == run[j].threads[t]
    decreases j
  {
    hide Inv;
    hide Step;
    if j > 0 {
      ExecutionKeepsInv(n, k, run, schedule, j - 1);
      ExecutionKeepsInv(n, k, run, schedule, j);
      var s, actor, c := run[j - 1], schedule[j - 1].0, schedule[j - 1].1;
      if actor != t { OthersStay(s, actor, c, t); }
      if s.threads[t].Ready? {
        StartStep(s, t, c);
        a, i := EveryReturnAnswersItsCall(n, k, run, schedule, j - 1, t);
      } else {
        a := CallBegan(n, k, run, schedule, j - 1, t);
        i := j - 1;
        CallStep(s, t, c, schedule[a].1);
      }
    }
  }
}
