/** What the sequence lock's invariant means: whole values, reads that never go back, and retries only because of writes. */
module SeqLockLaws {
  import opened Wrappers
  import opened SeqLock

  /**
   * No torn read: whatever is returned is, word for word, the payload at the moment of the second
   * load, no write is storing then, and it is the value of the last write finished before it.
   */
  lemma ReturnedIsCurrent<W>(s: State<W>, a: Action<W>)
    requires Inv(s) && Enabled(s, a) && Returned(s, a).Some?
    ensures !s.writer.Storing? && Returned(s, a).value == s.payload == s.hist[Finished(s)]
  {
    var r := s.readers[a.j];
    assert ReaderOk(s, r);
    assert Words(r.got) == s.payload;
  }

  /** The copy is handed out exactly when the first load was even and no write has started since. */
  lemma AcceptsIffNoWriteStarted<W>(s: State<W>, j: nat)
    requires Inv(s) && j < |s.readers| && s.readers[j].Copying?
    ensures var s0 := s.readers[j].s0; Accepts(s, j) <==> s0 % 2 == 0 && |s.hist| - 1 == s0 / 2
  {
    assert ReaderOk(s, s.readers[j]);
  }

  // ---------------------------------------------------------------- whole executions

  ghost predicate IsExecution<W>(initial: seq<W>, readers: nat, run: seq<State<W>>, actions: seq<Action<W>>) {
    && |run| == |actions| + 1
    && run[0] == Init(initial, readers)
    && forall i: nat | i < |actions| :: Shape(run[i]) && Enabled(run[i], actions[i]) && run[i + 1] == Step(run[i], actions[i])
  }

  lemma {:induction false} ExecutionKeepsInv<W>(initial: seq<W>, readers: nat, run: seq<State<W>>, actions: seq<Action<W>>, i: nat)
    requires IsExecution(initial, readers, run, actions) && i < |run|
    ensures Inv(run[i])
  {
    if i == 0 {
      InitInv(initial, readers);
    } else {
      ExecutionKeepsInv(initial, readers, run, actions, i - 1);
      StepKeepsInv(run[i - 1], actions[i - 1]);
    }
  }

  /** The values `write` was called with, in order. */
  ghost function Asked<W>(actions: seq<Action<W>>): seq<seq<W>> {
    if actions == [] then []
    else
      var last := actions[|actions| - 1];
      Asked(actions[..|actions| - 1]) + (if last.Write? then [last.value] else [])
  }

  ghost function WithPending<W>(s: State<W>): seq<seq<W>> {
    s.hist + if s.writer.Loaded? then [s.writer.value] else []
  }

  lemma {:induction false} HistoryIsAsked<W>(initial: seq<W>, readers: nat, run: seq<State<W>>, actions: seq<Action<W>>, i: nat)
    requires IsExecution(initial, readers, run, actions) && i < |run|
    ensures WithPending(run[i]) == [initial] + Asked(actions[..i])
  {
    if i > 0 {
      HistoryIsAsked(initial, readers, run, actions, i - 1);
      ExecutionKeepsInv(initial, readers, run, actions, i - 1);
      assert actions[..i][..i - 1] == actions[..i - 1];
      HistoryStep(run[i - 1], actions[i - 1]);
    }
  }

  lemma HistoryStep<W>(s: State<W>, a: Action<W>)
    requires Inv(s) && Enabled(s, a)
    ensures WithPending(Step(s, a)) == WithPending(s) + (if a.Write? then [a.value] else [])
  {
    assert a.MarkOdd? ==> Step(s, a).hist == s.hist + [s.writer.value];
  }

  lemma {:induction false} HistoryGrows<W>(initial: seq<W>, readers: nat, run: seq<State<W>>, actions: seq<Action<W>>, i: nat, k: nat)
    requires IsExecution(initial, readers, run, actions) && i <= k < |run|
    ensures run[i].hist <= run[k].hist && Finished(run[i]) <= Finished(run[k])
    decreases k
  {
    if i < k {
      HistoryGrows(initial, readers, run, actions, i, k - 1);
      ExecutionKeepsInv(initial, readers, run, actions, k - 1);
      StepKeepsInv(run[k - 1], actions[k - 1]);
    }
  }

  /**
   * Linearizable reads: in every execution, a value returned at step i is the initial one or the whole
   * argument of one `write` call, namely the last one finished by then; and a value returned at any later
   * step, by this reader or another, comes from the same write or a later one.
   */
  lemma ReadsAreWholeAndNeverGoBack<W>(initial: seq<W>, readers: nat, run: seq<State<W>>, actions: seq<Action<W>>, i: nat, k: nat)
    returns (v: nat, w: nat)
    requires IsExecution(initial, readers, run, actions) && i <= k < |actions|
    requires Returned(run[i], actions[i]).Some? && Returned(run[k], actions[k]).Some?
    ensures v <= w <= |Asked(actions[..k])| && v == Finished(run[i]) && w == Finished(run[k])
    ensures Returned(run[i], actions[i]).value == ([initial] + Asked(actions[..k]))[v]
    ensures Returned(run[k], actions[k]).value == ([initial] + Asked(actions[..k]))[w]
  {
    ExecutionKeepsInv(initial, readers, run, actions, i);
    ExecutionKeepsInv(initial, readers, run, actions, k);
    ReturnedIsCurrent(run[i], actions[i]);
    ReturnedIsCurrent(run[k], actions[k]);
    HistoryGrows(initial, readers, run, actions, i, k);
    HistoryIsAsked(initial, readers, run, actions, k);
    v, w := |run[i].hist| - 1, |run[k].hist| - 1;
    assert run[k].hist <= [initial] + Asked(actions[..k]);
  }

  // ---------------------------------------------------------------- progress

  /** One reader copying word after word, from word i on, while nobody else moves. */
  ghost function CopyFrom<W>(s: State<W>, j: nat, i: nat): State<W>
    requires j < |s.readers| && s.readers[j].Copying? && |s.readers[j].got| == |s.payload| && i <= |s.payload|
    decreases |s.payload| - i
  {
    if i == |s.payload| then s
    else
      var r := s.readers[j];
      CopyFrom(SetReader(s, j, Copying(r.once, r.s0, r.got[i := Some(s.payload[i])])), j, i + 1)
  }

  lemma {:induction false} CopyFromCopiesAll<W>(s: State<W>, j: nat, i: nat)
    requires j < |s.readers| && s.readers[j].Copying? && |s.readers[j].got| == |s.payload| && i <= |s.payload|
    requires forall k | 0 <= k < i :: s.readers[j].got[k] == Some(s.payload[k])
    ensures var s' := CopyFrom(s, j, i);
      && s'.counter == s.counter && s'.payload == s.payload && |s'.readers| == |s.readers|
      && s'.readers[j].Copying? && s'.readers[j].s0 == s.readers[j].s0 && |s'.readers[j].got| == |s.payload|
      && forall k | 0 <= k < |s.payload| :: s'.readers[j].got[k] == Some(s.payload[k])
    decreases |s.payload| - i
  {
    if i < |s.payload| {
      var r := s.readers[j];
      CopyFromCopiesAll(SetReader(s, j, Copying(r.once, r.s0, r.got[i := Some(s.payload[i])])), j, i + 1);
    }
  }

  /** An attempt that meets no write succeeds: a reader retries only because the writer moved. */
  lemma UndisturbedAttemptReturns<W>(s: State<W>, j: nat)
    requires Inv(s) && j < |s.readers| && s.readers[j].Loading? && !s.writer.Storing?
    ensures var loaded := Step(s, LoadFirst(j));
      && loaded.readers[j].Copying?
      && (var copied := CopyFrom(loaded, j, 0);
          j < |copied.readers| && copied.readers[j].Copying? && Complete(copied.readers[j].got) && Accepts(copied, j)
          && Words(copied.readers[j].got) == s.payload)
  {
    var loaded := Step(s, LoadFirst(j));
    CopyFromCopiesAll(loaded, j, 0);
    assert Words(CopyFrom(loaded, j, 0).readers[j].got) == s.payload;
  }

  /** Whether a call under way is a `try_read`. */
  function Once<W>(r: Reader<W>): bool
    requires !r.Free?
  {
    r.once
  }

  ghost predicate OfReader<W>(a: Action<W>, j: nat) {
    a == LoadFirst(j) || (a.CopyWord? && a.j == j) || a == LoadSecond(j)
  }

  /** Why an attempt comes to nothing: its first load met a write, or a write started since. */
  ghost predicate Disturbed<W>(s: State<W>, a: Action<W>, r: Reader<W>) {
    || (a.LoadFirst? && s.writer.Storing?)
    || (a.LoadSecond? && r.Copying? && (r.s0 % 2 == 1 || |s.hist| - 1 != r.s0 / 2))
  }

  /**
   * How a call ends, over every step of its reader: `read` comes back only with a value and tries again
   * otherwise; `try_read` comes back without one exactly when a write disturbed its only attempt.
   */
  lemma ReadEndsIff<W>(s: State<W>, a: Action<W>, j: nat)
    requires Inv(s) && Enabled(s, a) && OfReader(a, j)
    ensures j < |s.readers| == |Step(s, a).readers| && !s.readers[j].Free?
    ensures var r, r' := s.readers[j], Step(s, a).readers[j];
      && (Returned(s, a).Some? <==> a.LoadSecond? && !Disturbed(s, a, r))
      && (r'.Free? <==> Returned(s, a).Some? || (Once(r) && Disturbed(s, a, r)))
      && (r'.Loading? <==> a.LoadSecond? && !Once(r) && Disturbed(s, a, r))
      && (!r'.Free? ==> Once(r') == Once(r))
  {
    var r := s.readers[j];
    assert ReaderOk(s, r);
    if a.LoadSecond? { AcceptsIffNoWriteStarted(s, j); }
  }

  function Missing<W>(got: seq<Option<W>>): nat {
    if got == [] then 0 else Missing(got[..|got| - 1]) + if got[|got| - 1].None? then 1 else 0
  }

  lemma {:induction false} MissingAfterCopy<W>(got: seq<Option<W>>, i: nat, w: W)
    requires i < |got| && got[i].None?
    ensures Missing(got[i := Some(w)]) == Missing(got) - 1
    decreases |got|
  {
    var n := |got| - 1;
    if i < n {
      MissingAfterCopy(got[..n], i, w);
      assert got[i := Some(w)][..n] == got[..n][i := Some(w)];
    } else {
      assert got[i := Some(w)][..n] == got[..n];
    }
  }

  lemma {:induction false} NothingMissing<W>(got: seq<Option<W>>)
    ensures Missing(got) == 0 <==> Complete(got)
    ensures (forall k | 0 <= k < |got| :: got[k].None?) ==> Missing(got) == |got|
  {
    if got != [] {
      NothingMissing(got[..|got| - 1]);
      assert Complete(got) ==> Complete(got[..|got| - 1]);
    }
  }

  /** Steps of its own left in an attempt: two loads and a copy for every word. */
  function AttemptLeft<W>(r: Reader<W>, words: nat): nat {
    match r
    case Free => 0
    case Loading(_) => words + 2
    case Copying(_, _, got) => Missing(got) + 1
  }

  /** An attempt is bounded: every step of the reader brings it one closer to its end, whatever the writer does. */
  lemma AttemptProgress<W>(s: State<W>, a: Action<W>, j: nat)
    requires Inv(s) && Enabled(s, a) && OfReader(a, j)
    ensures var r, r' := s.readers[j], Step(s, a).readers[j];
      1 <= AttemptLeft(r, |s.payload|) && (AttemptLeft(r, |s.payload|) == 1 <==> a.LoadSecond?)
      && (r'.Copying? ==> AttemptLeft(r', |s.payload|) == AttemptLeft(r, |s.payload|) - 1)
  {
    match a
    case CopyWord(_, i) =>
      MissingAfterCopy(s.readers[j].got, i, s.payload[i]);
    case LoadSecond(_) => NothingMissing(s.readers[j].got);
    case LoadFirst(_) =>
      var none: seq<Option<W>> := seq(|s.payload|, i => None);
      NothingMissing(none);
  }

  lemma {:induction false} ReadBegan<W>(initial: seq<W>, readers: nat, run: seq<State<W>>, actions: seq<Action<W>>, i: nat, j: nat) returns (a: nat)
    requires IsExecution(initial, readers, run, actions) && i < |run| && j < |run[i].readers| && !run[i].readers[j].Free?
    ensures a < i && actions[a] == Read(j, Once(run[i].readers[j]))
    ensures forall m: nat | a < m <= i :: j < |run[m].readers| && !run[m].readers[j].Free? && Once(run[m].readers[j]) == Once(run[i].readers[j])
    decreases i
  {
    if i > 0 {
      ExecutionKeepsInv(initial, readers, run, actions, i - 1);
      ReaderFrame(run[i - 1], actions[i - 1], j);
      if run[i - 1].readers[j].Free? {
        a := i - 1;
      } else {
        a := ReadBegan(initial, readers, run, actions, i - 1, j);
      }
    }
  }

  lemma ReaderFrame<W>(s: State<W>, a: Action<W>, j: nat)
    requires Inv(s) && Enabled(s, a)
    ensures |Step(s, a).readers| == |s.readers|
    ensures j < |s.readers| && !s.readers[j].Free? ==>
      if OfReader(a, j) then Step(s, a).readers[j].Free? || Once(Step(s, a).readers[j]) == Once(s.readers[j])
      else Step(s, a).readers[j] == s.readers[j]
    ensures j < |s.readers| && s.readers[j].Free? ==>
      if a.Read? && a.j == j then Step(s, a).readers[j] == Loading(a.once) else Step(s, a).readers[j] == s.readers[j]
  {}

  /**
   * In every execution each call that comes back was begun as a `read` or as a `try_read`: the one has a
   * value to return, the other has one or was disturbed by a write.
   */
  lemma EveryReadIsAnswered<W>(initial: seq<W>, readers: nat, run: seq<State<W>>, actions: seq<Action<W>>, i: nat, j: nat) returns (a: nat)
    requires IsExecution(initial, readers, run, actions) && i < |actions| && j < |run[i].readers| && !run[i].readers[j].Free?
    requires j < |run[i + 1].readers| && run[i + 1].readers[j].Free?
    ensures a < i && actions[a] == Read(j, Once(run[i].readers[j]))
    ensures forall m: nat | a < m <= i :: j < |run[m].readers| && !run[m].readers[j].Free?
    ensures OfReader(actions[i], j)
    ensures Returned(run[i], actions[i]).Some? || (actions[a].once && Disturbed(run[i], actions[i], run[i].readers[j]))
  {
    ExecutionKeepsInv(initial, readers, run, actions, i);
    a := ReadBegan(initial, readers, run, actions, i, j);
    ReaderFrame(run[i], actions[i], j);
    ReadEndsIff(run[i], actions[i], j);
  }

  // ---------------------------------------------------------------- nobody waits

  /** Words of 0 .. n - 1 not yet stored. */
  function Unstored(done: set<nat>, n: nat): nat {
    if n == 0 then 0 else Unstored(done, n - 1) + if n - 1 in done then 0 else 1
  }

  lemma {:induction false} UnstoredAfter(done: set<nat>, n: nat, i: nat)
    requires i !in done
    ensures Unstored(done + {i}, n) == Unstored(done, n) - if i < n then 1 else 0
  {
    if n > 0 { UnstoredAfter(done, n - 1, i); }
  }

  lemma {:induction false} UnstoredNone(done: set<nat>, n: nat)
    ensures Unstored(done, n) == 0 <==> forall i: nat | i < n :: i in done
    ensures Unstored({}, n) == n
  {
    if n > 0 { UnstoredNone(done, n - 1); }
  }

  /** Steps the writer has left in its call: both counter stores and one store for every word. */
  function WriteLeft<W>(s: State<W>): nat {
    match s.writer
    case Ready => 0
    case Loaded(_, _) => |s.payload| + 2
    case Storing(_, _, done) => Unstored(done, |s.payload|) + 1
  }

  ghost predicate OfWriter<W>(a: Action<W>) {
    a.MarkOdd? || a.StoreWord? || a.MarkEven?
  }

  /**
   * The writer never waits for a reader: inside a call it always has a step to take, and each of them brings
   * the call one closer to its end, after which the counter is even and the whole value is in place.
   */
  lemma WriterNeverWaits<W>(s: State<W>)
    requires Inv(s) && !s.writer.Ready?
    ensures WriteLeft(s) > 0 && exists a: Action<W> :: OfWriter(a) && Enabled(s, a)
    ensures forall a: Action<W> | OfWriter(a) && Enabled(s, a) ::
      && WriteLeft(Step(s, a)) == WriteLeft(s) - 1
      && (Step(s, a).writer.Ready? <==> WriteLeft(s) == 1)
      && (Step(s, a).writer.Ready? ==> Step(s, a).counter % 2 == 0 && Step(s, a).payload == s.writer.value)
  {
    if s.writer.Storing? {
      UnstoredNone(s.writer.done, |s.payload|);
      if i: nat :| i < |s.payload| && i !in s.writer.done {
        assert Enabled(s, StoreWord(i));
      } else {
        assert Enabled(s, MarkEven);
      }
    } else {
      assert Enabled(s, MarkOdd);
    }
    forall a: Action<W> | OfWriter(a) && Enabled(s, a)
      ensures WriteLeft(Step(s, a)) == WriteLeft(s) - 1 && (Step(s, a).writer.Ready? <==> WriteLeft(s) == 1)
      ensures Step(s, a).writer.Ready? ==> Step(s, a).counter % 2 == 0 && Step(s, a).payload == s.writer.value
    {
      WriterStep(s, a);
    }
  }

  lemma WriterStep<W>(s: State<W>, a: Action<W>)
    requires Inv(s) && OfWriter(a) && Enabled(s, a)
    ensures WriteLeft(Step(s, a)) == WriteLeft(s) - 1 && (Step(s, a).writer.Ready? <==> WriteLeft(s) == 1)
    ensures Step(s, a).writer.Ready? ==> Step(s, a).counter % 2 == 0 && Step(s, a).payload == s.writer.value
  {
    match a
    case StoreWord(i) => UnstoredAfter(s.writer.done, |s.payload|, i); UnstoredNone(s.writer.done, |s.payload|);
    case MarkOdd => UnstoredNone({}, |s.payload|);
    case MarkEven => UnstoredNone(s.writer.done, |s.payload|);
  }
}
