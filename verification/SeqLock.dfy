/**
 * The single-writer sequence lock with a payload of several words, as a step machine: the writer
 * makes the counter odd, stores its words one at a time in any order and makes the counter even again;
 * each reader loads the counter, copies the words one at a time in any order and loads the counter
 * again. `hist` is history: the initial value and then every value a write was started with.
 */
module SeqLock {
  import opened Wrappers

  datatype Writer<W> =
    | Ready
    | Loaded(value: seq<W>, s: nat)
    | Storing(value: seq<W>, s: nat, done: set<nat>)

  /** `once` tells `try_read` from `read`; s0 is the first load of the counter. */
  datatype Reader<W> =
    | Free
    | Loading(once: bool)
    | Copying(once: bool, s0: nat, got: seq<Option<W>>)

  datatype State<W> = State(
    counter: nat,
    payload: seq<W>,
    writer: Writer<W>,
    readers: seq<Reader<W>>,
    hist: seq<seq<W>>)

  datatype Action<W> =
    | Write(value: seq<W>)
    | MarkOdd
    | StoreWord(i: nat)
    | MarkEven
    | Read(j: nat, once: bool)
    | LoadFirst(j: nat)
    | CopyWord(j: nat, i: nat)
    | LoadSecond(j: nat)

  function Init<W>(initial: seq<W>, readers: nat): State<W> {
    State(0, initial, Ready, seq(readers, i => Free), [initial])
  }

  ghost predicate Shape<W>(s: State<W>) {
    && s.hist != []
    && (s.writer.Loaded? || s.writer.Storing? ==> |s.writer.value| == |s.payload|)
    && forall j: nat | j < |s.readers| && s.readers[j].Copying? :: |s.readers[j].got| == |s.payload|
  }

  predicate Complete<W>(got: seq<Option<W>>) {
    forall i | 0 <= i < |got| :: got[i].Some?
  }

  function Words<W>(got: seq<Option<W>>): seq<W>
    requires Complete(got)
  {
    seq(|got|, i requires 0 <= i < |got| => got[i].value)
  }

  ghost predicate Enabled<W>(s: State<W>, a: Action<W>) {
    match a
    case Write(value) => s.writer.Ready? && |value| == |s.payload|
    case MarkOdd => s.writer.Loaded?
    case StoreWord(i) => s.writer.Storing? && i < |s.payload| && i !in s.writer.done
    case MarkEven => s.writer.Storing? && forall i: nat | i < |s.payload| :: i in s.writer.done
    case Read(j, _) => j < |s.readers| && s.readers[j].Free?
    case LoadFirst(j) => j < |s.readers| && s.readers[j].Loading?
    case CopyWord(j, i) => j < |s.readers| && s.readers[j].Copying? && i < |s.readers[j].got| && s.readers[j].got[i].None?
    case LoadSecond(j) => j < |s.readers| && s.readers[j].Copying? && Complete(s.readers[j].got)
  }

  function SetReader<W>(s: State<W>, j: nat, r: Reader<W>): State<W>
    requires j < |s.readers|
  {
    s.(readers := s.readers[j := r])
  }

  /** Whether the copy made since the first load is handed to the caller. */
  ghost predicate Accepts<W>(s: State<W>, j: nat)
    requires j < |s.readers| && s.readers[j].Copying?
  {
    s.readers[j].s0 == s.counter && s.readers[j].s0 % 2 == 0
  }

  ghost function Step<W>(s: State<W>, a: Action<W>): State<W>
    requires Shape(s) && Enabled(s, a)
  {
    match a
    case Write(value) => s.(writer := Loaded(value, s.counter))
    case MarkOdd =>
      s.(counter := s.writer.s + 1, writer := Storing(s.writer.value, s.writer.s, {}), hist := s.hist + [s.writer.value])
    case StoreWord(i) =>
      s.(payload := s.payload[i := s.writer.value[i]], writer := Storing(s.writer.value, s.writer.s, s.writer.done + {i}))
    case MarkEven => s.(counter := s.writer.s + 2, writer := Ready)
    case Read(j, once) => SetReader(s, j, Loading(once))
    case LoadFirst(j) =>
      var once := s.readers[j].once;
      // try_read gives up at once on an odd counter; read copies anyway and tries again
      SetReader(s, j, if once && s.counter % 2 == 1 then Free else Copying(once, s.counter, seq(|s.payload|, i => None)))
    case CopyWord(j, i) =>
      var r := s.readers[j];
      SetReader(s, j, Copying(r.once, r.s0, r.got[i := Some(s.payload[i])]))
    case LoadSecond(j) =>
      SetReader(s, j, if Accepts(s, j) || s.readers[j].once then Free else Loading(false))
  }

  /** What the caller of `read`, or of `try_read` with result true, gets when step `a` is taken. */
  ghost function Returned<W>(s: State<W>, a: Action<W>): Option<seq<W>>
    requires Shape(s) && Enabled(s, a)
  {
    if a.LoadSecond? && Accepts(s, a.j) then Some(Words(s.readers[a.j].got)) else None
  }

  // ---------------------------------------------------------------- invariant

  /** Writes finished so far; also the index in `hist` of the value a reader may return now. */
  ghost function Finished<W>(s: State<W>): int {
    if s.writer.Storing? then |s.hist| - 2 else |s.hist| - 1
  }

  ghost predicate WriterOk<W>(s: State<W>)
    requires Shape(s)
  {
    var last := |s.hist| - 1;
    && (forall k | 0 <= k <= last :: |s.hist[k]| == |s.payload|)
    && (match s.writer
        case Ready => s.counter == 2 * last && s.payload == s.hist[last]
        case Loaded(_, c) => s.counter == c == 2 * last && s.payload == s.hist[last]
        case Storing(value, c, done) =>
          && last >= 1
          && s.counter == c + 1 == 2 * last - 1
          && value == s.hist[last]
          && forall i | 0 <= i < |s.payload| :: s.payload[i] == s.hist[if i in done then last else last - 1][i])
  }

  /** What was copied while the counter did not move belongs to one value. */
  ghost predicate ReaderOk<W>(s: State<W>, r: Reader<W>)
    requires Shape(s)
  {
    r.Copying? ==>
      && r.s0 <= s.counter
      && (r.s0 == s.counter && r.s0 % 2 == 0 ==>
            |r.got| == |s.payload| && forall i | 0 <= i < |r.got| :: r.got[i].Some? ==> r.got[i].value == s.payload[i])
  }

  ghost predicate Inv<W>(s: State<W>) {
    Shape(s) && WriterOk(s) && forall j: nat | j < |s.readers| :: ReaderOk(s, s.readers[j])
  }

  lemma InitInv<W>(initial: seq<W>, readers: nat)
    ensures Inv(Init(initial, readers))
  {}

  lemma WriterStepKeepsInv<W>(s: State<W>, a: Action<W>)
    requires Inv(s) && Enabled(s, a) && (a.Write? || a.MarkOdd? || a.StoreWord? || a.MarkEven?)
    ensures Inv(Step(s, a))
  {
    var s' := Step(s, a);
    if a.MarkEven? {
      assert s'.payload == s'.hist[|s'.hist| - 1];
    }
    forall j: nat | j < |s'.readers| ensures ReaderOk(s', s'.readers[j]) { assert ReaderOk(s, s.readers[j]); }
  }

  lemma ReaderStepKeepsInv<W>(s: State<W>, a: Action<W>)
    requires Inv(s) && Enabled(s, a) && (a.Read? || a.LoadFirst? || a.CopyWord? || a.LoadSecond?)
    ensures Inv(Step(s, a))
  {
    var s' := Step(s, a);
    forall j: nat | j < |s'.readers| ensures ReaderOk(s', s'.readers[j]) { assert ReaderOk(s, s.readers[j]); }
  }

  lemma StepKeepsInv<W>(s: State<W>, a: Action<W>)
    requires Inv(s) && Enabled(s, a)
    ensures Inv(Step(s, a)) && Finished(s) <= Finished(Step(s, a)) && s.hist <= Step(s, a).hist
  {
    if a.Write? || a.MarkOdd? || a.StoreWord? || a.MarkEven? { WriterStepKeepsInv(s, a); }
    else { ReaderStepKeepsInv(s, a); }
  }
}
