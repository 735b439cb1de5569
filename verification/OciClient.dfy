/**
 * The statement handle's call protocol and the drivers above it: the batch-fetch loop with its reused
 * buffers, the single-row select and the chunked insert, against a server whose every call may fail,
 * may report its state late or early, and leaves output buffers alone for a NULL.
 */
module OciClient {
  import opened Wrappers

  const TWO_32: nat := 0x1_0000_0000

  /** Row counts reach the call interface as 32 bits. */
  function Count32(n: nat): (c: nat)
    ensures c <= n
  {
    n % TWO_32
  }

  datatype StmtState = Unprepared | Prepared | Executed | EndOfFetch

  /** What the server's statement-state attribute says after a call. */
  datatype Reported = Initialized | AsExecuted | AtEnd

  /** A call's own status; only Failed classifies as an error. */
  datatype CallStatus = Success | NoData | Failed

  /**
   * The server's conduct in one call, data aside: whether it fails, whether it announces the end together
   * with the last rows or only with the next empty batch, and the state it reports.
   */
  datatype Answer = Answer(fails: bool, eager: bool, reports: Reported)

  /**
   * How a driver stands after the rounds of its loop that are looked at: it returned a call's status, the
   * handle threw a state error, or it is still running.
   */
  datatype Outcome = Returned(status: CallStatus) | StateError | Running

  /** A column value as the server holds it; None is NULL. */
  type Row = seq<Option<string>>

  datatype Kind = Plain | Optional | FixedString | Lob

  datatype Cell = PlainCell(v: string) | OptCell(o: Option<string>) | FixedCell(s: string) | LobCell(content: string)

  // ---------------------------------------------------------------- statement handle

  /** The two reported states are taken over; the third leaves the handle as it was. */
  function Sync(state: StmtState, reported: Reported): StmtState {
    match reported
    case Initialized => state
    case AsExecuted => Executed
    case AtEnd => EndOfFetch
  }

  predicate CanBind(s: StmtState) { s == Prepared || s == Executed }
  predicate CanDefine(s: StmtState) { s == Prepared || s == Executed || s == EndOfFetch }
  predicate CanFetch(s: StmtState) { s == Executed || s == EndOfFetch }

  /** The calls a handle takes; execute and fetch with the state the server then reports. */
  datatype Call =
    | PrepareCall | BindInputCall | BindOutputCall | PrefetchCall | DescribeCall
    | ExecuteCall(reports: Reported) | FetchCall(reports: Reported)

  /** The states a call is accepted in; everywhere else it raises a state error. */
  predicate Guard(s: StmtState, c: Call) {
    match c
    case PrepareCall => s == Unprepared
    case BindInputCall => CanBind(s)
    case BindOutputCall => CanDefine(s)
    case PrefetchCall => s == Prepared
    case DescribeCall => CanFetch(s)
    case ExecuteCall(_) => CanBind(s)
    case FetchCall(_) => CanFetch(s)
  }

  function AfterCall(s: StmtState, c: Call): StmtState {
    match c
    case PrepareCall => Prepared
    case ExecuteCall(r) => Sync(s, r)
    case FetchCall(r) => Sync(s, r)
    case _ => s
  }

  class Statement {
    var state: StmtState

    constructor ()
      ensures state == Unprepared
    {
      state := Unprepared;
    }

    method Prepare() returns (raised: bool)
      modifies this
      ensures raised <==> !Guard(old(state), PrepareCall)
      ensures state == if raised then old(state) else AfterCall(old(state), PrepareCall)
    {
      raised := state != Unprepared;
      if !raised { state := Prepared; }
    }

    /** Input binds, single or array. */
    method BindInput() returns (raised: bool)
      ensures raised <==> !Guard(state, BindInputCall)
    {
      raised := state != Prepared && state != Executed;
    }

    method BindOutput() returns (raised: bool)
      ensures raised <==> !Guard(state, BindOutputCall)
    {
      raised := state != Prepared && state != Executed && state != EndOfFetch;
    }

    method BindOutputs(count: nat) returns (raised: bool)
      ensures raised <==> count > 0 && !Guard(state, BindOutputCall)
    {
      for i := 0 to count
        invariant i == 0 || CanDefine(state)
      {
        raised := BindOutput();
        if raised { return; }
      }
      raised := false;
    }

    method SetPrefetch() returns (raised: bool)
      ensures raised <==> !Guard(state, PrefetchCall)
    {
      raised := state != Prepared;
    }

    method Describe() returns (raised: bool)
      ensures raised <==> !Guard(state, DescribeCall)
    {
      raised := state != Executed && state != EndOfFetch;
    }

    /** `bound` is what the input binds point at; `iters` rows of it are sent. */
    method Execute(server: Server, bound: seq<Row>, iters: nat) returns (out: Outcome)
      requires iters <= |bound|
      modifies this, server
      ensures server.cursor == old(server.cursor)
      ensures out.StateError? <==> !CanBind(old(state))
      ensures out.StateError? ==> state == old(state) && server.calls == old(server.calls) && server.log == old(server.log)
      ensures var a := server.script(old(server.calls)); !out.StateError? ==>
        && out == Returned(if a.fails then Failed else Success)
        && state == AfterCall(old(state), ExecuteCall(a.reports))
        && server.calls == old(server.calls) + 1
        && server.log == old(server.log) + if a.fails then [] else bound[..iters]
    {
      if state != Prepared && state != Executed { return StateError; }
      var status, reports := server.StmtExecute(bound, iters);
      state := Sync(state, reports);
      out := Returned(status);
    }

    /** An execute that also fetches one row into the caller's own variables. */
    method ExecuteOne(server: Server, kinds: seq<Kind>, outs: array<Cell>, isNull: array<bool>) returns (out: Outcome)
      requires |kinds| == outs.Length == isNull.Length && Rectangular(server.rows, |kinds|) && server.cursor == 0
      requires forall i | 0 <= i < |kinds| :: !isNull[i]
      modifies this, server, outs, isNull
      ensures out.StateError? <==> !CanBind(old(state))
      ensures var a := server.script(old(server.calls)); !out.StateError? ==>
        && out == Returned(FetchStatus(|server.rows|, FetchCount(|server.rows|, 0, 1, a), FetchCount(|server.rows|, 0, 1, a), a))
        && (forall c: nat | c < |kinds| :: outs[c] == FetchedCell(kinds[c], old(outs[c]), server.rows, c, a))
        && (forall c: nat | c < |kinds| ::
              isNull[c] <==> kinds[c] == FixedString && !a.fails && server.rows != [] && server.rows[0][c].None?)
    {
      if state != Prepared && state != Executed { return StateError; }
      var a := server.script(server.calls);
      server.calls := server.calls + 1;
      if !a.fails && server.rows != [] {
        for i := 0 to |kinds|
          modifies outs, isNull
          invariant forall c: nat | c < i :: outs[c] == FetchedCell(kinds[c], old(outs[c]), server.rows, c, a)
          invariant forall c: nat | i <= c < |kinds| :: outs[c] == old(outs[c])
          invariant forall c: nat | c < |kinds| :: isNull[c] <==> c < i && kinds[c] == FixedString && server.rows[0][c].None?
        {
          outs[i] := Landed(kinds[i], server.rows[0][i], outs[i]);
          if kinds[i] == FixedString { isNull[i] := server.rows[0][i].None?; }
        }
        server.cursor := 1;
      }
      state := Sync(state, a.reports);
      var fetched := if a.fails || server.rows == [] then 0 else 1;
      out := Returned(FetchStatus(|server.rows|, fetched, fetched, a));
    }

    method Fetch(server: Server, nrows: nat, b: Buffers) returns (out: Outcome, fetched: nat)
      requires b.Valid() && b.Holds(server.rows) && nrows <= b.cells.Length0 && server.cursor <= |server.rows|
      modifies this, server, b.cells, b.nulls, b.staging
      ensures out.StateError? <==> !CanFetch(old(state))
      ensures out.StateError? ==> state == old(state) && server.calls == old(server.calls) && server.cursor == old(server.cursor)
      ensures server.log == old(server.log)
      ensures var a := server.script(old(server.calls)); !out.StateError? ==>
        && state == AfterCall(old(state), FetchCall(a.reports))
        && server.calls == old(server.calls) + 1
        && fetched == FetchCount(|server.rows|, old(server.cursor), nrows, a)
        && server.cursor == old(server.cursor) + fetched
        && out == Returned(FetchStatus(|server.rows|, server.cursor, fetched, a))
      ensures !out.StateError? ==>
        && (forall r, c | 0 <= r < fetched && 0 <= c < |b.kinds| ::
              b.Transferred(r, c, server.rows[old(server.cursor) + r][c], old(b.cells[r, c])))
        && (forall r, c | fetched <= r < b.cells.Length0 && 0 <= c < |b.kinds| :: b.cells[r, c] == old(b.cells[r, c]))
    {
      if state != Executed && state != EndOfFetch { return StateError, 0; }
      var status, reports;
      status, reports, fetched := server.StmtFetch(nrows, b);
      state := Sync(state, reports);
      out := Returned(status);
    }
  }

  // ---------------------------------------------------------------- the protocol over whole histories

  /** The state after a history of calls, and whether none of them raised. */
  function StateAfter(h: seq<Call>): StmtState {
    if h == [] then Unprepared else AfterCall(StateAfter(h[..|h| - 1]), h[|h| - 1])
  }

  predicate Accepted(h: seq<Call>) {
    h == [] || (Accepted(h[..|h| - 1]) && Guard(StateAfter(h[..|h| - 1]), h[|h| - 1]))
  }

  /** The last state the server reported that the handle takes over. */
  function LastReport(h: seq<Call>): Option<Reported> {
    if h == [] then None
    else
      var c := h[|h| - 1];
      if (c.ExecuteCall? || c.FetchCall?) && c.reports != Initialized then Some(c.reports) else LastReport(h[..|h| - 1])
  }

  lemma {:induction false} StateIsHistory(h: seq<Call>)
    requires Accepted(h)
    ensures StateAfter(h) ==
      match LastReport(h)
      case Some(AtEnd) => EndOfFetch
      case Some(_) => Executed
      case None => if h == [] then Unprepared else Prepared
    ensures LastReport(h) != Some(Initialized) && (LastReport(h).Some? ==> h != [])
  {
    if h != [] { StateIsHistory(h[..|h| - 1]); }
  }

  /**
   * The protocol in terms of what happened before, for every history of calls none of which raised: the
   * first call must be the one prepare; an input bind or an execute is refused exactly while the last
   * report is the end of the fetch; a fetch or a describe needs a report; the prefetch setting must come
   * before any report; an output bind is never refused again.
   */
  lemma CallAcceptedIff(h: seq<Call>, c: Call)
    requires Accepted(h)
    ensures Accepted(h + [c]) <==>
      match c
      case PrepareCall => h == []
      case BindInputCall => h != [] && LastReport(h) != Some(AtEnd)
      case ExecuteCall(_) => h != [] && LastReport(h) != Some(AtEnd)
      case BindOutputCall => h != []
      case PrefetchCall => h != [] && LastReport(h).None?
      case DescribeCall => LastReport(h).Some?
      case FetchCall(_) => LastReport(h).Some?
  {
    StateIsHistory(h);
    assert (h + [c])[..|h|] == h;
  }

  // ---------------------------------------------------------------- server

  /** Rows handed over by one fetch call. */
  function FetchCount(total: nat, cursor: nat, nrows: nat, a: Answer): nat
    requires cursor <= total
  {
    if a.fails then 0 else if cursor + nrows <= total then nrows else total - cursor
  }

  /** The end is announced with the last rows, or, by a server that is not eager, once nothing came. */
  function FetchStatus(total: nat, cursor: nat, fetched: nat, a: Answer): CallStatus {
    if a.fails then Failed
    else if cursor == total && (fetched == 0 || a.eager) then NoData
    else Success
  }

  /** A result set with its cursor, and the rows received by executed inserts. */
  class Server {
    const rows: seq<Row>
    const script: nat -> Answer
    var calls: nat
    var cursor: nat
    var log: seq<Row>

    constructor (rows: seq<Row>, script: nat -> Answer)
      ensures this.rows == rows && this.script == script && calls == 0 && cursor == 0 && log == []
    {
      this.rows, this.script, calls, cursor, log := rows, script, 0, 0, [];
    }

    method StmtExecute(bound: seq<Row>, iters: nat) returns (status: CallStatus, reports: Reported)
      requires iters <= |bound|
      modifies this
      ensures cursor == old(cursor) && calls == old(calls) + 1
      ensures var a := script(old(calls));
        reports == a.reports && status == (if a.fails then Failed else Success)
        && log == old(log) + if a.fails then [] else bound[..iters]
    {
      var a := script(calls);
      calls := calls + 1;
      if !a.fails { log := log + bound[..iters]; }
      return if a.fails then Failed else Success, a.reports;
    }

    method StmtFetch(nrows: nat, b: Buffers) returns (status: CallStatus, reports: Reported, fetched: nat)
      requires b.Valid() && b.Holds(rows) && nrows <= b.cells.Length0 && cursor <= |rows|
      modifies this, b.cells, b.nulls, b.staging
      ensures calls == old(calls) + 1 && log == old(log)
      ensures var a := script(old(calls));
        reports == a.reports && fetched == FetchCount(|rows|, old(cursor), nrows, a)
        && cursor == old(cursor) + fetched && status == FetchStatus(|rows|, cursor, fetched, a)
      ensures forall r, c | 0 <= r < fetched && 0 <= c < |b.kinds| ::
        b.Transferred(r, c, rows[old(cursor) + r][c], old(b.cells[r, c]))
      ensures forall r, c | fetched <= r < b.cells.Length0 && 0 <= c < |b.kinds| :: b.cells[r, c] == old(b.cells[r, c])
    {
      var a := script(calls);
      calls := calls + 1;
      fetched := 0;
      if !a.fails {
        while fetched < nrows && cursor < |rows|
          invariant fetched <= nrows && cursor == old(cursor) + fetched <= |rows|
          invariant calls == old(calls) + 1 && log == old(log)
          invariant forall r, c | 0 <= r < fetched && 0 <= c < |b.kinds| ::
            b.Transferred(r, c, rows[old(cursor) + r][c], old(b.cells[r, c]))
          invariant forall r, c | fetched <= r < b.cells.Length0 && 0 <= c < |b.kinds| :: b.cells[r, c] == old(b.cells[r, c])
          decreases nrows - fetched
        {
          b.PutRow(fetched, rows[cursor]);
          fetched, cursor := fetched + 1, cursor + 1;
        }
      }
      return FetchStatus(|rows|, cursor, fetched, a), a.reports, fetched;
    }
  }

  // ---------------------------------------------------------------- output buffers

  function Blank(kind: Kind): Cell {
    match kind
    case Plain => PlainCell("")
    case Optional => OptCell(None)
    case FixedString => FixedCell("")
    case Lob => LobCell("")
  }

  /** What the server does to a row slot's own cell; the other kinds go through staging. */
  function Landed(kind: Kind, v: Option<string>, before: Cell): Cell {
    match v
    case None => before
    case Some(x) => if kind == Plain then PlainCell(x) else if kind == FixedString then FixedCell(x) else before
  }

  /** What the program then makes of the cell, its indicator and its staging slot. */
  function AfterApply(kind: Kind, cell: Cell, isNull: bool, staged: string): Cell {
    match kind
    case Plain => cell
    case Optional => OptCell(if isNull then None else Some(staged))
    case FixedString => if isNull then FixedCell("") else cell
    case Lob => LobCell(if isNull then "" else staged)
  }

  /** The batch of row structs with the indicator and staging arrays beside it, all reused by every fetch. */
  class Buffers {
    const kinds: seq<Kind>
    const cells: array2<Cell>
    const nulls: array2<bool>
    const staging: array2<string>

    ghost predicate Valid() {
      && cells.Length1 == nulls.Length1 == staging.Length1 == |kinds|
      && cells.Length0 == nulls.Length0 == staging.Length0
    }

    ghost predicate Holds(rows: seq<Row>) {
      forall row | row in rows :: |row| == |kinds|
    }

    constructor (kinds: seq<Kind>, n: nat)
      ensures Valid() && this.kinds == kinds && cells.Length0 == n
      ensures fresh(cells) && fresh(nulls) && fresh(staging)
      ensures forall r, c | 0 <= r < n && 0 <= c < |kinds| :: cells[r, c] == Blank(kinds[c])
    {
      this.kinds := kinds;
      cells := new Cell[n, |kinds|]((r, c) requires 0 <= c < |kinds| => Blank(kinds[c]));
      nulls := new bool[n, |kinds|]((r, c) => false);
      staging := new string[n, |kinds|]((r, c) => "");
    }

    /** The slot holds value v as the server writes it, over the cell content `before`. */
    ghost predicate Transferred(r: int, c: int, v: Option<string>, before: Cell)
      requires Valid() && 0 <= r < cells.Length0 && 0 <= c < |kinds|
      reads cells, nulls, staging
    {
      && cells[r, c] == Landed(kinds[c], v, before)
      && (kinds[c] != Plain ==> nulls[r, c] == v.None?)
      && ((kinds[c] == Optional || kinds[c] == Lob) && v.Some? ==> staging[r, c] == v.value)
    }

    method PutRow(r: nat, row: Row)
      requires Valid() && r < cells.Length0 && |row| == |kinds|
      modifies cells, nulls, staging
      ensures forall c | 0 <= c < |kinds| :: Transferred(r, c, row[c], old(cells[r, c]))
      ensures forall k, c | 0 <= k < cells.Length0 && 0 <= c < |kinds| && k != r ::
        cells[k, c] == old(cells[k, c]) && nulls[k, c] == old(nulls[k, c]) && staging[k, c] == old(staging[k, c])
    {
      for i := 0 to |kinds|
        invariant forall c | 0 <= c < i :: Transferred(r, c, row[c], old(cells[r, c]))
        invariant forall c | i <= c < |kinds| :: cells[r, c] == old(cells[r, c])
        invariant forall k, c | 0 <= k < cells.Length0 && 0 <= c < |kinds| && k != r ::
          cells[k, c] == old(cells[k, c]) && nulls[k, c] == old(nulls[k, c]) && staging[k, c] == old(staging[k, c])
      {
        cells[r, i] := Landed(kinds[i], row[i], cells[r, i]);
        if kinds[i] != Plain { nulls[r, i] := row[i].None?; }
        if (kinds[i] == Optional || kinds[i] == Lob) && row[i].Some? { staging[r, i] := row[i].value; }
      }
    }

    function RowCells(r: nat): (row: seq<Cell>)
      requires r < cells.Length0 && cells.Length1 == |kinds|
      reads cells
      ensures |row| == |kinds| && forall c | 0 <= c < |kinds| :: row[c] == cells[r, c]
    {
      seq(|kinds|, c requires 0 <= c < |kinds| reads cells => cells[r, c])
    }

    /** The post-fetch pass over one row. */
    method ApplyRow(r: nat)
      requires Valid() && r < cells.Length0
      modifies cells
      ensures forall c | 0 <= c < |kinds| :: cells[r, c] == AfterApply(kinds[c], old(cells[r, c]), nulls[r, c], staging[r, c])
      ensures forall k, c | 0 <= k < cells.Length0 && 0 <= c < |kinds| && k != r :: cells[k, c] == old(cells[k, c])
    {
      for i := 0 to |kinds|
        invariant forall c | 0 <= c < i :: cells[r, c] == AfterApply(kinds[c], old(cells[r, c]), nulls[r, c], staging[r, c])
        invariant forall c | i <= c < |kinds| :: cells[r, c] == old(cells[r, c])
        invariant forall k, c | 0 <= k < cells.Length0 && 0 <= c < |kinds| && k != r :: cells[k, c] == old(cells[k, c])
      {
        cells[r, i] := AfterApply(kinds[i], cells[r, i], nulls[r, i], staging[r, i]);
      }
    }
  }

  // ---------------------------------------------------------------- what a batch fetch delivers

  /** Rows delivered in all, and the last call's status, going on from a cursor and a call number. */
  function LoopEnd(total: nat, n: nat, script: nat -> Answer, cursor: nat, call: nat): (nat, CallStatus)
    requires n >= 1 && cursor <= total
    decreases total - cursor
  {
    var a := script(call);
    var next := cursor + FetchCount(total, cursor, n, a);
    var status := FetchStatus(total, next, next - cursor, a);
    if status != Success then (next, status) else LoopEnd(total, n, script, next, call + 1)
  }

  /** The same for a loop that need not end: where it stands after some rounds. */
  function LoopWithin(total: nat, n: nat, script: nat -> Answer, cursor: nat, call: nat, rounds: nat): (nat, Outcome)
    requires cursor <= total
    decreases rounds
  {
    if rounds == 0 then (cursor, Running)
    else
      var a := script(call);
      var next := cursor + FetchCount(total, cursor, n, a);
      var status := FetchStatus(total, next, next - cursor, a);
      if status != Success then (next, Returned(status)) else LoopWithin(total, n, script, next, call + 1, rounds - 1)
  }

  /** What a plain cell of row g shows: the last non-NULL value its buffer slot ever received. */
  function PlainSeen(rows: seq<Row>, n: nat, g: int, c: nat): string
    requires g < |rows| && forall row | row in rows :: c < |row|
    decreases g
  {
    if g < 0 then "" else if rows[g][c].Some? then rows[g][c].value else if n == 0 then "" else PlainSeen(rows, n, g - n, c)
  }

  function TextOf(v: Option<string>): string {
    if v.Some? then v.value else ""
  }

  /** A cell as its own server value determines it. */
  function Converted(kind: Kind, v: Option<string>): Cell {
    match kind
    case Plain => PlainCell(TextOf(v))
    case Optional => OptCell(v)
    case FixedString => FixedCell(TextOf(v))
    case Lob => LobCell(TextOf(v))
  }

  ghost predicate Rectangular(rows: seq<Row>, width: nat) {
    forall row | row in rows :: |row| == width
  }

  function CellOf(rows: seq<Row>, kinds: seq<Kind>, n: nat, g: nat, c: nat): Cell
    requires g < |rows| && c < |kinds| && Rectangular(rows, |kinds|)
  {
    if kinds[c] == Plain then PlainCell(PlainSeen(rows, n, g, c)) else Converted(kinds[c], rows[g][c])
  }

  /** The batch just handed over, row by row. */
  ghost predicate IsRow(rows: seq<Row>, kinds: seq<Kind>, n: nat, g: nat, row: seq<Cell>)
    requires g < |rows| && Rectangular(rows, |kinds|)
  {
    |row| == |kinds| && forall c: nat | c < |kinds| :: row[c] == CellOf(rows, kinds, n, g, c)
  }

  /** The first |out| rows of the result set, in order. */
  ghost predicate DeliveredRows(rows: seq<Row>, kinds: seq<Kind>, n: nat, out: seq<seq<Cell>>)
    requires Rectangular(rows, |kinds|)
  {
    |out| <= |rows| && forall g: nat | g < |out| :: IsRow(rows, kinds, n, g, out[g])
  }

  ghost function Flat<T>(batches: seq<seq<T>>): seq<T> {
    if batches == [] then [] else Flat(batches[..|batches| - 1]) + batches[|batches| - 1]
  }

  lemma FlatAppend<T>(batches: seq<seq<T>>, b: seq<T>)
    ensures Flat(batches + [b]) == Flat(batches) + b
  {
    assert (batches + [b])[..|batches|] == batches;
  }

  /** Every slot's plain cells hold what the last row written there left. */
  ghost predicate SlotsCurrent(b: Buffers, rows: seq<Row>, n: nat, cursor: nat)
    requires b.Valid() && n <= b.cells.Length0 && cursor <= |rows| && Rectangular(rows, |b.kinds|)
    reads b.cells
  {
    forall r: nat, c: nat | r < n && c < |b.kinds| && b.kinds[c] == Plain ::
      b.cells[r, c] == PlainCell(PlainSeen(rows, n, cursor - n + r, c))
  }

  /** The post-fetch pass over a batch, and the rows as handed over. */
  method ApplyBatch(b: Buffers, fetched: nat) returns (batch: seq<seq<Cell>>)
    requires b.Valid() && fetched <= b.cells.Length0
    modifies b.cells
    ensures |batch| == fetched
    ensures forall r: nat | r < fetched :: |batch[r]| == |b.kinds|
    ensures forall r: nat, c: nat | r < fetched && c < |b.kinds| ::
      batch[r][c] == AfterApply(b.kinds[c], old(b.cells[r, c]), b.nulls[r, c], b.staging[r, c])
    ensures forall r: nat, c: nat | r < b.cells.Length0 && c < |b.kinds| && b.kinds[c] == Plain ::
      b.cells[r, c] == old(b.cells[r, c])
  {
    batch := [];
    for row := 0 to fetched
      invariant |batch| == row
      invariant forall r: nat | r < row :: |batch[r]| == |b.kinds|
      invariant forall r: nat, c: nat | r < row && c < |b.kinds| ::
        batch[r][c] == AfterApply(b.kinds[c], old(b.cells[r, c]), b.nulls[r, c], b.staging[r, c])
      invariant forall r: nat, c: nat | row <= r < b.cells.Length0 && c < |b.kinds| :: b.cells[r, c] == old(b.cells[r, c])
      invariant forall r: nat, c: nat | r < row && c < |b.kinds| && b.kinds[c] == Plain :: b.cells[r, c] == old(b.cells[r, c])
    {
      b.ApplyRow(row);
      batch := batch + [b.RowCells(row)];
    }
  }

  /** One cell: what the server wrote over a slot, once applied, is the cell of its own row. */
  lemma SlotBecomesCell(rows: seq<Row>, kinds: seq<Kind>, n: nat, g: nat, c: nat, before: Cell, cell: Cell, isNull: bool, staged: string)
    requires g < |rows| && c < |kinds| && Rectangular(rows, |kinds|)
    requires cell == Landed(kinds[c], rows[g][c], before)
    requires kinds[c] != Plain ==> isNull == rows[g][c].None?
    requires (kinds[c] == Optional || kinds[c] == Lob) && rows[g][c].Some? ==> staged == rows[g][c].value
    requires kinds[c] == Plain ==> before == PlainCell(PlainSeen(rows, n, g - n, c))
    ensures AfterApply(kinds[c], cell, isNull, staged) == CellOf(rows, kinds, n, g, c)
    ensures kinds[c] == Plain ==> cell == PlainCell(PlainSeen(rows, n, g, c))
  {}

  /** One round of the loop: fetch, apply row by row, hand the batch over. */
  method FetchBatch(stmt: Statement, server: Server, b: Buffers, n: nat) returns (out: Outcome, batch: seq<seq<Cell>>)
    requires b.Valid() && n <= b.cells.Length0 && server.cursor <= |server.rows|
    requires Rectangular(server.rows, |b.kinds|)
    requires server.cursor < |server.rows| ==> SlotsCurrent(b, server.rows, n, server.cursor)
    modifies stmt, server, b.cells, b.nulls, b.staging
    ensures CanFetch(stmt.state) == CanFetch(old(stmt.state)) && server.log == old(server.log) && server.cursor <= |server.rows|
    ensures out.StateError? <==> !CanFetch(stmt.state)
    ensures var a := server.script(old(server.calls)); !out.StateError? ==>
      && server.calls == old(server.calls) + 1
      && server.cursor == old(server.cursor) + FetchCount(|server.rows|, old(server.cursor), n, a)
      && out == Returned(FetchStatus(|server.rows|, server.cursor, server.cursor - old(server.cursor), a))
      && |batch| == server.cursor - old(server.cursor)
    ensures !out.StateError? ==> BatchIs(server.rows, b.kinds, n, old(server.cursor), batch)
    ensures !out.StateError? && out.status != Failed && server.cursor < |server.rows| ==> SlotsCurrent(b, server.rows, n, server.cursor)
  {
    hide CellOf;
    hide PlainSeen;
    ghost var start := server.cursor;
    var fetched;
    out, fetched := stmt.Fetch(server, n, b);
    if out.StateError? || out.status == Failed { return out, []; }
    forall r: nat, c: nat | r < fetched && c < |b.kinds|
      ensures AfterApply(b.kinds[c], b.cells[r, c], b.nulls[r, c], b.staging[r, c]) == CellOf(server.rows, b.kinds, n, start + r, c)
      ensures b.kinds[c] == Plain ==> b.cells[r, c] == PlainCell(PlainSeen(server.rows, n, start + r, c))
    {
      var before := old(b.cells[r, c]);
      assert b.Transferred(r, c, server.rows[start + r][c], before);
      assert b.kinds[c] == Plain ==> before == PlainCell(PlainSeen(server.rows, n, start - n + r, c));
      SlotBecomesCell(server.rows, b.kinds, n, start + r, c, before, b.cells[r, c], b.nulls[r, c], b.staging[r, c]);
    }
    label landed:
    batch := ApplyBatch(b, fetched);
    forall r: nat | r < fetched ensures IsRow(server.rows, b.kinds, n, start + r, batch[r]) {
      forall c: nat | c < |b.kinds| ensures batch[r][c] == CellOf(server.rows, b.kinds, n, start + r, c) {
        assert batch[r][c] == old@landed(AfterApply(b.kinds[c], b.cells[r, c], b.nulls[r, c], b.staging[r, c]));
      }
    }
  }

  /** `batch` is the rows of the result set from `start` on. */
  ghost predicate BatchIs(rows: seq<Row>, kinds: seq<Kind>, n: nat, start: nat, batch: seq<seq<Cell>>)
    requires Rectangular(rows, |kinds|)
  {
    start + |batch| <= |rows| && forall r: nat | r < |batch| :: IsRow(rows, kinds, n, start + r, batch[r])
  }

  lemma BatchExtends(rows: seq<Row>, kinds: seq<Kind>, n: nat, out: seq<seq<Cell>>, batch: seq<seq<Cell>>)
    requires Rectangular(rows, |kinds|) && DeliveredRows(rows, kinds, n, out) && BatchIs(rows, kinds, n, |out|, batch)
    ensures DeliveredRows(rows, kinds, n, out + batch)
  {
    forall g: nat | g < |out + batch| ensures IsRow(rows, kinds, n, g, (out + batch)[g]) {
      if g >= |out| { assert IsRow(rows, kinds, n, |out| + (g - |out|), batch[g - |out|]); }
    }
  }

  /**
   * Fetch until the call status says the end, or an error; hand every batch over. The loop need not end,
   * so it is looked at for `rounds` rounds.
   */
  method FetchLoop(stmt: Statement, server: Server, b: Buffers, n: nat, rounds: nat) returns (batches: seq<seq<seq<Cell>>>, end: Outcome)
    requires b.Valid() && n <= b.cells.Length0 && server.cursor == 0 && rounds >= 1
    requires Rectangular(server.rows, |b.kinds|)
    requires forall r: nat, c: nat | r < n && c < |b.kinds| :: b.cells[r, c] == Blank(b.kinds[c])
    modifies stmt, server, b.cells, b.nulls, b.staging
    ensures server.log == old(server.log)
    ensures end.StateError? <==> !CanFetch(old(stmt.state))
    ensures end.StateError? ==> batches == []
    ensures !end.StateError? ==> (|Flat(batches)|, end) == LoopWithin(|server.rows|, n, server.script, 0, old(server.calls), rounds)
    ensures DeliveredRows(server.rows, b.kinds, n, Flat(batches))
  {
    batches, end := [], Running;
    var left := rounds;
    ghost var whole := LoopWithin(|server.rows|, n, server.script, 0, server.calls, rounds);
    assert SlotsCurrent(b, server.rows, n, 0);
    hide SlotsCurrent;
    hide IsRow;
    hide DeliveredRows;
    hide BatchIs;
    hide LoopWithin;
    hide Flat;
    hide FetchCount;
    hide FetchStatus;
    NothingDelivered(server.rows, b.kinds, n);
    while left > 0
      invariant left <= rounds && end == Running && (left < rounds ==> CanFetch(stmt.state))
      invariant CanFetch(stmt.state) == CanFetch(old(stmt.state)) && (left == rounds ==> batches == [])
      invariant server.cursor <= |server.rows| && server.log == old(server.log)
      invariant server.cursor < |server.rows| ==> SlotsCurrent(b, server.rows, n, server.cursor)
      invariant |Flat(batches)| == server.cursor && DeliveredRows(server.rows, b.kinds, n, Flat(batches))
      invariant LoopWithin(|server.rows|, n, server.script, server.cursor, server.calls, left) == whole
    {
      var batch;
      LoopStep(|server.rows|, n, server.script, server.cursor, server.calls, left);
      end, batch := FetchBatch(stmt, server, b, n);
      if end.StateError? || end.status == Failed { return; }
      FlatAppend(batches, batch);
      BatchExtends(server.rows, b.kinds, n, Flat(batches), batch);
      batches := batches + [batch];
      if end.status == NoData { return; }
      left, end := left - 1, Running;
    }
    LoopStep(|server.rows|, n, server.script, server.cursor, server.calls, 0);
  }

  lemma LoopStep(total: nat, n: nat, script: nat -> Answer, cursor: nat, call: nat, rounds: nat)
    requires cursor <= total
    ensures var next := cursor + FetchCount(total, cursor, n, script(call));
      var status := FetchStatus(total, next, next - cursor, script(call));
      && next <= total
      && LoopWithin(total, n, script, cursor, call, 0) == (cursor, Running)
      && (rounds > 0 ==>
            LoopWithin(total, n, script, cursor, call, rounds) ==
              if status != Success then (next, Returned(status)) else LoopWithin(total, n, script, next, call + 1, rounds - 1))
  {}

  lemma NothingDelivered(rows: seq<Row>, kinds: seq<Kind>, n: nat)
    requires Rectangular(rows, |kinds|)
    ensures Flat<seq<Cell>>([]) == [] && DeliveredRows(rows, kinds, n, Flat([]))
  {}

  function Ended(r: (nat, CallStatus)): (nat, Outcome) {
    (r.0, Returned(r.1))
  }

  /**
   * The row-struct driver; the source takes the address of the batch's first row. `described` says whether the server can describe columns at all, `matched`
   * whether every field then found one.
   */
  method SelectRows(server: Server, kinds: seq<Kind>, described: bool, matched: bool, n: nat, rounds: nat)
    returns (batches: seq<seq<seq<Cell>>>, end: Outcome)
    requires server.cursor == 0 && Rectangular(server.rows, |kinds|)
    requires n >= 1 && rounds >= 1
    modifies server
    ensures server.log == old(server.log)
    ensures var a := server.script(old(server.calls));
      && (end.StateError? <==> !a.fails && a.reports.Initialized? && (described || matched))
      && (end.StateError? ==> batches == [])
      && (!end.StateError? && (a.fails || !matched) ==> batches == [] && end == Returned(Failed))
      && (!end.StateError? && !a.fails && matched ==>
            (|Flat(batches)|, end) == LoopWithin(|server.rows|, Count32(n), server.script, 0, old(server.calls) + 1, rounds))
    ensures DeliveredRows(server.rows, kinds, Count32(n), Flat(batches))
  {
    batches := [];
    hide LoopWithin;
    NothingDelivered(server.rows, kinds, Count32(n));
    var stmt := new Statement();
    var b := new Buffers(kinds, n);
    var raised := stmt.Prepare();
    if raised { return batches, StateError; }
    raised := stmt.SetPrefetch();
    if raised { return batches, StateError; }
    end := stmt.Execute(server, [], 0);
    if end != Returned(Success) { return; }
    if described {
      raised := stmt.Describe();
      if raised { return batches, StateError; }
    }
    if !matched { return batches, Returned(Failed); }
    raised := stmt.BindOutputs(|kinds|);
    if raised { return batches, StateError; }
    batches, end := FetchLoop(stmt, server, b, Count32(n), rounds);
  }

  /**
   * The struct-free driver for any query: raw columns with their indicators, so a NULL is always told
   * apart. A LOB among the described columns is refused.
   */
  method SelectGeneric(server: Server, isLob: seq<bool>, n: nat, rounds: nat) returns (batches: seq<seq<seq<Cell>>>, end: Outcome)
    requires server.cursor == 0 && Rectangular(server.rows, |isLob|)
    requires rounds >= 1
    modifies server
    ensures server.log == old(server.log)
    ensures var a := server.script(old(server.calls));
      && (end.StateError? <==> !a.fails && a.reports.Initialized?)
      && (end.StateError? ==> batches == [])
      && (a.fails || (!end.StateError? && true in isLob) ==> batches == [] && end == Returned(Failed))
      && (!end.StateError? && !a.fails && true !in isLob ==>
            (|Flat(batches)|, end) == LoopWithin(|server.rows|, Count32(n), server.script, 0, old(server.calls) + 1, rounds))
    ensures DeliveredRows(server.rows, seq(|isLob|, c => Optional), Count32(n), Flat(batches))
  {
    batches := [];
    var kinds := seq(|isLob|, c => Optional);
    hide LoopWithin;
    NothingDelivered(server.rows, kinds, Count32(n));
    var stmt := new Statement();
    var raised := stmt.Prepare();
    if raised { return batches, StateError; }
    raised := stmt.SetPrefetch();
    if raised { return batches, StateError; }
    end := stmt.Execute(server, [], 0);
    if end != Returned(Success) { return; }
    raised := stmt.Describe();
    if raised { return batches, StateError; }
    if true in isLob { return batches, Returned(Failed); }
    var b := new Buffers(kinds, n);
    raised := stmt.BindOutputs(|isLob|);
    if raised { return batches, StateError; }
    batches, end := FetchLoop(stmt, server, b, Count32(n), rounds);
  }

  // ---------------------------------------------------------------- what the loop guarantees

  /** Without failures every row is delivered, exactly once and in order, whatever the batch size. */
  lemma {:induction false} LoopDeliversAll(total: nat, n: nat, script: nat -> Answer, cursor: nat, call: nat)
    requires n >= 1 && cursor <= total && forall k: nat | k >= call :: !script(k).fails
    ensures LoopEnd(total, n, script, cursor, call) == (total, NoData)
    decreases total - cursor
  {
    var next := cursor + FetchCount(total, cursor, n, script(call));
    if FetchStatus(total, next, next - cursor, script(call)) == Success {
      LoopDeliversAll(total, n, script, next, call + 1);
    }
  }

  /** Reached from `cursor` by whole batches of n. */
  predicate WholeBatches(cursor: nat, k: nat, n: nat)
    requires n >= 1
    decreases k
  {
    k == cursor || (k >= n && WholeBatches(cursor, k - n, n))
  }

  /** With a failure, what was delivered before it is everything or a whole number of batches. */
  lemma {:induction false} LoopStopsAtBatchBoundary(total: nat, n: nat, script: nat -> Answer, cursor: nat, call: nat, from: nat)
    requires n >= 1 && from <= cursor <= total && (cursor == total || WholeBatches(from, cursor, n))
    ensures var (count, status) := LoopEnd(total, n, script, cursor, call);
      && cursor <= count <= total
      && (status == NoData ==> count == total)
      && (status == Failed ==> count == total || WholeBatches(from, count, n))
      && status != Success
    decreases total - cursor
  {
    var next := cursor + FetchCount(total, cursor, n, script(call));
    if FetchStatus(total, next, next - cursor, script(call)) == Success {
      LoopStopsAtBatchBoundary(total, n, script, next, call + 1, from);
    }
  }

  /**
   * No stale data: an optional, fixed-string or LOB cell, and a plain cell whose column is not NULL, is
   * the same whatever the other rows, the batch size and the row's place in the batch.
   */
  lemma CellIsItsOwnRows(rows: seq<Row>, kinds: seq<Kind>, n: nat, g: nat, c: nat)
    requires g < |rows| && c < |kinds| && Rectangular(rows, |kinds|)
    requires kinds[c] != Plain || rows[g][c].Some?
    ensures CellOf(rows, kinds, n, g, c) == Converted(kinds[c], rows[g][c]) ==
      match (kinds[c], rows[g][c])
      case (Plain, Some(x)) => PlainCell(x)
      case (Plain, None) => PlainCell("")
      case (Optional, v) => OptCell(v)
      case (FixedString, Some(x)) => FixedCell(x)
      case (FixedString, None) => FixedCell("")
      case (Lob, Some(x)) => LobCell(x)
      case (Lob, None) => LobCell("")
  {
    assert rows[g] in rows;
  }

  /** A NULL in a plain column shows the value of the row one batch earlier instead; in the first batch, blank. */
  lemma PlainNullShowsEarlierRow(rows: seq<Row>, kinds: seq<Kind>, n: nat, g: nat, c: nat)
    requires n >= 1 && g < |rows| && c < |kinds| && Rectangular(rows, |kinds|)
    requires kinds[c] == Plain && rows[g][c].None?
    ensures CellOf(rows, kinds, n, g, c) == if g < n then Blank(Plain) else CellOf(rows, kinds, n, g - n, c)
  {
    assert PlainSeen(rows, n, g, c) == PlainSeen(rows, n, g - n, c);
    assert g < n ==> PlainSeen(rows, n, g - n, c) == "";
  }

  /** With at least one row per fetch the loop ends within one round more than there are rows. */
  lemma {:induction false} LoopEndsInTime(total: nat, n: nat, script: nat -> Answer, cursor: nat, call: nat, rounds: nat)
    requires n >= 1 && cursor <= total && rounds > total - cursor
    ensures LoopWithin(total, n, script, cursor, call, rounds) == Ended(LoopEnd(total, n, script, cursor, call))
    decreases total - cursor
  {
    var next := cursor + FetchCount(total, cursor, n, script(call));
    if FetchStatus(total, next, next - cursor, script(call)) == Success {
      LoopEndsInTime(total, n, script, next, call + 1, rounds - 1);
    }
  }

  /** With no row per fetch and rows left, the cursor stands still and the loop goes on, call after call. */
  lemma {:induction false} ZeroBatchNeverEnds(total: nat, script: nat -> Answer, cursor: nat, call: nat, rounds: nat)
    requires cursor < total && forall k: nat | call <= k < call + rounds :: !script(k).fails
    ensures LoopWithin(total, 0, script, cursor, call, rounds) == (cursor, Running)
    decreases rounds
  {
    if rounds > 0 { ZeroBatchNeverEnds(total, script, cursor, call + 1, rounds - 1); }
  }

  /** Against a faultless server the loop ends exactly when the batch size keeps a row in 32 bits, or no row is left. */
  lemma LoopEndsIff(total: nat, size: nat, script: nat -> Answer, cursor: nat, call: nat)
    requires cursor <= total && forall k: nat | k >= call :: !script(k).fails
    ensures (exists rounds: nat :: LoopWithin(total, Count32(size), script, cursor, call, rounds).1 != Running)
      <==> size % 0x1_0000_0000 != 0 || cursor == total
  {
    if Count32(size) >= 1 {
      LoopEndsInTime(total, Count32(size), script, cursor, call, total - cursor + 1);
    } else if cursor == total {
      LoopStep(total, 0, script, cursor, call, 1);
      assert LoopWithin(total, Count32(size), script, cursor, call, 1).1 != Running;
    } else {
      forall rounds: nat ensures LoopWithin(total, Count32(size), script, cursor, call, rounds).1 == Running {
        ZeroBatchNeverEnds(total, script, cursor, call, rounds);
      }
    }
  }

  // ---------------------------------------------------------------- one row by position

  /** The caller's variable after `select`, given its content before and the result set. */
  function SelectedCell(kind: Kind, before: Cell, rows: seq<Row>, c: nat, a: Answer): Cell
    requires forall row | row in rows :: c < |row|
  {
    if a.fails || rows == [] then before
    else
      var landed := Landed(kind, rows[0][c], before);
      // the NULL pass is skipped whenever the call reports the end of the result set
      if FetchStatus(|rows|, 1, 1, a) == NoData then landed else AfterApply(kind, landed, rows[0][c].None?, "")
  }

  /** Outputs are plain or fixed-string variables of the caller; the execute call itself fetches the row. */
  method Select(server: Server, kinds: seq<Kind>, outs: array<Cell>) returns (end: Outcome)
    requires |kinds| == outs.Length && Rectangular(server.rows, |kinds|)
    requires forall k | k in kinds :: k == Plain || k == FixedString
    requires server.cursor == 0
    modifies server, outs
    ensures var a := server.script(old(server.calls));
      && end == Returned(FetchStatus(|server.rows|, FetchCount(|server.rows|, 0, 1, a), FetchCount(|server.rows|, 0, 1, a), a))
      && forall c: nat | c < outs.Length :: outs[c] == SelectedCell(kinds[c], old(outs[c]), server.rows, c, a)
  {
    var stmt := new Statement();
    var raised := stmt.Prepare();
    if raised { return StateError; }
    raised := stmt.BindOutputs(|kinds|);
    if raised { return StateError; }
    var isNull := new bool[|kinds|](i => false);
    var status := stmt.ExecuteOne(server, kinds, outs, isNull);
    end := status;
    if end.StateError? { return; }
    if end.status != NoData {
      for c := 0 to |kinds|
        modifies outs
        invariant forall i: nat | i < c :: outs[i] == SelectedCell(kinds[i], old(outs[i]), server.rows, i, server.script(old(server.calls)))
        invariant forall i: nat | c <= i < |kinds| :: outs[i] == FetchedCell(kinds[i], old(outs[i]), server.rows, i, server.script(old(server.calls)))
      {
        assert kinds[c] in kinds;
        if kinds[c] == FixedString && isNull[c] { outs[c] := FixedCell(""); }
      }
    }
  }

  function FetchedCell(kind: Kind, before: Cell, rows: seq<Row>, c: nat, a: Answer): Cell
    requires forall row | row in rows :: c < |row|
  {
    if a.fails || rows == [] then before else Landed(kind, rows[0][c], before)
  }

  /** Zero rows or an error leave the caller's variables alone, and so does a NULL a plain one; a value overwrites. */
  lemma SelectLeavesOrSets(kind: Kind, before: Cell, rows: seq<Row>, c: nat, a: Answer)
    requires kind == Plain || kind == FixedString
    requires forall row | row in rows :: c < |row|
    ensures a.fails || rows == [] ==> SelectedCell(kind, before, rows, c, a) == before
    ensures !a.fails && rows != [] && rows[0][c].Some? ==>
      SelectedCell(kind, before, rows, c, a) == (if kind == Plain then PlainCell(rows[0][c].value) else FixedCell(rows[0][c].value))
    ensures kind == Plain && rows != [] && rows[0][c].None? ==> SelectedCell(kind, before, rows, c, a) == before
  {}

  /**
   * A NULL fixed-string output is cleared exactly when the call did not already report the end: with an
   * eager server and a single row, whatever the caller's variable held stays in it.
   */
  lemma SelectClearsNullIff(before: Cell, rows: seq<Row>, c: nat, a: Answer)
    requires !a.fails && rows != [] && (forall row | row in rows :: c < |row|) && rows[0][c].None?
    requires before != FixedCell("")
    ensures SelectedCell(FixedString, before, rows, c, a) == FixedCell("") <==> !(|rows| == 1 && a.eager)
    ensures |rows| == 1 && a.eager ==> SelectedCell(FixedString, before, rows, c, a) == before
  {}

  // ---------------------------------------------------------------- chunked insert

  function Min(a: nat, b: nat): nat { if a < b then a else b }

  /** Where chunk i starts. */
  function Start(chunk: nat, i: nat): nat {
    if i == 0 then 0 else Start(chunk, i - 1) + chunk
  }

  /** Rows sent from chunk i on, and how the insert ends; the count is passed on as 32 bits. */
  function Inserted(rows: seq<Row>, chunk: nat, script: nat -> Answer, first: nat, i: nat, state: StmtState): (seq<Row>, Outcome)
    requires chunk >= 1
    decreases |rows| - Start(chunk, i)
  {
    var offset := Start(chunk, i);
    if offset >= |rows| then ([], Returned(Success))
    else if !CanBind(state) then ([], StateError)
    else
      var a := script(first + i);
      if a.fails then ([], Returned(Failed))
      else
        var (rest, end) := Inserted(rows, chunk, script, first, i + 1, Sync(state, a.reports));
        (Piece(rows, chunk, offset) + rest, end)
  }

  /** The same for a loop that need not end: what was sent in some rounds, and where it stands. */
  function InsertedWithin(rows: seq<Row>, chunk: nat, script: nat -> Answer, first: nat, i: nat, state: StmtState, rounds: nat): (seq<Row>, Outcome)
    decreases rounds
  {
    var offset := Start(chunk, i);
    if offset >= |rows| then ([], Returned(Success))
    else if rounds == 0 then ([], Running)
    else if !CanBind(state) then ([], StateError)
    else
      var a := script(first + i);
      if a.fails then ([], Returned(Failed))
      else
        var (rest, end) := InsertedWithin(rows, chunk, script, first, i + 1, Sync(state, a.reports), rounds - 1);
        (Piece(rows, chunk, offset) + rest, end)
  }

  lemma WithinStep(rows: seq<Row>, chunk: nat, script: nat -> Answer, first: nat, i: nat, state: StmtState, rounds: nat)
    ensures var offset, whole := Start(chunk, i), InsertedWithin(rows, chunk, script, first, i, state, rounds);
      var a := script(first + i);
      && Start(chunk, i + 1) == offset + chunk
      && (offset >= |rows| ==> whole == ([], Returned(Success)))
      && (offset < |rows| && rounds == 0 ==> whole == ([], Running))
      && (offset < |rows| && rounds > 0 && !CanBind(state) ==> whole == ([], StateError))
      && (offset < |rows| && rounds > 0 && CanBind(state) && a.fails ==> whole == ([], Returned(Failed)))
      && (offset < |rows| && rounds > 0 && CanBind(state) && !a.fails ==>
            var (rest, end) := InsertedWithin(rows, chunk, script, first, i + 1, Sync(state, a.reports), rounds - 1);
            whole == (Piece(rows, chunk, offset) + rest, end))
  {}

  /** What remains to be sent once chunk i went through. */
  lemma InsertedStep(rows: seq<Row>, chunk: nat, script: nat -> Answer, first: nat, i: nat, state: StmtState)
    requires chunk >= 1
    ensures var offset, whole := Start(chunk, i), Inserted(rows, chunk, script, first, i, state);
      var a := script(first + i);
      && Start(chunk, i + 1) == offset + chunk
      && (offset >= |rows| ==> whole == ([], Returned(Success)))
      && (offset < |rows| && !CanBind(state) ==> whole == ([], StateError))
      && (offset < |rows| && CanBind(state) && a.fails ==> whole == ([], Returned(Failed)))
      && (offset < |rows| && CanBind(state) && !a.fails ==>
            var (rest, end) := Inserted(rows, chunk, script, first, i + 1, Sync(state, a.reports));
            whole == (Piece(rows, chunk, offset) + rest, end))
  {}

  function Piece(rows: seq<Row>, chunk: nat, offset: nat): seq<Row>
    requires offset <= |rows|
  {
    rows[offset..offset + Count32(Min(chunk, |rows| - offset))]
  }

  /** Bind one chunk in place and execute. */
  method InsertChunk(stmt: Statement, server: Server, rows: seq<Row>, chunk: nat, offset: nat) returns (end: Outcome)
    requires offset < |rows|
    modifies stmt, server
    ensures end.StateError? <==> !CanBind(old(stmt.state))
    ensures end.StateError? ==> server.log == old(server.log)
    ensures var a := server.script(old(server.calls)); !end.StateError? ==>
      && end == Returned(if a.fails then Failed else Success)
      && stmt.state == Sync(old(stmt.state), a.reports)
      && server.calls == old(server.calls) + 1
      && server.log == old(server.log) + if a.fails then [] else Piece(rows, chunk, offset)
  {
    var thisChunk := Min(chunk, |rows| - offset);
    var raised := stmt.BindInput();
    if raised { return StateError; }
    end := stmt.Execute(server, rows[offset..offset + thisChunk], Count32(thisChunk));
    assert rows[offset..offset + thisChunk][..Count32(thisChunk)] == Piece(rows, chunk, offset);
  }

  /** The chunked insert, looked at for `rounds` chunks. */
  method InsertRows(server: Server, rows: seq<Row>, chunk: nat, rounds: nat) returns (end: Outcome)
    modifies server
    ensures rows == [] ==> end == Returned(Success) && server.log == old(server.log) && server.calls == old(server.calls)
    ensures rows != [] ==>
      var whole := InsertedWithin(rows, chunk, server.script, old(server.calls), 0, Prepared, rounds);
      server.log == old(server.log) + whole.0 && end == whole.1
  {
    if rows == [] { return Returned(Success); }
    var stmt := new Statement();
    var raised := stmt.Prepare();
    if raised { return StateError; }
    end := InsertChunks(stmt, server, rows, chunk, rounds);
  }

  method InsertChunks(stmt: Statement, server: Server, rows: seq<Row>, chunk: nat, rounds: nat) returns (end: Outcome)
    modifies stmt, server
    ensures var whole := InsertedWithin(rows, chunk, server.script, old(server.calls), 0, old(stmt.state), rounds);
      server.log == old(server.log) + whole.0 && end == whole.1
  {
    end := Returned(Success);
    var offset, left := 0, rounds;
    hide *;
    StartZero(chunk);
    ghost var i, first, log := 0, server.calls, server.log;
    ghost var whole := InsertedWithin(rows, chunk, server.script, first, 0, stmt.state, rounds);
    AccountStart(log, whole);
    while offset < |rows| && left > 0
      invariant offset == Start(chunk, i) && server.calls == first + i && end == Returned(Success)
      invariant Accounted(log, whole, server.log, InsertedWithin(rows, chunk, server.script, first, i, stmt.state, left))
      decreases left
    {
      ghost var before, state := server.log, stmt.state;
      WithinStep(rows, chunk, server.script, first, i, state, left);
      end := InsertChunk(stmt, server, rows, chunk, offset);
      if end != Returned(Success) {
        assert end == if CanBind(state) then Returned(Failed) else StateError;
        assert InsertedWithin(rows, chunk, server.script, first, i, state, left) == ([], end);
        assert server.log == before;
        AccountEnd(log, whole, server.log, end);
        return;
      }
      AccountPiece(log, whole, before, Piece(rows, chunk, offset),
        InsertedWithin(rows, chunk, server.script, first, i + 1, stmt.state, left - 1));
      offset, left := offset + chunk, left - 1;
      i := i + 1;
    }
    WithinStep(rows, chunk, server.script, first, i, stmt.state, left);
    if offset < |rows| { end := Running; }
    AccountEnd(log, whole, server.log, end);
  }

  /** With at least one row per chunk the insert ends within as many rounds as there are rows. */
  lemma {:induction false} InsertEndsInTime(rows: seq<Row>, chunk: nat, script: nat -> Answer, first: nat, i: nat, state: StmtState, rounds: nat)
    requires chunk >= 1 && rounds + Start(chunk, i) >= |rows|
    ensures InsertedWithin(rows, chunk, script, first, i, state, rounds) == Inserted(rows, chunk, script, first, i, state)
    decreases |rows| - Start(chunk, i)
  {
    InsertedStep(rows, chunk, script, first, i, state);
    WithinStep(rows, chunk, script, first, i, state, rounds);
    hide Inserted;
    hide InsertedWithin;
    if Start(chunk, i) < |rows| && CanBind(state) && !script(first + i).fails {
      InsertEndsInTime(rows, chunk, script, first, i + 1, Sync(state, script(first + i).reports), rounds - 1);
    }
  }

  /** Chunks of no rows send nothing and the insert goes on, call after call. */
  lemma {:induction false} ZeroChunkNeverEnds(rows: seq<Row>, script: nat -> Answer, first: nat, i: nat, state: StmtState, rounds: nat)
    requires rows != [] && CanBind(state)
    requires forall k: nat | first + i <= k < first + i + rounds :: !script(k).fails && !script(k).reports.AtEnd?
    ensures InsertedWithin(rows, 0, script, first, i, state, rounds) == ([], Running)
    decreases rounds
  {
    StartOfNothing(i);
    WithinStep(rows, 0, script, first, i, state, rounds);
    if rounds > 0 {
      ZeroChunkNeverEnds(rows, script, first, i + 1, Sync(state, script(first + i).reports), rounds - 1);
      var none: seq<Row> := [];
      assert Piece(rows, 0, 0) + none == none;
    }
  }

  lemma {:induction false} StartOfNothing(i: nat)
    ensures Start(0, i) == 0
  {
    if i > 0 { StartOfNothing(i - 1); }
  }

  /** Against a faultless server the insert ends exactly when chunks hold a row, or there is none to insert. */
  lemma InsertEndsIff(rows: seq<Row>, chunk: nat, script: nat -> Answer, first: nat)
    requires forall k: nat | k >= first :: !script(k).fails && !script(k).reports.AtEnd?
    ensures (exists rounds: nat :: InsertedWithin(rows, chunk, script, first, 0, Prepared, rounds).1 != Running)
      <==> chunk >= 1 || rows == []
  {
    StartZero(chunk);
    if chunk >= 1 {
      NoFailureWithoutOne(rows, chunk, script, first, 0, Prepared);
      InsertEndsInTime(rows, chunk, script, first, 0, Prepared, |rows|);
    } else if rows == [] {
      WithinStep(rows, chunk, script, first, 0, Prepared, 0);
    } else {
      forall rounds: nat ensures InsertedWithin(rows, chunk, script, first, 0, Prepared, rounds).1 == Running {
        ZeroChunkNeverEnds(rows, script, first, 0, Prepared, rounds);
      }
    }
  }

  /** What the server received so far, together with what remains to be sent, makes up the whole insert. */
  ghost predicate Accounted(log: seq<Row>, whole: (seq<Row>, Outcome), now: seq<Row>, rest: (seq<Row>, Outcome)) {
    now + rest.0 == log + whole.0 && rest.1 == whole.1
  }

  lemma AccountStart(log: seq<Row>, whole: (seq<Row>, Outcome))
    ensures Accounted(log, whole, log, whole)
  {}

  lemma AccountPiece(log: seq<Row>, whole: (seq<Row>, Outcome), now: seq<Row>, piece: seq<Row>, rest: (seq<Row>, Outcome))
    requires Accounted(log, whole, now, (piece + rest.0, rest.1))
    ensures Accounted(log, whole, now + piece, rest)
  {
    assert now + (piece + rest.0) == (now + piece) + rest.0;
  }

  lemma AccountEnd(log: seq<Row>, whole: (seq<Row>, Outcome), now: seq<Row>, end: Outcome)
    requires Accounted(log, whole, now, ([], end))
    ensures now == log + whole.0 && end == whole.1
  {
    assert now + [] == now;
  }

  lemma StartZero(chunk: nat)
    ensures Start(chunk, 0) == 0
  {}

  lemma {:induction false} StartGrows(chunk: nat, i: nat, j: nat)
    requires i <= j
    ensures Start(chunk, i) <= Start(chunk, j)
    decreases j
  {
    if i < j { StartGrows(chunk, i, j - 1); }
  }

  /** No chunk is so long that its row count is cut to 32 bits. */
  predicate CountsFit(rows: seq<Row>, chunk: nat) {
    Min(chunk, |rows|) < 0x1_0000_0000
  }

  lemma MinBounds(a: nat, b: nat)
    ensures Min(a, b) <= a && Min(a, b) <= b && (Min(a, b) == a || Min(a, b) == b)
  {}

  lemma NothingSent(rows: seq<Row>, chunk: nat, offset: nat)
    ensures Min(offset, |rows|) <= |rows| && rows[Min(offset, |rows|)..Min(offset, |rows|)] == []
  {}

  lemma PieceIsSlice(rows: seq<Row>, chunk: nat, offset: nat)
    requires CountsFit(rows, chunk) && offset <= |rows|
    ensures Piece(rows, chunk, offset) == rows[offset..Min(offset + chunk, |rows|)]
  {}

  lemma Slices<T>(s: seq<T>, from: nat, mid: nat, to: nat)
    requires from <= mid <= to <= |s|
    ensures s[from..mid] + s[mid..to] == s[from..to]
  {}

  /**
   * Whatever happens, the server has received each row of a whole number j of chunks exactly once and in
   * order; the insert succeeds exactly when those are all the rows.
   */
  lemma {:induction false} InsertSendsWholeChunks(rows: seq<Row>, chunk: nat, script: nat -> Answer, first: nat, i: nat, state: StmtState)
    returns (j: nat)
    requires chunk >= 1 && CountsFit(rows, chunk)
    ensures var (sent, end) := Inserted(rows, chunk, script, first, i, state);
      && i <= j
      && (var from, to := Min(Start(chunk, i), |rows|), Min(Start(chunk, j), |rows|);
          from <= to && sent == rows[from..to])
      && (end == Returned(Success) <==> Start(chunk, j) >= |rows|)
    decreases |rows| - Start(chunk, i)
  {
    var offset, a := Start(chunk, i), script(first + i);
    InsertedStep(rows, chunk, script, first, i, state);
    hide *;
    if offset >= |rows| || !CanBind(state) || a.fails {
      j := i;
      NothingSent(rows, chunk, offset);
    } else {
      j := InsertSendsWholeChunks(rows, chunk, script, first, i + 1, Sync(state, a.reports));
      StartGrows(chunk, i + 1, j);
      PieceIsSlice(rows, chunk, offset);
      MinBounds(offset, |rows|);
      MinBounds(offset + chunk, |rows|);
      MinBounds(Start(chunk, j), |rows|);
      Slices(rows, offset, Min(offset + chunk, |rows|), Min(Start(chunk, j), |rows|));
    }
  }

  /** What the server answers to the i-th chunk of the insert. */
  function Reply(script: nat -> Answer, first: nat, i: nat): Answer {
    script(first + i)
  }

  /** The server calls the statement ended after chunk j although more chunks follow. */
  ghost predicate EndsEarly(len: nat, chunk: nat, script: nat -> Answer, first: nat, i: nat, j: nat) {
    && i <= j && Start(chunk, j + 1) < len && Reply(script, first, j).reports.AtEnd?
    && forall k: nat | i <= k <= j :: !Reply(script, first, k).fails
  }

  lemma {:induction false} StateErrorHasChunk(rows: seq<Row>, chunk: nat, script: nat -> Answer, first: nat, i: nat, state: StmtState)
    returns (j: nat)
    requires chunk >= 1 && CanBind(state) && Inserted(rows, chunk, script, first, i, state).1.StateError?
    ensures EndsEarly(|rows|, chunk, script, first, i, j)
    decreases |rows| - Start(chunk, i)
  {
    var a := Reply(script, first, i);
    InsertedStep(rows, chunk, script, first, i, state);
    InsertedStep(rows, chunk, script, first, i + 1, Sync(state, a.reports));
    hide Inserted;
    if a.reports.AtEnd? {
      j := i;
    } else {
      j := StateErrorHasChunk(rows, chunk, script, first, i + 1, Sync(state, a.reports));
    }
  }

  lemma {:induction false} EarlyEndRaises(rows: seq<Row>, chunk: nat, script: nat -> Answer, first: nat, i: nat, state: StmtState, j: nat)
    requires chunk >= 1 && CanBind(state) && EndsEarly(|rows|, chunk, script, first, i, j)
    ensures Inserted(rows, chunk, script, first, i, state).1.StateError?
    decreases j - i
  {
    var a := Reply(script, first, i);
    InsertedStep(rows, chunk, script, first, i, state);
    InsertedStep(rows, chunk, script, first, i + 1, Sync(state, a.reports));
    hide Inserted;
    StartGrows(chunk, i + 1, j + 1);
    if !a.reports.AtEnd? {
      EarlyEndRaises(rows, chunk, script, first, i + 1, Sync(state, a.reports), j);
    }
  }

  /**
   * An insert raises a state error exactly when the server reports the end of the fetch after a chunk that
   * is not the last; for a server that never does so for an insert, no run raises one.
   */
  lemma InsertStateErrorIff(rows: seq<Row>, chunk: nat, script: nat -> Answer, first: nat)
    requires chunk >= 1
    ensures Inserted(rows, chunk, script, first, 0, Prepared).1.StateError? <==>
      exists j: nat :: EndsEarly(|rows|, chunk, script, first, 0, j)
  {
    if Inserted(rows, chunk, script, first, 0, Prepared).1.StateError? {
      var j := StateErrorHasChunk(rows, chunk, script, first, 0, Prepared);
    }
    forall j: nat | EndsEarly(|rows|, chunk, script, first, 0, j)
      ensures Inserted(rows, chunk, script, first, 0, Prepared).1.StateError?
    {
      EarlyEndRaises(rows, chunk, script, first, 0, Prepared, j);
    }
  }

  lemma {:induction false} SentAtMost(rows: seq<Row>, chunk: nat, script: nat -> Answer, first: nat, i: nat, state: StmtState)
    requires chunk >= 1
    ensures |Inserted(rows, chunk, script, first, i, state).0| <= |rows| - Min(Start(chunk, i), |rows|)
    decreases |rows| - Start(chunk, i)
  {
    InsertedStep(rows, chunk, script, first, i, state);
    if Start(chunk, i) < |rows| { SentAtMost(rows, chunk, script, first, i + 1, Sync(state, script(first + i).reports)); }
  }

  /** Against a faultless server every row arrives exactly once, if and only if the chunk counts fit 32 bits. */
  lemma InsertCompleteIff(rows: seq<Row>, chunk: nat, script: nat -> Answer, first: nat)
    requires chunk >= 1 && forall k: nat | k >= first :: !script(k).fails && !script(k).reports.AtEnd?
    ensures Inserted(rows, chunk, script, first, 0, Prepared).0 == rows <==> CountsFit(rows, chunk)
  {
    InsertStateErrorIff(rows, chunk, script, first);
    NoFailureWithoutOne(rows, chunk, script, first, 0, Prepared);
    if CountsFit(rows, chunk) {
      var j := InsertSendsWholeChunks(rows, chunk, script, first, 0, Prepared);
    } else {
      InsertedStep(rows, chunk, script, first, 0, Prepared);
      SentAtMost(rows, chunk, script, first, 1, Sync(Prepared, script(first).reports));
    }
  }

  lemma {:induction false} NoFailureWithoutOne(rows: seq<Row>, chunk: nat, script: nat -> Answer, first: nat, i: nat, state: StmtState)
    requires chunk >= 1 && CanBind(state) && forall k: nat | k >= first + i :: !script(k).fails && !script(k).reports.AtEnd?
    ensures Inserted(rows, chunk, script, first, i, state).1 == Returned(Success)
    decreases |rows| - Start(chunk, i)
  {
    InsertedStep(rows, chunk, script, first, i, state);
    if Start(chunk, i) < |rows| { NoFailureWithoutOne(rows, chunk, script, first, i + 1, Sync(state, script(first + i).reports)); }
  }
}