/** Properties of whole runs of the statement state machine, for any driver. */
module StatementRuns {
  import opened CInt
  import opened Statement

  /** A call either stops before the driver, at the statement it found or made ready, or enters
      the driver once it is admitted and settles the answer. */
  lemma CallCases(f: Func, s: Stmt, argErr: Option<SqlState>, d: Driver)
    ensures var o, ready := Call(f, s, argErr, d), Ready(f, s, d.probe);
            match o.entered
            case None => o.post == s || (Refusal(f, s).None? && o.post == ready)
            case Some(e) =>
              && argErr.None? && Refusal(f, s).None? && !Stops(f, d)
              && Entry(f, d).1.Answer? && e == (Entry(f, d).0, ready)
              && o.post == AfterAnswer(f, ready, Entry(f, d).1.ret, d)
  {
    hide Ready, Refusal, AfterAnswer, Finished, OutputErrors, ProbeErrors, ProbesAfter;
  }

  // ----- polling

  /** The same driver, answering `r` wherever the call reaches it. */
  function WithAnswer(d: Driver, r: int): Driver {
    d.(main := Answer(r), other := if d.other.Answer? then Answer(r) else d.other)
  }

  /** The statement after `k` calls that are still executing and one that answers `r`. */
  function Polled(f: Func, s: Stmt, argErr: Option<SqlState>, d: Driver, k: nat, r: int): Stmt
    decreases k
  {
    if k == 0 then Call(f, s, argErr, WithAnswer(d, r)).post
    else Polled(f, Call(f, s, argErr, WithAnswer(d, SQL_STILL_EXECUTING)).post, argErr, d, k - 1, r)
  }

  /** The first call is admitted, in a state in which it can become pending. */
  predicate Arms(f: Func, s: Stmt, argErr: Option<SqlState>, d: Driver) {
    argErr.None? && Refusal(f, s).None? && Live(f, Ready(f, s, d.probe)) && f != CloseCursor && !Stops(f, d)
  }

  /** A pending call stays as it is while it is still executing. */
  lemma PendingIsStable(f: Func, s: Stmt, d: Driver, k: nat, r: int)
    requires s.asyn == f && IsCall(f) && f != CloseCursor && !Stops(f, d)
    ensures Polled(f, s, None, d, k, r) == AfterAnswer(f, s, r, d)
    decreases k
  {
  }

  lemma UnarmedSame(f: Func, s: Stmt, argErr: Option<SqlState>, d: Driver, r: int)
    requires s.asyn == NullProc && IsCall(f) && f != Prepare && f != CloseCursor && !Arms(f, s, argErr, d)
    ensures var direct := Call(f, s, argErr, WithAnswer(d, r)).post;
            && direct == Call(f, s, argErr, WithAnswer(d, SQL_STILL_EXECUTING)).post
            && (if direct.asyn == NullProc then !Arms(f, direct, argErr, d) else direct.asyn != f)
  {
    CallCases(f, s, argErr, WithAnswer(d, r));
    CallCases(f, s, argErr, WithAnswer(d, SQL_STILL_EXECUTING));
    hide Finished;
  }

  /** A call that cannot become pending leaves the statement ready from its first answer on. */
  lemma {:induction false} UnarmedIsStable(f: Func, s: Stmt, argErr: Option<SqlState>, d: Driver, k: nat, r: int)
    requires s.asyn == NullProc && IsCall(f) && f != Prepare && f != CloseCursor && !Arms(f, s, argErr, d)
    ensures var direct := Call(f, s, argErr, WithAnswer(d, r)).post;
            direct == Call(f, s, argErr, WithAnswer(d, SQL_STILL_EXECUTING)).post
            && Polled(f, s, argErr, d, k, r) == direct
    decreases k
  {
    UnarmedSame(f, s, argErr, d, r);
    var s' := Call(f, s, argErr, WithAnswer(d, SQL_STILL_EXECUTING)).post;
    hide Call, Arms, WithAnswer;
    if k > 0 {
      if s'.asyn == NullProc {
        UnarmedIsStable(f, s', argErr, d, k - 1, r);
        UnarmedAgain(f, s, argErr, d, r);
      } else {
        RefusedIsStable(f, s', argErr, d, k - 1, r);
      }
    }
  }

  /** Repeating such a call changes nothing more. */
  lemma UnarmedAgain(f: Func, s: Stmt, argErr: Option<SqlState>, d: Driver, r: int)
    requires s.asyn == NullProc && IsCall(f) && f != Prepare && f != CloseCursor && !Arms(f, s, argErr, d)
    requires Call(f, s, argErr, WithAnswer(d, r)).post.asyn == NullProc
    ensures var direct := Call(f, s, argErr, WithAnswer(d, r)).post;
            Call(f, direct, argErr, WithAnswer(d, r)).post == direct
  {
    UnarmedSame(f, s, argErr, d, r);
    CallCases(f, s, argErr, WithAnswer(d, r));
    var direct := Call(f, s, argErr, WithAnswer(d, r)).post;
    CallCases(f, direct, argErr, WithAnswer(d, r));
    hide Call, Finished;
  }

  lemma {:induction false} RefusedIsStable(f: Func, s: Stmt, argErr: Option<SqlState>, d: Driver, k: nat, r: int)
    requires s.asyn != NullProc && s.asyn != f
    ensures Polled(f, s, argErr, d, k, r) == s
  {
    if k > 0 {
      RefusedIsStable(f, s, argErr, d, k - 1, r);
    }
  }

  lemma ClosingStill(s: Stmt, argErr: Option<SqlState>, d: Driver)
    ensures Call(CloseCursor, s, argErr, WithAnswer(d, SQL_STILL_EXECUTING)).post == s
  {
    CallCases(CloseCursor, s, argErr, WithAnswer(d, SQL_STILL_EXECUTING));
    hide Call, Entry;
    ClosingAnswers(d);
  }

  lemma ClosingAnswers(d: Driver)
    ensures var reply := Entry(CloseCursor, WithAnswer(d, SQL_STILL_EXECUTING)).1;
            reply.Answer? ==> reply.ret == SQL_STILL_EXECUTING
  {
  }

  lemma {:induction false} ClosingIsStable(s: Stmt, argErr: Option<SqlState>, d: Driver, k: nat, r: int)
    ensures Polled(CloseCursor, s, argErr, d, k, r) == Call(CloseCursor, s, argErr, WithAnswer(d, r)).post
  {
    hide Call, WithAnswer;
    if k > 0 {
      ClosingStill(s, argErr, d);
      ClosingIsStable(s, argErr, d, k - 1, r);
    }
  }

  /** Polling is transparent: with nothing pending, any number of STILL_EXECUTING answers
      followed by `r` leaves every field as one direct call with `r` does, exactly when `r`
      ends a pending call, or is itself STILL_EXECUTING, or the call never became pending.
      This holds of every call but SQLPrepare. */
  lemma PollingTransparent(f: Func, s: Stmt, argErr: Option<SqlState>, d: Driver, k: nat, r: int)
    requires s.asyn == NullProc && IsCall(f) && f != Prepare && k > 0
    ensures Polled(f, s, argErr, d, k, r) == Call(f, s, argErr, WithAnswer(d, r)).post
            <==> Terminal(f, r) || r == SQL_STILL_EXECUTING || !Arms(f, s, argErr, d)
  {
    if f == CloseCursor {
      ClosingIsStable(s, argErr, d, k, r);
    } else if Arms(f, s, argErr, d) {
      ArmedCall(f, s, argErr, d, SQL_STILL_EXECUTING);
      ArmedCall(f, s, argErr, d, r);
      var ready := Ready(f, s, d.probe);
      hide Call;
      PendingIsStable(f, ready.(asyn := f), d, k - 1, r);
      if !Terminal(f, r) && r != SQL_STILL_EXECUTING {
        NoStrayMark(f, ready, r, d.probe);
      }
    } else {
      UnarmedIsStable(f, s, argErr, d, k, r);
    }
  }

  /** The first answer to an admitted call. */
  lemma ArmedCall(f: Func, s: Stmt, argErr: Option<SqlState>, d: Driver, r: int)
    requires s.asyn == NullProc && IsCall(f) && Arms(f, s, argErr, d)
    ensures var ready, post := Ready(f, s, d.probe), Call(f, s, argErr, WithAnswer(d, r)).post;
            && ready.asyn == NullProc && post == Settle(f, ready, Finished(f, r, d), d.probe)
            && (r == SQL_STILL_EXECUTING ==> post == ready.(asyn := f))
  {
    CallCases(f, s, argErr, WithAnswer(d, r));
  }

  /** An answer that neither ends a call nor continues it leaves no pending mark. */
  lemma NoStrayMark(f: Func, s: Stmt, r: int, p: Probe)
    requires s.asyn == NullProc && IsCall(f) && !Terminal(f, r) && r != SQL_STILL_EXECUTING
    ensures Settle(f, s, r, p).asyn == NullProc
  {
  }

  /** SQLPrepare is the exception: a poll that ends it never records the preparation. */
  lemma PreparePolling(s: Stmt, d: Driver, k: nat, r: int)
    requires s.asyn == NullProc && k > 0 && Terminal(Prepare, r) && Refusal(Prepare, s).None?
    ensures Polled(Prepare, s, None, d, k, r) == s
    ensures Polled(Prepare, s, None, d, k, r) == Call(Prepare, s, None, WithAnswer(d, r)).post
            <==> if r == SQL_ERROR then s.state !in {Prepared, ExecutedWithInfo, Executed}
                 else s.state == Prepared && s.prep
  {
    PendingIsStable(Prepare, s.(asyn := Prepare), d, k - 1, r);
  }

  /** On a fresh statement, a preparation that succeeds after one poll is lost. */
  lemma PreparePollingLoses(d: Driver)
    ensures Polled(Prepare, FRESH, None, d, 1, SQL_SUCCESS) == FRESH
    ensures Call(Prepare, FRESH, None, WithAnswer(d, SQL_SUCCESS)).post.state == Prepared
  {
  }

  // ----- links every reachable statement keeps

  predicate Links(s: Stmt) {
    && (s.asyn.Catalog? ==> Rank(s.state) <= Rank(Executed))
    && (s.asyn == Fetch ==> s.state in {CursorOpen, Fetched, XFetched})
    && (s.asyn == ExtendedFetch ==> s.state in {CursorOpen, XFetched})
    && (s.asyn == GetData || s.asyn == SetPos ==> s.state in {Fetched, XFetched})
    && (s.state == Fetched ==> s.cursor in {FetchedCursor, NoCursor})
    && (s.state == XFetched ==> s.cursor in {XFetchedCursor, NoCursor})
    && (Rank(s.state) <= Rank(CursorOpen) ==> s.cursor !in {FetchedCursor, XFetchedCursor})
  }

  lemma SettleKeepsLinks(f: Func, s: Stmt, r: int, p: Probe)
    requires Links(s) && s.asyn == NullProc && IsCall(f)
    requires f == SetPos ==> s.state in {Fetched, XFetched}
    requires f == Prepare ==> Rank(s.state) <= Rank(CursorOpen)
    ensures Links(Settle(f, s, r, p))
  {
  }

  /** Every call keeps the links, whatever the driver answers. */
  lemma CallKeepsLinks(f: Func, s: Stmt, argErr: Option<SqlState>, d: Driver)
    requires Links(s) && IsCall(f)
    ensures Links(Call(f, s, argErr, d).post)
  {
    CallCases(f, s, argErr, d);
    hide Call, Settle, Terminal, Live, Finished, Stops;
    var ready := Ready(f, s, d.probe);
    assert Links(ready);
    if Call(f, s, argErr, d).entered.Some? {
      var r := Finished(f, Entry(f, d).1.ret, d);
      if ready.asyn == f {
        if f != Prepare {
          SettleKeepsLinks(f, ready.(asyn := NullProc), r, d.probe);
        }
      } else if ready.asyn == NullProc {
        SettleKeepsLinks(f, ready, r, d.probe);
      } else {
        NotLiveStays(f, ready, r, d.probe);
      }
    }
  }

  /** A statement on which the probe itself is left pending has no cursor to fetch from. */
  lemma NotLiveStays(f: Func, s: Stmt, r: int, p: Probe)
    requires f == Fetch && s.state == Executed
    ensures Settle(f, s, r, p) == s
  {
  }

  // ----- runs

  /** One call of a run: any function, any arguments, any driver. */
  datatype Step = Step(f: Func, argErr: Option<SqlState>, d: Driver)

  predicate Runnable(steps: seq<Step>) {
    forall i :: 0 <= i < |steps| ==> IsCall(steps[i].f)
  }

  function After(s: Stmt, step: Step): Stmt {
    Call(step.f, s, step.argErr, step.d).post
  }

  function Run(s: Stmt, steps: seq<Step>): Stmt
    decreases |steps|
  {
    if steps == [] then s else Run(After(s, steps[0]), steps[1..])
  }

  /** A driver entry reached: by which function, at which entry, in which statement. */
  datatype Visit = Visit(api: Func, entry: Func, at: Stmt)

  function Visits(s: Stmt, steps: seq<Step>): seq<Visit>
    decreases |steps|
  {
    if steps == [] then []
    else
      var o := Call(steps[0].f, s, steps[0].argErr, steps[0].d);
      (match o.entered case None => [] case Some(e) => [Visit(steps[0].f, e.0, e.1)])
      + Visits(o.post, steps[1..])
  }

  /** Every statement reachable from a linked one is linked. */
  lemma {:induction false} ReachableLinked(s: Stmt, steps: seq<Step>)
    requires Links(s) && Runnable(steps)
    ensures Links(Run(s, steps))
    decreases |steps|
  {
    if steps != [] {
      CallKeepsLinks(steps[0].f, s, steps[0].argErr, steps[0].d);
      ReachableLinked(After(s, steps[0]), steps[1..]);
    }
  }

  /** The driver's row entries are reached only on a current row and its catalog entries only
      before one. Its fetch entries are reached only by the application's fetch calls: by
      SQLFetch from executed to xfetched, and by SQLExtendedFetch on an executed statement that
      SQLFetch has not moved. */
  predicate Guarded(v: Visit) {
    && (v.entry == GetData || v.entry == SetPos ==> v.at.state in {Fetched, XFetched})
    && (v.entry.Catalog? ==> Rank(v.at.state) <= Rank(CursorOpen))
    && (v.entry == Fetch ==> v.api == Fetch)
    && (v.entry == ExtendedFetch ==> v.api == Fetch || v.api == ExtendedFetch)
    && (v.api == Fetch ==> Rank(Executed) <= Rank(v.at.state) <= Rank(XFetched))
    && (v.api == ExtendedFetch ==> v.at.state in {ExecutedWithInfo, Executed, CursorOpen, XFetched})
  }

  /** In every run, first calls and polls alike, the driver is entered only where it may be. */
  lemma {:induction false} DriverCallsGuarded(s: Stmt, steps: seq<Step>)
    requires Links(s) && Runnable(steps)
    ensures forall i :: 0 <= i < |Visits(s, steps)| ==> Guarded(Visits(s, steps)[i])
    decreases |steps|
  {
    if steps != [] {
      var o := Call(steps[0].f, s, steps[0].argErr, steps[0].d);
      if o.entered.Some? {
        VisitGuarded(steps[0].f, s, steps[0].argErr, steps[0].d);
      }
      CallKeepsLinks(steps[0].f, s, steps[0].argErr, steps[0].d);
      DriverCallsGuarded(o.post, steps[1..]);
    }
  }

  lemma VisitGuarded(f: Func, s: Stmt, argErr: Option<SqlState>, d: Driver)
    requires Links(s) && IsCall(f) && Call(f, s, argErr, d).entered.Some?
    ensures var e := Call(f, s, argErr, d).entered.value;
            Guarded(Visit(f, e.0, e.1))
  {
    CallCases(f, s, argErr, d);
    hide Call, AfterAnswer, Stops;
  }

  /** From allocation on: every statement any run reaches keeps the links, and every driver
      call of the run is guarded. */
  lemma EveryRun(steps: seq<Step>)
    requires Runnable(steps)
    ensures Links(Run(FRESH, steps))
    ensures forall i :: 0 <= i < |Visits(FRESH, steps)| ==> Guarded(Visits(FRESH, steps)[i])
  {
    ReachableLinked(FRESH, steps);
    DriverCallsGuarded(FRESH, steps);
  }

  // ----- fetch modes

  /** Row calls, and catalog calls that do not succeed. */
  predicate OpensNothing(step: Step) {
    step.f in {Fetch, ExtendedFetch, GetData, SetPos}
    || (step.f.Catalog? && (step.d.main.Answer? ==> !Succeeded(step.d.main.ret)))
  }

  /** A statement fetched by SQLFetch, or no longer on a cursor. */
  predicate ForwardOnly(s: Stmt) {
    s.state in {Fetched, Allocated, NeedData} && s.asyn != ExtendedFetch
  }

  lemma ForwardStep(s: Stmt, step: Step)
    requires ForwardOnly(s) && Links(s) && OpensNothing(step)
    ensures ForwardOnly(After(s, step))
    ensures var o := Call(step.f, s, step.argErr, step.d);
            o.entered.Some? ==>
              step.f != ExtendedFetch && (o.entered.value.0 == ExtendedFetch ==> MapsFetch(step.d))
  {
    var f, d := step.f, step.d;
    CallCases(f, s, step.argErr, d);
    hide Call, Stops;
  }

  /** From a fetched statement, no such sequence of calls lets an application's
      SQLExtendedFetch through to the driver or leaves the statement xfetched. The driver's
      SQLExtendedFetch is entered only for a mapped SQLFetch. */
  lemma {:induction false} FetchedNeverExtended(s: Stmt, steps: seq<Step>)
    requires ForwardOnly(s) && Links(s)
    requires forall i :: 0 <= i < |steps| ==> OpensNothing(steps[i])
    ensures forall i :: 0 <= i < |Visits(s, steps)| ==>
              var v := Visits(s, steps)[i];
              v.api != ExtendedFetch && (v.entry == ExtendedFetch ==> v.api == Fetch)
    ensures (forall i :: 0 <= i < |steps| ==> !MapsFetch(steps[i].d)) ==>
              forall i :: 0 <= i < |Visits(s, steps)| ==> Visits(s, steps)[i].entry != ExtendedFetch
    ensures ForwardOnly(Run(s, steps))
    decreases |steps|
  {
    if steps != [] {
      var step := steps[0];
      CallKeepsLinks(step.f, s, step.argErr, step.d);
      ForwardStep(s, step);
      CallCases(step.f, s, step.argErr, step.d);
      hide Call, Links, ForwardOnly, Stops, Refusal, Ready;
      FetchedNeverExtended(After(s, step), steps[1..]);
    }
  }

  predicate ExtendedOnly(s: Stmt) {
    s.state in {XFetched, Allocated, NeedData}
  }

  /** From an xfetched statement, no such sequence of calls leaves the statement fetched. */
  lemma {:induction false} ExtendedNeverFetched(s: Stmt, steps: seq<Step>)
    requires ExtendedOnly(s) && Links(s)
    requires forall i :: 0 <= i < |steps| ==> OpensNothing(steps[i])
    ensures ExtendedOnly(Run(s, steps))
    decreases |steps|
  {
    if steps != [] {
      var step := steps[0];
      CallKeepsLinks(step.f, s, step.argErr, step.d);
      assert ExtendedOnly(After(s, step));
      ExtendedNeverFetched(After(s, step), steps[1..]);
    }
  }

  // ----- cancellation

  predicate RowCallPending(s: Stmt) {
    s.asyn in {Fetch, ExtendedFetch, GetData, SetPos}
  }

  /** Cancelling a linked statement keeps it linked exactly when no row call is pending on an
      open cursor, no fetched mark is left on a statement that loses its row, and a row
      operation that wanted data was on a cursor that was not fetched forward. */
  lemma CancelKeepsLinks(s: Stmt)
    requires Links(s)
    ensures Links(Cancelled(s)) <==>
              if Rank(s.state) <= Rank(XFetched) then
                !RowCallPending(s) && s.cursor !in {FetchedCursor, XFetchedCursor}
              else match s.need
                case SetPos => !s.asyn.Catalog? && s.cursor in {XFetchedCursor, NoCursor}
                case Execute => s.cursor !in {FetchedCursor, XFetchedCursor}
                case ExecDirect => s.cursor !in {FetchedCursor, XFetchedCursor}
                case _ => true
  {
  }

  const WILLING: Driver :=
    Driver(Answer(SQL_SUCCESS), Missing, Odbc3, Odbc3, Probe(Missing, 0),
           Conversion(SQL_SUCCESS, []), Conversion(SQL_SUCCESS, []), false)

  lemma CatalogOpens()
    ensures After(FRESH, Step(Catalog(Tables), None, WILLING)) == FRESH.(state := CursorOpen)
  {
  }

  lemma FetchOnOpen()
    ensures After(FRESH.(state := CursorOpen), Step(Fetch, None, WILLING))
            == Stmt(Fetched, FetchedCursor, false, NullProc, NullProc)
  {
  }

  lemma OpensAndFetches()
    ensures Run(FRESH, [Step(Catalog(Tables), None, WILLING), Step(Fetch, None, WILLING)])
            == Stmt(Fetched, FetchedCursor, false, NullProc, NullProc)
  {
    var open, row := Step(Catalog(Tables), None, WILLING), Step(Fetch, None, WILLING);
    CatalogOpens();
    FetchOnOpen();
    hide After;
    assert [open, row][1..] == [row] && [row][1..] == [];
    assert Run(After(FRESH, open), [row]) == Run(After(After(FRESH, open), row), []);
  }

  /** A reachable statement that SQLCancel leaves allocated with a fetched cursor mark. */
  lemma CancelBreaksLinks()
    ensures exists steps :: Runnable(steps) && Links(Run(FRESH, steps)) && !Links(Cancelled(Run(FRESH, steps)))
  {
    OpensAndFetches();
    hide Run, After, Call;
    var steps := [Step(Catalog(Tables), None, WILLING), Step(Fetch, None, WILLING)];
    assert Runnable(steps);
    assert Links(Run(FRESH, steps)) && !Links(Cancelled(Run(FRESH, steps)));
  }
}
