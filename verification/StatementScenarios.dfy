/** What statements do over several calls, told through calls alone. */
module StatementScenarios {
  import opened CInt
  import opened Statement
  import opened StatementRuns
  import opened StatementTable

  /** The driver answers `r` to the call, and no conversion gets in between. */
  predicate Answers(d: Driver, f: Func, r: int) {
    Entry(f, d).1 == Answer(r) && d.input.ret == 0 && d.output.ret == 0 && !d.noMemory
  }

  function Next(f: Func, s: Stmt, d: Driver): Stmt {
    Call(f, s, None, d).post
  }

  /** The call reaches the driver. */
  predicate Enters(f: Func, s: Stmt, d: Driver) {
    Call(f, s, None, d).entered.Some?
  }

  predicate RefusedWith(f: Func, s: Stmt, d: Driver, e: SqlState) {
    Call(f, s, None, d) == Outcome(s, -1, [e], None)
  }

  /** The driver reports columns for the statement. */
  predicate HasColumns(d: Driver) {
    d.probe.reply in {Answer(0), Answer(1)} && d.probe.ncol != 0
  }

  /** An admitted call that the driver answers, on an idle statement. */
  lemma Step(f: Func, s: Stmt, d: Driver, r: int)
    requires IsCall(f) && s.asyn == NullProc && Answers(d, f, r)
    ensures Enters(f, s, d) <==> ErrorIn(s.state, s.prep, f).None?
    ensures Enters(f, s, d) ==> Next(f, s, d) == StatementTable.Leaves(s, f, r, d.probe)
    ensures forall e :: ErrorIn(s.state, s.prep, f) == Some(e) ==> RefusedWith(f, s, d, e)
  {
    RefusedAsListed(f, s, d);
    Reaches(f, s, d, r);
    hide Refusal, ErrorIn, StatementTable.Leaves, Call;
    if Enters(f, s, d) {
      LeavesAsListed(f, s, d);
    }
  }

  lemma Reaches(f: Func, s: Stmt, d: Driver, r: int)
    requires IsCall(f) && Answers(d, f, r)
    ensures Enters(f, s, d) <==> Refusal(f, s).None?
    ensures Enters(f, s, d) ==> Call(f, s, None, d).ret == r
  {
    hide Refusal, Ready, AfterAnswer;
  }

  // ----- executing and fetching

  /** A successful execution opens a cursor exactly when the driver reports columns: only then
      does a successful SQLFetch find a row. */
  lemma ColumnsOpenCursor(f: Func, s: Stmt, d: Driver, d2: Driver)
    requires s.asyn == NullProc && Answers(d, f, 0) && Answers(d2, Fetch, 0)
    requires (f == Execute && s.state == Prepared)
             || (f == ExecDirect && s.state in {Allocated, Prepared, ExecutedWithInfo, Executed})
    ensures Next(Fetch, Next(f, s, d), d2).state == Fetched <==> HasColumns(d)
  {
    hide Call;
    Step(f, s, d, 0);
    var s1 := Next(f, s, d);
    if s1.asyn == NullProc {
      Step(Fetch, s1, d2, 0);
    } else {
      NothingPendingFetched(s1, d2);
    }
  }

  /** A refused call fetches nothing. */
  lemma NothingPendingFetched(s: Stmt, d: Driver)
    requires s.asyn !in {NullProc, Fetch}
    ensures Next(Fetch, s, d) == s
  {
    RefusedAsListed(Fetch, s, d);
    hide Call, Refusal;
  }

  /** An execution that succeeded with information is looked at by the first SQLFetch. */
  lemma InfoOpensOnFetch(s: Stmt, d: Driver)
    requires s.asyn == NullProc && s.state == ExecutedWithInfo && Answers(d, Fetch, 0)
    ensures Next(Fetch, s, d).state == Fetched <==> HasColumns(d)
  {
    hide Call;
    Step(Fetch, s, d, 0);
  }

  /** At the end of the data the cursor is gone. A prepared statement then refuses catalog calls
      until SQLCloseCursor takes it back to prepared; any other is as good as new. */
  lemma EndOfData(s: Stmt, d: Driver, which: CatalogFunc, d2: Driver, r2: int, d3: Driver)
    requires s.asyn == NullProc && s.state in {CursorOpen, Fetched} && Answers(d, Fetch, 100)
    requires Answers(d2, Catalog(which), r2) && Answers(d3, CloseCursor, 0)
    ensures var s1 := Next(Fetch, s, d);
            && s1.cursor == NoCursor
            && (Enters(Catalog(which), s1, d2) <==> !s.prep)
            && (s.prep ==> Next(CloseCursor, s1, d3).state == Prepared)
            && (!s.prep ==> s1 == FRESH.(need := s.need))
  {
    hide Call;
    Step(Fetch, s, d, 100);
    var s1 := Next(Fetch, s, d);
    Step(Catalog(which), s1, d2, r2);
    Step(CloseCursor, s1, d3, 0);
  }

  /** After a successful SQLFetch there is a row to read, and SQLExtendedFetch is admitted exactly
      when it had fetched before. */
  lemma FetchGivesRow(s: Stmt, d: Driver, d2: Driver, r2: int, d3: Driver, r3: int)
    requires s.asyn == NullProc && s.state in {CursorOpen, Fetched, XFetched} && Answers(d, Fetch, 0)
    requires Answers(d2, GetData, r2) && Answers(d3, ExtendedFetch, r3)
    ensures var s1 := Next(Fetch, s, d);
            && Enters(GetData, s1, d2)
            && (if s.state == XFetched then Enters(ExtendedFetch, s1, d3)
                else RefusedWith(ExtendedFetch, s1, d3, en_S1010))
  {
    hide Call;
    Step(Fetch, s, d, 0);
    var s1 := Next(Fetch, s, d);
    Step(GetData, s1, d2, r2);
    Step(ExtendedFetch, s1, d3, r3);
  }

  /** After SQLExtendedFetch, at the end of the data too, rows can be read and fetched again. */
  lemma ExtendedFetchGivesRows(s: Stmt, d: Driver, r: int, d2: Driver, r2: int, d3: Driver, r3: int)
    requires s.asyn == NullProc && s.state in {CursorOpen, XFetched} && r in {0, 1, 100}
    requires Answers(d, ExtendedFetch, r) && Answers(d2, GetData, r2) && Answers(d3, ExtendedFetch, r3)
    ensures var s1 := Next(ExtendedFetch, s, d);
            Enters(GetData, s1, d2) && Enters(ExtendedFetch, s1, d3)
  {
    hide Call;
    Step(ExtendedFetch, s, d, r);
    var s1 := Next(ExtendedFetch, s, d);
    Step(GetData, s1, d2, r2);
    Step(ExtendedFetch, s1, d3, r3);
  }

  /** A catalog call that succeeds opens a cursor; one that fails forgets the preparation. */
  lemma CatalogOutcome(which: CatalogFunc, s: Stmt, d: Driver, r: int, d2: Driver, d3: Driver, r3: int)
    requires s.asyn == NullProc && s.state in {Allocated, Prepared, ExecutedWithInfo, Executed}
    requires r in {0, 1, -1} && Answers(d, Catalog(which), r)
    requires Answers(d2, Fetch, 0) && Answers(d3, Execute, r3)
    ensures var s1 := Next(Catalog(which), s, d);
            if r == -1 then
              RefusedWith(Fetch, s1, d2, en_S1010) && RefusedWith(Execute, s1, d3, en_S1010) && s1.state == Allocated
            else Next(Fetch, s1, d2).state == Fetched
  {
    hide Call;
    Step(Catalog(which), s, d, r);
    var s1 := Next(Catalog(which), s, d);
    Step(Fetch, s1, d2, 0);
    Step(Execute, s1, d3, r3);
  }

  // ----- preparing and executing again

  /** After a successful SQLPrepare the statement executes; after a failed one it executes only
      what was prepared before, and only from a cursor. */
  lemma PrepareOutcome(s: Stmt, d: Driver, r: int, d2: Driver, r2: int)
    requires s.asyn == NullProc && r in {0, 1, -1} && Answers(d, Prepare, r) && Answers(d2, Execute, r2)
    requires s.state in {Allocated, Prepared, ExecutedWithInfo, Executed, CursorOpen}
    ensures Enters(Execute, Next(Prepare, s, d), d2) <==> r != -1 || (s.state == CursorOpen && s.prep)
  {
    hide Call;
    Step(Prepare, s, d, r);
    Step(Execute, Next(Prepare, s, d), d2, r2);
  }

  /** A failed second execution leaves the preparation, and nothing to fetch. */
  lemma FailedReexecution(s: Stmt, d: Driver, d2: Driver, r2: int, d3: Driver, r3: int)
    requires s.asyn == NullProc && s.state == Executed && s.prep && Answers(d, Execute, -1)
    requires Answers(d2, Fetch, r2) && Answers(d3, Execute, r3)
    ensures var s1 := Next(Execute, s, d);
            s1.cursor == NoCursor && RefusedWith(Fetch, s1, d2, en_S1010) && Enters(Execute, s1, d3)
  {
    hide Call;
    Step(Execute, s, d, -1);
    var s1 := Next(Execute, s, d);
    Step(Fetch, s1, d2, r2);
    Step(Execute, s1, d3, r3);
  }

  /** A direct execution that fails forgets the preparation; one that succeeds can be executed
      again once its cursor is closed. */
  lemma DirectOutcome(s: Stmt, d: Driver, r: int, d2: Driver, d3: Driver, r3: int)
    requires s.asyn == NullProc && s.state in {Allocated, Prepared, ExecutedWithInfo, Executed}
    requires r in {0, 1, -1} && Answers(d, ExecDirect, r) && d.probe.reply != Answer(2)
    requires Answers(d2, CloseCursor, 0) && Answers(d3, Execute, r3)
    ensures Enters(Execute, Next(CloseCursor, Next(ExecDirect, s, d), d2), d3) <==> r != -1
  {
    hide Call;
    Step(ExecDirect, s, d, r);
    var s1 := Next(ExecDirect, s, d);
    Step(CloseCursor, s1, d2, 0);
    Step(Execute, Next(CloseCursor, s1, d2), d3, r3);
  }

  /** Closing the cursor takes an executed statement back to prepared or allocated; a close that
      the driver fails changes nothing. */
  lemma CloseOutcome(s: Stmt, d: Driver, r: int, d2: Driver, r2: int, d3: Driver, r3: int)
    requires s.asyn == NullProc && s.state in {ExecutedWithInfo, Executed, CursorOpen, Fetched, XFetched}
    requires r in {0, 1, -1} && Answers(d, CloseCursor, r) && Answers(d2, Execute, r2) && Answers(d3, Fetch, r3)
    ensures var s1 := Next(CloseCursor, s, d);
            if r == -1 then s1 == s
            else
              && s1.cursor == NoCursor && RefusedWith(Fetch, s1, d3, en_S1010)
              && (if s.prep then Enters(Execute, s1, d2) else RefusedWith(Execute, s1, d2, en_S1010))
  {
    hide Call;
    Step(CloseCursor, s, d, r);
    var s1 := Next(CloseCursor, s, d);
    Step(Execute, s1, d2, r2);
    Step(Fetch, s1, d3, r3);
  }

  // ----- data at execution

  /** The states in which a call can end up waiting for data. */
  predicate CanNeedData(f: Func, s: Stmt) {
    (f == Execute && (s.state == Prepared || (s.state == Executed && s.prep)))
    || (f == ExecDirect && s.state in {Allocated, Prepared, ExecutedWithInfo, Executed})
    || (f == SetPos && s.state in {Fetched, XFetched})
  }

  /** A statement that waits for data refuses everything, until SQLCancel takes it back to where
      the call can be made again. */
  lemma DataNeeded(f: Func, s: Stmt, d: Driver, g: Func, d2: Driver, r2: int)
    requires s.asyn == NullProc && CanNeedData(f, s) && Answers(d, f, 99)
    requires IsCall(g) && Answers(d2, g, r2)
    ensures var s1 := Next(f, s, d);
            && s1.need == f && RefusedWith(g, s1, d2, en_S1010)
            && Cancelled(s1).need == NullProc
            && Cancelled(s1).state ==
               (if f == ExecDirect then Allocated else if f == Execute then Prepared else XFetched)
  {
    hide Call;
    Step(f, s, d, 99);
    Step(g, Next(f, s, d), d2, r2);
  }

  /** Cancelling otherwise takes an executed statement back to prepared or allocated, and no
      statement anywhere else; the cursor mark and the pending call stay. */
  lemma CancelOutcome(s: Stmt)
    ensures Cancelled(s).cursor == s.cursor && Cancelled(s).asyn == s.asyn && Cancelled(s).prep == s.prep
    ensures s.state in {Allocated, Prepared} ==> Cancelled(s) == s
    ensures s.state in {ExecutedWithInfo, Executed, CursorOpen, Fetched, XFetched} ==>
              Cancelled(s).state == (if s.prep then Prepared else Allocated) && Cancelled(s).need == s.need
    ensures s.state in {NeedData, MustPut, CanPut} && s.need !in {Execute, ExecDirect, SetPos} ==>
              Cancelled(s).state == s.state && Cancelled(s).need == NullProc
  {
  }

  // ----- asynchronous calls

  /** The states in which a first answer STILL_EXECUTING leaves the call pending. */
  predicate CanPend(f: Func, s: Stmt) {
    match f
    case Fetch => s.state in {CursorOpen, Fetched, XFetched}
    case ExtendedFetch => s.state in {CursorOpen, XFetched}
    case GetData => s.state in {Fetched, XFetched}
    case SetPos => s.state in {Fetched, XFetched}
    case Catalog(_) => s.state in {Allocated, Prepared, ExecutedWithInfo, Executed}
    case ExecDirect => s.state in {Allocated, Prepared, ExecutedWithInfo, Executed}
    case Execute => s.state == Prepared || (s.state == Executed && s.prep)
    case Prepare => s.state in {Allocated, Prepared, ExecutedWithInfo, Executed, CursorOpen}
    case NumResultCols => s.state in {Prepared, ExecutedWithInfo, Executed, CursorOpen, Fetched, XFetched}
    case _ => false
  }

  /** A first answer STILL_EXECUTING leaves the call pending exactly in those states, and, for
      SQLFetch after an execution with information, when its own probe opens the cursor. */
  lemma PendingExactly(f: Func, s: Stmt, d: Driver)
    requires s.asyn == NullProc && IsCall(f) && Answers(d, f, 2)
    ensures Next(f, s, d).asyn == f <==>
            CanPend(f, s) || (f == Fetch && s.state == ExecutedWithInfo && HasColumns(d))
  {
    hide Call, Refusal, Answers, Entry;
    Step(f, s, d, 2);
    if ErrorIn(s.state, s.prep, f).Some? {
      assert RefusedWith(f, s, d, ErrorIn(s.state, s.prep, f).value);
    }
  }

  /** While a call is pending it alone is admitted, and polling it reaches the driver. */
  lemma PendingAlone(s: Stmt, g: Func, d: Driver, r: int)
    requires IsCall(s.asyn) && s.asyn != CloseCursor && IsCall(g) && Answers(d, g, r)
    ensures if g == s.asyn then Enters(g, s, d) else RefusedWith(g, s, d, en_S1010)
  {
    RefusedAsListed(g, s, d);
    Reaches(g, s, d, r);
    hide Call, Refusal;
  }

  // ----- errors

  /** An argument error is reported before the state is looked at, except by SQLPrepare. */
  lemma ArgumentsFirst(f: Func, s: Stmt, e: SqlState, d: Driver)
    requires IsCall(f)
    ensures var state := if s.asyn == NullProc then ErrorIn(s.state, s.prep, f)
                         else if s.asyn == f && f != CloseCursor then None
                         else Some(en_S1010);
            Call(f, s, Some(e), d) ==
              Outcome(s, -1, [if f == Prepare && state.Some? then state.value else e], None)
  {
    RefusedAsListed(f, s, d);
    hide Refusal;
  }

  /** A driver without the entry point: the call fails with IM001 and leaves the statement, which
      SQLFetch may already have probed, as it is. */
  lemma EntryMissing(f: Func, s: Stmt, d: Driver)
    requires IsCall(f) && s.asyn == NullProc && ErrorIn(s.state, s.prep, f).None?
    requires Entry(f, d).1 == Missing && d.input == Conversion(0, []) && !d.noMemory
    ensures var o := Call(f, s, None, d);
            if f == Fetch && s.state == ExecutedWithInfo then
              o == Outcome(AfterExecution(s, d.probe), -1,
                           (if d.probe.reply == Missing then [en_IM001] else []) + [en_IM001], None)
            else o == Outcome(s, -1, [en_IM001], None)
  {
    RefusedAsListed(f, s, d);
    hide Refusal, ErrorIn;
    assert [] + [] + [en_IM001] == [en_IM001];
  }

  /** A driver without the column probe adds IM001 to a successful execution, and opens nothing. */
  lemma ProbeMissing(f: Func, s: Stmt, d: Driver)
    requires s.asyn == NullProc && Answers(d, f, 0) && d.probe.reply == Missing
    requires d.input.errs == [] && d.output.errs == []
    requires (f == Execute && s.state == Prepared)
             || (f == ExecDirect && s.state in {Allocated, Prepared, ExecutedWithInfo, Executed})
    ensures var o := Call(f, s, None, d);
            o.ret == 0 && o.errs == [en_IM001] && o.post.state == Executed && o.post.cursor == s.cursor
  {
    hide Terminal;
  }

  /** The buffer SQLGetData cannot get: an error that the statement does not record. */
  lemma NoBuffer(s: Stmt, d: Driver)
    requires Refusal(GetData, s).None? && d.noMemory
    ensures Call(GetData, s, None, d) == Outcome(s, -1, [], None)
  {
    hide Refusal;
  }
}
