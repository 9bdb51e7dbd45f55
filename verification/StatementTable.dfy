/** The state machine read the other way round, in the layout of Appendix B of the ODBC
    Programmer's Reference: one entry a state, with the driver's return codes as numbers. The
    `Statement` module, and through it the entry points, are checked against it. */
module StatementTable {
  import opened CInt
  import opened Statement
  import opened StatementRuns

  /** The error with which an idle statement in a state refuses a call. */
  function ErrorIn(state: State, prep: bool, f: Func): Option<SqlState> {
    match state
    case Allocated =>
      if f.Catalog? || f in {Prepare, ExecDirect, CloseCursor} then None else Some(en_S1010)
    case Prepared =>
      if f in {Fetch, ExtendedFetch, GetData, SetPos} then Some(en_S1010) else None
    case ExecutedWithInfo => ErrorExecuted(prep, f)
    case Executed => ErrorExecuted(prep, f)
    case CursorOpen => ErrorExecuted(prep, f)
    case Fetched => if f == ExtendedFetch then Some(en_S1010) else ErrorOnRow(prep, f)
    case XFetched => ErrorOnRow(prep, f)
    case NeedData => Some(en_S1010)
    case MustPut => Some(en_S1010)
    case CanPut => Some(en_S1010)
  }

  function ErrorExecuted(prep: bool, f: Func): Option<SqlState> {
    if f in {GetData, SetPos} then Some(en_24000)
    else if f == Execute && !prep then Some(en_S1010)
    else None
  }

  function ErrorOnRow(prep: bool, f: Func): Option<SqlState> {
    if f.Catalog? || f in {Prepare, ExecDirect} then Some(en_24000)
    else if f == Execute then Some(if prep then en_24000 else en_S1010)
    else None
  }

  /** A call is refused, with that error and no other effect, exactly as the table says; a
      pending call refuses every other one, and lets itself be polled. */
  lemma RefusedAsListed(f: Func, s: Stmt, d: Driver)
    requires IsCall(f)
    ensures var e := if s.asyn == NullProc then ErrorIn(s.state, s.prep, f)
                     else if s.asyn == f && f != CloseCursor then None
                     else Some(en_S1010);
            Refusal(f, s) == e
            && (e.Some? ==> Call(f, s, None, d) == Outcome(s, -1, [e.value], None))
  {
  }

  // ----- the entries

  /** After an execution: a cursor when the probe succeeds with columns, none when it succeeds
      without; the probe itself may be left pending. */
  function AfterExecution(s: Stmt, p: Probe): Stmt {
    if p.reply == Answer(0) || p.reply == Answer(1) then
      (if p.ncol == 0 then s.(state := Executed, cursor := NoCursor)
       else s.(state := CursorOpen, cursor := OpenedCursor))
    else if p.reply == Answer(2) then s.(state := Executed, asyn := NumResultCols)
    else s.(state := Executed)
  }

  /** The catalog functions and SQLExecDirect, in the four states before a cursor. */
  function BeforeCursor(s: Stmt, f: Func, r: int, p: Probe): Stmt {
    if r == 2 then s.(asyn := f)
    else if f.Catalog? then
      (if r in {0, 1} then s.(state := CursorOpen)
       else if r == -1 then s.(state := Allocated, prep := false)
       else s)
    else
      (if r == 0 then AfterExecution(s, p).(prep := true)
       else if r == 1 then s.(state := ExecutedWithInfo, prep := true)
       else if r == 99 then s.(state := NeedData, need := ExecDirect)
       else if r == -1 then s.(state := Allocated, cursor := NoCursor, prep := false)
       else s)
  }

  /** SQLPrepare forgets an earlier preparation on an error, except from a cursor. */
  function AfterPrepare(s: Stmt, r: int): Stmt {
    if r in {0, 1} then s.(state := Prepared, prep := true)
    else if r == 2 then s.(asyn := Prepare)
    else if r == -1 && s.state !in {Allocated, CursorOpen} then s.(state := Allocated, prep := false)
    else s
  }

  function Unexecuted(s: Stmt): Stmt {
    s.(cursor := NoCursor, state := if s.prep then Prepared else Allocated)
  }

  /** What the result of an admitted call leaves of an idle statement. */
  function Leaves(s: Stmt, f: Func, r: int, p: Probe): Stmt {
    if f == CloseCursor then
      (if r !in {0, 1} then s
       else if s.state in {Allocated, Prepared} then s.(cursor := NoCursor)
       else Unexecuted(s))
    else if f == NumResultCols then (if r == 2 then s.(asyn := NumResultCols) else s)
    else if f == Prepare then AfterPrepare(s, r)
    else match s.state
      case Allocated => BeforeCursor(s, f, r, p)
      case Prepared =>
        if f != Execute then BeforeCursor(s, f, r, p)
        else if r == 0 then AfterExecution(s, p)
        else if r == 1 then s.(state := ExecutedWithInfo)
        else if r == 2 then s.(asyn := Execute)
        else if r == 99 then s.(state := NeedData, need := Execute)
        else s
      case ExecutedWithInfo =>
        if f.Catalog? || f == ExecDirect then BeforeCursor(s, f, r, p)
        else if f == Fetch then
          (if AfterExecution(s, p).state == CursorOpen then OnCursor(AfterExecution(s, p), Fetch, r)
           else AfterExecution(s, p))
        else s
      case Executed =>
        if f.Catalog? || f == ExecDirect then BeforeCursor(s, f, r, p)
        else if f != Execute then s
        else if r == 2 then s.(asyn := Execute)
        else if r == 99 then s.(state := NeedData, need := Execute)
        else if r == -1 then s.(state := Prepared, cursor := NoCursor)
        else s
      case CursorOpen => OnCursor(s, f, r)
      case Fetched => OnCursor(s, f, r)
      case XFetched => OnCursor(s, f, r)
      case _ => s
  }

  /** The fetch and row functions on a cursor. */
  function OnCursor(s: Stmt, f: Func, r: int): Stmt {
    if r == 2 && f in {Fetch, ExtendedFetch, GetData, SetPos} then s.(asyn := f)
    else if f == Fetch && r in {0, 1} then
      (if s.state == XFetched then s.(cursor := XFetchedCursor) else s.(state := Fetched, cursor := FetchedCursor))
    else if f == Fetch && r == 100 then
      (if !s.prep then s.(state := Allocated, cursor := NoCursor)
       else if s.state == XFetched then s.(cursor := NoCursor)
       else s.(state := Fetched, cursor := NoCursor))
    else if f == ExtendedFetch && r in {0, 1, 100} then s.(state := XFetched, cursor := XFetchedCursor)
    else if f == SetPos && r == 99 then s.(state := NeedData, need := SetPos)
    else s
  }

  lemma SettlesAsListed(f: Func, s: Stmt, r: int, p: Probe)
    requires IsCall(f) && s.asyn == NullProc && ErrorIn(s.state, s.prep, f).None?
    ensures Settle(f, Ready(f, s, p), r, p) == Leaves(s, f, r, p)
  {
    if f == Fetch && s.state == ExecutedWithInfo {
      FirstFetch(s, r, p);
    }
  }

  lemma FirstFetch(s: Stmt, r: int, p: Probe)
    requires s.asyn == NullProc && s.state == ExecutedWithInfo
    ensures Settle(Fetch, Ready(Fetch, s, p), r, p) == Leaves(s, Fetch, r, p)
  {
  }

  /** An admitted call that reaches the driver leaves an idle statement as the table says. */
  lemma LeavesAsListed(f: Func, s: Stmt, d: Driver)
    requires IsCall(f) && s.asyn == NullProc
    requires Call(f, s, None, d).entered.Some?
    ensures Call(f, s, None, d).post == Leaves(s, f, Call(f, s, None, d).ret, d.probe)
  {
    CallCases(f, s, None, d);
    ReturnsFinished(f, s, d);
    RefusedAsListed(f, s, d);
    ReadyMark(f, s, d.probe);
    hide Call, Settle, Leaves, Ready, Refusal, ErrorIn, Terminal;
    SettlesAsListed(f, s, Finished(f, Entry(f, d).1.ret, d), d.probe);
  }

  lemma ReturnsFinished(f: Func, s: Stmt, d: Driver)
    requires Call(f, s, None, d).entered.Some?
    ensures Entry(f, d).1.Answer? && Call(f, s, None, d).ret == Finished(f, Entry(f, d).1.ret, d)
  {
    hide Refusal, Ready, AfterAnswer, Finished;
  }

  lemma ReadyMark(f: Func, s: Stmt, p: Probe)
    requires IsCall(f) && s.asyn == NullProc
    ensures Ready(f, s, p).asyn in {NullProc, NumResultCols} && (f == NumResultCols ==> Ready(f, s, p) == s)
  {
  }

  // ----- results that end a pending call

  /** The return codes that end a pending call. */
  predicate Ends(f: Func, r: int) {
    r in {0, 1, -1} || (r == 100 && f in {Fetch, ExtendedFetch, GetData})
    || (r == 99 && f in {SetPos, Execute, ExecDirect})
  }

  /** A poll of a pending call whose answer does not end it changes nothing; one whose answer
      does leaves what a first call with that answer leaves, except for SQLPrepare. */
  lemma PollsAsListed(f: Func, s: Stmt, d: Driver)
    requires IsCall(f) && s.asyn == f && f != CloseCursor && Call(f, s, None, d).entered.Some?
    ensures var o, r := Call(f, s, None, d), Entry(f, d).1.ret;
            if !Ends(f, r) then o.post == s
            else if f == Prepare then o.post == s.(asyn := NullProc)
            else o.post == Settle(f, s.(asyn := NullProc), o.ret, d.probe)
  {
    CallCases(f, s, None, d);
    ReturnsFinished(f, s, d);
    ReadyPending(f, s, d.probe);
    hide Call, Settle, Ready, Refusal;
  }

  lemma ReadyPending(f: Func, s: Stmt, p: Probe)
    requires s.asyn != NullProc
    ensures Ready(f, s, p) == s
  {
  }

  // ----- driver entries and conversions

  /** Which driver entry a call uses, by the versions and by what the driver has. */
  lemma EntryAsListed(f: Func, d: Driver)
    requires IsCall(f)
    ensures Entry(f, d) ==
              if f == Fetch && d.appVer == Odbc3 && d.drvVer == Odbc2 && d.other != Missing then
                (ExtendedFetch, d.other)
              else if f == CloseCursor && d.drvVer == Odbc3 && d.appVer == Odbc3 && d.main != Missing then
                (CloseCursor, d.main)
              else if f == CloseCursor && d.drvVer == Odbc3 && d.appVer == Odbc2 && d.other == Missing
                      && d.main != Missing then
                (CloseCursor, d.main)
              else if f == CloseCursor then (FreeStmt, d.other)
              else (f, d.main)
  {
  }

  /** A failed conversion of input parameters ends an execution before the driver, with its own
      result and errors, and changes nothing. SQLExecute looks for its entry point first,
      SQLExecDirect last. */
  lemma InputFails(f: Func, s: Stmt, d: Driver)
    requires f in {Execute, ExecDirect} && Refusal(f, s).None? && d.input.ret != 0
    ensures Call(f, s, None, d) ==
            if f == Execute && d.main == Missing then Outcome(s, -1, [en_IM001], None)
            else Outcome(s, d.input.ret, d.input.errs, None)
  {
    hide Refusal;
    assert [] + d.input.errs == d.input.errs;
  }

  /** A failed conversion of output parameters makes a successful execution end as if the driver
      had answered the conversion's result. */
  lemma OutputFails(f: Func, s: Stmt, d: Driver)
    requires f in {Execute, ExecDirect} && s.asyn == NullProc
    requires d.main in {Answer(0), Answer(1)} && d.output.ret !in {0, 1}
    ensures var d' := d.(main := Answer(d.output.ret));
            Call(f, s, None, d).post == Call(f, s, None, d').post && Call(f, s, None, d).ret == Call(f, s, None, d').ret
    ensures Refusal(f, s).None? && d.input.ret == 0 ==> Call(f, s, None, d).errs == d.input.errs + d.output.errs
  {
    hide Refusal, Settle;
    assert [] + d.input.errs + d.output.errs + [] == d.input.errs + d.output.errs;
  }
}
