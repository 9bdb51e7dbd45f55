/** The statement handle, with its fields updated in place as the entry points do it. Each
    method is checked against the table of the `Statement` module. */
module StatementObject {
  import opened CInt
  import opened Statement

  const SQL_FETCH_NEXT: int := 1
  const SQL_FETCH_BOOKMARK: int := 8
  const SQL_ADD: int := 4
  const SQL_LOCK_UNLOCK: int := 2
  const NO_CONVERSION: Conversion := Conversion(SQL_SUCCESS, [])

  /** The argument checks, with the numbers of the headers. */
  lemma ArgumentErrors(fetchType: int, option: int, lockType: int, nullValue: bool, valueMax: int, knownType: bool)
    ensures StatementHandle.FetchTypeError(fetchType) ==
            if 1 <= fetchType <= 8 then None else Some(en_S1106)
    ensures StatementHandle.SetPosError(option, lockType) ==
            if option <= 4 && lockType <= 2 then None else Some(en_S1009)
    ensures var e := StatementHandle.GetDataError(nullValue, valueMax, knownType);
            && (e == Some(en_S1009) <==> nullValue)
            && (e == Some(en_S1090) <==> !nullValue && valueMax < 0)
            && (e == Some(en_S1003) <==> !nullValue && valueMax >= 0 && !knownType)
            && (e == None <==> !nullValue && valueMax >= 0 && knownType)
  {
  }

  /** The outcome of SQLExecDirect, case by case. */
  lemma ExecDirectCases(s: Stmt, argErr: Option<SqlState>, d: Driver)
    ensures var o := Call(ExecDirect, s, argErr, d);
            if argErr.Some? then o == Outcome(s, SQL_ERROR, [argErr.value], None)
            else if Refusal(ExecDirect, s).Some? then o == Outcome(s, SQL_ERROR, [Refusal(ExecDirect, s).value], None)
            else if d.input.ret != SQL_SUCCESS then o == Outcome(s, d.input.ret, d.input.errs, None)
            else if d.main == Missing then o == Outcome(s, SQL_ERROR, d.input.errs + [en_IM001], None)
            else
              var ret := Finished(ExecDirect, d.main.ret, d);
              && o.post == AfterAnswer(ExecDirect, s, d.main.ret, d) && o.ret == ret
              && o.entered == Some((ExecDirect, s))
              && o.errs == d.input.errs + OutputErrors(ExecDirect, d.main.ret, d)
                           + ProbeErrors(ProbesAfter(ExecDirect, s, ret), d.probe)
  {
    hide Refusal, AfterAnswer, Finished, OutputErrors, ProbesAfter;
    assert [] + d.input.errs == d.input.errs;
  }

  lemma Appended<T>(a: seq<T>, b: seq<T>, c: seq<T>, d: seq<T>)
    ensures a + b + c + d == a + (b + c + d)
  {
  }

  class StatementHandle {
    var state: State
    var cursor_state: Cursor
    var prep_state: bool
    var asyn_on: Func
    var need_on: Func
    /** The error list, newest last. */
    var herr: seq<SqlState>

    constructor ()
      ensures View() == FRESH && herr == []
    {
      state, cursor_state, prep_state := Allocated, NoCursor, false;
      asyn_on, need_on, herr := NullProc, NullProc, [];
    }

    function View(): Stmt
      reads this
    {
      Stmt(state, cursor_state, prep_state, asyn_on, need_on)
    }

    method PushError(e: SqlState)
      modifies this`herr
      ensures herr == old(herr) + [e]
    {
      herr := herr + [e];
    }

    /** What a call leaves behind, told by its outcome. */
    twostate predicate Leaves(o: Outcome, ret: int, new entered: Option<Func>)
      reads this
    {
      && View() == o.post && ret == o.ret && herr == old(herr) + o.errs
      && entered == (match o.entered case None => None case Some(e) => Some(e.0))
    }

    /** `_iodbcdm_NumResultCols` */
    method ResultCols(d: Driver) returns (ret: int, ncol: int, entered: Option<Func>)
      modifies this
      ensures Leaves(Call(NumResultCols, old(View()), None, d), ret, entered)
      ensures Succeeded(ret) && entered.Some? ==> ncol == d.probe.ncol
    {
      ncol, entered := 0, None;
      if asyn_on == NullProc {
        if state == Allocated || Rank(state) >= Rank(NeedData) {
          PushError(en_S1010);
          return SQL_ERROR, ncol, entered;
        }
      } else if asyn_on != NumResultCols {
        PushError(en_S1010);
        return SQL_ERROR, ncol, entered;
      }
      if d.main == Missing {
        PushError(en_IM001);
        return SQL_ERROR, ncol, entered;
      }
      ret, entered := d.main.ret, Some(NumResultCols);
      if asyn_on == NumResultCols {
        if Succeeded(ret) || ret == SQL_ERROR {
          asyn_on := NullProc;
        }
      }
      if Succeeded(ret) {
        ncol := d.probe.ncol;
      } else if ret == SQL_STILL_EXECUTING {
        asyn_on := NumResultCols;
      }
    }

    /** `_iodbcdm_do_cursoropen` */
    method DoCursorOpen(p: Probe)
      requires asyn_on == NullProc
      modifies this
      ensures View() == Probed(old(View()), p)
      ensures herr == old(herr) + (if p.reply == Missing then [en_IM001] else [])
    {
      state := Executed;
      var d := Driver(p.reply, Missing, Unset, Unset, p, NO_CONVERSION, NO_CONVERSION, false);
      var ret, ncol, entered := ResultCols(d);
      if Succeeded(ret) {
        if ncol != 0 {
          state := CursorOpen;
          cursor_state := OpenedCursor;
        } else {
          state := Executed;
          cursor_state := NoCursor;
        }
      }
    }

    /** `SQLFetch_Internal` */
    method FetchRow(d: Driver) returns (ret: int, entered: Option<Func>)
      modifies this
      ensures Leaves(Call(Fetch, old(View()), None, d), ret, entered)
    {
      hide AfterAnswer, Settle, Probed, Terminal, Live;
      entered := None;
      if asyn_on == NullProc {
        match state {
          case Allocated | Prepared | NeedData | MustPut | CanPut =>
            PushError(en_S1010);
            return SQL_ERROR, entered;
          case ExecutedWithInfo =>
            DoCursorOpen(d.probe);
          case _ =>
        }
      } else if asyn_on != Fetch {
        PushError(en_S1010);
        return SQL_ERROR, entered;
      }
      ret := SQL_SUCCESS;
      var hproc := Missing;
      if MapsFetch(d) {
        hproc := d.other;
        if hproc.Answer? {
          ret, entered := hproc.ret, Some(ExtendedFetch);
        }
      }
      if hproc == Missing {
        hproc := d.main;
        if hproc == Missing {
          PushError(en_IM001);
          return SQL_ERROR, entered;
        }
        ret, entered := hproc.ret, Some(Fetch);
      }
      FetchTransition(ret);
    }

    /** The state transition at the end of `SQLFetch_Internal`. */
    method FetchTransition(ret: int)
      modifies this
      ensures forall d :: View() == AfterAnswer(Fetch, old(View()), ret, d)
      ensures herr == old(herr)
    {
      if asyn_on == Fetch {
        if Succeeded(ret) || ret == SQL_NO_DATA_FOUND || ret == SQL_ERROR {
          asyn_on := NullProc;
        } else {
          return;
        }
      }
      if state == CursorOpen || state == Fetched || state == XFetched {
        if Succeeded(ret) {
          if state == XFetched {
            state := XFetched;
            cursor_state := XFetchedCursor;
          } else {
            state := Fetched;
            cursor_state := FetchedCursor;
          }
        } else if ret == SQL_NO_DATA_FOUND {
          if prep_state {
            if state == XFetched {
              state := XFetched;
            } else {
              state := Fetched;
            }
          } else {
            state := Allocated;
          }
          cursor_state := NoCursor;
        } else if ret == SQL_STILL_EXECUTING {
          asyn_on := Fetch;
        }
      }
    }

    /** The argument error of `_iodbcdm_ExtendedFetch`. */
    static function FetchTypeError(fetchType: int): Option<SqlState> {
      if fetchType < SQL_FETCH_NEXT || fetchType > SQL_FETCH_BOOKMARK then Some(en_S1106) else None
    }

    /** The state transition at the end of `_iodbcdm_ExtendedFetch`. */
    method ExtendedFetchTransition(ret: int)
      modifies this
      ensures forall d :: View() == AfterAnswer(ExtendedFetch, old(View()), ret, d)
      ensures herr == old(herr)
    {
      if asyn_on == ExtendedFetch {
        if Succeeded(ret) || ret == SQL_NO_DATA_FOUND || ret == SQL_ERROR {
          asyn_on := NullProc;
        } else {
          return;
        }
      }
      if state == CursorOpen || state == XFetched {
        if Succeeded(ret) || ret == SQL_NO_DATA_FOUND {
          state := XFetched;
          cursor_state := XFetchedCursor;
        } else if ret == SQL_STILL_EXECUTING {
          asyn_on := ExtendedFetch;
        }
      }
    }

    /** `_iodbcdm_ExtendedFetch` */
    method ExtendedFetchRows(fetchType: int, d: Driver) returns (ret: int, entered: Option<Func>)
      modifies this
      ensures Leaves(Call(ExtendedFetch, old(View()), FetchTypeError(fetchType), d), ret, entered)
    {
      hide AfterAnswer, Settle, Probed, Terminal, Live, ClosesByCursor;
      entered := None;
      if fetchType < SQL_FETCH_NEXT || fetchType > SQL_FETCH_BOOKMARK {
        PushError(en_S1106);
        return SQL_ERROR, entered;
      }
      if asyn_on == NullProc {
        match state {
          case Allocated | Prepared | Fetched | NeedData | MustPut | CanPut =>
            PushError(en_S1010);
            return SQL_ERROR, entered;
          case _ =>
        }
      } else if asyn_on != ExtendedFetch {
        PushError(en_S1010);
        return SQL_ERROR, entered;
      }
      if d.main == Missing {
        PushError(en_IM001);
        return SQL_ERROR, entered;
      }
      ret, entered := d.main.ret, Some(ExtendedFetch);
      ExtendedFetchTransition(ret);
    }

    /** The argument error of `SQLGetData_Internal`. */
    static function GetDataError(nullValue: bool, valueMax: int, knownType: bool): Option<SqlState> {
      if nullValue then Some(en_S1009)
      else if valueMax < 0 then Some(en_S1090)
      else if !knownType then Some(en_S1003)
      else None
    }

    /** `SQLGetData_Internal` */
    method GetColumnData(nullValue: bool, valueMax: int, knownType: bool, d: Driver)
      returns (ret: int, entered: Option<Func>)
      modifies this
      ensures Leaves(Call(GetData, old(View()), GetDataError(nullValue, valueMax, knownType), d), ret, entered)
    {
      entered := None;
      var sqlstat: Option<SqlState> := None;
      if nullValue {
        sqlstat := Some(en_S1009);
      } else if valueMax < 0 {
        sqlstat := Some(en_S1090);
      } else if !knownType {
        sqlstat := Some(en_S1003);
      }
      if sqlstat.Some? {
        PushError(sqlstat.value);
        return SQL_ERROR, entered;
      }
      sqlstat := RowCheck(GetData);
      if sqlstat.Some? {
        PushError(sqlstat.value);
        return SQL_ERROR, entered;
      }
      if d.noMemory {
        return SQL_ERROR, entered;
      }
      if d.main == Missing {
        PushError(en_IM001);
        return SQL_ERROR, entered;
      }
      ret, entered := d.main.ret, Some(GetData);
      if asyn_on == GetData {
        if Succeeded(ret) || ret == SQL_NO_DATA_FOUND || ret == SQL_ERROR {
          asyn_on := NullProc;
        } else {
          return;
        }
      }
      if state == Fetched || state == XFetched {
        if ret == SQL_STILL_EXECUTING {
          asyn_on := GetData;
        }
      }
    }

    /** The state check SQLGetData and SQLSetPos share. */
    method RowCheck(f: Func) returns (sqlstat: Option<SqlState>)
      requires f == GetData || f == SetPos
      ensures sqlstat == Refusal(f, View())
    {
      sqlstat := None;
      if asyn_on == NullProc {
        match state {
          case Allocated | Prepared | NeedData | MustPut | CanPut => sqlstat := Some(en_S1010);
          case ExecutedWithInfo | Executed | CursorOpen => sqlstat := Some(en_24000);
          case _ =>
        }
      } else if asyn_on != f {
        sqlstat := Some(en_S1010);
      }
    }

    /** The argument error of `_iodbcdm_SetPos`. */
    static function SetPosError(option: int, lockType: int): Option<SqlState> {
      if option > SQL_ADD || lockType > SQL_LOCK_UNLOCK then Some(en_S1009) else None
    }

    /** `_iodbcdm_SetPos` */
    method SetPosition(option: int, lockType: int, d: Driver) returns (ret: int, entered: Option<Func>)
      modifies this
      ensures Leaves(Call(SetPos, old(View()), SetPosError(option, lockType), d), ret, entered)
    {
      entered := None;
      if option > SQL_ADD || lockType > SQL_LOCK_UNLOCK {
        PushError(en_S1009);
        return SQL_ERROR, entered;
      }
      var sqlstat := RowCheck(SetPos);
      if sqlstat.Some? {
        PushError(sqlstat.value);
        return SQL_ERROR, entered;
      }
      if d.main == Missing {
        PushError(en_IM001);
        return SQL_ERROR, entered;
      }
      ret, entered := d.main.ret, Some(SetPos);
      if asyn_on == SetPos {
        if Succeeded(ret) || ret == SQL_NEED_DATA || ret == SQL_ERROR {
          asyn_on := NullProc;
        } else {
          return;
        }
      }
      if ret == SQL_NEED_DATA {
        state := NeedData;
        need_on := SetPos;
      } else if ret == SQL_STILL_EXECUTING {
        asyn_on := SetPos;
      }
    }

    /** `_iodbcdm_cata_state_ok` */
    method CatalogStateOk(fidx: CatalogFunc) returns (ret: int)
      modifies this`herr
      ensures match Refusal(Catalog(fidx), View())
              case None => ret == SQL_SUCCESS && herr == old(herr)
              case Some(e) => ret == SQL_ERROR && herr == old(herr) + [e]
    {
      var sqlstat: Option<SqlState> := None;
      if asyn_on == NullProc {
        match state {
          case NeedData | MustPut | CanPut => sqlstat := Some(en_S1010);
          case Fetched | XFetched => sqlstat := Some(en_24000);
          case _ =>
        }
      } else if asyn_on != Catalog(fidx) {
        sqlstat := Some(en_S1010);
      }
      if sqlstat.Some? {
        PushError(sqlstat.value);
        return SQL_ERROR;
      }
      return SQL_SUCCESS;
    }

    /** `_iodbcdm_cata_state_tr` */
    method CatalogTransition(fidx: CatalogFunc, result: int) returns (ret: int)
      modifies this
      ensures forall d :: View() == AfterAnswer(Catalog(fidx), old(View()), result, d)
      ensures ret == result && herr == old(herr)
    {
      if asyn_on == Catalog(fidx) {
        if Succeeded(result) || result == SQL_ERROR {
          asyn_on := NullProc;
        } else {
          return result;
        }
      }
      if Rank(state) <= Rank(Executed) {
        if Succeeded(result) {
          state := CursorOpen;
        } else if result == SQL_ERROR {
          state := Allocated;
          prep_state := false;
        } else if result == SQL_STILL_EXECUTING {
          asyn_on := Catalog(fidx);
        }
      }
      return result;
    }

    /** The common shape of the catalog functions: arguments, state check, driver call,
        state transition. */
    method CatalogCall(fidx: CatalogFunc, argErr: Option<SqlState>, d: Driver)
      returns (ret: int, entered: Option<Func>)
      modifies this
      ensures Leaves(Call(Catalog(fidx), old(View()), argErr, d), ret, entered)
    {
      hide AfterAnswer, Settle, Terminal, Live;
      entered := None;
      if argErr.Some? {
        PushError(argErr.value);
        return SQL_ERROR, entered;
      }
      ret := CatalogStateOk(fidx);
      if ret != SQL_SUCCESS {
        return SQL_ERROR, entered;
      }
      if d.main == Missing {
        PushError(en_IM001);
        return SQL_ERROR, entered;
      }
      ret, entered := d.main.ret, Some(Catalog(fidx));
      ret := CatalogTransition(fidx, ret);
    }

    /** `SQLPrepare_Internal` */
    method PrepareStatement(argErr: Option<SqlState>, d: Driver) returns (ret: int, entered: Option<Func>)
      modifies this
      ensures Leaves(Call(Prepare, old(View()), argErr, d), ret, entered)
    {
      entered := None;
      var sqlstat := IdleCheck(Prepare);
      if sqlstat == None {
        sqlstat := argErr;
      }
      if sqlstat.Some? {
        PushError(sqlstat.value);
        return SQL_ERROR, entered;
      }
      if d.main == Missing {
        PushError(en_IM001);
        return SQL_ERROR, entered;
      }
      ret, entered := d.main.ret, Some(Prepare);
      if asyn_on == Prepare {
        if Succeeded(ret) || ret == SQL_ERROR {
          asyn_on := NullProc;
        }
        return;
      }
      if ret == SQL_STILL_EXECUTING {
        asyn_on := Prepare;
      } else if Succeeded(ret) {
        state := Prepared;
        prep_state := true;
      } else if ret == SQL_ERROR {
        if state == Prepared || state == ExecutedWithInfo || state == Executed {
          state := Allocated;
          prep_state := false;
        }
      }
    }

    /** The state check SQLPrepare and SQLExecDirect share. */
    method IdleCheck(f: Func) returns (sqlstat: Option<SqlState>)
      requires f == Prepare || f == ExecDirect
      ensures sqlstat == Refusal(f, View())
      ensures sqlstat == None ==> asyn_on == NullProc || asyn_on == f
    {
      sqlstat := None;
      if asyn_on == NullProc {
        match state {
          case Fetched | XFetched => sqlstat := Some(en_24000);
          case NeedData | MustPut | CanPut => sqlstat := Some(en_S1010);
          case _ =>
        }
      } else if asyn_on != f {
        sqlstat := Some(en_S1010);
      }
    }

    /** The conversion of output parameters after a successful execution. */
    method ConvertOutput(answer: int, d: Driver) returns (ret: int)
      modifies this`herr
      ensures herr == old(herr) + d.output.errs
      ensures ret == if Succeeded(d.output.ret) then answer else d.output.ret
    {
      herr := herr + d.output.errs;
      ret := answer;
      if d.output.ret != SQL_SUCCESS && d.output.ret != SQL_SUCCESS_WITH_INFO {
        ret := d.output.ret;
      }
    }

    /** The end of `SQLExecute_Internal`, on driver result `answer`. */
    method ExecuteTransition(answer: int, d: Driver) returns (ret: int)
      requires asyn_on == NullProc || asyn_on == Execute
      modifies this
      ensures View() == AfterAnswer(Execute, old(View()), answer, d) && ret == Finished(Execute, answer, d)
      ensures herr == old(herr) + OutputErrors(Execute, answer, d)
                      + ProbeErrors(old(ProbesAfter(Execute, View(), ret)), d.probe)
    {
      ret := answer;
      if asyn_on == Execute {
        if Succeeded(ret) || ret == SQL_NEED_DATA || ret == SQL_ERROR {
          asyn_on := NullProc;
        } else {
          return;
        }
      }
      if Succeeded(ret) {
        ret := ConvertOutput(ret, d);
      }
      if state == Prepared {
        if ret == SQL_SUCCESS {
          DoCursorOpen(d.probe);
        } else if ret == SQL_SUCCESS_WITH_INFO {
          state := ExecutedWithInfo;
        } else if ret == SQL_NEED_DATA {
          state := NeedData;
          need_on := Execute;
        } else if ret == SQL_STILL_EXECUTING {
          asyn_on := Execute;
        }
      } else if state == Executed {
        if ret == SQL_ERROR {
          state := Prepared;
          cursor_state := NoCursor;
        } else if ret == SQL_NEED_DATA {
          state := NeedData;
          need_on := Execute;
        } else if ret == SQL_STILL_EXECUTING {
          asyn_on := Execute;
        }
      }
    }

    /** The state check of `SQLExecute_Internal`. */
    method ExecuteCheck() returns (sqlstat: Option<SqlState>)
      ensures sqlstat == Refusal(Execute, View())
      ensures sqlstat == None ==> asyn_on == NullProc || asyn_on == Execute
    {
      sqlstat := None;
      if asyn_on == NullProc {
        match state {
          case Allocated => sqlstat := Some(en_S1010);
          case ExecutedWithInfo | Executed | CursorOpen =>
            if !prep_state {
              sqlstat := Some(en_S1010);
            }
          case Fetched | XFetched =>
            sqlstat := if !prep_state then Some(en_S1010) else Some(en_24000);
          case NeedData | MustPut | CanPut => sqlstat := Some(en_S1010);
          case _ =>
        }
      } else if asyn_on != Execute {
        sqlstat := Some(en_S1010);
      }
    }

    /** `SQLExecute_Internal` */
    method ExecutePrepared(d: Driver) returns (ret: int, entered: Option<Func>)
      modifies this
      ensures Leaves(Call(Execute, old(View()), None, d), ret, entered)
    {
      hide MapsFetch, ClosesByCursor, Refusal, Probed;
      hide AfterAnswer, Settle, Finished, OutputErrors, ProbesAfter, Terminal, Live;
      entered := None;
      var sqlstat := ExecuteCheck();
      if sqlstat == None && d.main == Missing {
        sqlstat := Some(en_IM001);
      }
      if sqlstat.Some? {
        PushError(sqlstat.value);
        return SQL_ERROR, entered;
      }
      herr := herr + d.input.errs;
      if d.input.ret != SQL_SUCCESS {
        return d.input.ret, entered;
      }
      ret, entered := d.main.ret, Some(Execute);
      ret := ExecuteTransition(ret, d);
    }

    /** The end of `SQLExecDirect_Internal`, on driver result `answer`. */
    method ExecDirectTransition(answer: int, d: Driver) returns (ret: int)
      requires asyn_on == NullProc || asyn_on == ExecDirect
      modifies this
      ensures View() == AfterAnswer(ExecDirect, old(View()), answer, d) && ret == Finished(ExecDirect, answer, d)
      ensures herr == old(herr) + OutputErrors(ExecDirect, answer, d)
                      + ProbeErrors(old(ProbesAfter(ExecDirect, View(), ret)), d.probe)
    {
      ret := answer;
      if asyn_on == ExecDirect {
        if Succeeded(ret) || ret == SQL_NEED_DATA || ret == SQL_ERROR {
          asyn_on := NullProc;
        } else {
          return;
        }
      }
      if Succeeded(ret) {
        ret := ConvertOutput(ret, d);
      }
      if Rank(state) <= Rank(Executed) {
        if ret == SQL_SUCCESS {
          DoCursorOpen(d.probe);
          prep_state := true;
        } else if ret == SQL_SUCCESS_WITH_INFO {
          state := ExecutedWithInfo;
          prep_state := true;
        } else if ret == SQL_NEED_DATA {
          state := NeedData;
          need_on := ExecDirect;
        } else if ret == SQL_STILL_EXECUTING {
          asyn_on := ExecDirect;
        } else if ret == SQL_ERROR {
          state := Allocated;
          cursor_state := NoCursor;
          prep_state := false;
        }
      }
    }

    /** `SQLExecDirect_Internal` */
    method ExecuteDirect(argErr: Option<SqlState>, d: Driver) returns (ret: int, entered: Option<Func>)
      modifies this
      ensures Leaves(Call(ExecDirect, old(View()), argErr, d), ret, entered)
    {
      ExecDirectCases(View(), argErr, d);
      hide Call, Refusal, Probed, AfterAnswer, Settle, Finished, OutputErrors, ProbesAfter, ProbeErrors;
      entered := None;
      if argErr.Some? {
        PushError(argErr.value);
        return SQL_ERROR, entered;
      }
      var sqlstat := IdleCheck(ExecDirect);
      if sqlstat.Some? {
        PushError(sqlstat.value);
        return SQL_ERROR, entered;
      }
      herr := herr + d.input.errs;
      if d.input.ret != SQL_SUCCESS {
        return d.input.ret, entered;
      }
      if d.main == Missing {
        PushError(en_IM001);
        return SQL_ERROR, entered;
      }
      ret, entered := d.main.ret, Some(ExecDirect);
      ghost var was := View();
      ret := ExecDirectTransition(ret, d);
      Appended(old(herr), d.input.errs, OutputErrors(ExecDirect, d.main.ret, d),
               ProbeErrors(ProbesAfter(ExecDirect, was, ret), d.probe));
    }

    /** The state transition of `SQLCloseCursor`. */
    method CursorClosed()
      modifies this
      ensures View() == Closed(old(View())) && herr == old(herr)
    {
      cursor_state := NoCursor;
      match state {
        case ExecutedWithInfo | Executed | CursorOpen | Fetched | XFetched =>
          state := if prep_state then Prepared else Allocated;
        case _ =>
      }
    }

    /** The closing of a cursor: `SQLCloseCursor`. */
    method CloseOpenCursor(d: Driver) returns (ret: int, entered: Option<Func>)
      modifies this
      ensures Leaves(Call(CloseCursor, old(View()), None, d), ret, entered)
    {
      hide Probed, MapsFetch, Closed;
      entered := None;
      if Rank(state) >= Rank(NeedData) || asyn_on != NullProc {
        PushError(en_S1010);
        return SQL_ERROR, entered;
      }
      var hproc := Missing;
      ret := SQL_SUCCESS;
      if ClosesByCursor(d) {
        hproc := d.main;
        if hproc.Answer? {
          ret, entered := hproc.ret, Some(CloseCursor);
        }
      }
      if hproc == Missing {
        hproc := d.other;
        if hproc == Missing {
          PushError(en_IM001);
          return SQL_ERROR, entered;
        }
        ret, entered := hproc.ret, Some(FreeStmt);
      }
      if !Succeeded(ret) {
        return;
      }
      CursorClosed();
    }

    /** `SQLCancel_Internal`, whose transition is skipped while another call is in progress. */
    method CancelCall(inProgress: bool, d: Driver) returns (ret: int)
      modifies this
      ensures match d.main
              case Missing => ret == SQL_ERROR && View() == old(View()) && herr == old(herr) + [en_IM001]
              case Answer(r) =>
                && ret == r && herr == old(herr)
                && View() == if Succeeded(r) && !inProgress then Cancelled(old(View())) else old(View())
    {
      if d.main == Missing {
        PushError(en_IM001);
        return SQL_ERROR;
      }
      ret := d.main.ret;
      if !Succeeded(ret) || inProgress {
        return;
      }
      match state {
        case Allocated | Prepared =>
        case ExecutedWithInfo | Executed | CursorOpen | Fetched | XFetched =>
          state := if prep_state then Prepared else Allocated;
        case NeedData | MustPut | CanPut =>
          match need_on {
            case ExecDirect => state := Allocated;
            case Execute => state := Prepared;
            case SetPos => state := XFetched;
            case _ =>
          }
          need_on := NullProc;
      }
    }
  }
}
