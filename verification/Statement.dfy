/** The statement state machine of the driver manager, as a table: which calls a statement
    admits, which results end an asynchronous call, and what a result does to it. */
module Statement {
  import opened CInt

  const SQL_SUCCESS: int := 0
  const SQL_SUCCESS_WITH_INFO: int := 1
  const SQL_STILL_EXECUTING: int := 2
  const SQL_NEED_DATA: int := 99
  const SQL_NO_DATA_FOUND: int := 100
  const SQL_ERROR: int := -1

  predicate Succeeded(r: int) {
    r == SQL_SUCCESS || r == SQL_SUCCESS_WITH_INFO
  }

  datatype State =
    Allocated | Prepared | ExecutedWithInfo | Executed | CursorOpen | Fetched | XFetched
    | NeedData | MustPut | CanPut

  /** The enumeration's values, which the code compares. */
  function Rank(s: State): int {
    match s
    case Allocated => 0
    case Prepared => 1
    case ExecutedWithInfo => 2
    case Executed => 3
    case CursorOpen => 4
    case Fetched => 5
    case XFetched => 6
    case NeedData => 7
    case MustPut => 8
    case CanPut => 9
  }

  datatype Cursor = NoCursor | NamedCursor | OpenedCursor | FetchedCursor | XFetchedCursor

  datatype CatalogFunc =
    GetTypeInfo | SpecialColumns | Statistics | Tables | ColumnPrivileges | Columns
    | ForeignKeys | PrimaryKeys | ProcedureColumns | Procedures | TablePrivileges

  /** The calls of an application, and the driver's entry points. `FreeStmt` is an entry only. */
  datatype Func =
    NullProc | FreeStmt | Fetch | ExtendedFetch | GetData | SetPos | Catalog(which: CatalogFunc)
    | Prepare | Execute | ExecDirect | NumResultCols | CloseCursor

  datatype SqlState =
    en_S1003 | en_S1009 | en_S1010 | en_S1090 | en_S1097 | en_S1098 | en_S1099 | en_S1100
    | en_S1101 | en_S1106 | en_24000 | en_IM001

  datatype Stmt = Stmt(state: State, cursor: Cursor, prep: bool, asyn: Func, need: Func)

  /** A new statement handle. */
  const FRESH: Stmt := Stmt(Allocated, NoCursor, false, NullProc, NullProc)

  // ----- the driver, free to answer anything

  /** A driver entry point: absent, or returning some code. */
  datatype Reply = Missing | Answer(ret: int)

  /** The answer to the result-column probe. */
  datatype Probe = Probe(reply: Reply, ncol: int)

  /** The result of converting parameters around an execution, and the errors it records. */
  datatype Conversion = Conversion(ret: int, errs: seq<SqlState>)

  datatype Version = Odbc2 | Odbc3 | Unset

  /** What the driver and the environment will do during one call: the entry point of the call,
      the other entry point it may use instead, the versions of application and driver, the
      column probe, the conversions before and after an execution, and whether the buffer that
      SQLGetData converts through cannot be allocated. */
  datatype Driver = Driver(
    main: Reply,
    other: Reply,
    appVer: Version,
    drvVer: Version,
    probe: Probe,
    input: Conversion,
    output: Conversion,
    noMemory: bool)

  /** For an ODBC 3 application over an ODBC 2 driver, SQLFetch first tries the driver's
      SQLExtendedFetch. */
  predicate MapsFetch(d: Driver) {
    d.drvVer == Odbc2 && d.appVer == Odbc3
  }

  /** Whether SQLCloseCursor may use the driver's SQLCloseCursor; else it uses SQLFreeStmt. */
  predicate ClosesByCursor(d: Driver) {
    d.drvVer == Odbc3 && (d.appVer == Odbc3 || (d.appVer == Odbc2 && d.other == Missing))
  }

  /** The driver entry point a call reaches, and its answer. */
  function Entry(f: Func, d: Driver): (Func, Reply) {
    if f == Fetch && MapsFetch(d) && d.other.Answer? then (ExtendedFetch, d.other)
    else if f == CloseCursor && !(ClosesByCursor(d) && d.main.Answer?) then (FreeStmt, d.other)
    else (f, d.main)
  }

  /** What an application can call. */
  predicate IsCall(f: Func) {
    f != NullProc && f != FreeStmt
  }

  predicate Executes(f: Func) {
    f == Execute || f == ExecDirect
  }

  /** A failure before the driver is called ends the call. */
  predicate Stops(f: Func, d: Driver) {
    (f == GetData && d.noMemory) || (Executes(f) && d.input.ret != SQL_SUCCESS)
  }

  /** The errors recorded, and the return code, if any, before the driver is called. SQLExecute
      finds its entry point before it converts; the error of SQLGetData goes to the connection. */
  function Prelude(f: Func, d: Driver): (seq<SqlState>, Option<int>) {
    if f == Execute && d.main == Missing then ([], None)
    else
      (if Executes(f) then d.input.errs else [],
       if !Stops(f, d) then None else if f == GetData then Some(SQL_ERROR) else Some(d.input.ret))
  }

  /** The result of the call: a failed conversion of the output parameters replaces a success. */
  function Finished(f: Func, r: int, d: Driver): int {
    if Executes(f) && Succeeded(r) && !Succeeded(d.output.ret) then d.output.ret else r
  }

  function OutputErrors(f: Func, r: int, d: Driver): seq<SqlState> {
    if Executes(f) && Succeeded(r) then d.output.errs else []
  }

  // ----- which calls a statement admits

  function Refusal(f: Func, s: Stmt): Option<SqlState> {
    if s.asyn != NullProc then
      (if s.asyn == f && f != CloseCursor then None else Some(en_S1010))
    else if Rank(s.state) >= Rank(NeedData) then Some(en_S1010)
    else match f
      case Fetch => if Rank(s.state) <= Rank(Prepared) then Some(en_S1010) else None
      case ExtendedFetch =>
        if Rank(s.state) <= Rank(Prepared) || s.state == Fetched then Some(en_S1010) else None
      case GetData => RowRefusal(s)
      case SetPos => RowRefusal(s)
      case Catalog(_) => if Rank(s.state) >= Rank(Fetched) then Some(en_24000) else None
      case Prepare => if Rank(s.state) >= Rank(Fetched) then Some(en_24000) else None
      case ExecDirect => if Rank(s.state) >= Rank(Fetched) then Some(en_24000) else None
      case Execute =>
        if s.state == Allocated || (s.state != Prepared && !s.prep) then Some(en_S1010)
        else if Rank(s.state) >= Rank(Fetched) then Some(en_24000)
        else None
      case NumResultCols => if s.state == Allocated then Some(en_S1010) else None
      case CloseCursor => None
      case _ => None
  }

  /** SQLGetData and SQLSetPos need a current row. */
  function RowRefusal(s: Stmt): Option<SqlState> {
    if Rank(s.state) <= Rank(Prepared) then Some(en_S1010)
    else if Rank(s.state) <= Rank(CursorOpen) then Some(en_24000)
    else None
  }

  // ----- what a result does

  /** The results that end a pending call. */
  predicate Terminal(f: Func, r: int) {
    Succeeded(r) || r == SQL_ERROR
    || (r == SQL_NO_DATA_FOUND && f in {Fetch, ExtendedFetch, GetData})
    || (r == SQL_NEED_DATA && f in {SetPos, Execute, ExecDirect})
  }

  /** The states in which a call changes the statement, or becomes pending. */
  predicate Live(f: Func, s: Stmt) {
    match f
    case Fetch => s.state in {CursorOpen, Fetched, XFetched}
    case ExtendedFetch => s.state in {CursorOpen, XFetched}
    case GetData => s.state in {Fetched, XFetched}
    case Catalog(_) => Rank(s.state) <= Rank(Executed)
    case ExecDirect => Rank(s.state) <= Rank(Executed)
    case Execute => s.state in {Prepared, Executed}
    case _ => true
  }

  /** The transition on a result of a call that is not (or no longer) pending. */
  function Settle(f: Func, s: Stmt, r: int, p: Probe): Stmt {
    if !Live(f, s) then s
    else if r == SQL_STILL_EXECUTING && f != CloseCursor then s.(asyn := f)
    else match f
      case Fetch =>
        if Succeeded(r) then
          (if s.state == XFetched then s.(cursor := XFetchedCursor)
           else s.(state := Fetched, cursor := FetchedCursor))
        else if r == SQL_NO_DATA_FOUND then
          s.(cursor := NoCursor,
             state := if !s.prep then Allocated else if s.state == XFetched then XFetched else Fetched)
        else s
      case ExtendedFetch =>
        if Succeeded(r) || r == SQL_NO_DATA_FOUND then s.(state := XFetched, cursor := XFetchedCursor) else s
      case SetPos => if r == SQL_NEED_DATA then s.(state := NeedData, need := SetPos) else s
      case Catalog(_) =>
        if Succeeded(r) then s.(state := CursorOpen)
        else if r == SQL_ERROR then s.(state := Allocated, prep := false)
        else s
      case Prepare =>
        if Succeeded(r) then s.(state := Prepared, prep := true)
        else if r == SQL_ERROR && s.state in {Prepared, ExecutedWithInfo, Executed} then
          s.(state := Allocated, prep := false)
        else s
      case Execute =>
        if r == SQL_NEED_DATA then s.(state := NeedData, need := Execute)
        else if s.state == Executed then
          (if r == SQL_ERROR then s.(state := Prepared, cursor := NoCursor) else s)
        else if r == SQL_SUCCESS then Probed(s, p)
        else if r == SQL_SUCCESS_WITH_INFO then s.(state := ExecutedWithInfo)
        else s
      case ExecDirect =>
        if r == SQL_SUCCESS then Probed(s, p).(prep := true)
        else if r == SQL_SUCCESS_WITH_INFO then s.(state := ExecutedWithInfo, prep := true)
        else if r == SQL_NEED_DATA then s.(state := NeedData, need := ExecDirect)
        else if r == SQL_ERROR then s.(state := Allocated, cursor := NoCursor, prep := false)
        else s
      case CloseCursor => if Succeeded(r) then Closed(s) else s
      case _ => s
  }

  /** The statement after the result-column probe: the cursor opens when there are columns.
      A probe that answers STILL_EXECUTING is itself left pending. */
  function Probed(s: Stmt, p: Probe): Stmt {
    var e := s.(state := Executed);
    match p.reply
    case Missing => e
    case Answer(r) =>
      if Succeeded(r) then
        (if p.ncol != 0 then e.(state := CursorOpen, cursor := OpenedCursor) else e.(cursor := NoCursor))
      else if r == SQL_STILL_EXECUTING then e.(asyn := NumResultCols)
      else e
  }

  function Closed(s: Stmt): Stmt {
    var c := s.(cursor := NoCursor);
    if Rank(ExecutedWithInfo) <= Rank(s.state) <= Rank(XFetched) then
      c.(state := if s.prep then Prepared else Allocated)
    else c
  }

  /** SQLFetch opens a cursor that was left closed by an execution with information. */
  function Ready(f: Func, s: Stmt, p: Probe): Stmt {
    if f == Fetch && s.asyn == NullProc && s.state == ExecutedWithInfo then Probed(s, p) else s
  }

  /** The statement after driver result `r`, whether the call was a first one or a poll.
      A poll of SQLPrepare stops after clearing the pending mark. */
  function AfterAnswer(f: Func, s: Stmt, r: int, d: Driver): Stmt {
    if s.asyn == f then
      (if !Terminal(f, r) then s
       else if f == Prepare then s.(asyn := NullProc)
       else Settle(f, s.(asyn := NullProc), Finished(f, r, d), d.probe))
    else Settle(f, s, Finished(f, r, d), d.probe)
  }

  /** A driver without the column probe adds an error of its own. */
  function ProbeErrors(runs: bool, p: Probe): seq<SqlState> {
    if runs && p.reply == Missing then [en_IM001] else []
  }

  /** Whether a result makes the call probe for result columns. */
  predicate ProbesAfter(f: Func, s: Stmt, r: int) {
    r == SQL_SUCCESS
    && ((f == ExecDirect && Rank(s.state) <= Rank(Executed)) || (f == Execute && s.state == Prepared))
  }

  /** The outcome of one call: the statement, the return code, the errors recorded, and the
      driver entry point reached with the statement as it was then. */
  datatype Outcome = Outcome(post: Stmt, ret: int, errs: seq<SqlState>, entered: Option<(Func, Stmt)>)

  /** One call. `argErr` is the argument error found, if any; SQLPrepare looks at its
      arguments only once the state admits the call. */
  function Call(f: Func, s: Stmt, argErr: Option<SqlState>, d: Driver): Outcome {
    var refusal := if f == Prepare then FirstOf(Refusal(f, s), argErr) else FirstOf(argErr, Refusal(f, s));
    if refusal.Some? then Outcome(s, SQL_ERROR, [refusal.value], None)
    else
      var ready := Ready(f, s, d.probe);
      var errs := ProbeErrors(f == Fetch && s.asyn == NullProc && s.state == ExecutedWithInfo, d.probe);
      var (recorded, stop) := Prelude(f, d);
      var (entry, reply) := Entry(f, d);
      if stop.Some? then Outcome(ready, stop.value, errs + recorded, None)
      else match reply
        case Missing => Outcome(ready, SQL_ERROR, errs + recorded + [en_IM001], None)
        case Answer(r) =>
          var ret := Finished(f, r, d);
          Outcome(AfterAnswer(f, ready, r, d), ret,
                  errs + recorded + OutputErrors(f, r, d) + ProbeErrors(ProbesAfter(f, ready, ret), d.probe),
                  Some((entry, ready)))
  }

  function FirstOf(a: Option<SqlState>, b: Option<SqlState>): Option<SqlState> {
    if a.Some? then a else b
  }

  /** A statement whose cancellation the driver accepted. */
  function Cancelled(s: Stmt): Stmt {
    if Rank(s.state) <= Rank(Prepared) then s
    else if Rank(s.state) <= Rank(XFetched) then s.(state := if s.prep then Prepared else Allocated)
    else s.(need := NullProc,
            state := match s.need
                     case ExecDirect => Allocated
                     case Execute => Prepared
                     case SetPos => XFetched
                     case _ => s.state)
  }
}
