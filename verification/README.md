# Models of the database modules

This project models the parts of the BlitzMax database modules that hold logic of their own,
and proves what they are for.

- **Calendar and timestamps** (`Calendar`, `CivilDays`, `FixedWidth`, `Timestamp`): civil dates,
  day numbers and second counts. `Calendar` is a day-by-day proleptic Gregorian calendar
  (section 3.2.1 of ISO 8601:2004), written independently of the closed forms, which are proved
  to be that walk. `FixedWidth` evaluates the same code in 32-bit and 64-bit C arithmetic, with
  `None` for a signed overflow.
- **Format expansion** (`Format`): the loop that replaces `%f` inside a 1024-byte buffer.
- **Connection strings** (`ConnString`, `Quoting`, `Config`, `ConfigObject`, `CStrings`): the
  tokenizer that cuts its image in place, the entries that point into it, and the printer that
  appends into a bounded buffer. `ConnString` is the meaning on values, `Quoting` what it comes
  to on the shapes of text the documentation shows, `ConfigObject` the code.
- **List joining** (`JoinList`): the loop that turns a double-NUL list into a connection string.
- **Statement handles** (`Statement`, `StatementObject`, `StatementRuns`, `StatementTable`,
  `StatementScenarios`): the state machine of ODBC statements (Appendix B of the ODBC
  Programmer's Reference). `Statement` is the code's view, call by call; `StatementObject` has the
  entry points that update the handle, each proved to follow it; `StatementTable` is laid out
  as the appendix is, state by state and with the return codes as numbers, and proved to be the
  same; `StatementRuns` and `StatementScenarios` prove what holds of every run and of calls in a
  row. The driver is an adversary: it answers any code at any call.
- **Calls in progress** (`CallGate`, `CallGateObject`): the ENTER and LEAVE macros of connection
  and descriptor handles as lines that any number of threads interleave over one lock.
- **Driver registry** (`DriverRegistry`, `DriverRegistryObject`, `ProcTable`): the shared list of
  loaded drivers as values with a ledger of its clients, the same list as heap nodes, and the
  table of entry points.

Where a class or method stands for C code that updates state, its contract gives the new state
as a function of the old one, and the lemmas are about that function.

## What the code does that its documentation does not say

- `%%f` is expanded too: the loop looks at two characters only (`core.mod/glue.c:46`).
- Packing overflows a signed int for March-based years below INT_MIN + 399, and splitting
  narrows years that do not fit (`core.mod/glue.c:76`, `core.mod/glue.c:93`): the round trip
  holds exactly between two second counts (`Timestamp.RoundTripExactly`).
- An unclosed brace takes the parser past the terminator
  (`odbc.mod/iodbc/iodbc/bmx_misc.c:132-139`): it stays inside the string exactly when all braces
  are closed (`ConnString.ScansStopExactly`), which `ParseStr` therefore requires.
- The comment at `odbc.mod/iodbc/iodbc/fetch.c:761` says that only xfetched is possible there;
  the check before it lets fetched through as well, and the model follows the check.
- A poll that ends SQLPrepare returns before the transition, so the preparation is not recorded
  (`StatementRuns.PreparePollingLoses`).
- SQLCancel leaves the cursor mark and the pending call as they are
  (`StatementRuns.CancelKeepsLinks` gives exactly when the links survive it).
- The reference count of a driver has 32 bits: no library is closed under a holder in runs of
  any length with at most 2^32 opens of a path outstanding at each close, and exactly in the
  runs of `DriverRegistry.LoadedExactly`; `DriverRegistry.WrapClosesHeldLibrary` is a run outside them.
- Calls entered with `holdlock` give up the global lock around the driver call and take it back
  (`odbc.mod/iodbc/iodbc/connect.c:443-445`, `:2395-2405`, `:3167-3174`, `:3611-3620`). The dialog
  path of SQLDriverConnect gives it up at `:2897` and does not take it back when the dialog library
  or its function is missing (`:2927-2940`): the later unlock then frees the lock of another thread
  (`CallGate.RetakesExactly`, `CallGate.ForgottenLockOverlaps`).
- A connection that changes its driver may keep its environment, whose table of entry points is
  not cleared with the handle (`odbc.mod/iodbc/iodbc/connect.c:1194-1198`): a number already
  looked up is then answered from the old library (`ProcTable.StaleLookup`).

## Assumptions

- The loader answers NULL or a handle that is not open at that moment, and clients close only
  handles they hold (`DriverRegistry.Enabled`).
- The column probe of an execution answers one code and one column count (`Statement.Probe`).
- A buffer given to the printer has at least one byte, and is not the configuration's image.
- For mutual exclusion a holding body has the lock back before LEAVE (`CallGate.Retakes`).
- Any thread may find any handle valid or not at any time (`CallGate.Revalidate`).

## Model

| member | source | states |
|---|---|---|
| Calendar.LeapYearRule | core.mod/glue.c:70-72 | The leap test, with a truncating `%`, decides exactly the Gregorian rule for years of either sign: divisible by 4, and by 400 when by 100. |
| CivilDays.ClosedForm | core.mod/glue.c:74-81 | The era arithmetic with truncating division is one floor-arithmetic formula, for every year of either sign. |
| CivilDays.EpochIsZero | core.mod/glue.c:80 | 1970-01-01 has day number 0. |
| CivilDays.SuccessorIsOneMore | core.mod/glue.c:74-81 | For every valid date the next date of the day-by-day calendar has a day number exactly one greater. |
| CivilDays.CountsTheWalk | core.mod/glue.c:74-81 | The date reached by walking n days forward or backward from the epoch has day number n, for every integer n. |
| CivilDays.OrderIsomorphism | core.mod/glue.c:74-81 | On valid dates, day-number order is exactly lexicographic order of year, month and day, and equal numbers mean equal dates. |
| CivilDays.YearOfEraExact | core.mod/glue.c:87-89 | For every day of an era the year formula yields the year 0..399 that contains it; the day of that year is 0..365, and 365 only before a leap day. |
| CivilDays.DayOfYearExact | core.mod/glue.c:90-93 | The month formula turns a day of a March-based year into the valid date that has that day number. |
| CivilDays.DaysSurvive | core.mod/glue.c:74-94 | Every integer day number maps to a valid date whose day number it is. |
| CivilDays.DatesSurvive | core.mod/glue.c:74-94 | Every valid date, of any year, comes back from its day number. |
| CivilDays.InverseIsTheWalk | core.mod/glue.c:83-94 | The inverse formula gives exactly the date reached by walking that many days from the epoch. |
| FixedWidth.EraExact | core.mod/glue.c:75-77 | In 32-bit arithmetic the era and year of era are the floor quotient and remainder by 400, and overflow exactly below year INT_MIN + 399. |
| FixedWidth.DefinedExactly | core.mod/glue.c:74-81 | For every int year and every unsigned month and day, the computation avoids signed overflow exactly when the March-based year is at least INT_MIN + 399. |
| FixedWidth.DayOfEraAgrees | core.mod/glue.c:77-79 | For months 1..12 and days 1..31 the unsigned wrap of `m - 3` cancels, the March month is 0..11, and the unsigned day of era is the mathematical one. |
| FixedWidth.DayOfYearInRange | core.mod/glue.c:78 | For every valid date the day of the March-based year is 0..365. |
| FixedWidth.DayOfEraInRange | core.mod/glue.c:79 | For every valid date and every year of an era the unsigned day of era is 0..146096. |
| FixedWidth.DaysAgree | core.mod/glue.c:74-81 | For every int year, month 1..12 and day 1..31, the C evaluation returns the mathematical day number, or overflows when the March-based year is below the bound. |
| FixedWidth.YearStepsAgree | core.mod/glue.c:86-89 | For every day of an era, the unsigned year and day-of-year steps never wrap and give a year 0..399 and a day 0..365. |
| FixedWidth.MonthStepsAgree | core.mod/glue.c:90-92 | For every day of a year, the month index is 0..11 and the unsigned month and day steps, with the wrap of `mp - 9`, give the mathematical month and day. |
| FixedWidth.CivilAgrees | core.mod/glue.c:83-94 | On every day number that a 64-bit second count can hold, the C evaluation returns the calendar date, its year reduced to an int. |
| Timestamp.SplitIsFloor | core.mod/glue.c:105-110 | Truncating division with the correction for a negative remainder is floor division by 86400. |
| Timestamp.SecondsSurvive | core.mod/glue.c:96-121 | Every integer second count, negative ones included, splits into a valid date and 0..23, 0..59, 0..59 fields that pack back to it. |
| Timestamp.FieldsSurvive | core.mod/glue.c:96-121 | Valid fields of any year survive packing then splitting. |
| Timestamp.StampOrder | core.mod/glue.c:96-102 | Second counts order valid stamps exactly as year, month, day, hour, minute and second do, and midnight of 1970-01-01 is 0. |
| Timestamp.SecondsTick | core.mod/glue.c:96-102 | One second later, carried into minutes, hours and the next date, is one more. |
| Timestamp.CSplitAgrees | core.mod/glue.c:104-121 | Splitting any 64-bit value never overflows, gives valid fields, and only the year can be reduced to an int. |
| Timestamp.PackDefinedExactly | core.mod/glue.c:96-102 | For all int fields, valid or not, packing avoids signed overflow exactly when the March-based year is at least INT_MIN + 399. |
| Timestamp.CPackAgrees | core.mod/glue.c:96-102 | On calendar fields with any int year the C packing is the mathematical one, or overflows below the bound. |
| Timestamp.RoundTripExactly | core.mod/glue.c:96-121 | Among all 64-bit values, split then pack returns the value exactly between two computed ends; outside them the year does not fit or packing overflows. |
| Timestamp.StampBounds | core.mod/glue.c:96-121 | The two ends are -67768087971628800 and 67767976233532799 seconds. |
| Timestamp.RoundTripFails | core.mod/glue.c:75-76 | One second below the lower end splitting gives 28 February of year INT_MIN + 399, 23:59:59, unreduced, and packing those fields overflows. |
| Timestamp.CFieldsSurvive | core.mod/glue.c:96-121 | Valid int fields that C can pack come back unchanged from the C splitting. |
| Format.ExpandPlain | core.mod/glue.c:45-54 | A format without `%f` is copied unchanged. |
| Format.ExpandAround | core.mod/glue.c:45-54 | Each `%f` is replaced by the six characters where it stands, whatever surrounds it. |
| Format.MicrosExact | core.mod/glue.c:38-39 | For 0..999999 microseconds the six characters are digits and read as that number. |
| Format.MicrosSigned | core.mod/glue.c:38-39 | For a negative count of up to five digits they are a sign and five digits. |
| Format.MicrosCut | core.mod/glue.c:38-39 | A longer count keeps its sign and its first digits: what is cut is named, and completes the number. |
| Format.PutMicros | core.mod/glue.c:47-49 | The inner loop appends as many of the six characters as fit before the last byte of the buffer, after what was written. |
| Format.ExpandMicros | core.mod/glue.c:42-55 | For every terminated format the loop ends and the buffer holds, terminated inside it, exactly the first 1023 characters of the expanded text. |
| Format.PrepareFormat | core.mod/glue.c:33-55 | What `strftime` is given is the format with the printed microseconds in place of each `%f`, whole when it has at most 1023 characters, else its first 1023. |
| ConnString.ScansStopExactly | odbc.mod/iodbc/iodbc/bmx_misc.c:124-150 | Every scan of the token loop stops at or before the terminator exactly when every brace opened in the string is closed. |
| ConnString.OpenBraceEscapes | odbc.mod/iodbc/iodbc/bmx_misc.c:132-139 | A string of one open brace takes the scan past its terminator. |
| Quoting.QuotedToken | odbc.mod/iodbc/iodbc/bmx_misc.c:132-150 | For text k without `{` or `;` and text b without `}`: the first token of `k{b};rest` is `k{b}`, whatever separators b holds, the others are those of the rest, and braces are closed exactly when they are in the rest. |
| Quoting.PlainToken | odbc.mod/iodbc/iodbc/bmx_misc.c:132-150 | Text without `{` or `;` ends as a token at the separator after it. |
| Quoting.PieceJoins | odbc.mod/iodbc/iodbc/bmx_misc.c:132-150 | A plain or quoted piece in front of more text belongs to the first token of that text. |
| Quoting.OpenBraceNeverCloses | odbc.mod/iodbc/iodbc/bmx_misc.c:134-138 | After a `{` no text without `}` closes the brace. |
| ConnString.TokensCover | odbc.mod/iodbc/iodbc/bmx_misc.c:124-150 | Cutting a string into tokens loses nothing but a final separator. |
| ConnString.TokensClean | odbc.mod/iodbc/iodbc/bmx_misc.c:132-150 | Every token of a brace-closed string is itself brace-closed with no `;` outside braces. |
| ConnString.JoinSplitsExactly | odbc.mod/iodbc/iodbc/bmx_misc.c:124-150 | For non-empty items, the joined text is brace-closed and cuts back into the items exactly when each is brace-closed with no `;` outside braces. |
| ConnString.EntryOfIsGood | odbc.mod/iodbc/iodbc/bmx_misc.c:155-172 | A clean token, the defaulted DSN included, gives an entry that can be printed and parsed back. |
| Quoting.DefinitionParses | odbc.mod/iodbc/iodbc/bmx_misc.c:155-180 | `id=value;` without braces, anywhere in the string, is stored as that id and value. |
| Quoting.QuotedDefinitionParses | odbc.mod/iodbc/iodbc/bmx_misc.c:132-180 | `id={value};`, with separators in the value, is stored as the id and the value with its braces. |
| Quoting.FirstIsDsn | odbc.mod/iodbc/iodbc/bmx_misc.c:164-172 | A first token without `=` is stored as the value of `DSN`. |
| Quoting.LaterIsDropped | odbc.mod/iodbc/iodbc/bmx_misc.c:164-180 | A later token without `=` leaves no trace in the entries. |
| Quoting.PrintedText | odbc.mod/iodbc/iodbc/bmx_misc.c:267-274 | A definition prints as `id=value`, and a single `;` joins it to those that follow. |
| ConnString.PrintParsesExactly | odbc.mod/iodbc/iodbc/bmx_misc.c:124-186 | Printing an entry list and parsing it returns the list, braces closed, exactly when no id contains `=` and each `id=value` is closed with no bare `;`. |
| ConnString.NormalForm | odbc.mod/iodbc/iodbc/bmx_misc.c:105-281 | For every brace-closed string, printing its parsed entries and parsing again gives the same entries, whatever was defaulted or dropped. |
| Config.ItemsStable | odbc.mod/iodbc/iodbc/bmx_misc.c:144-162 | Writing terminators into the image at or after a point changes no entry whose text ends before it. |
| Config.ParsedSection | odbc.mod/iodbc/iodbc/bmx_misc.c:254-279 | The entries a parse stores are the ones printing the ODBC section reads, in order, for any letter case of its name. |
| Config.FirstSectionOnly | odbc.mod/iodbc/iodbc/bmx_misc.c:259-279 | What is printed is the definitions after the first header of that name up to the next header of any name. |
| Config.NoSuchSection | odbc.mod/iodbc/iodbc/bmx_misc.c:259-280 | A name without a header prints nothing. |
| Config.CollectSkips | odbc.mod/iodbc/iodbc/bmx_misc.c:263-275 | Continuation lines and blank entries print nothing. |
| Config.NamesFold | odbc.mod/iodbc/iodbc/bmx_misc.c:276-278 | Two section names match exactly when they differ at most in the case of ASCII letters. |
| Config.ItemKinds | odbc.mod/iodbc/iodbcinst/inifile.c:582-599 | A section name makes a header, a value with an id a definition, a value alone a continuation, and nothing a blank. |
| Config.StoredNormalForm | odbc.mod/iodbc/iodbc/bmx_misc.c:105-281 | Printing the ODBC section of what a brace-closed string stored gives a brace-closed string that stores the same. |
| ConfigObject.Configuration.FreeImage | odbc.mod/iodbc/iodbcinst/inifile.c:193-224 | Clears the image, the entries, the cursor, the flags and the current entry. |
| ConfigObject.Configuration.ScanToken | odbc.mod/iodbc/iodbc/bmx_misc.c:132-139 | On a brace-closed rest the scan stops at the first `;` outside braces, or at the terminator. |
| ConfigObject.Configuration.FindEquals | odbc.mod/iodbc/iodbc/bmx_misc.c:155-156 | Stops at the first `=` of the token, or at its terminator. |
| ConfigObject.Configuration.TerminateToken | odbc.mod/iodbc/iodbc/bmx_misc.c:132-150 | Writes one terminator, at the end of the token, and gives the start of the next token. |
| ConfigObject.Configuration.StoreToken | odbc.mod/iodbc/iodbc/bmx_misc.c:152-180 | Writes one terminator, at the first `=`, and stores the id and value; without `=` stores the token under DSN when it is first, and nothing otherwise. |
| ConfigObject.Configuration.ParseToken | odbc.mod/iodbc/iodbc/bmx_misc.c:124-186 | One round of the token loop cuts the image in place, leaves all earlier entries reading as before, and adds the entries of that token. |
| ConfigObject.Configuration.ParseStr | odbc.mod/iodbc/iodbc/bmx_misc.c:105-192 | For every brace-closed string the stored pointers, read through the cut image, are the ODBC section followed by exactly the parsed entries; a null string leaves an empty, invalid configuration. |
| ConfigObject.TokenItems | odbc.mod/iodbc/iodbc/bmx_misc.c:155-180 | Terminating an id in place leaves every settled entry as it read and gives the new pointers the texts of the new entry. |
| ConfigObject.RoundKeepsParsing | odbc.mod/iodbc/iodbc/bmx_misc.c:124-186 | A round of the token loop turns an image whose entries are settled before the unread rest into one settled before the rest after that token. |
| ConfigObject.Configuration.Rewind | odbc.mod/iodbc/iodbcinst/inifile.c:538-548 | Resets the cursor of a valid configuration; refuses an invalid one and changes nothing. |
| ConfigObject.Configuration.NextEntry | odbc.mod/iodbc/iodbcinst/inifile.c:562-601 | Moves past blank entries only, shows the next entry in the current fields, and returns -1 exactly when only blank ones were left. |
| CStrings.StrCat | odbc.mod/iodbc/iodbcinst/misc.c:497-526 | Appends the longest part that fits with a terminator, returns the length needed, and leaves an unterminated buffer alone. |
| CStrings.FittingIsLongest | odbc.mod/iodbc/iodbcinst/misc.c:509-524 | What fits of a text is all of it when it is shorter than the buffer, else its first characters, one fewer than the buffer has. |
| ConfigObject.Configuration.CatBuf | odbc.mod/iodbc/iodbc/bmx_misc.c:244-248 | Succeeds exactly when the appended text fits; when it does not, the buffer holds the longest part that fits of every text it begins. |
| ConfigObject.Configuration.PutDefine | odbc.mod/iodbc/iodbc/bmx_misc.c:267-274 | Appends the separator if needed, the id, `=` and the value; a failure leaves what fits of the whole output. |
| ConfigObject.Configuration.ToString | odbc.mod/iodbc/iodbc/bmx_misc.c:250-281 | On a valid configuration returns 0 exactly when the whole text of the first section of that name fits with its terminator, else -1, and in both cases holds the longest prefix that fits; an invalid one gives -1 and an untouched buffer. |
| ConfigObject.Reparse | odbc.mod/iodbc/iodbc/bmx_misc.c:105-281 | For every brace-closed string: parse it, print it into a buffer, and, exactly when the printed text fits, parse the buffer; the second configuration then reads as the first. |
| JoinList.OnlySeparators | odbc.mod/iodbc/drvproxy/drvconn.c:168-174 | A packed list and its joined text differ only in the separator bytes: NUL in the one, `;` in the other. |
| JoinList.ListExists | odbc.mod/iodbc/drvproxy/drvconn.c:168-174 | Every buffer with a NUL at its start or two NULs in a row begins with a list of non-empty items. |
| JoinList.FindEnd | odbc.mod/iodbc/drvproxy/drvconn.c:171 | Finds the terminator of the current item. |
| JoinList.JoinInPlace | odbc.mod/iodbc/drvproxy/drvconn.c:168-174 | The loop ends, the buffer reads as the items joined by `;`, and every byte from the final terminator on is unchanged. |
| JoinList.JoinedListParses | odbc.mod/iodbc/iodbc/bmx_misc.c:124-186 | The joined text is brace-closed and the parser cuts it back into the items in order exactly when every item is brace-closed with no bare `;`. |
| StatementObject.StatementHandle.constructor | odbc.mod/iodbc/iodbc/hstmt.c:165-171 | A new statement is allocated, with no cursor, nothing prepared, nothing pending and no data needed. |
| StatementObject.StatementHandle.ResultCols | odbc.mod/iodbc/iodbc/result.c:492-570 | State check, driver call and pending mark of the column probe, as one row of the statement table. |
| StatementObject.StatementHandle.DoCursorOpen | odbc.mod/iodbc/iodbc/execute.c:96-119 | Executes the statement, then opens a cursor exactly when the probe succeeds with columns; a probe that is still executing is left pending. |
| StatementObject.StatementHandle.FetchRow | odbc.mod/iodbc/iodbc/fetch.c:95-232 | State, pending mark, errors, return code and driver entry after SQLFetch, for every state and every driver answer. |
| StatementObject.StatementHandle.FetchTransition | odbc.mod/iodbc/iodbc/fetch.c:164-229 | The change SQLFetch makes on a driver answer, polls included. |
| StatementObject.StatementHandle.ExtendedFetchTransition | odbc.mod/iodbc/iodbc/fetch.c:322-366 | The change SQLExtendedFetch makes on a driver answer, polls included. |
| StatementObject.StatementHandle.ExtendedFetchRows | odbc.mod/iodbc/iodbc/fetch.c:254-367 | The same for SQLExtendedFetch, with its fetch-type check before the state check. |
| StatementObject.StatementHandle.GetColumnData | odbc.mod/iodbc/iodbc/fetch.c:397-592 | The same for SQLGetData, with its argument checks before the state check, and the exit before the driver when its conversion buffer cannot be allocated, which records nothing on the statement. |
| StatementObject.StatementHandle.SetPosition | odbc.mod/iodbc/iodbc/fetch.c:671-782 | The same for SQLSetPos; both the fetched and the xfetched state are let through, which the comment on line 761 does not say. |
| StatementObject.StatementHandle.RowCheck | odbc.mod/iodbc/iodbc/fetch.c:690-712 | The state check of SQLSetPos, which SQLGetData shares: no call without a current row, none while another call is pending. |
| StatementObject.StatementHandle.CatalogStateOk | odbc.mod/iodbc/iodbc/catalog.c:98-137 | Admits a catalog call exactly when the table does, and records one error otherwise. |
| StatementObject.StatementHandle.CatalogTransition | odbc.mod/iodbc/iodbc/catalog.c:143-190 | The change a catalog call makes on a driver answer, polls included; the answer is passed on. |
| StatementObject.StatementHandle.CatalogCall | odbc.mod/iodbc/iodbc/catalog.c:193-257 | A whole catalog function: arguments, state check, driver call, transition. |
| StatementObject.StatementHandle.PrepareStatement | odbc.mod/iodbc/iodbc/prepare.c:96-240 | SQLPrepare, whose poll stops after clearing the pending mark. |
| StatementObject.StatementHandle.ExecuteTransition | odbc.mod/iodbc/iodbc/execute.c:1084-1164 | The change SQLExecute makes on a driver answer from the prepared and the executed states, polls included; a failed conversion of output parameters replaces a success before it. |
| StatementObject.StatementHandle.ConvertOutput | odbc.mod/iodbc/iodbc/execute.c:1102-1107 | The result of the output conversion replaces the answer exactly when it is not a success. |
| StatementObject.StatementHandle.ExecuteCheck | odbc.mod/iodbc/iodbc/execute.c:1011-1060 | Admits SQLExecute exactly when the table does. |
| StatementObject.StatementHandle.ExecutePrepared | odbc.mod/iodbc/iodbc/execute.c:1003-1164 | State, pending mark, errors, return code and driver entry after SQLExecute, for every state, every driver answer and every outcome of the parameter conversions before and after the driver call. |
| StatementObject.StatementHandle.ExecDirectTransition | odbc.mod/iodbc/iodbc/execute.c:1279-1340 | The change SQLExecDirect makes on a driver answer, polls and output conversion included. |
| StatementObject.StatementHandle.ExecuteDirect | odbc.mod/iodbc/iodbc/execute.c:1180-1340 | The same for SQLExecDirect, which converts parameters before it finds its entry point missing. |
| StatementObject.StatementHandle.CloseOpenCursor | odbc.mod/iodbc/iodbc/odbc3.c:3731-3811 | SQLCloseCursor: refused while a call is pending or data is needed; enters the driver's SQLCloseCursor or, by the versions and what the driver has, its SQLFreeStmt; on success closes the cursor and returns to prepared or allocated. |
| StatementObject.StatementHandle.CancelCall | odbc.mod/iodbc/iodbc/hstmt.c:1056-1151 | SQLCancel, whose transition is skipped while another call on the statement is in progress. |
| StatementObject.ArgumentErrors | odbc.mod/iodbc/iodbc/fetch.c:260-277 | The argument checks of SQLExtendedFetch, SQLSetPos and SQLGetData, with the numbers of the headers. |
| StatementTable.RefusedAsListed | odbc.mod/iodbc/iodbc/fetch.c:280-301 | Every modelled call is refused, with one error and no other effect, exactly where a table by states says, for idle and for pending statements. |
| StatementTable.LeavesAsListed | odbc.mod/iodbc/iodbc/fetch.c:164-229 | Every admitted call that reaches the driver leaves an idle statement as a table by states and return codes says. |
| StatementTable.PollsAsListed | odbc.mod/iodbc/iodbc/fetch.c:560-573 | A poll changes nothing unless its return code is one that ends the call; then it leaves what a first answer leaves, or for SQLPrepare nothing but the cleared mark. |
| StatementTable.EntryAsListed | odbc.mod/iodbc/iodbc/fetch.c:129-160 | Which driver entry SQLFetch and SQLCloseCursor use, by versions and presence. |
| StatementTable.InputFails | odbc.mod/iodbc/iodbc/execute.c:1079-1080 | A failed conversion of input parameters ends an execution before the driver with its own result and errors. |
| StatementTable.OutputFails | odbc.mod/iodbc/iodbc/execute.c:1102-1107 | A failed conversion of output parameters makes a success end as if the driver had answered its result, and records its errors. |
| StatementRuns.PollingTransparent | odbc.mod/iodbc/iodbc/fetch.c:164-229 | With nothing pending, any number of STILL_EXECUTING answers followed by an answer leaves every field as one direct call with it, exactly when the answer ends a pending call, is STILL_EXECUTING itself, or the call never became pending. For every modelled call but SQLPrepare. |
| StatementScenarios.ColumnsOpenCursor | odbc.mod/iodbc/iodbc/execute.c:108-117 | After a successful SQLExecute or SQLExecDirect a successful SQLFetch finds a row exactly when the driver reported columns. |
| StatementScenarios.InfoOpensOnFetch | odbc.mod/iodbc/iodbc/fetch.c:115-119 | After an execution with information the first SQLFetch finds a row exactly when the driver reports columns. |
| StatementScenarios.EndOfData | odbc.mod/iodbc/iodbc/fetch.c:203-216 | At the end of the data the cursor is gone; a catalog call is then admitted exactly when nothing is prepared, and with a preparation SQLCloseCursor returns to prepared. |
| StatementScenarios.FetchGivesRow | odbc.mod/iodbc/iodbc/fetch.c:182-201 | After a successful SQLFetch SQLGetData is admitted, and SQLExtendedFetch exactly from xfetched. |
| StatementScenarios.ExtendedFetchGivesRows | odbc.mod/iodbc/iodbc/fetch.c:340-359 | After SQLExtendedFetch, at the end of the data too, rows can be read and fetched again. |
| StatementScenarios.CatalogOutcome | odbc.mod/iodbc/iodbc/catalog.c:165-187 | A catalog call that succeeds gives a cursor to fetch from; one that fails forgets the preparation. |
| StatementScenarios.PrepareOutcome | odbc.mod/iodbc/iodbc/prepare.c:207-237 | A statement executes after SQLPrepare exactly when it succeeded, or failed on a cursor of a prepared statement. |
| StatementScenarios.FailedReexecution | odbc.mod/iodbc/iodbc/execute.c:1134-1140 | A failed second execution keeps the preparation and leaves nothing to fetch. |
| StatementScenarios.DirectOutcome | odbc.mod/iodbc/iodbc/execute.c:1304-1337 | A direct execution that fails forgets the preparation; after one that succeeds the statement executes again once its cursor is closed. |
| StatementScenarios.CloseOutcome | odbc.mod/iodbc/iodbc/odbc3.c:3778-3808 | SQLCloseCursor takes an executed statement back to prepared or allocated, and changes nothing when the driver fails. |
| StatementScenarios.DataNeeded | odbc.mod/iodbc/iodbc/execute.c:1122-1126 | A statement that waits for data refuses every call, until SQLCancel takes it back to allocated, prepared or xfetched by the call that waits. |
| StatementScenarios.CancelOutcome | odbc.mod/iodbc/iodbc/hstmt.c:1089-1145 | Cancelling elsewhere takes an executed statement back to prepared or allocated; the cursor mark and the pending call stay. |
| StatementScenarios.PendingExactly | odbc.mod/iodbc/iodbc/fetch.c:224-227 | In which states a first answer STILL_EXECUTING leaves each call pending. |
| StatementScenarios.PendingAlone | odbc.mod/iodbc/iodbc/fetch.c:121-127 | While a call is pending it alone is admitted. |
| StatementScenarios.ArgumentsFirst | odbc.mod/iodbc/iodbc/fetch.c:273-301 | Argument errors come before state errors, except for SQLPrepare. |
| StatementScenarios.EntryMissing | odbc.mod/iodbc/iodbc/fetch.c:150-156 | A missing driver entry gives IM001 and leaves the statement, which SQLFetch may have probed, as it is. |
| StatementScenarios.ProbeMissing | odbc.mod/iodbc/iodbc/execute.c:104-106 | A missing column probe adds IM001 to a successful execution and opens no cursor. |
| StatementScenarios.NoBuffer | odbc.mod/iodbc/iodbc/fetch.c:538-542 | A missing conversion buffer fails SQLGetData without an error on the statement. |
| StatementRuns.PreparePolling | odbc.mod/iodbc/iodbc/prepare.c:192-237 | For SQLPrepare a poll that ends the call leaves the statement as it was before it; this equals the direct call exactly in the states where the direct call changes nothing. |
| StatementRuns.PreparePollingLoses | odbc.mod/iodbc/iodbc/prepare.c:192-237 | On a fresh statement a preparation that succeeds after one poll is not recorded, while a direct one is. |
| StatementRuns.CallKeepsLinks | odbc.mod/iodbc/iodbc/catalog.c:98-190 | Every modelled call, whatever the driver answers, keeps the links: a pending catalog call means at most executed, a pending fetch cursoropen to xfetched, a pending extended fetch cursoropen or xfetched, a pending get-data or set-position fetched or xfetched; fetched and xfetched have their own cursor mark or none, and states up to cursoropen carry no fetched mark. |
| StatementRuns.ReachableLinked | odbc.mod/iodbc/iodbc/fetch.c:102-229 | Every run from a linked statement ends in a linked one. |
| StatementRuns.DriverCallsGuarded | odbc.mod/iodbc/iodbc/fetch.c:488-521 | In every run, first calls and polls alike, the driver is entered at GetData and SetPos only in fetched or xfetched and at catalog entries only up to cursoropen; SQLFetch enters it only from executed to xfetched, SQLExtendedFetch only in executed-with-info, executed, cursoropen or xfetched, and nothing else reaches its fetch entries. |
| StatementRuns.EveryRun | odbc.mod/iodbc/iodbc/fetch.c:690-779 | From allocation on, every run keeps the links and makes only guarded driver calls. |
| StatementRuns.FetchedNeverExtended | odbc.mod/iodbc/iodbc/fetch.c:280-301 | From a fetched statement, no sequence of fetch, get-data and set-position calls and failing catalog calls lets the application's SQLExtendedFetch through to the driver; the driver's entry of that name is reached only by a SQLFetch mapped to it. |
| StatementRuns.ExtendedNeverFetched | odbc.mod/iodbc/iodbc/fetch.c:182-229 | From an xfetched statement no such sequence makes the statement fetched. |
| StatementRuns.CancelKeepsLinks | odbc.mod/iodbc/iodbc/hstmt.c:1085-1148 | Cancelling a linked statement keeps it linked exactly when: up to xfetched, no fetch, extended-fetch, get-data or set-position call is pending and the cursor carries no fetched mark; when SetPos wanted data, no catalog call is pending and the cursor mark is xfetched or none; when Execute or ExecDirect did, the cursor carries no fetched mark; and always otherwise. |
| StatementRuns.CancelBreaksLinks | odbc.mod/iodbc/iodbc/hstmt.c:1107-1118 | A reachable statement that a cancellation leaves without the links. |
| CallGate.StepKeepsInv | odbc.mod/iodbc/iodbc/hdbc.h:153-182 | Every line that any thread executes, and every giving up of a held lock, keeps the lock, owner, flag and history invariant, for connections and descriptors together; a body that forgets to take the lock back is the one exception. |
| CallGate.MutualExclusion | odbc.mod/iodbc/iodbc/hdbc.h:153-182 | In every state that any interleaving of any threads reaches, with holding bodies giving up the lock and taking it back at will, and none forgetting to: at most one thread is inside the body of a handle, its flag is 1 exactly then, at most one thread is at a locked line, and the calls on each handle have been serial. |
| CallGate.RetakesExactly | odbc.mod/iodbc/iodbc/connect.c:2897-2978 | The invariant holds in every state of a run exactly when every body that gives up the lock takes it back, which the dialog path of SQLDriverConnect does not when the dialog library or its function is missing. |
| CallGate.ForgottenLockOverlaps | odbc.mod/iodbc/iodbc/connect.c:2925-2940 | A run in which one body forgets the lock and two calls then overlap on another handle. |
| CallGate.RefusedWhileResting | odbc.mod/iodbc/iodbc/connect.c:2395-2405 | For any two threads and any connection, a run in which the second call is refused as out of sequence while the first, entered with `holdlock`, has given up the lock around its driver call. |
| CallGate.OnlyOwnerClears | odbc.mod/iodbc/iodbc/hdbc.h:158-182 | Only the thread inside a call clears its flag; the lines of a rejected call change no flag. |
| CallGate.RejectedExactly | odbc.mod/iodbc/iodbc/hdbc.h:158-168 | A call is refused as out of sequence exactly when its handle is valid and another thread is inside a call on it. |
| CallGate.InvalidExactly | odbc.mod/iodbc/iodbc/hdbc.h:158-168 | From the tests a call goes on to be refused as invalid exactly when its handle does not test as valid, whatever the flag, and on to mark it exactly when it does and the flag is clear; only a call that passed is ever entered. |
| CallGate.EnterRefusesInvalid | odbc.mod/iodbc/iodbc/hdbc.h:158-162 | ENTER on a handle that does not test as valid is refused as such, and on any other never; no flag changes. |
| CallGate.ReturnsUnlocked | odbc.mod/iodbc/iodbc/hdesc.h:136-142 | Every call, rejected or not, in either lock mode, returns from a state in which it held the lock to one in which nobody does. |
| CallGate.EnterOutcome | odbc.mod/iodbc/iodbc/hdbc.h:153-172 | The steps of ENTER can be taken whenever the lock is free, and end in the state of an admitted call or of a rejected and returned one. |
| CallGate.LeaveOutcome | odbc.mod/iodbc/iodbc/hdbc.h:175-182 | The steps from the body through LEAVE can be taken, clear the flag and free the lock; with `holdlock` even when the body no longer has it. |
| CallGate.HolderUndisturbed | odbc.mod/iodbc/iodbc/hdbc.h:153-182 | While a thread holds the lock, no step of another takes it, touches a flag or moves the holder. |
| CallGate.LinesRunOut | odbc.mod/iodbc/iodbc/hdbc.h:153-182 | Each of its own lines brings a call nearer to its return, giving up the lock puts it one line back, and no step of another touches it. |
| CallGate.SomeoneCanMove | odbc.mod/iodbc/iodbc/hdbc.h:171-181 | No deadlock: a thread in a call can go on, or waits for the lock of another that can. |
| CallGateObject.DriverManager.Enter | odbc.mod/iodbc/iodbc/hdbc.h:153-172 | The whole ENTER macro, once it has the lock, takes exactly the steps of the protocol up to the body or the return. A rejected call changes no flag and leaves the lock free; an admitted one sets its flag and keeps the lock exactly with `holdlock`. |
| CallGateObject.DriverManager.GiveUpLock | odbc.mod/iodbc/iodbc/connect.c:2395 | A holding body frees the lock and keeps its flag. |
| CallGateObject.DriverManager.TakeLockBack | odbc.mod/iodbc/iodbc/connect.c:2405 | It takes the lock again once it is free, and keeps its flag. |
| CallGateObject.DriverManager.Leave | odbc.mod/iodbc/iodbc/hdbc.h:175-182 | The whole LEAVE macro takes exactly the steps from the body to the return: the flag is cleared and the lock is free. |
| DriverRegistry.OpenKeepsInv | odbc.mod/iodbc/iodbc/dlproc.c:129-179 | Every open, failed, repeated or reloading, keeps the registry invariant, however large the counts. |
| DriverRegistry.MarkKeepsInv | odbc.mod/iodbc/iodbc/dlproc.c:245-269 | Marking keeps the registry invariant. |
| DriverRegistry.SafeExactlyMarked | odbc.mod/iodbc/iodbc/dlproc.c:245-269 | In every reachable registry a record is safe to unload exactly when its path has been marked, and every marked path has a record: no mark is taken back. |
| DriverRegistry.MarkHeld | odbc.mod/iodbc/iodbc/dlproc.c:253-268 | A client that marks the handle it holds marks its own path and no other. |
| DriverRegistry.OpenServes | odbc.mod/iodbc/iodbc/dlproc.c:149-178 | The loader is asked exactly when the path has no library, for a new path and an unloaded one alike; the client gets the path's current handle. |
| DriverRegistry.UnloadsExactly | odbc.mod/iodbc/iodbc/dlproc.c:212-228 | Closing a held handle unloads its library exactly when the path has ever been marked safe and opens minus closes is 1 modulo 2^32. |
| DriverRegistry.LastHolder | odbc.mod/iodbc/iodbc/dlproc.c:224-228 | A close that unloads is on a path marked safe, and comes from its last holder exactly when it does not endanger another one. |
| DriverRegistry.CloseKeepsInv | odbc.mod/iodbc/iodbc/dlproc.c:189-231 | Closing a held handle keeps the registry invariant exactly when it is not an unloading close under another holder, which the 32-bit count admits only after wrapping. |
| DriverRegistry.SafeBelowWrap | odbc.mod/iodbc/iodbc/dlproc.c:215 | While at most 2^32 opens of a path are outstanding, no close unloads under another holder. |
| DriverRegistry.LoadedExactly | odbc.mod/iodbc/iodbc/dlproc.c:129-269 | In every state of a run every held handle is loaded, exactly when the run is careful: no close on a path marked safe finds its opens minus closes at 1 modulo 2^32 while another client holds the handle. |
| DriverRegistry.CarefulExactly | odbc.mod/iodbc/iodbc/dlproc.c:129-269 | The whole registry invariant holds in every state of a run exactly when the run is careful. |
| DriverRegistry.FewOutstandingCareful | odbc.mod/iodbc/iodbc/dlproc.c:215 | A run of any length is careful when at each close at most 2^32 opens of the path are outstanding. |
| DriverRegistry.HeldStaysLoaded | odbc.mod/iodbc/iodbc/dlproc.c:129-269 | After every careful run from an empty list, of any length, every held handle is loaded and is the current handle of its record, whose count is its holders plus its failed opens, which are its opens minus its closes. |
| DriverRegistry.ListStaysSound | odbc.mod/iodbc/iodbc/dlproc.c:129-269 | After every careful run the paths and the non-NULL handles are pairwise distinct, the handles are exactly the loaded libraries, and every record counts its path. |
| DriverRegistry.RunKeepsPaths | odbc.mod/iodbc/iodbc/dlproc.c:162-176 | In every run the earlier paths stay at the end of the list in their order: no record is lost. |
| DriverRegistry.UnmarkedNeverClosed | odbc.mod/iodbc/iodbc/dlproc.c:217-228 | In every run that the loader and the clients can take from an empty list, whether or not counts wrap: once a path has a handle, and as long as it is not marked safe, it keeps that handle and the library stays loaded. |
| DriverRegistry.UnmarkedKeepsHandle | odbc.mod/iodbc/iodbc/dlproc.c:217-228 | The record of a path that is not marked by the end of a run keeps its non-NULL handle, whatever the loader answers. |
| DriverRegistry.WrapClosesHeldLibrary | odbc.mod/iodbc/iodbc/dlproc.c:215-228 | A run of 2^32 + 1 opens, a mark and one close leaves a client holding a library that is no longer loaded. |
| DriverRegistryObject.Registry.SearchPath | odbc.mod/iodbc/iodbc/dlproc.c:137-144 | Walks the chain to the first node with the path, or to the end. |
| DriverRegistryObject.Registry.SearchDll | odbc.mod/iodbc/iodbc/dlproc.c:197-204 | Walks the chain to the first node with the handle, or to the end. |
| DriverRegistryObject.Registry.DllOpen | odbc.mod/iodbc/iodbc/dlproc.c:129-179 | Counts and, when unloaded, reloads the node of the path, or puts a fresh node in front; the chain stays acyclic and keeps every node, and the loader is asked exactly when no library is loaded. |
| DriverRegistryObject.Registry.DllClose | odbc.mod/iodbc/iodbc/dlproc.c:189-231 | Counts down the node of the handle and unloads it exactly when the count reaches zero on a path marked safe; -1 and no change for an unknown handle; same nodes, same chain. |
| DriverRegistryObject.Registry.SafeUnload | odbc.mod/iodbc/iodbc/dlproc.c:245-269 | Marks the first node with the handle, or changes nothing; same nodes, same chain. |
| ProcTable.GetProc | odbc.mod/iodbc/iodbc/dlproc.c:102-123 | NULL without an environment or for a number out of range; else the stored entry, or the answer of the loader, stored; an up-to-date table stays so. |
| ProcTable.LookupsAgree | odbc.mod/iodbc/iodbc/dlproc.c:117-122 | On an up-to-date table every lookup of any series answers as the loader would, first and repeated numbers alike. |
| ProcTable.RetargetExactly | odbc.mod/iodbc/iodbc/dlproc.c:117-122 | A table filled from one library answers rightly for another exactly when both agree on every number already looked up. |
| ProcTable.DriverEnv.Retarget | odbc.mod/iodbc/iodbc/connect.c:1194-1198 | The environment takes the new handle and keeps its table, which is then up to date exactly when the two libraries agree where it is filled. |
| ProcTable.StaleLookup | odbc.mod/iodbc/iodbc/connect.c:1194-1198 | A number looked up in one library is still answered from it after the switch to any library with another entry point for it. |
| ProcTable.StaleLookupHappens | odbc.mod/iodbc/iodbc/connect.c:1194-1198 | A new table, a loader and two libraries for which this happens. |
| ProcTable.DriverEnv.constructor | odbc.mod/iodbc/iodbc/connect.c:1252-1263 | A new environment has an empty table, up to date for any library. |

## Left out

- `strftime`, the conversion between BlitzMax strings and UTF-8, and memory calls in `core.mod/glue.c:56-67`: library behaviour.
- Allocation failure everywhere (`strdup`, `calloc`, the entry pool, new list nodes), except the buffer of SQLGetData; `DllOpen` always gets its node.
- The thin wrappers over PostgreSQL, MariaDB, SQLite and ODBC client calls, and all vendored headers: no logic of their own.
- Character-set conversion around the statement calls and the parser; the HY001 error of SQLGetData goes to the connection's error list, which is not part of this model.
- What parameter conversion around SQLExecute and SQLExecDirect does: the model has its result and its errors, not the driver calls that rebind parameters.
- What `_iodbcdm_driverunload` does before a connection changes its handle; `Retarget` is the change alone, as where that function returns early.
- SQLMoreResults, SQLParamData, SQLPutData, SQLFetchScroll, SQLTransact, SQLFreeStmt and SQLSetCursorName: their transitions follow other patterns, and runs that contain them are not covered by the links.
- The ENTER and LEAVE macros of statement handles and the column-binding helpers of SQLFetch: some exits between them return without clearing the flag, so nothing is claimed about it.
- Tracing, error records beyond their states, and the per-driver mutex of a call.
- Calls that take the global lock again while holding it: each call of the model is one ENTER, a body that gives up and takes back the lock in turns, and one LEAVE.
- The memory of a freed connection or descriptor: validity is modelled as a set that may change at any time.
- The login and confirm dialogs, and what the driver proxy writes into its buffer before the joining loop.
- The ini-file readers and writers of `inifile.c` beyond freeing, storing, rewinding and stepping, and its `dynamic` copies, which the parser never asks for.
- Symbolic links: two paths of one library count as two libraries with two handles.
- ConfigObject.Configuration.ToString: does not model a buffer size of zero, because the code writes the first byte without looking.
- ConfigObject.Configuration.ParseStr: says nothing about strings with an unclosed brace, on which the code leaves its buffer.
