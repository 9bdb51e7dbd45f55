/** The shared list of loaded drivers: one record a path, newest first, with the 32-bit
    reference count that decides when a library may be closed. */
module DriverRegistry {
  import opened CInt

  /** A loader handle; 0 is NULL. */
  type HDLL = nat

  datatype Driver = Driver(path: string, dll: HDLL, refcount: nat, safe: bool)

  function FindPath(l: seq<Driver>, path: string): (i: nat)
    ensures i <= |l| && (i < |l| ==> l[i].path == path)
    ensures forall k :: 0 <= k < i ==> l[k].path != path
  {
    if l == [] || l[0].path == path then 0 else 1 + FindPath(l[1..], path)
  }

  function FindDll(l: seq<Driver>, h: HDLL): (i: nat)
    ensures i <= |l| && (i < |l| ==> l[i].dll == h)
    ensures forall k :: 0 <= k < i ==> l[k].dll != h
  {
    if l == [] || l[0].dll == h then 0 else 1 + FindDll(l[1..], h)
  }

  /** Opening asks the loader only when the path has no library loaded. */
  predicate Asks(l: seq<Driver>, path: string) {
    var i := FindPath(l, path);
    i == |l| || l[i].dll == 0
  }

  /** The list after an open that the loader, if asked, answers with `ans`. */
  function Opened(l: seq<Driver>, path: string, ans: HDLL): seq<Driver> {
    var i := FindPath(l, path);
    if i == |l| then [Driver(path, ans, 1, false)] + l
    else l[i := l[i].(refcount := Unsigned(l[i].refcount + 1), dll := if l[i].dll == 0 then ans else l[i].dll)]
  }

  function OpenResult(l: seq<Driver>, path: string, ans: HDLL): HDLL {
    if Asks(l, path) then ans else l[FindPath(l, path)].dll
  }

  /** Whether closing `h` unloads the library. */
  predicate Unloads(l: seq<Driver>, h: HDLL) {
    var i := FindDll(l, h);
    i < |l| && Unsigned(l[i].refcount - 1) == 0 && l[i].safe
  }

  function Closed(l: seq<Driver>, h: HDLL): seq<Driver> {
    var i := FindDll(l, h);
    if i == |l| then l
    else l[i := l[i].(refcount := Unsigned(l[i].refcount - 1), dll := if Unloads(l, h) then 0 else l[i].dll)]
  }

  function Marked(l: seq<Driver>, h: HDLL): seq<Driver> {
    var i := FindDll(l, h);
    if i == |l| then l else l[i := l[i].(safe := true)]
  }

  // ----- the registry and its clients

  /** A handle some client holds, and the path it opened. */
  datatype Hold = Hold(path: string, h: HDLL)

  /** The list, the libraries the loader has open, and the clients' ledger: what they hold,
      how often each path was opened, closed, and opened in vain, and the paths marked safe. */
  datatype World = World(
    list: seq<Driver>,
    loaded: set<HDLL>,
    held: multiset<Hold>,
    opens: multiset<string>,
    closes: multiset<string>,
    failed: multiset<string>,
    marked: set<string>)

  const EMPTY: World := World([], {}, multiset{}, multiset{}, multiset{}, multiset{}, {})

  datatype Event = Open(path: string, ans: HDLL) | Close(path: string, h: HDLL) | Mark(h: HDLL)

  /** The loader answers NULL or a handle that is not open; clients close what they hold. */
  predicate Enabled(w: World, e: Event) {
    match e
    case Open(path, ans) => Asks(w.list, path) ==> ans !in w.loaded
    case Close(path, h) => Hold(path, h) in w.held
    case Mark(_) => true
  }

  function Apply(w: World, e: Event): World {
    match e
    case Open(path, ans) =>
      var ret := OpenResult(w.list, path, ans);
      w.(list := Opened(w.list, path, ans),
         loaded := if Asks(w.list, path) && ans != 0 then w.loaded + {ans} else w.loaded,
         held := if ret != 0 then w.held + multiset{Hold(path, ret)} else w.held,
         opens := w.opens + multiset{path},
         failed := if ret == 0 then w.failed + multiset{path} else w.failed)
    case Close(path, h) =>
      w.(list := Closed(w.list, h),
         loaded := if Unloads(w.list, h) then w.loaded - {h} else w.loaded,
         held := w.held - multiset{Hold(path, h)},
         closes := w.closes + multiset{path})
    case Mark(h) =>
      var i := FindDll(w.list, h);
      w.(list := Marked(w.list, h),
         marked := if i < |w.list| then w.marked + {w.list[i].path} else w.marked)
  }

  /** Opens minus closes of a path. */
  function Outstanding(w: World, path: string): int {
    w.opens[path] as int - w.closes[path] as int
  }

  // ----- the invariant

  predicate DistinctPaths(l: seq<Driver>) {
    forall i, j :: 0 <= i < j < |l| ==> l[i].path != l[j].path
  }

  predicate Distinct(l: seq<Driver>) {
    && DistinctPaths(l)
    && (forall i, j :: 0 <= i < j < |l| && l[i].dll != 0 ==> l[i].dll != l[j].dll)
  }

  /** The loader has open exactly the non-NULL handles of the list. */
  ghost predicate LoadedInv(w: World) {
    && 0 !in w.loaded
    && (forall i :: 0 <= i < |w.list| && w.list[i].dll != 0 ==> w.list[i].dll in w.loaded)
    && (forall h :: h in w.loaded ==> FindDll(w.list, h) < |w.list|)
  }

  /** The count of a record is its opens minus its closes, which are its holders and its
      failed opens. */
  predicate Counted(w: World, d: Driver) {
    && Outstanding(w, d.path) == w.held[Hold(d.path, d.dll)] + w.failed[d.path]
    && d.refcount == Unsigned(Outstanding(w, d.path))
    && (d.safe <==> d.path in w.marked)
  }

  /** A held handle is the current handle of its path's record. */
  predicate HeldIsCurrent(w: World, x: Hold) {
    var i := FindPath(w.list, x.path);
    x.h != 0 && i < |w.list| && w.list[i].dll == x.h
  }

  predicate CountsInv(w: World) {
    forall i :: 0 <= i < |w.list| ==> Counted(w, w.list[i])
  }

  ghost predicate HeldInv(w: World) {
    forall x :: x in w.held ==> HeldIsCurrent(w, x)
  }

  /** Nothing is outstanding or marked for a path without a record. */
  ghost predicate AbsentInv(w: World) {
    forall path :: FindPath(w.list, path) == |w.list| ==>
      Outstanding(w, path) == 0 && w.failed[path] == 0 && path !in w.marked
  }

  ghost predicate Inv(w: World) {
    Distinct(w.list) && LoadedInv(w) && CountsInv(w) && HeldInv(w) && AbsentInv(w)
  }

  lemma CountUp(n: int)
    ensures Unsigned(Unsigned(n) + 1) == Unsigned(n + 1)
  {
  }

  lemma CountDown(n: int)
    ensures Unsigned(Unsigned(n) - 1) == Unsigned(n - 1)
    ensures Unsigned(n - 1) == 0 <==> n % TWO_32 == 1
  {
  }

  /** With distinct paths and handles, the first record that matches is the only one. */
  lemma FindExactly(l: seq<Driver>, i: nat)
    requires Distinct(l) && i < |l|
    ensures FindPath(l, l[i].path) == i
    ensures l[i].dll != 0 ==> FindDll(l, l[i].dll) == i
  {
  }

  /** The records of an opened list, found by path. */
  lemma FindInOpened(l: seq<Driver>, path: string, ans: HDLL, p: string)
    requires DistinctPaths(l)
    ensures var l' := Opened(l, path, ans);
            var i, j := FindPath(l, p), FindPath(l', p);
            if p == path then j < |l'| && l'[j].dll == OpenResult(l, path, ans)
            else (j == |l'| <==> i == |l|) && (i < |l| ==> j < |l'| && l'[j] == l[i])
  {
    var l' := Opened(l, path, ans);
    if FindPath(l, path) == |l| {
      FindInFront(l, Driver(path, ans, 1, false), p);
    } else {
      SameFields(l, l');
    }
    hide FindPath, DistinctPaths;
  }

  lemma FindInFront(l: seq<Driver>, d: Driver, p: string)
    ensures FindPath([d] + l, p) == if d.path == p then 0 else 1 + FindPath(l, p)
  {
    assert ([d] + l)[1..] == l;
  }

  // ----- opening

  lemma OpenKeepsDistinct(w: World, path: string, ans: HDLL)
    requires Distinct(w.list) && LoadedInv(w) && Enabled(w, Open(path, ans))
    ensures Distinct(Opened(w.list, path, ans))
  {
  }

  lemma OpenKeepsLoaded(w: World, path: string, ans: HDLL)
    requires Distinct(w.list) && LoadedInv(w) && Enabled(w, Open(path, ans))
    ensures LoadedInv(Apply(w, Open(path, ans)))
  {
    var w' := Apply(w, Open(path, ans));
    var k := FindPath(w.list, path);
    var touched := if k == |w.list| then 0 else k;
    forall h | h in w'.loaded ensures FindDll(w'.list, h) < |w'.list| {
      if h in w.loaded {
        var i := FindDll(w.list, h);
        assert w'.list[if k == |w.list| then i + 1 else i].dll == h;
      } else {
        assert w'.list[touched].dll == h;
      }
    }
  }

  /** Nobody holds a handle of a path other than its record's current one. */
  lemma NobodyElseHolds(w: World, path: string, h: HDLL)
    requires HeldInv(w)
    requires var i := FindPath(w.list, path); h == 0 || i == |w.list| || w.list[i].dll != h
    ensures w.held[Hold(path, h)] == 0
  {
  }

  /** Nobody holds NULL. */
  lemma NullNotHeld(w: World, path: string)
    requires Inv(w)
    ensures w.held[Hold(path, 0)] == 0
  {
  }

  /** The ledger of a path after an open. */
  lemma OpenLedger(w: World, path: string, ans: HDLL)
    ensures var w' := Apply(w, Open(path, ans));
            var ret := OpenResult(w.list, path, ans);
            && Outstanding(w', path) == Outstanding(w, path) + 1
            && w'.held[Hold(path, ret)] == w.held[Hold(path, ret)] + (if ret != 0 then 1 else 0)
            && w'.failed[path] == w.failed[path] + (if ret == 0 then 1 else 0)
            && w'.marked == w.marked
  {
  }

  lemma NewRecordCounts(w: World, path: string, ans: HDLL)
    requires HeldInv(w) && AbsentInv(w) && FindPath(w.list, path) == |w.list|
    ensures Counted(Apply(w, Open(path, ans)), Driver(path, ans, 1, false))
  {
  }

  lemma ReopenedCounts(w: World, path: string, ans: HDLL, d: Driver)
    requires HeldInv(w) && Counted(w, d) && d.path == path
    requires FindPath(w.list, path) < |w.list| && w.list[FindPath(w.list, path)] == d
    ensures var ret := OpenResult(w.list, path, ans);
            Counted(Apply(w, Open(path, ans)), d.(refcount := Unsigned(d.refcount + 1), dll := ret))
  {
    hide FindPath, Opened, HeldInv, Unsigned;
    OpenLedger(w, path, ans);
    CountUp(Outstanding(w, path));
    NobodyElseHolds(w, path, 0);
    if d.dll == 0 {
      NobodyElseHolds(w, path, ans);
    }
    hide Apply;
  }

  /** The record of the opened path counts one open more. */
  lemma OpenedCounts(w: World, path: string, ans: HDLL)
    requires Inv(w)
    ensures var w' := Apply(w, Open(path, ans));
            var k := FindPath(w.list, path);
            Counted(w', w'.list[if k == |w.list| then 0 else k])
  {
    var k := FindPath(w.list, path);
    hide FindPath, Counted, HeldInv, AbsentInv, LoadedInv, Distinct, Unsigned;
    if k == |w.list| {
      NewRecordCounts(w, path, ans);
    } else {
      ReopenedCounts(w, path, ans, w.list[k]);
    }
  }

  /** Other records count as before. */
  lemma OtherCounts(w: World, path: string, ans: HDLL, d: Driver)
    requires Counted(w, d) && d.path != path
    ensures Counted(Apply(w, Open(path, ans)), d)
  {
    hide Unsigned, FindDll, FindPath, Opened, OpenResult, Asks;
  }

  lemma OpenKeepsCounts(w: World, path: string, ans: HDLL)
    requires Inv(w) && Enabled(w, Open(path, ans))
    ensures CountsInv(Apply(w, Open(path, ans)))
  {
    var w' := Apply(w, Open(path, ans));
    var k := FindPath(w.list, path);
    OpenedCounts(w, path, ans);
    OpenKeepsDistinct(w, path, ans);
    hide Counted, HeldInv, AbsentInv, LoadedInv;
    forall i | 0 <= i < |w'.list| && i != (if k == |w.list| then 0 else k) ensures Counted(w', w'.list[i]) {
      var was := if k == |w.list| then i - 1 else i;
      assert w'.list[i] == w.list[was] && Counted(w, w.list[was]);
      OtherCounts(w, path, ans, w.list[was]);
    }
  }

  lemma OpenKeepsHeld(w: World, path: string, ans: HDLL)
    requires Inv(w) && Enabled(w, Open(path, ans))
    ensures HeldInv(Apply(w, Open(path, ans)))
  {
    var w' := Apply(w, Open(path, ans));
    forall x | x in w'.held ensures HeldIsCurrent(w', x) {
      FindInOpened(w.list, path, ans, x.path);
      if x in w.held {
        assert HeldIsCurrent(w, x);
      }
    }
  }

  lemma OpenKeepsAbsent(w: World, path: string, ans: HDLL)
    requires Inv(w) && Enabled(w, Open(path, ans))
    ensures AbsentInv(Apply(w, Open(path, ans)))
  {
    var w' := Apply(w, Open(path, ans));
    forall p | FindPath(w'.list, p) == |w'.list|
      ensures Outstanding(w', p) == 0 && w'.failed[p] == 0 && p !in w'.marked
    {
      FindInOpened(w.list, path, ans, p);
    }
  }

  /** Opening keeps the invariant, however large the counts. */
  lemma OpenKeepsInv(w: World, path: string, ans: HDLL)
    requires Inv(w) && Enabled(w, Open(path, ans))
    ensures Inv(Apply(w, Open(path, ans)))
  {
    OpenKeepsDistinct(w, path, ans);
    OpenKeepsLoaded(w, path, ans);
    OpenKeepsCounts(w, path, ans);
    OpenKeepsHeld(w, path, ans);
    OpenKeepsAbsent(w, path, ans);
  }

  // ----- marking

  lemma MarkKeepsInv(w: World, h: HDLL)
    requires Inv(w)
    ensures Inv(Apply(w, Mark(h)))
  {
    hide CountsInv, HeldInv, LoadedInv, AbsentInv, Distinct, Apply;
    MarkKeepsCounts(w, h);
    MarkKeepsHeld(w, h);
    MarkKeepsLoaded(w, h);
    MarkKeepsDistinct(w, h);
    MarkKeepsAbsent(w, h);
  }

  lemma MarkKeepsDistinct(w: World, h: HDLL)
    requires Distinct(w.list)
    ensures Distinct(Apply(w, Mark(h)).list)
  {
  }

  lemma MarkKeepsAbsent(w: World, h: HDLL)
    requires AbsentInv(w)
    ensures AbsentInv(Apply(w, Mark(h)))
  {
    hide FindDll;
    SameFields(w.list, Marked(w.list, h));
    hide FindPath;
  }

  lemma MarkKeepsLoaded(w: World, h: HDLL)
    requires LoadedInv(w)
    ensures LoadedInv(Apply(w, Mark(h)))
  {
    SameFields(w.list, Marked(w.list, h));
    hide FindDll;
  }

  lemma MarkKeepsHeld(w: World, h: HDLL)
    requires HeldInv(w)
    ensures HeldInv(Apply(w, Mark(h)))
  {
    hide FindDll;
    var w' := Apply(w, Mark(h));
    SameFields(w.list, w'.list);
    hide FindPath;
    forall x | x in w'.held ensures HeldIsCurrent(w', x) {
      assert HeldIsCurrent(w, x);
    }
  }

  lemma MarkKeepsCounts(w: World, h: HDLL)
    requires CountsInv(w) && Distinct(w.list)
    ensures CountsInv(Apply(w, Mark(h)))
  {
    hide Unsigned, FindDll;
    var w' := Apply(w, Mark(h));
    var k := FindDll(w.list, h);
    forall i | 0 <= i < |w'.list| ensures Counted(w', w'.list[i]) {
      assert Counted(w, w.list[i]);
      assert k < |w.list| && i != k ==> w.list[i].path != w.list[k].path;
    }
  }

  /** A client that marks the handle it holds marks its own path. */
  lemma MarkHeld(w: World, path: string, h: HDLL)
    requires Inv(w) && Hold(path, h) in w.held
    ensures Apply(w, Mark(h)).marked == w.marked + {path}
  {
    HeldRecord(w, path, h);
    hide Inv, FindDll, FindPath;
  }

  /** Lists with the same paths find the same positions; with the same handles too. */
  lemma SameFields(l: seq<Driver>, l': seq<Driver>)
    requires |l'| == |l| && forall i :: 0 <= i < |l| ==> l'[i].path == l[i].path
    ensures forall p :: FindPath(l', p) == FindPath(l, p)
    ensures (forall i :: 0 <= i < |l| ==> l'[i].dll == l[i].dll) ==> forall h :: FindDll(l', h) == FindDll(l, h)
  {
  }

  // ----- closing

  /** The record a held handle closes is that of its own path. */
  lemma HeldRecord(w: World, path: string, h: HDLL)
    requires Inv(w) && Hold(path, h) in w.held
    ensures var i := FindDll(w.list, h);
            && i < |w.list| && i == FindPath(w.list, path) && w.list[i].path == path && h != 0
            && 1 <= w.held[Hold(path, h)] <= Outstanding(w, path)
            && Counted(w, w.list[i]) && w.list[i].refcount == Unsigned(Outstanding(w, path))
  {
    assert HeldIsCurrent(w, Hold(path, h));
    var i := FindPath(w.list, path);
    FindExactly(w.list, i);
    assert Counted(w, w.list[i]);
    hide Unsigned;
  }

  /** Closing a held handle unloads the library exactly when its path was marked safe and one
      more than a multiple of 2^32 opens are outstanding. */
  lemma UnloadsExactly(w: World, path: string, h: HDLL)
    requires Inv(w) && Hold(path, h) in w.held
    ensures Unloads(w.list, h) <==>
            path in w.marked && Outstanding(w, path) % TWO_32 == 1
  {
    HeldRecord(w, path, h);
    CountDown(Outstanding(w, path));
    hide Unsigned, Inv, FindPath, FindDll, Counted, Outstanding;
  }

  /** A close that would unload the library under another holder: the count has wrapped. */
  predicate Endangers(w: World, path: string, h: HDLL) {
    var i := FindPath(w.list, path);
    && i < |w.list| && path in w.marked
    && Outstanding(w, path) % TWO_32 == 1 && w.held[Hold(path, h)] > 1
  }

  /** Unless it endangers another holder, a close that unloads comes from the last holder. */
  lemma LastHolder(w: World, path: string, h: HDLL)
    requires Inv(w) && Hold(path, h) in w.held && Unloads(w.list, h)
    ensures !Endangers(w, path, h) <==> w.held[Hold(path, h)] == 1
    ensures path in w.marked
  {
    UnloadsExactly(w, path, h);
    HeldRecord(w, path, h);
    hide Unloads, Inv, FindPath, FindDll, Outstanding;
  }

  /** No close endangers a holder while at most 2^32 opens of the path are outstanding. */
  lemma SafeBelowWrap(w: World, path: string, h: HDLL)
    requires Inv(w) && Hold(path, h) in w.held && Outstanding(w, path) <= TWO_32
    ensures !Endangers(w, path, h)
  {
    HeldRecord(w, path, h);
    WrapsAtOne(Outstanding(w, path));
    hide Inv, FindPath, FindDll, Counted, Unsigned, Outstanding;
  }

  lemma WrapsAtOne(n: int)
    requires 1 <= n <= TWO_32
    ensures n % TWO_32 == 1 ==> n == 1
  {
  }

  /** Records of other paths count as before. */
  lemma OtherClosedCounts(w: World, path: string, h: HDLL, d: Driver)
    requires Counted(w, d) && d.path != path
    ensures Counted(Apply(w, Close(path, h)), d)
  {
    hide Unsigned, FindDll, Closed, Unloads;
  }

  /** The ledger of a path after a close. */
  lemma CloseLedger(w: World, path: string, h: HDLL, h': HDLL)
    requires Hold(path, h) in w.held
    ensures var w' := Apply(w, Close(path, h));
            && Outstanding(w', path) == Outstanding(w, path) - 1
            && w'.held[Hold(path, h')] == w.held[Hold(path, h')] - (if h' == h then 1 else 0)
            && w'.failed[path] == w.failed[path] && w'.marked == w.marked
  {
  }

  lemma KeptCounts(w: World, path: string, h: HDLL, d: Driver)
    requires Hold(path, h) in w.held && Counted(w, d) && d.path == path && d.dll == h
    ensures Counted(Apply(w, Close(path, h)), d.(refcount := Unsigned(d.refcount - 1)))
  {
    hide Unsigned;
    CountDown(Outstanding(w, path));
    CloseLedger(w, path, h, h);
    hide Apply, Outstanding;
  }

  lemma UnloadedCounts(w: World, path: string, h: HDLL, d: Driver)
    requires Hold(path, h) in w.held && Counted(w, d) && d.path == path && d.dll == h
    requires w.held[Hold(path, h)] == 1 && w.held[Hold(path, 0)] == 0 && h != 0
    ensures Counted(Apply(w, Close(path, h)), d.(refcount := Unsigned(d.refcount - 1), dll := 0))
  {
    hide Unsigned;
    CountDown(Outstanding(w, path));
    CloseLedger(w, path, h, 0);
    hide Apply, Outstanding;
  }

  /** The record a close touches. */
  lemma ClosedRecord(l: seq<Driver>, h: HDLL, k: nat)
    requires k == FindDll(l, h) && k < |l|
    ensures |Closed(l, h)| == |l|
    ensures Closed(l, h)[k] ==
            l[k].(refcount := Unsigned(l[k].refcount - 1), dll := if Unloads(l, h) then 0 else h)
  {
  }

  lemma OwnClosedCounts(w: World, path: string, h: HDLL, k: nat)
    requires Inv(w) && Hold(path, h) in w.held && !Endangers(w, path, h)
    requires k == FindDll(w.list, h) && k < |w.list|
    ensures |Closed(w.list, h)| == |w.list|
    ensures Counted(Apply(w, Close(path, h)), Closed(w.list, h)[k])
  {
    hide *;
    HeldRecord(w, path, h);
    ClosedRecord(w.list, h, k);
    var d := w.list[k];
    if Unloads(w.list, h) {
      LastHolder(w, path, h);
      NullNotHeld(w, path);
      UnloadedCounts(w, path, h, d);
    } else {
      KeptCounts(w, path, h, d);
    }
  }

  lemma ClosedCounts(w: World, path: string, h: HDLL)
    requires Inv(w) && Hold(path, h) in w.held && !Endangers(w, path, h)
    ensures CountsInv(Apply(w, Close(path, h)))
  {
    HeldRecord(w, path, h);
    var w' := Apply(w, Close(path, h));
    var k := FindDll(w.list, h);
    OwnClosedCounts(w, path, h, k);
    hide FindPath, FindDll, Counted, Unsigned, HeldInv, LoadedInv, AbsentInv, Unloads;
    forall i | 0 <= i < |w'.list| && i != k ensures Counted(w', w'.list[i]) {
      OtherClosedCounts(w, path, h, w.list[i]);
    }
  }

  lemma StillCurrent(w: World, x: Hold)
    requires Inv(w) && x in w.held
    ensures HeldIsCurrent(w, x)
  {
  }

  /** The holders left after a close have the handle of a record that the close keeps. */
  lemma LeftHolder(w: World, path: string, h: HDLL, x: Hold)
    requires Inv(w) && Hold(path, h) in w.held && !Endangers(w, path, h)
    requires x in (w.held - multiset{Hold(path, h)})
    ensures x in w.held && (Unloads(w.list, h) ==> x.path != path)
  {
    StillCurrent(w, x);
    StillCurrent(w, Hold(path, h));
    if Unloads(w.list, h) {
      LastHolder(w, path, h);
    }
    hide Inv, FindPath, FindDll, Unloads, Endangers;
  }

  lemma ClosedHeld(w: World, path: string, h: HDLL)
    requires Inv(w) && Hold(path, h) in w.held && !Endangers(w, path, h)
    ensures HeldInv(Apply(w, Close(path, h)))
  {
    var w' := Apply(w, Close(path, h));
    HeldRecord(w, path, h);
    ClosedRecord(w.list, h, FindDll(w.list, h));
    SameFields(w.list, w'.list);
    hide Inv, FindPath, FindDll, Unsigned, Counted, Unloads, Outstanding, Endangers;
    forall x | x in w'.held ensures HeldIsCurrent(w', x) {
      LeftHolder(w, path, h, x);
      StillCurrent(w, x);
    }
  }

  lemma ClosedLoaded(w: World, path: string, h: HDLL)
    requires Distinct(w.list) && LoadedInv(w)
    ensures LoadedInv(Apply(w, Close(path, h)))
  {
    var w' := Apply(w, Close(path, h));
    forall h' | h' in w'.loaded ensures FindDll(w'.list, h') < |w'.list| {
      assert w'.list[FindDll(w.list, h')].dll == h';
    }
  }

  /** Closing keeps the invariant exactly when it does not unload the library under another
      holder. */
  lemma CloseKeepsInv(w: World, path: string, h: HDLL)
    requires Inv(w) && Enabled(w, Close(path, h))
    ensures Inv(Apply(w, Close(path, h))) <==> !Endangers(w, path, h)
  {
    hide CountsInv, HeldInv, LoadedInv, AbsentInv, Distinct, Apply, Endangers;
    if Endangers(w, path, h) {
      EndangeredHolder(w, path, h);
    } else {
      SafeCloseKeepsInv(w, path, h);
    }
  }

  /** Another holder is left with a library that is no longer loaded. */
  lemma EndangeredHolder(w: World, path: string, h: HDLL)
    requires Inv(w) && Hold(path, h) in w.held && Endangers(w, path, h)
    ensures var w' := Apply(w, Close(path, h));
            Hold(path, h) in w'.held && h !in w'.loaded && !HeldInv(w')
  {
    UnloadsExactly(w, path, h);
    HeldRecord(w, path, h);
    CloseLedger(w, path, h, h);
    ClosedRecord(w.list, h, FindDll(w.list, h));
    var w' := Apply(w, Close(path, h));
    SameFields(w.list, w'.list);
    hide FindPath, FindDll, Inv, Unsigned;
    assert Hold(path, h) in w'.held && !HeldIsCurrent(w', Hold(path, h));
  }

  lemma SafeCloseKeepsInv(w: World, path: string, h: HDLL)
    requires Inv(w) && Hold(path, h) in w.held && !Endangers(w, path, h)
    ensures Inv(Apply(w, Close(path, h)))
  {
    hide CountsInv, HeldInv, LoadedInv, AbsentInv, Distinct, Apply, Endangers;
    ClosedCounts(w, path, h);
    ClosedHeld(w, path, h);
    ClosedLoaded(w, path, h);
    ClosedDistinct(w, path, h);
    ClosedAbsent(w, path, h);
  }

  lemma ClosedDistinct(w: World, path: string, h: HDLL)
    requires Distinct(w.list)
    ensures Distinct(Apply(w, Close(path, h)).list)
  {
  }

  lemma ClosedAbsent(w: World, path: string, h: HDLL)
    requires Inv(w) && Hold(path, h) in w.held
    ensures AbsentInv(Apply(w, Close(path, h)))
  {
    HeldRecord(w, path, h);
    hide FindDll, Unloads, Unsigned, HeldInv, CountsInv, LoadedInv, Distinct;
    SameFields(w.list, Closed(w.list, h));
    hide FindPath;
  }

  // ----- runs

  /** A run the loader and the clients can take. */
  predicate CanRun(w: World, es: seq<Event>)
    decreases |es|
  {
    es == [] || (Enabled(w, es[0]) && CanRun(Apply(w, es[0]), es[1..]))
  }

  function Run(w: World, es: seq<Event>): World
    decreases |es|
  {
    if es == [] then w else Run(Apply(w, es[0]), es[1..])
  }

  /** No close of the run endangers another holder. */
  predicate Careful(w: World, es: seq<Event>)
    decreases |es|
  {
    es == [] ||
    (&& (es[0].Close? ==> !Endangers(w, es[0].path, es[0].h))
     && Careful(Apply(w, es[0]), es[1..]))
  }

  lemma StepKeepsInv(w: World, e: Event)
    requires Inv(w) && Enabled(w, e)
    requires e.Close? ==> !Endangers(w, e.path, e.h)
    ensures Inv(Apply(w, e))
  {
    hide Inv, Apply, Endangers;
    match e
    case Open(path, ans) => OpenKeepsInv(w, path, ans);
    case Close(path, h) => CloseKeepsInv(w, path, h);
    case Mark(h) => MarkKeepsInv(w, h);
  }

  lemma {:induction false} RunKeepsInv(w: World, es: seq<Event>)
    requires Inv(w) && CanRun(w, es) && Careful(w, es)
    ensures Inv(Run(w, es))
    decreases |es|
  {
    hide Inv, Apply, Endangers, Enabled;
    if es != [] {
      StepKeepsInv(w, es[0]);
      RunKeepsInv(Apply(w, es[0]), es[1..]);
    }
  }

  /** At every close of the run, at most 2^32 opens of its path are outstanding. */
  predicate FewOutstanding(w: World, es: seq<Event>)
    decreases |es|
  {
    es == [] ||
    (&& (es[0].Close? ==> Outstanding(w, es[0].path) <= TWO_32)
     && FewOutstanding(Apply(w, es[0]), es[1..]))
  }

  /** A run of any length with few opens outstanding at a time is careful. */
  lemma {:induction false} FewOutstandingCareful(w: World, es: seq<Event>)
    requires Inv(w) && CanRun(w, es) && FewOutstanding(w, es)
    ensures Careful(w, es)
    decreases |es|
  {
    hide Inv, Endangers, Apply, Outstanding;
    if es != [] {
      if es[0].Close? {
        SafeBelowWrap(w, es[0].path, es[0].h);
      }
      StepKeepsInv(w, es[0]);
      FewOutstandingCareful(Apply(w, es[0]), es[1..]);
    }
  }

  /** The invariant holds in every state of the run. */
  ghost predicate AlwaysInv(w: World, es: seq<Event>)
    decreases |es|
  {
    Inv(w) && (es == [] || AlwaysInv(Apply(w, es[0]), es[1..]))
  }

  /** A run keeps the invariant throughout exactly when it is careful. */
  lemma {:induction false} CarefulExactly(w: World, es: seq<Event>)
    requires Inv(w) && CanRun(w, es)
    ensures Careful(w, es) <==> AlwaysInv(w, es)
    decreases |es|
  {
    hide Inv, Endangers, Apply;
    if es != [] {
      if es[0].Close? {
        CloseKeepsInv(w, es[0].path, es[0].h);
      }
      if es[0].Close? ==> !Endangers(w, es[0].path, es[0].h) {
        StepKeepsInv(w, es[0]);
        CarefulExactly(Apply(w, es[0]), es[1..]);
      } else {
        assert !Inv(Apply(w, es[0]));
      }
    }
  }

  /** Every held handle is loaded. */
  ghost predicate HoldersLoaded(w: World) {
    forall x :: x in w.held ==> x.h in w.loaded
  }

  /** In every state of the run every held handle is loaded. */
  ghost predicate AlwaysLoaded(w: World, es: seq<Event>)
    decreases |es|
  {
    HoldersLoaded(w) && (es == [] || AlwaysLoaded(Apply(w, es[0]), es[1..]))
  }

  lemma InvHoldersLoaded(w: World)
    requires Inv(w)
    ensures HoldersLoaded(w)
  {
    forall x | x in w.held ensures x.h in w.loaded {
      InvMeaning(w, x);
    }
  }

  /** No library is ever closed while a client holds it exactly in the careful runs: those in
      which no close of a path marked safe finds one more than a multiple of 2^32 opens
      outstanding while others hold the handle. */
  lemma {:induction false} LoadedExactly(w: World, es: seq<Event>)
    requires Inv(w) && CanRun(w, es)
    ensures AlwaysLoaded(w, es) <==> Careful(w, es)
    decreases |es|
  {
    hide Inv, Endangers, Apply, HoldersLoaded;
    InvHoldersLoaded(w);
    if es != [] {
      if es[0].Close? && Endangers(w, es[0].path, es[0].h) {
        EndangeredNotLoaded(w, es[0].path, es[0].h);
      } else {
        StepKeepsInv(w, es[0]);
        LoadedExactly(Apply(w, es[0]), es[1..]);
      }
    }
  }

  lemma EndangeredNotLoaded(w: World, path: string, h: HDLL)
    requires Inv(w) && Hold(path, h) in w.held && Endangers(w, path, h)
    ensures !HoldersLoaded(Apply(w, Close(path, h)))
  {
    EndangeredHolder(w, path, h);
    hide Inv, Apply, Endangers;
  }

  lemma EmptyInv()
    ensures Inv(EMPTY)
  {
  }

  /** What the invariant means to a client. */
  lemma InvMeaning(w: World, x: Hold)
    requires Inv(w) && x in w.held
    ensures x.h in w.loaded
    ensures var i := FindPath(w.list, x.path);
            && i < |w.list| && w.list[i].dll == x.h && FindDll(w.list, x.h) == i
            && w.list[i].refcount == Unsigned(Outstanding(w, x.path))
            && Outstanding(w, x.path) == w.held[x] + w.failed[x.path]
  {
  }

  /** After every careful run from the empty registry, every held handle is loaded and is its
      record's current handle, and the record counts its holders and its failed opens. */
  lemma HeldStaysLoaded(es: seq<Event>, x: Hold)
    requires CanRun(EMPTY, es) && Careful(EMPTY, es)
    requires x in Run(EMPTY, es).held
    ensures var w := Run(EMPTY, es);
            var i := FindPath(w.list, x.path);
            && x.h in w.loaded && i < |w.list| && w.list[i].dll == x.h
            && w.list[i].refcount == Unsigned(w.held[x] + w.failed[x.path])
            && w.held[x] + w.failed[x.path] == Outstanding(w, x.path)
  {
    EmptyInv();
    hide Inv, Apply, Careful, CanRun, Run, Outstanding, FindPath;
    RunKeepsInv(EMPTY, es);
    InvMeaning(Run(EMPTY, es), x);
  }

  /** After every careful run the paths and the non-NULL handles are pairwise distinct, the
      handles are exactly the loaded libraries, and every record counts its path's opens minus
      closes, which are its holders and its failed opens. */
  lemma ListStaysSound(es: seq<Event>)
    requires CanRun(EMPTY, es) && Careful(EMPTY, es)
    ensures var w := Run(EMPTY, es);
            && Distinct(w.list)
            && (forall h :: h in w.loaded <==> h != 0 && FindDll(w.list, h) < |w.list|)
            && (forall i :: 0 <= i < |w.list| ==> Counted(w, w.list[i]))
  {
    EmptyInv();
    hide Apply, Careful, CanRun, Run, FindPath, Counted;
    RunKeepsInv(EMPTY, es);
  }

  // ----- what runs keep

  function Paths(l: seq<Driver>): (ps: seq<string>)
    ensures |ps| == |l| && forall i :: 0 <= i < |l| ==> ps[i] == l[i].path
  {
    seq(|l|, i requires 0 <= i < |l| => l[i].path)
  }

  /** One list of paths ends with another. */
  predicate EndsWith(ps: seq<string>, qs: seq<string>) {
    |qs| <= |ps| && ps[|ps| - |qs|..] == qs
  }

  lemma SamePaths(l: seq<Driver>, l': seq<Driver>)
    requires |l'| == |l| && forall i :: 0 <= i < |l| ==> l'[i].path == l[i].path
    ensures EndsWith(Paths(l'), Paths(l))
  {
    assert Paths(l') == Paths(l);
  }

  lemma OneMorePath(l: seq<Driver>, d: Driver)
    ensures EndsWith(Paths([d] + l), Paths(l))
  {
    var ps, qs := Paths([d] + l), Paths(l);
    assert |ps| == |qs| + 1 && forall i :: 0 <= i < |qs| ==> ps[i + 1] == qs[i];
    hide Paths;
    assert ps[1..] == qs;
  }

  lemma StepKeepsPaths(w: World, e: Event)
    ensures EndsWith(Paths(Apply(w, e).list), Paths(w.list))
  {
    hide FindPath, FindDll, Unloads, Asks, Unsigned, OpenResult, Paths, EndsWith;
    match e
    case Open(path, ans) =>
      if FindPath(w.list, path) == |w.list| {
        OneMorePath(w.list, Driver(path, ans, 1, false));
      } else {
        SamePaths(w.list, Apply(w, e).list);
      }
    case Close(path, h) => SamePaths(w.list, Apply(w, e).list);
    case Mark(h) => SamePaths(w.list, Apply(w, e).list);
  }

  /** Records are never lost or reordered. */
  lemma {:induction false} RunKeepsPaths(w: World, es: seq<Event>)
    ensures EndsWith(Paths(Run(w, es).list), Paths(w.list))
    decreases |es|
  {
    hide Apply, Paths;
    if es == [] {
      assert Run(w, es).list == w.list;
    } else {
      StepKeepsPaths(w, es[0]);
      RunKeepsPaths(Apply(w, es[0]), es[1..]);
    }
  }

  /** The current handle of a path; 0 when there is none. */
  function Current(w: World, path: string): HDLL {
    var i := FindPath(w.list, path);
    if i < |w.list| then w.list[i].dll else 0
  }

  /** Paths are distinct, and the marked ones, all on the list, are exactly those that are safe
      to unload. Unlike the rest of the
      invariant this holds of every run, wrapping or not, whatever the loader answers. */
  predicate SafeIsMarked(w: World) {
    && DistinctPaths(w.list)
    && (forall i :: 0 <= i < |w.list| ==> (w.list[i].safe <==> w.list[i].path in w.marked))
    && (forall path :: path in w.marked ==> FindPath(w.list, path) < |w.list|)
  }

  lemma NewKeepsSafeIsMarked(w: World, path: string, ans: HDLL)
    requires SafeIsMarked(w) && FindPath(w.list, path) == |w.list|
    ensures SafeIsMarked(Apply(w, Open(path, ans)))
  {
    hide Asks, Unsigned, OpenResult;
    var l, l' := w.list, [Driver(path, ans, 1, false)] + w.list;
    assert Opened(l, path, ans) == l';
    forall p ensures FindPath(l', p) == if p == path then 0 else 1 + FindPath(l, p) {
      FindInFront(l, Driver(path, ans, 1, false), p);
    }
    hide FindPath, Opened;
    forall i | 0 <= i < |l'|
      ensures l'[i].safe <==> l'[i].path in w.marked
      ensures i > 0 ==> l'[i].path != path
    {
      assert i > 0 ==> l'[i] == l[i - 1];
    }
    forall i, j | 0 <= i < j < |l'| ensures l'[i].path != l'[j].path {
      assert l'[j] == l[j - 1] && (i > 0 ==> l'[i] == l[i - 1]);
    }
  }

  lemma OpenKeepsSafeIsMarked(w: World, path: string, ans: HDLL)
    requires SafeIsMarked(w)
    ensures SafeIsMarked(Apply(w, Open(path, ans)))
  {
    hide Asks, Unsigned, OpenResult;
    if FindPath(w.list, path) == |w.list| {
      NewKeepsSafeIsMarked(w, path, ans);
    } else {
      SameFields(w.list, Opened(w.list, path, ans));
    }
    hide FindPath;
  }

  lemma CloseKeepsSafeIsMarked(w: World, path: string, h: HDLL)
    requires SafeIsMarked(w)
    ensures SafeIsMarked(Apply(w, Close(path, h)))
  {
    hide FindDll, Unloads, Unsigned;
    SameFields(w.list, Closed(w.list, h));
    hide FindPath;
  }

  lemma MarkKeepsSafeIsMarked(w: World, h: HDLL)
    requires SafeIsMarked(w)
    ensures SafeIsMarked(Apply(w, Mark(h)))
  {
    hide FindDll;
    SameFields(w.list, Marked(w.list, h));
    var k := FindDll(w.list, h);
    if k < |w.list| {
      MarkedPosition(w.list, k);
    }
    hide FindPath;
  }

  lemma MarkedPosition(l: seq<Driver>, k: nat)
    requires DistinctPaths(l) && k < |l|
    ensures FindPath(l, l[k].path) == k
  {
  }

  lemma StepKeepsSafeIsMarked(w: World, e: Event)
    requires SafeIsMarked(w)
    ensures SafeIsMarked(Apply(w, e))
  {
    hide SafeIsMarked, Apply;
    match e
    case Open(path, ans) => OpenKeepsSafeIsMarked(w, path, ans);
    case Close(path, h) => CloseKeepsSafeIsMarked(w, path, h);
    case Mark(h) => MarkKeepsSafeIsMarked(w, h);
  }

  lemma OpenKeepsCurrent(w: World, p: string, ans: HDLL, path: string)
    requires DistinctPaths(w.list) && Current(w, path) != 0
    ensures Current(Apply(w, Open(p, ans)), path) == Current(w, path)
  {
    FindInOpened(w.list, p, ans, path);
    hide FindPath, Opened, DistinctPaths;
  }

  lemma MarkKeepsCurrent(w: World, h: HDLL, path: string)
    ensures Current(Apply(w, Mark(h)), path) == Current(w, path)
  {
    hide FindDll;
    SameFields(w.list, Marked(w.list, h));
    hide FindPath;
  }

  lemma CloseKeepsCurrent(w: World, p: string, h: HDLL, path: string)
    requires SafeIsMarked(w) && path !in w.marked
    ensures Current(Apply(w, Close(p, h)), path) == Current(w, path)
  {
    hide FindDll, Unsigned;
    SameFields(w.list, Closed(w.list, h));
    hide FindPath;
  }

  lemma StepKeepsUnmarked(w: World, e: Event, path: string)
    requires SafeIsMarked(w) && Current(w, path) != 0 && path !in w.marked
    ensures Current(Apply(w, e), path) == Current(w, path)
  {
    hide Current, Apply;
    match e
    case Open(p, ans) => OpenKeepsCurrent(w, p, ans, path);
    case Close(p, h) => CloseKeepsCurrent(w, p, h, path);
    case Mark(h) => MarkKeepsCurrent(w, h, path);
  }

  lemma MarkedGrows(w: World, e: Event)
    ensures w.marked <= Apply(w, e).marked
  {
  }

  lemma {:induction false} MarkedGrowsInRuns(w: World, es: seq<Event>)
    ensures w.marked <= Run(w, es).marked
    decreases |es|
  {
    if es != [] {
      MarkedGrows(w, es[0]);
      hide Apply;
      MarkedGrowsInRuns(Apply(w, es[0]), es[1..]);
    }
  }

  /** The record of a path that is never marked safe keeps its handle, over every run, wrapping
      or not, whatever the loader answers. */
  lemma {:induction false} UnmarkedKeepsHandle(w: World, es: seq<Event>, path: string)
    requires SafeIsMarked(w)
    requires Current(w, path) != 0 && path !in Run(w, es).marked
    ensures Current(Run(w, es), path) == Current(w, path)
    decreases |es|
  {
    hide SafeIsMarked, Apply, Current;
    if es != [] {
      MarkedGrowsInRuns(w, es);
      StepKeepsUnmarked(w, es[0], path);
      StepKeepsSafeIsMarked(w, es[0]);
      UnmarkedKeepsHandle(Apply(w, es[0]), es[1..], path);
    }
  }

  lemma EmptySafeIsMarked()
    ensures SafeIsMarked(EMPTY)
  {
  }

  lemma {:induction false} RunKeepsSafeIsMarked(w: World, es: seq<Event>)
    requires SafeIsMarked(w)
    ensures SafeIsMarked(Run(w, es))
    decreases |es|
  {
    hide SafeIsMarked, Apply;
    if es != [] {
      StepKeepsSafeIsMarked(w, es[0]);
      RunKeepsSafeIsMarked(Apply(w, es[0]), es[1..]);
    }
  }

  /** In every reachable world, wrapping or not, a record is safe to unload exactly when its path
      has been marked, and every marked path has a record: marks are never taken back. */
  lemma SafeExactlyMarked(es: seq<Event>)
    ensures var w := Run(EMPTY, es);
            && (forall i :: 0 <= i < |w.list| ==> (w.list[i].safe <==> w.list[i].path in w.marked))
            && (forall path :: path in w.marked ==> FindPath(w.list, path) < |w.list|)
  {
    EmptySafeIsMarked();
    RunKeepsSafeIsMarked(EMPTY, es);
    hide Run;
  }

  /** The handles of the list are distinct and are exactly what the loader has open. Every run
      that the loader and the clients can take keeps this, wrapping or not. */
  ghost predicate ListIsLoaded(w: World) {
    Distinct(w.list) && LoadedInv(w)
  }

  lemma StepKeepsListIsLoaded(w: World, e: Event)
    requires ListIsLoaded(w) && Enabled(w, e)
    ensures ListIsLoaded(Apply(w, e))
  {
    hide Apply, Distinct, LoadedInv;
    match e
    case Open(path, ans) =>
      OpenKeepsDistinct(w, path, ans);
      OpenKeepsLoaded(w, path, ans);
      assert Apply(w, e).list == Opened(w.list, path, ans) by { ListAfterOpen(w, path, ans); }
    case Close(path, h) =>
      ClosedDistinct(w, path, h);
      ClosedLoaded(w, path, h);
    case Mark(h) =>
      MarkKeepsDistinct(w, h);
      MarkKeepsLoaded(w, h);
  }

  lemma ListAfterOpen(w: World, path: string, ans: HDLL)
    ensures Apply(w, Open(path, ans)).list == Opened(w.list, path, ans)
  {
    hide Opened, Asks, OpenResult;
  }

  lemma {:induction false} RunKeepsListIsLoaded(w: World, es: seq<Event>)
    requires ListIsLoaded(w) && CanRun(w, es)
    ensures ListIsLoaded(Run(w, es))
    decreases |es|
  {
    hide Apply, ListIsLoaded, Enabled;
    if es != [] {
      StepKeepsListIsLoaded(w, es[0]);
      RunKeepsListIsLoaded(Apply(w, es[0]), es[1..]);
    }
  }

  lemma EmptyIsLoaded()
    ensures ListIsLoaded(EMPTY)
  {
  }

  /** In every run from the empty registry, wrapping or not: once an unmarked path has a
      handle, that handle stays its own and its library stays loaded. */
  lemma UnmarkedNeverClosed(es: seq<Event>, more: seq<Event>, path: string)
    requires CanRun(EMPTY, es) && CanRun(Run(EMPTY, es), more)
    requires Current(Run(EMPTY, es), path) != 0 && path !in Run(Run(EMPTY, es), more).marked
    ensures var w := Run(Run(EMPTY, es), more);
            Current(w, path) == Current(Run(EMPTY, es), path) && Current(w, path) in w.loaded
  {
    EmptySafeIsMarked();
    EmptyIsLoaded();
    hide Apply, CanRun, Run, SafeIsMarked;
    RunKeepsSafeIsMarked(EMPTY, es);
    UnmarkedKeepsHandle(Run(EMPTY, es), more, path);
    RunKeepsListIsLoaded(EMPTY, es);
    RunKeepsListIsLoaded(Run(EMPTY, es), more);
  }

  // ----- what an open gives

  /** An open is served from the list when the path has a library, and by the loader when it has
      none, for a new path and an unloaded one alike; the client gets the path's current handle. */
  lemma OpenServes(w: World, path: string, ans: HDLL)
    requires DistinctPaths(w.list)
    ensures var w' := Apply(w, Open(path, ans));
            && (Asks(w.list, path) <==> Current(w, path) == 0)
            && Current(w', path) == (if Current(w, path) != 0 then Current(w, path) else ans)
            && OpenResult(w.list, path, ans) == Current(w', path)
            && (Current(w', path) != 0 ==> Hold(path, Current(w', path)) in w'.held)
            && FindPath(w'.list, path) < |w'.list|
  {
    FindInOpened(w.list, path, ans, path);
    hide FindPath, Opened, DistinctPaths;
  }

  // ----- the count wraps

  /** One driver, marked safe, with one handle that n clients hold. */
  function Busy(n: nat): World {
    var held: multiset<Hold> := multiset{};
    var opens: multiset<string> := multiset{};
    World([Driver("d", 1, Unsigned(n), true)], {1},
          held[Hold("d", 1) := n], opens["d" := n], multiset{}, multiset{}, {"d"})
  }

  function Reopens(n: nat): seq<Event> {
    if n == 0 then [] else [Open("d", 1)] + Reopens(n - 1)
  }

  lemma BusyOpens(m: nat)
    ensures Enabled(Busy(m), Open("d", 1)) && Apply(Busy(m), Open("d", 1)) == Busy(m + 1)
  {
    CountUp(m);
    var w, l := Busy(m), Busy(m).list;
    assert FindPath(l, "d") == 0;
    assert Opened(l, "d", 1) == Busy(m + 1).list by { hide Unsigned; }
    hide Opened, FindPath, Unsigned;
    assert w.held + multiset{Hold("d", 1)} == Busy(m + 1).held;
    assert w.opens + multiset{"d"} == Busy(m + 1).opens;
  }

  lemma {:induction false} ReopensRun(m: nat, n: nat)
    ensures CanRun(Busy(m), Reopens(n)) && Run(Busy(m), Reopens(n)) == Busy(m + n)
    decreases n
  {
    hide Apply, Busy, Enabled;
    if n > 0 {
      BusyOpens(m);
      ReopensRun(m + 1, n - 1);
      assert Reopens(n)[0] == Open("d", 1) && Reopens(n)[1..] == Reopens(n - 1);
      hide Reopens;
    }
  }

  lemma {:induction false} RunAppend(w: World, a: seq<Event>, b: seq<Event>)
    requires CanRun(w, a) && CanRun(Run(w, a), b)
    ensures CanRun(w, a + b) && Run(w, a + b) == Run(Run(w, a), b)
    decreases |a|
  {
    hide Apply, Enabled;
    if a == [] {
      assert a + b == b;
    } else {
      RunAppend(Apply(w, a[0]), a[1..], b);
      assert (a + b)[1..] == a[1..] + b;
    }
  }

  /** The run that closes a library under its holders: one open, the mark, 2^32 opens more,
      and one close. */
  const WRAPPING: seq<Event> := [Open("d", 1), Mark(1)] + Reopens(TWO_32) + [Close("d", 1)]

  lemma WrapClosesHeldLibrary()
    ensures CanRun(EMPTY, WRAPPING)
    ensures var w := Run(EMPTY, WRAPPING);
            Hold("d", 1) in w.held && 1 !in w.loaded
  {
    var start := [Open("d", 1), Mark(1)];
    assert CanRun(EMPTY, start) && Run(EMPTY, start) == Busy(1) by { StartRuns(); }
    ReopensRun(1, TWO_32);
    hide Reopens;
    RunAppend(EMPTY, start, Reopens(TWO_32));
    LastCloseRuns();
    hide CanRun, Run, Busy;
    RunAppend(EMPTY, start + Reopens(TWO_32), [Close("d", 1)]);
  }

  lemma StartRuns()
    ensures CanRun(EMPTY, [Open("d", 1), Mark(1)]) && Run(EMPTY, [Open("d", 1), Mark(1)]) == Busy(1)
  {
    var es := [Open("d", 1), Mark(1)];
    assert es[1..] == [Mark(1)] && es[1..][1..] == [];
    var w := Apply(EMPTY, es[0]);
    assert w.list == [Driver("d", 1, 1, false)];
    assert Apply(w, Mark(1)) == Busy(1);
  }

  lemma LastCloseRuns()
    ensures var w := Busy(1 + TWO_32);
            && CanRun(w, [Close("d", 1)])
            && Hold("d", 1) in Run(w, [Close("d", 1)]).held && 1 !in Run(w, [Close("d", 1)]).loaded
  {
  }
}
