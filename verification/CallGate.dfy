/** The call-in-progress protocol of connection and descriptor handles: one global lock,
    one flag a handle, any number of threads, any interleaving of the macros' steps. */
module CallGate {
  import opened CInt

  type Thread = int

  datatype Handle = Dbc(n: int) | Desc(n: int)

  /** The return codes a call can get from the protocol itself. */
  datatype Ret = Passed | InvalidHandle | SequenceError

  /** Where a thread stands. `hold` is the `holdlock` argument of the call. */
  datatype Pc =
    | Outside
    | Entering(h: Handle, hold: bool)            // before ODBC_LOCK
    | Checking(h: Handle, hold: bool)            // locked, before the handle and flag tests
    | Marking(h: Handle, hold: bool)             // locked, both tests passed
    | Marked(h: Handle, hold: bool)              // locked, flag set
    | Body(h: Handle, hold: bool)                // the call itself
    | Resting(h: Handle, hold: bool)             // the call itself, with the held lock given up
    | Leaving(h: Handle, hold: bool)             // before the LEAVE lock
    | Clearing(h: Handle, hold: bool)            // locked, before the flag is cleared
    | Done(h: Handle, hold: bool, ret: Ret)      // locked, at the label

  datatype Event =
    | Entered(t: Thread, h: Handle)
    | Left(t: Thread, h: Handle)
    | Rejected(t: Thread, h: Handle, ret: Ret)
    | Returned(t: Thread, ret: Ret)

  /** The global lock, the flags (0 where absent), the handles that test as valid, the
      threads (outside where absent), and what has happened. */
  datatype State = State(
    lock: Option<Thread>,
    cip: map<Handle, int>,
    valid: set<Handle>,
    pc: map<Thread, Pc>,
    log: seq<Event>)

  function PcOf(s: State, t: Thread): Pc {
    if t in s.pc then s.pc[t] else Outside
  }

  function Flag(s: State, h: Handle): int {
    if h in s.cip then s.cip[h] else 0
  }

  const INITIAL: State := State(None, map[], {}, map[], [])

  /** One step: a thread starts a call, a thread executes its next line, or the set of valid
      handles changes, as allocation and freeing elsewhere may do at any time. A body that holds
      the lock may release it around a driver call; its next line then takes the lock back,
      unless it forgets to. */
  datatype Move =
    | Begin(t: Thread, h: Handle, hold: bool)
    | Advance(t: Thread)
    | Release(t: Thread)
    | Forget(t: Thread)
    | Revalidate(valid: set<Handle>)

  /** Descriptor calls never hold the lock; taking the lock needs it free. */
  predicate Enabled(s: State, m: Move) {
    match m
    case Begin(t, h, hold) => PcOf(s, t) == Outside && (h.Desc? ==> !hold)
    case Advance(t) =>
      var p := PcOf(s, t);
      p != Outside && (p.Entering? || p.Resting? || (p.Leaving? && !p.hold) ==> s.lock == None)
    case Release(t) => PcOf(s, t).Body? && PcOf(s, t).hold
    case Forget(t) => PcOf(s, t).Resting?
    case Revalidate(_) => true
  }

  function Apply(s: State, m: Move): State {
    match m
    case Begin(t, h, hold) => s.(pc := s.pc[t := Entering(h, hold)])
    case Advance(t) => Line(s, t, PcOf(s, t))
    case Release(t) =>
      (match PcOf(s, t)
       case Body(h, hold) => s.(lock := None, pc := s.pc[t := Resting(h, hold)])
       case _ => s)
    case Forget(t) =>
      (match PcOf(s, t)
       case Resting(h, hold) => s.(pc := s.pc[t := Body(h, hold)])
       case _ => s)
    case Revalidate(v) => s.(valid := v)
  }

  /** The next line of ENTER, of the body, or of LEAVE. */
  function Line(s: State, t: Thread, p: Pc): State {
    match p
    case Outside => s
    case Entering(h, hold) => s.(lock := Some(t), pc := s.pc[t := Checking(h, hold)])
    case Checking(h, hold) =>
      if h !in s.valid then
        s.(pc := s.pc[t := Done(h, hold, InvalidHandle)], log := s.log + [Rejected(t, h, InvalidHandle)])
      else if Flag(s, h) != 0 then
        s.(pc := s.pc[t := Done(h, hold, SequenceError)], log := s.log + [Rejected(t, h, SequenceError)])
      else s.(pc := s.pc[t := Marking(h, hold)])
    case Marking(h, hold) =>
      s.(cip := s.cip[h := 1], pc := s.pc[t := Marked(h, hold)], log := s.log + [Entered(t, h)])
    case Marked(h, hold) =>
      s.(lock := if hold then s.lock else None, pc := s.pc[t := Body(h, hold)])
    case Body(h, hold) => s.(pc := s.pc[t := Leaving(h, hold)])
    case Resting(h, hold) => s.(lock := Some(t), pc := s.pc[t := Body(h, hold)])
    case Leaving(h, hold) =>
      s.(lock := if hold then s.lock else Some(t), pc := s.pc[t := Clearing(h, hold)])
    case Clearing(h, hold) =>
      s.(cip := s.cip[h := 0], pc := s.pc[t := Done(h, hold, Passed)], log := s.log + [Left(t, h)])
    case Done(h, hold, ret) =>
      s.(lock := None, pc := s.pc[t := Outside], log := s.log + [Returned(t, ret)])
  }

  // ----- what the history must look like

  /** How one event changes the owner of `h`. */
  function OwnerStep(owner: Option<Thread>, e: Event, h: Handle): Option<Thread> {
    if e.Entered? && e.h == h then Some(e.t)
    else if e.Left? && e.h == h then None
    else owner
  }

  /** The thread whose call on `h` is in progress, by the history. */
  function Owner(log: seq<Event>, h: Handle): Option<Thread> {
    if log == [] then None else OwnerStep(Owner(log[..|log| - 1], h), log[|log| - 1], h)
  }

  /** Calls on a handle never overlap: each is entered while none is in progress, left by the
      thread that entered it, and refused as out of sequence only during another's. */
  predicate Serial(log: seq<Event>) {
    log == [] || (Serial(log[..|log| - 1]) && Proper(log[..|log| - 1], log[|log| - 1]))
  }

  predicate Proper(before: seq<Event>, e: Event) {
    match e
    case Entered(t, h) => Owner(before, h) == None
    case Left(t, h) => Owner(before, h) == Some(t)
    case Rejected(t, h, ret) => ret == SequenceError ==> Owner(before, h) != None && Owner(before, h) != Some(t)
    case Returned(_, _) => true
  }

  // ----- the invariant

  predicate Inside(p: Pc, h: Handle) {
    (p.Marked? || p.Body? || p.Resting? || p.Leaving? || p.Clearing?) && p.h == h
  }

  predicate Locked(p: Pc) {
    p.Checking? || p.Marking? || p.Marked? || p.Clearing? || p.Done?
    || ((p.Body? || p.Leaving?) && p.hold)
  }

  /** The lock is held by exactly the thread whose line says so. */
  ghost predicate LockInv(s: State) {
    forall t: Thread :: Locked(PcOf(s, t)) <==> s.lock == Some(t)
  }

  /** The history's owner of a handle is exactly the thread inside its body. */
  ghost predicate OwnerInv(s: State) {
    forall t: Thread, h: Handle :: Inside(PcOf(s, t), h) <==> Owner(s.log, h) == Some(t)
  }

  /** A flag is 1 exactly while a call on its handle is in progress, else 0. */
  ghost predicate FlagInv(s: State) {
    forall h: Handle :: Flag(s, h) == if Owner(s.log, h) == None then 0 else 1
  }

  /** A thread about to set a flag finds it clear, descriptor calls never hold the lock, and
      only calls that hold it give it up. */
  ghost predicate ThreadInv(s: State) {
    && (forall t: Thread :: PcOf(s, t).Marking? ==> Flag(s, PcOf(s, t).h) == 0)
    && (forall t: Thread :: PcOf(s, t) != Outside && PcOf(s, t).h.Desc? ==> !PcOf(s, t).hold)
    && (forall t: Thread :: PcOf(s, t).Resting? ==> PcOf(s, t).hold)
  }

  ghost predicate Inv(s: State) {
    LockInv(s) && OwnerInv(s) && FlagInv(s) && ThreadInv(s) && Serial(s.log)
  }

  lemma OwnerAfter(log: seq<Event>, e: Event)
    ensures forall h: Handle :: Owner(log + [e], h) == OwnerStep(Owner(log, h), e, h)
    ensures Serial(log) && Proper(log, e) ==> Serial(log + [e])
  {
  }

  lemma LogAfter(s: State, m: Move)
    ensures var s' := Apply(s, m);
            s'.log == s.log || (|s'.log| == |s.log| + 1 && s'.log == s.log + [s'.log[|s.log|]])
  {
  }

  lemma StepKeepsLock(s: State, m: Move)
    requires LockInv(s) && ThreadInv(s) && Enabled(s, m) && !m.Forget?
    ensures LockInv(Apply(s, m))
  {
  }

  /** Only setting a flag puts a thread inside, and only clearing it takes a thread out. */
  lemma InsideAfter(s: State, m: Move, u: Thread, h: Handle)
    requires Enabled(s, m)
    ensures Inside(PcOf(Apply(s, m), u), h) <==>
              if m == Advance(u) && PcOf(s, u).Marking? then PcOf(s, u).h == h
              else Inside(PcOf(s, u), h) && !(m == Advance(u) && PcOf(s, u).Clearing?)
  {
  }

  lemma OwnerAfterMove(s: State, m: Move, h: Handle)
    ensures Owner(Apply(s, m).log, h) ==
              if m.Advance? && PcOf(s, m.t).Marking? && PcOf(s, m.t).h == h then Some(m.t)
              else if m.Advance? && PcOf(s, m.t).Clearing? && PcOf(s, m.t).h == h then None
              else Owner(s.log, h)
  {
    var s' := Apply(s, m);
    LogAfter(s, m);
    if s'.log != s.log {
      OwnerAfter(s.log, s'.log[|s.log|]);
    }
    hide Owner, Serial, Proper;
  }

  lemma StepKeepsOwner(s: State, m: Move)
    requires LockInv(s) && OwnerInv(s) && FlagInv(s) && ThreadInv(s) && Enabled(s, m)
    ensures OwnerInv(Apply(s, m))
  {
    var s' := Apply(s, m);
    hide Apply, Owner, Flag, Enabled, PcOf;
    forall u: Thread, h: Handle
      ensures Inside(PcOf(s', u), h) <==> Owner(s'.log, h) == Some(u)
    {
      InsideAfter(s, m, u, h);
      OwnerAfterMove(s, m, h);
      assert Inside(PcOf(s, u), h) <==> Owner(s.log, h) == Some(u);
      if m.Advance? {
        assert Inside(PcOf(s, m.t), h) <==> Owner(s.log, h) == Some(m.t);
        assert PcOf(s, m.t).Marking? ==> Flag(s, PcOf(s, m.t).h) == 0;
      }
    }
  }

  lemma StepKeepsFlags(s: State, m: Move)
    requires OwnerInv(s) && FlagInv(s) && ThreadInv(s) && Enabled(s, m)
    ensures FlagInv(Apply(s, m))
  {
    var s' := Apply(s, m);
    LogAfter(s, m);
    if s'.log != s.log {
      OwnerAfter(s.log, s'.log[|s.log|]);
    }
    hide Owner, Serial, Proper;
  }

  lemma StepKeepsThreads(s: State, m: Move)
    requires LockInv(s) && ThreadInv(s) && Enabled(s, m)
    ensures ThreadInv(Apply(s, m))
  {
    var s' := Apply(s, m);
    forall u: Thread
      ensures PcOf(s', u).Marking? ==> Flag(s', PcOf(s', u).h) == 0
      ensures PcOf(s', u) != Outside && PcOf(s', u).h.Desc? ==> !PcOf(s', u).hold
      ensures PcOf(s', u).Resting? ==> PcOf(s', u).hold
    {
      assert Locked(PcOf(s, u)) <==> s.lock == Some(u);
      if m.Revalidate? || u != m.t {
        OtherThread(s, m, u);
      }
    }
  }

  /** A step leaves the other threads where they are, and changes a flag only under the lock. */
  lemma OtherThread(s: State, m: Move, u: Thread)
    requires LockInv(s) && Enabled(s, m) && (m.Revalidate? || u != m.t)
    ensures PcOf(Apply(s, m), u) == PcOf(s, u)
    ensures Locked(PcOf(s, u)) ==> Apply(s, m).cip == s.cip
  {
    if m.Advance? {
      assert Locked(PcOf(s, m.t)) <==> s.lock == Some(m.t);
    }
    assert Locked(PcOf(s, u)) <==> s.lock == Some(u);
  }

  lemma StepKeepsSerial(s: State, m: Move)
    requires OwnerInv(s) && FlagInv(s) && ThreadInv(s) && Serial(s.log) && Enabled(s, m)
    ensures Serial(Apply(s, m).log)
  {
    var s' := Apply(s, m);
    LogAfter(s, m);
    if s'.log != s.log {
      OwnerAfter(s.log, s'.log[|s.log|]);
    }
    hide Owner, Serial;
  }

  /** Every step keeps the invariant, but for a body that forgets to take the lock back. */
  lemma StepKeepsInv(s: State, m: Move)
    requires Inv(s) && Enabled(s, m) && !m.Forget?
    ensures Inv(Apply(s, m))
  {
    hide LockInv, OwnerInv, FlagInv, ThreadInv, Serial, Apply, Enabled;
    StepKeepsLock(s, m);
    StepKeepsOwner(s, m);
    StepKeepsFlags(s, m);
    StepKeepsThreads(s, m);
    StepKeepsSerial(s, m);
  }

  // ----- runs

  /** A run takes enabled steps only. */
  predicate CanRun(s: State, moves: seq<Move>)
    decreases |moves|
  {
    moves == [] || (Enabled(s, moves[0]) && CanRun(Apply(s, moves[0]), moves[1..]))
  }

  function Run(s: State, moves: seq<Move>): State
    decreases |moves|
  {
    if moves == [] then s else Run(Apply(s, moves[0]), moves[1..])
  }

  /** Every body that gives up the lock takes it back. */
  predicate Retakes(moves: seq<Move>) {
    forall i :: 0 <= i < |moves| ==> !moves[i].Forget?
  }

  lemma {:induction false} RunKeepsInv(s: State, moves: seq<Move>)
    requires Inv(s) && CanRun(s, moves) && Retakes(moves)
    ensures Inv(Run(s, moves))
    decreases |moves|
  {
    if moves != [] {
      StepKeepsInv(s, moves[0]);
      RunKeepsInv(Apply(s, moves[0]), moves[1..]);
    }
  }

  /** The invariant holds in every state of the run. */
  ghost predicate AlwaysInv(s: State, moves: seq<Move>)
    decreases |moves|
  {
    Inv(s) && (moves == [] || AlwaysInv(Apply(s, moves[0]), moves[1..]))
  }

  lemma ForgettingBreaksLock(s: State, t: Thread)
    requires Inv(s) && Enabled(s, Forget(t))
    ensures !LockInv(Apply(s, Forget(t)))
  {
    var s' := Apply(s, Forget(t));
    assert PcOf(s', t) == Body(PcOf(s, t).h, true);
    assert Locked(PcOf(s', t)) && s'.lock != Some(t);
  }

  /** The protocol keeps its invariant throughout a run exactly when every body that gives up
      the lock takes it back. */
  lemma {:induction false} RetakesExactly(s: State, moves: seq<Move>)
    requires Inv(s) && CanRun(s, moves)
    ensures AlwaysInv(s, moves) <==> Retakes(moves)
    decreases |moves|
  {
    hide Apply, Enabled, LockInv, OwnerInv, FlagInv, ThreadInv;
    if moves != [] {
      if moves[0].Forget? {
        ForgettingBreaksLock(s, moves[0].t);
      } else {
        StepKeepsInv(s, moves[0]);
        RetakesExactly(Apply(s, moves[0]), moves[1..]);
      }
    }
  }

  /** In every state any interleaving reaches: at most one thread is inside a handle's body,
      its flag is 1 exactly then, and the calls on each handle have been serial. */
  lemma MutualExclusion(moves: seq<Move>, t: Thread, u: Thread, h: Handle)
    requires CanRun(INITIAL, moves) && Retakes(moves)
    ensures var s := Run(INITIAL, moves);
            && (Inside(PcOf(s, t), h) && Inside(PcOf(s, u), h) ==> t == u)
            && (Inside(PcOf(s, t), h) ==> Flag(s, h) == 1)
            && (Flag(s, h) == 0 || exists w: Thread :: Inside(PcOf(s, w), h))
            && (Locked(PcOf(s, t)) && Locked(PcOf(s, u)) ==> t == u)
            && Serial(s.log)
  {
    RunKeepsInv(INITIAL, moves);
    var s := Run(INITIAL, moves);
    if Flag(s, h) != 0 {
      assert Inside(PcOf(s, Owner(s.log, h).value), h);
    }
  }

  /** Only the thread inside a call clears its flag; a rejected call changes no flag at all. */
  lemma OnlyOwnerClears(s: State, m: Move, h: Handle)
    requires Inv(s) && Enabled(s, m)
    ensures Flag(s, h) == 1 && Flag(Apply(s, m), h) != 1 ==>
              m.Advance? && PcOf(s, m.t).Clearing? && Inside(PcOf(s, m.t), h)
    ensures m.Advance? && (PcOf(s, m.t).Checking? || PcOf(s, m.t).Done?) ==> Apply(s, m).cip == s.cip
  {
  }

  /** A call is refused as out of sequence exactly when the flag is up, that is, during the
      call of another thread. */
  lemma RejectedExactly(s: State, t: Thread)
    requires Inv(s) && PcOf(s, t).Checking?
    ensures var h := PcOf(s, t).h;
            PcOf(Apply(s, Advance(t)), t) == Done(h, PcOf(s, t).hold, SequenceError)
            <==> h in s.valid && exists u: Thread :: u != t && Inside(PcOf(s, u), h)
  {
    var h := PcOf(s, t).h;
    if Flag(s, h) != 0 {
      assert Inside(PcOf(s, Owner(s.log, h).value), h);
    }
  }

  /** A call on a handle that does not test as valid is refused as such, whatever the flag, and
      no such call ever enters. */
  lemma InvalidExactly(s: State, m: Move, t: Thread)
    requires Enabled(s, m)
    ensures m == Advance(t) && PcOf(s, t).Checking? ==>
              var h, hold := PcOf(s, t).h, PcOf(s, t).hold;
              && (PcOf(Apply(s, m), t) == Done(h, hold, InvalidHandle) <==> h !in s.valid)
              && (PcOf(Apply(s, m), t) == Marking(h, hold) <==> h in s.valid && Flag(s, h) == 0)
    ensures PcOf(Apply(s, m), t).Marking? && !PcOf(s, t).Marking? ==> PcOf(Apply(s, m), t).h in s.valid
    ensures Apply(s, m).log != s.log && Apply(s, m).log[|s.log|].Entered? ==>
              m.Advance? && PcOf(s, m.t).Marking?
  {
  }

  /** ENTER on an invalid handle is refused as invalid, and on a valid one never. */
  lemma EnterRefusesInvalid(s: State, t: Thread, h: Handle, hold: bool)
    requires PcOf(s, t) == Outside && (h.Desc? ==> !hold) && s.lock == None
    ensures var s' := Run(s, EnterMoves(s, t, h, hold));
            && (h !in s.valid <==> s'.log == s.log + [Rejected(t, h, InvalidHandle), Returned(t, InvalidHandle)])
            && (h !in s.valid ==> s'.cip == s.cip && s'.lock == None && Entered(t, h) !in s'.log[|s.log|..])
  {
    EnterOutcome(s, t, h, hold);
    hide Run, EnterMoves, CanRun;
    var s' := Run(s, EnterMoves(s, t, h, hold));
    assert s'.log[|s.log|] == if EnterResult(s, h) == Passed then Entered(t, h) else Rejected(t, h, EnterResult(s, h));
    if h !in s.valid {
      assert s'.log[|s.log|..] == [Rejected(t, h, InvalidHandle), Returned(t, InvalidHandle)];
    }
  }

  /** A call returns with the global lock released. */
  lemma ReturnsUnlocked(s: State, m: Move, t: Thread)
    requires Inv(s) && Enabled(s, m)
    requires PcOf(s, t) != Outside && PcOf(Apply(s, m), t) == Outside
    ensures m == Advance(t) && s.lock == Some(t) && Apply(s, m).lock == None
  {
  }

  // ----- the macros as wholes

  /** The outcome of ENTER when it gets the lock in `s`. */
  function EnterResult(s: State, h: Handle): Ret {
    if h !in s.valid then InvalidHandle else if Flag(s, h) != 0 then SequenceError else Passed
  }

  /** The steps from the start of ENTER to the body, or to the return when it rejects. */
  function EnterMoves(s: State, t: Thread, h: Handle, hold: bool): seq<Move> {
    [Begin(t, h, hold), Advance(t), Advance(t), Advance(t)]
    + (if EnterResult(s, h) == Passed then [Advance(t)] else [])
  }

  /** The steps from the body through LEAVE to the return. */
  function LeaveMoves(t: Thread): seq<Move> {
    [Advance(t), Advance(t), Advance(t), Advance(t)]
  }

  lemma RunAppend(s: State, a: seq<Move>, m: Move)
    ensures CanRun(s, a + [m]) <==> CanRun(s, a) && Enabled(Run(s, a), m)
    ensures Run(s, a + [m]) == Apply(Run(s, a), m)
    decreases |a|
  {
    hide Apply, Enabled;
    if a == [] {
      assert [m][1..] == [] && a + [m] == [m];
    } else {
      RunAppend(Apply(s, a[0]), a[1..], m);
      assert (a + [m])[1..] == a[1..] + [m];
    }
  }

  lemma RunFour(s: State, a: Move, b: Move, c: Move, d: Move)
    ensures CanRun(s, [a, b, c, d]) <==>
            && Enabled(s, a) && Enabled(Apply(s, a), b) && Enabled(Apply(Apply(s, a), b), c)
            && Enabled(Apply(Apply(Apply(s, a), b), c), d)
    ensures Run(s, [a, b, c, d]) == Apply(Apply(Apply(Apply(s, a), b), c), d)
  {
    hide Apply, Enabled;
    RunAppend(s, [], a);
    RunAppend(s, [a], b);
    RunAppend(s, [a, b], c);
    RunAppend(s, [a, b, c], d);
    assert [] + [a] == [a] && [a] + [b] == [a, b] && [a, b] + [c] == [a, b, c];
    assert [a, b, c] + [d] == [a, b, c, d];
  }

  /** What ENTER does once it has the lock: a rejected call changes no flag and leaves the lock
      free; an admitted one sets the flag and keeps the lock exactly when `hold`. */
  lemma EnterOutcome(s: State, t: Thread, h: Handle, hold: bool)
    requires PcOf(s, t) == Outside && (h.Desc? ==> !hold) && s.lock == None
    ensures var moves, r := EnterMoves(s, t, h, hold), EnterResult(s, h);
            CanRun(s, moves)
            && Run(s, moves) ==
               if r == Passed then
                 State(if hold then Some(t) else None, s.cip[h := 1], s.valid, s.pc[t := Body(h, hold)],
                       s.log + [Entered(t, h)])
               else
                 State(None, s.cip, s.valid, s.pc[t := Outside], s.log + [Rejected(t, h, r), Returned(t, r)])
  {
    hide CanRun, Run, Apply, Enabled;
    var m, r := Advance(t), EnterResult(s, h);
    var four := [Begin(t, h, hold), m, m, m];
    RunFour(s, Begin(t, h, hold), m, m, m);
    EnterLocks(s, t, h, hold);
    var s2 := Apply(Apply(s, Begin(t, h, hold)), m);
    EnterTests(s2, t, h, hold);
    if r == Passed {
      RunAppend(s, four, m);
      assert s.pc[t := Checking(h, hold)][t := Body(h, hold)] == s.pc[t := Body(h, hold)];
    } else {
      assert four + [] == four;
      assert s.pc[t := Checking(h, hold)][t := Outside] == s.pc[t := Outside];
    }
  }

  lemma EnterLocks(s: State, t: Thread, h: Handle, hold: bool)
    requires PcOf(s, t) == Outside && (h.Desc? ==> !hold) && s.lock == None
    ensures var s1 := Apply(s, Begin(t, h, hold));
            && Enabled(s, Begin(t, h, hold)) && Enabled(s1, Advance(t))
            && Apply(s1, Advance(t)) == s.(lock := Some(t), pc := s.pc[t := Checking(h, hold)])
  {
    assert s.pc[t := Entering(h, hold)][t := Checking(h, hold)] == s.pc[t := Checking(h, hold)];
  }

  /** The lines of ENTER after the lock. */
  lemma EnterTests(s: State, t: Thread, h: Handle, hold: bool)
    requires PcOf(s, t) == Checking(h, hold) && s.lock == Some(t)
    ensures var m, r := Advance(t), EnterResult(s, h);
            var s' := Apply(Apply(s, m), m);
            Enabled(s, m) && Enabled(Apply(s, m), m)
            && if r == Passed then
                 Enabled(s', m)
                 && Apply(s', m) == State(if hold then Some(t) else None, s.cip[h := 1], s.valid,
                                          s.pc[t := Body(h, hold)], s.log + [Entered(t, h)])
               else
                 s' == State(None, s.cip, s.valid, s.pc[t := Outside], s.log + [Rejected(t, h, r), Returned(t, r)])
  {
    var m, r := Advance(t), EnterResult(s, h);
    var s1 := Apply(s, m);
    var s' := Apply(s1, m);
    if r == Passed {
      assert s1.pc == s.pc[t := Marking(h, hold)] && s'.pc == s.pc[t := Marked(h, hold)];
      assert s'.pc[t := Body(h, hold)] == s.pc[t := Body(h, hold)];
    } else {
      assert s1.pc == s.pc[t := Done(h, hold, r)] && s'.pc == s.pc[t := Outside];
      assert s'.log == s.log + [Rejected(t, h, r), Returned(t, r)];
    }
  }

  /** What the end of the body and LEAVE do: the flag is cleared, the lock is free, and the call
      has returned. A holding call does so whoever has the lock. */
  lemma LeaveOutcome(s: State, t: Thread)
    requires PcOf(s, t).Body? && (PcOf(s, t).hold || s.lock == None)
    ensures var h, moves := PcOf(s, t).h, LeaveMoves(t);
            CanRun(s, moves)
            && Run(s, moves) == State(None, s.cip[h := 0], s.valid, s.pc[t := Outside],
                                      s.log + [Left(t, h), Returned(t, Passed)])
  {
    var m, h := Advance(t), PcOf(s, t).h;
    RunFour(s, m, m, m, m);
    hide CanRun, Run;
    var s' := Apply(Apply(Apply(Apply(s, m), m), m), m);
    assert s'.pc == s.pc[t := Outside];
    assert s'.log == s.log + [Left(t, h), Returned(t, Passed)];
  }

  /** While a thread holds the lock, no step of another takes the lock, touches a flag or moves
      the holder: between lock and unlock the lines of a macro are undisturbed. */
  lemma HolderUndisturbed(s: State, m: Move, t: Thread)
    requires Inv(s) && Enabled(s, m) && s.lock == Some(t)
    requires m.Revalidate? || m.t != t
    ensures var s' := Apply(s, m);
            s'.lock == Some(t) && s'.cip == s.cip && PcOf(s', t) == PcOf(s, t)
  {
  }

  // ----- holding calls that give up the lock

  lemma {:induction false} RunConcat(s: State, a: seq<Move>, b: seq<Move>)
    requires CanRun(s, a) && CanRun(Run(s, a), b)
    ensures CanRun(s, a + b) && Run(s, a + b) == Run(Run(s, a), b)
    decreases |a|
  {
    hide Apply, Enabled;
    if a == [] {
      assert a + b == b;
    } else {
      RunConcat(Apply(s, a[0]), a[1..], b);
      assert (a + b)[1..] == a[1..] + b;
    }
  }

  /** One thread has called, with the lock held, on a handle of `valid`. */
  lemma FirstEnters(a: Thread, h: Handle, valid: set<Handle>) returns (moves: seq<Move>)
    requires h.Dbc? && h in valid
    ensures CanRun(INITIAL, moves) && Retakes(moves)
    ensures Run(INITIAL, moves) == State(Some(a), map[h := 1], valid, map[a := Body(h, true)], [Entered(a, h)])
  {
    var s := Apply(INITIAL, Revalidate(valid));
    EnterOutcome(s, a, h, true);
    moves := [Revalidate(valid)] + EnterMoves(s, a, h, true);
    assert moves[1..] == EnterMoves(s, a, h, true);
  }

  /** A second call on a connection is refused while the first one, which holds the lock
      otherwise, rests around its driver call. */
  lemma RefusedWhileResting(a: Thread, b: Thread, h: Handle)
    requires a != b && h.Dbc?
    ensures exists moves ::
              CanRun(INITIAL, moves) && Retakes(moves)
              && PcOf(Run(INITIAL, moves), a) == Resting(h, true)
              && PcOf(Run(INITIAL, moves), b) == Done(h, true, SequenceError)
  {
    var first := FirstEnters(a, h, {h});
    var s := Run(INITIAL, first);
    var more := [Release(a), Begin(b, h, true), Advance(b), Advance(b)];
    RunFour(s, Release(a), Begin(b, h, true), Advance(b), Advance(b));
    hide CanRun, Run;
    RunConcat(INITIAL, first, more);
    assert PcOf(Run(INITIAL, first + more), a) == Resting(h, true);
  }

  /** Where three threads stand, who has the lock, and whether the second handle is marked. */
  predicate Scene(s: State, a: Pc, b: Pc, c: Pc, lock: Option<Thread>, flag: int) {
    && PcOf(s, 0) == a && PcOf(s, 1) == b && PcOf(s, 2) == c
    && s.lock == lock && Flag(s, Dbc(2)) == flag && Dbc(2) in s.valid
  }

  const SECOND_TESTS: seq<Move> := [Release(0), Begin(1, Dbc(2), false), Advance(1), Advance(1)]
  const FIRST_FORGETS: seq<Move> := [Forget(0), Advance(0), Advance(0), Advance(0)]
  const THIRD_TESTS: seq<Move> := [Advance(0), Begin(2, Dbc(2), false), Advance(2), Advance(2)]
  const BOTH_MARK: seq<Move> := [Advance(1), Advance(2), Advance(1), Advance(2)]

  /** The first thread gives up the lock; the second finds its handle free. */
  lemma SecondTests(s: State)
    requires Scene(s, Body(Dbc(1), true), Outside, Outside, Some(0), 0)
    ensures CanRun(s, SECOND_TESTS)
    ensures Scene(Run(s, SECOND_TESTS), Resting(Dbc(1), true), Marking(Dbc(2), false), Outside, Some(1), 0)
  {
    RunFour(s, Release(0), Begin(1, Dbc(2), false), Advance(1), Advance(1));
    hide CanRun, Run;
  }

  lemma LeavesFlagged(s: State)
    requires Scene(s, Body(Dbc(1), true), Marking(Dbc(2), false), Outside, Some(1), 0)
    ensures var a := Advance(0);
            var s1, s2 := Apply(s, a), Apply(Apply(s, a), a);
            && Enabled(s, a) && Enabled(s1, a) && Enabled(s2, a)
            && Scene(Apply(s2, a), Done(Dbc(1), true, Passed), Marking(Dbc(2), false), Outside, Some(1), 0)
  {
  }

  /** The first thread forgets the lock and leaves. */
  lemma FirstForgets(s: State)
    requires Scene(s, Resting(Dbc(1), true), Marking(Dbc(2), false), Outside, Some(1), 0)
    ensures CanRun(s, FIRST_FORGETS)
    ensures Scene(Run(s, FIRST_FORGETS), Done(Dbc(1), true, Passed), Marking(Dbc(2), false), Outside, Some(1), 0)
  {
    var a := Advance(0);
    RunFour(s, Forget(0), a, a, a);
    hide CanRun, Run;
    var s1 := Apply(s, Forget(0));
    assert Scene(s1, Body(Dbc(1), true), Marking(Dbc(2), false), Outside, Some(1), 0);
    LeavesFlagged(s1);
  }

  /** Its return frees the lock of the second, and the third finds the handle free as well. */
  lemma ThirdTests(s: State)
    requires Scene(s, Done(Dbc(1), true, Passed), Marking(Dbc(2), false), Outside, Some(1), 0)
    ensures CanRun(s, THIRD_TESTS)
    ensures Scene(Run(s, THIRD_TESTS), Outside, Marking(Dbc(2), false), Marking(Dbc(2), false), Some(2), 0)
  {
    RunFour(s, Advance(0), Begin(2, Dbc(2), false), Advance(2), Advance(2));
    hide CanRun, Run;
  }

  lemma BothMark(s: State)
    requires Scene(s, Outside, Marking(Dbc(2), false), Marking(Dbc(2), false), Some(2), 0)
    ensures CanRun(s, BOTH_MARK)
    ensures Scene(Run(s, BOTH_MARK), Outside, Body(Dbc(2), false), Body(Dbc(2), false), None, 1)
  {
    RunFour(s, Advance(1), Advance(2), Advance(1), Advance(2));
    hide CanRun, Run;
  }

  lemma Extend(moves: seq<Move>, part: seq<Move>) returns (longer: seq<Move>)
    requires CanRun(INITIAL, moves) && CanRun(Run(INITIAL, moves), part)
    ensures CanRun(INITIAL, longer) && Run(INITIAL, longer) == Run(Run(INITIAL, moves), part)
    ensures Retakes(longer) ==> Retakes(moves) && Retakes(part)
  {
    longer := moves + part;
    RunConcat(INITIAL, moves, part);
    hide CanRun, Run;
    assert forall i :: 0 <= i < |moves| ==> moves[i] == longer[i];
    assert forall i :: 0 <= i < |part| ==> part[i] == longer[|moves| + i];
  }

  /** One forgotten lock is enough for two calls to overlap on another handle. */
  lemma ForgottenLockOverlaps()
    ensures exists moves ::
              CanRun(INITIAL, moves) && !Retakes(moves)
              && Inside(PcOf(Run(INITIAL, moves), 1), Dbc(2)) && Inside(PcOf(Run(INITIAL, moves), 2), Dbc(2))
  {
    var moves := FirstEnters(0, Dbc(1), {Dbc(1), Dbc(2)});
    assert Scene(Run(INITIAL, moves), Body(Dbc(1), true), Outside, Outside, Some(0), 0);
    assert !Retakes(FIRST_FORGETS) by { assert FIRST_FORGETS[0].Forget?; }
    hide CanRun, Run, Scene, Retakes;
    SecondTests(Run(INITIAL, moves));
    moves := Extend(moves, SECOND_TESTS);
    FirstForgets(Run(INITIAL, moves));
    moves := Extend(moves, FIRST_FORGETS);
    ThirdTests(Run(INITIAL, moves));
    moves := Extend(moves, THIRD_TESTS);
    BothMark(Run(INITIAL, moves));
    moves := Extend(moves, BOTH_MARK);
    SceneInside(Run(INITIAL, moves));
  }

  lemma SceneInside(s: State)
    requires Scene(s, Outside, Body(Dbc(2), false), Body(Dbc(2), false), None, 1)
    ensures Inside(PcOf(s, 1), Dbc(2)) && Inside(PcOf(s, 2), Dbc(2))
  {
  }

  // ----- progress

  /** How many lines a call still has to execute. */
  function LinesLeft(p: Pc): nat {
    match p
    case Outside => 0
    case Done(_, _, _) => 1
    case Clearing(_, _) => 2
    case Leaving(_, _) => 3
    case Body(_, _) => 4
    case Resting(_, _) => 5
    case Marked(_, _) => 5
    case Marking(_, _) => 6
    case Checking(_, _) => 7
    case Entering(_, _) => 8
  }

  /** A thread's own line brings its call nearer to the end, giving up the lock puts one line
      back, and no other step touches it. */
  lemma LinesRunOut(s: State, m: Move, t: Thread)
    requires Enabled(s, m) && PcOf(s, t) != Outside
    ensures if m == Advance(t) then LinesLeft(PcOf(Apply(s, m), t)) < LinesLeft(PcOf(s, t))
            else if m == Release(t) then LinesLeft(PcOf(Apply(s, m), t)) == LinesLeft(PcOf(s, t)) + 1
            else if m == Forget(t) then PcOf(Apply(s, m), t).Body?
            else PcOf(Apply(s, m), t) == PcOf(s, t)
  {
  }

  /** No deadlock: a thread in a call can execute its next line, or waits for the lock, whose
      holder can execute its own. */
  lemma SomeoneCanMove(s: State, t: Thread)
    requires Inv(s) && PcOf(s, t) != Outside
    ensures Enabled(s, Advance(t))
            || (s.lock.Some? && s.lock.value != t && Enabled(s, Advance(s.lock.value)))
  {
  }
}
