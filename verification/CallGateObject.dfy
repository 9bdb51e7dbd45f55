/** The call-in-progress macros on the shared memory they update. Each method is one macro, from
    the lock to the unlock; its contract says which steps of the protocol it takes. */
module CallGateObject {
  import opened CInt
  import opened CallGate

  class DriverManager {
    /** `iodbcdm_global_lock`: its owner, if any. */
    var lock: Option<Thread>
    /** `dbc_cip` and `desc_cip`. */
    var cip: map<Handle, int>
    var valid: set<Handle>
    ghost var pc: map<Thread, Pc>
    ghost var log: seq<Event>

    constructor ()
      ensures View() == INITIAL
    {
      lock, cip, valid, pc, log := None, map[], {}, map[], [];
    }

    ghost function View(): State
      reads this
    {
      State(lock, cip, valid, pc, log)
    }

    /** ENTER_HDBC, or ENTER_DESC with `holdlock` false, once the lock is free. A call that is
        not `Passed` has returned. */
    method Enter(t: Thread, h: Handle, holdlock: bool) returns (ret: Ret)
      requires PcOf(View(), t) == Outside && (h.Desc? ==> !holdlock) && lock == None
      modifies this
      ensures CanRun(old(View()), EnterMoves(old(View()), t, h, holdlock))
      ensures View() == Run(old(View()), EnterMoves(old(View()), t, h, holdlock))
      ensures ret == EnterResult(old(View()), h)
      ensures ret != Passed ==> cip == old(cip) && lock == None && PcOf(View(), t) == Outside
      ensures ret == Passed ==>
                && cip == old(cip)[h := 1] && lock == (if holdlock then Some(t) else None)
                && PcOf(View(), t) == Body(h, holdlock)
    {
      EnterOutcome(View(), t, h, holdlock);
      hide CanRun, Run, EnterMoves;
      ret := Passed;
      lock := Some(t);
      if h !in valid {
        ret := InvalidHandle;
      } else if h in cip && cip[h] != 0 {
        ret := SequenceError;
      }
      if ret != Passed {
        lock := None;
        pc, log := pc[t := Outside], log + [Rejected(t, h, ret), Returned(t, ret)];
        return;
      }
      cip := cip[h := 1];
      if !holdlock {
        lock := None;
      }
      pc, log := pc[t := Body(h, holdlock)], log + [Entered(t, h)];
    }

    /** A body entered with `holdlock` gives up the lock before it calls the driver. */
    method GiveUpLock(t: Thread, h: Handle)
      requires PcOf(View(), t) == Body(h, true)
      modifies this
      ensures Enabled(old(View()), Release(t)) && View() == Apply(old(View()), Release(t))
      ensures lock == None && cip == old(cip) && PcOf(View(), t) == Resting(h, true)
    {
      lock := None;
      pc := pc[t := Resting(h, true)];
    }

    /** It takes the lock back, once it is free, when the driver has returned. */
    method TakeLockBack(t: Thread, h: Handle)
      requires PcOf(View(), t) == Resting(h, true) && lock == None
      modifies this
      ensures Enabled(old(View()), Advance(t)) && View() == Apply(old(View()), Advance(t))
      ensures lock == Some(t) && cip == old(cip) && PcOf(View(), t) == Body(h, true)
    {
      lock := Some(t);
      pc := pc[t := Body(h, true)];
    }

    /** LEAVE_HDBC or LEAVE_DESC after the body: without `holdlock` once the lock is free, with it
        at once, which unlocks even when the body forgot to take the lock back. */
    method Leave(t: Thread, h: Handle, holdlock: bool) returns (ret: Ret)
      requires PcOf(View(), t) == Body(h, holdlock) && (holdlock || lock == None)
      modifies this
      ensures CanRun(old(View()), LeaveMoves(t)) && View() == Run(old(View()), LeaveMoves(t))
      ensures ret == Passed && cip == old(cip)[h := 0] && lock == None && PcOf(View(), t) == Outside
    {
      LeaveOutcome(View(), t);
      hide CanRun, Run, LeaveMoves;
      if !holdlock {
        lock := Some(t);
      }
      cip := cip[h := 0];
      lock := None;
      pc, log := pc[t := Outside], log + [Left(t, h), Returned(t, Passed)];
      ret := Passed;
    }
  }
}
