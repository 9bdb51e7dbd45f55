/** The table of driver entry points of an environment: filled one lookup at a time, and cleared
    when the environment is created. */
module ProcTable {
  import opened DriverRegistry

  /** An entry point; 0 is NULL. */
  type HPROC = nat

  /** The loader: the entry point of a library for a function number, NULL when it has none. */
  type Loader = (HDLL, nat) -> HPROC

  predicate InRange(tab: seq<HPROC>, idx: int) {
    0 < idx < |tab|
  }

  /** What a lookup answers on a table. */
  function Answer(tab: seq<HPROC>, dlsym: Loader, hdll: HDLL, idx: int): HPROC {
    if !InRange(tab, idx) then 0
    else if tab[idx] != 0 then tab[idx]
    else dlsym(hdll, idx)
  }

  function Filled(tab: seq<HPROC>, dlsym: Loader, hdll: HDLL, idx: int): (r: seq<HPROC>)
    ensures |r| == |tab|
  {
    if InRange(tab, idx) then tab[idx := Answer(tab, dlsym, hdll, idx)] else tab
  }

  /** Every entry is empty or is what the loader would answer now. */
  ghost predicate Coherent(tab: seq<HPROC>, dlsym: Loader, hdll: HDLL) {
    forall i :: 0 < i < |tab| ==> tab[i] == 0 || tab[i] == dlsym(hdll, i)
  }

  /** The answers to a series of lookups, each filling the table. */
  function Answers(tab: seq<HPROC>, dlsym: Loader, hdll: HDLL, idxs: seq<int>): (r: seq<HPROC>)
    ensures |r| == |idxs|
    decreases |idxs|
  {
    if idxs == [] then []
    else [Answer(tab, dlsym, hdll, idxs[0])] + Answers(Filled(tab, dlsym, hdll, idxs[0]), dlsym, hdll, idxs[1..])
  }

  /** On a coherent table every lookup of a series answers as the loader would, however the
      series mixes new and repeated numbers. */
  lemma {:induction false} LookupsAgree(tab: seq<HPROC>, dlsym: Loader, hdll: HDLL, idxs: seq<int>, k: nat)
    requires Coherent(tab, dlsym, hdll) && k < |idxs|
    ensures Answers(tab, dlsym, hdll, idxs)[k] == if 0 < idxs[k] < |tab| then dlsym(hdll, idxs[k]) else 0
    decreases |idxs|
  {
    if k > 0 {
      LookupsAgree(Filled(tab, dlsym, hdll, idxs[0]), dlsym, hdll, idxs[1..], k - 1);
    }
  }

  /** Two libraries have the same entry points for every number already looked up. */
  ghost predicate AgreeWhereFilled(tab: seq<HPROC>, dlsym: Loader, was: HDLL, now: HDLL) {
    forall idx :: InRange(tab, idx) && tab[idx] != 0 ==> dlsym(was, idx) == dlsym(now, idx)
  }

  /** A table filled from one library answers rightly for another exactly when every entry
      already filled is the same in both: the table must be cleared when the library changes. */
  lemma RetargetExactly(tab: seq<HPROC>, dlsym: Loader, was: HDLL, now: HDLL)
    requires Coherent(tab, dlsym, was)
    ensures (forall idx :: InRange(tab, idx) ==> Answer(tab, dlsym, now, idx) == dlsym(now, idx))
            <==> AgreeWhereFilled(tab, dlsym, was, now)
  {
  }

  /** Look a number up in one library, switch to another that has a different entry point for
      it, and the next lookup still answers from the first. */
  lemma StaleLookup(tab: seq<HPROC>, dlsym: Loader, was: HDLL, now: HDLL, idx: int)
    requires Coherent(tab, dlsym, was) && InRange(tab, idx)
    requires dlsym(was, idx) != 0 && dlsym(was, idx) != dlsym(now, idx)
    ensures var tab' := Filled(tab, dlsym, was, idx);
            Coherent(tab', dlsym, was) && Answer(tab', dlsym, now, idx) == dlsym(was, idx) != dlsym(now, idx)
  {
  }

  /** A new table, a loader and two libraries for which this happens. */
  lemma StaleLookupHappens()
    ensures var dlsym: Loader := (h, i) => h;
            Coherent([0, 0], dlsym, 1) && Answer(Filled([0, 0], dlsym, 1, 1), dlsym, 2, 1) == 1 != dlsym(2, 1)
  {
    var dlsym: Loader := (h, i) => h;
    StaleLookup([0, 0], dlsym, 1, 2, 1);
  }

  class DriverEnv {
    const dllproc_tab: array<HPROC>
    var hdll: HDLL

    ghost predicate UpToDate(dlsym: Loader)
      reads this, dllproc_tab
    {
      Coherent(dllproc_tab[..], dlsym, hdll)
    }

    constructor (size: nat, hdll: HDLL)
      ensures dllproc_tab.Length == size && this.hdll == hdll && fresh(dllproc_tab)
      ensures forall dlsym: Loader :: UpToDate(dlsym)
    {
      var tab := new HPROC[size];
      for i := 0 to size
        invariant forall k :: 0 <= k < i ==> tab[k] == 0
      {
        tab[i] := 0;
      }
      dllproc_tab, this.hdll := tab, hdll;
    }

    /** A connection that loads another library keeps the environment and its table, where the
        unloading of the old one leaves them. */
    method Retarget(hdll: HDLL, ghost dlsym: Loader)
      modifies this`hdll
      ensures this.hdll == hdll
      ensures old(UpToDate(dlsym)) ==>
                (UpToDate(dlsym) <==> AgreeWhereFilled(dllproc_tab[..], dlsym, old(this.hdll), hdll))
    {
      if this.hdll != hdll {
        this.hdll := hdll;
      }
      ghost var tab := dllproc_tab[..];
      if old(UpToDate(dlsym)) && UpToDate(dlsym) {
        forall idx | InRange(tab, idx) && tab[idx] != 0 ensures dlsym(old(this.hdll), idx) == dlsym(hdll, idx) {
          assert tab[idx] == dlsym(hdll, idx);
        }
      }
    }
  }

  method GetProc(penv: DriverEnv?, idx: int, dlsym: Loader) returns (hproc: HPROC)
    modifies if penv == null then {} else {penv.dllproc_tab}
    ensures penv == null ==> hproc == 0
    ensures penv != null ==>
              && hproc == Answer(old(penv.dllproc_tab[..]), dlsym, penv.hdll, idx)
              && penv.dllproc_tab[..] == Filled(old(penv.dllproc_tab[..]), dlsym, penv.hdll, idx)
              && (old(penv.UpToDate(dlsym)) ==> penv.UpToDate(dlsym))
  {
    if penv == null || idx <= 0 || idx >= penv.dllproc_tab.Length {
      return 0;
    }
    var phproc := penv.dllproc_tab;
    if phproc[idx] == 0 {
      phproc[idx] := dlsym(penv.hdll, idx);
    }
    hproc := phproc[idx];
  }
}
