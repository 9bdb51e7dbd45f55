/** The heap form of the driver list: nodes chained from a root and searched by pointer, and
    the table of driver entry points that is filled on demand. */
module DriverRegistryObject {
  import opened CInt
  import opened DriverRegistry

  class DlNode {
    const path: string
    var dll: HDLL
    var refcount: nat
    var safe_unload: bool
    var next: DlNode?

    constructor (path: string, dll: HDLL, next: DlNode?)
      ensures this.path == path && this.dll == dll && this.next == next
      ensures refcount == 1 && !safe_unload
    {
      this.path, this.dll, this.next := path, dll, next;
      refcount, safe_unload := 1, false;
    }

    function View(): Driver
      reads this
    {
      Driver(path, dll, refcount, safe_unload)
    }
  }

  ghost function Views(nodes: seq<DlNode>): (l: seq<Driver>)
    reads nodes
    ensures |l| == |nodes| && forall i :: 0 <= i < |l| ==> l[i] == nodes[i].View()
  {
    seq(|nodes|, i requires 0 <= i < |nodes| reads nodes => nodes[i].View())
  }

  /** The node at a position; null past the end. */
  ghost function At(nodes: seq<DlNode>, i: nat): DlNode? {
    if i < |nodes| then nodes[i] else null
  }

  /** The nodes are the chain from `p` to the end: no two positions share a node. */
  ghost predicate Chain(p: DlNode?, nodes: seq<DlNode>)
    reads nodes`next
  {
    && p == At(nodes, 0)
    && (forall i :: 0 <= i < |nodes| ==> nodes[i].next == At(nodes, i + 1))
    && (forall i, j :: 0 <= i < j < |nodes| ==> nodes[i] != nodes[j])
  }

  /** A new node in front of a chain. */
  lemma Prepended(n: DlNode, nodes: seq<DlNode>)
    requires Chain(n.next, nodes) && n !in nodes
    ensures Chain(n, [n] + nodes) && Views([n] + nodes) == [n.View()] + Views(nodes)
  {
  }

  /** Changing one node's data changes one record. */
  lemma OneChanged(was: seq<Driver>, nodes: seq<DlNode>, k: nat)
    requires |was| == |nodes| && k < |nodes|
    requires forall i :: 0 <= i < |nodes| && i != k ==> nodes[i].View() == was[i]
    ensures Views(nodes) == was[k := nodes[k].View()]
  {
  }

  lemma NoNodeTwice(p: DlNode?, nodes: seq<DlNode>, k: nat)
    requires Chain(p, nodes) && k < |nodes|
    ensures forall i :: 0 <= i < |nodes| && i != k ==> nodes[i] != nodes[k]
  {
  }

  class Registry {
    var pRoot: DlNode?
    ghost var nodes: seq<DlNode>

    ghost predicate Valid()
      reads this, nodes`next
    {
      Chain(pRoot, nodes)
    }

    ghost function List(): seq<Driver>
      reads this, nodes
    {
      Views(nodes)
    }

    constructor ()
      ensures Valid() && List() == []
    {
      pRoot, nodes := null, [];
    }

    /** The first node with the path, or null. */
    method SearchPath(path: string) returns (pDrv: DlNode?)
      requires Valid()
      ensures pDrv == At(nodes, FindPath(List(), path))
    {
      var p := pRoot;
      pDrv := null;
      ghost var i := 0;
      while p != null
        invariant 0 <= i <= |nodes| && p == At(nodes, i)
        invariant pDrv == null && forall k :: 0 <= k < i ==> nodes[k].path != path
        decreases |nodes| - i
      {
        if p.path == path {
          pDrv := p;
          break;
        }
        p, i := p.next, i + 1;
      }
      FoundPath(List(), path, i);
    }

    /** The first node with the handle, or null. */
    method SearchDll(hdll: HDLL) returns (pDrv: DlNode?)
      requires Valid()
      ensures pDrv == At(nodes, FindDll(List(), hdll))
    {
      var p := pRoot;
      pDrv := null;
      ghost var i := 0;
      while p != null
        invariant 0 <= i <= |nodes| && p == At(nodes, i)
        invariant pDrv == null && forall k :: 0 <= k < i ==> nodes[k].dll != hdll
        decreases |nodes| - i
      {
        if p.dll == hdll {
          pDrv := p;
          break;
        }
        p, i := p.next, i + 1;
      }
      FoundDll(List(), hdll, i);
    }

    /** `answer` is what the loader returns if it is asked. */
    method DllOpen(path: string, answer: HDLL) returns (hdll: HDLL, asked: bool)
      requires Valid()
      modifies this, nodes
      ensures Valid() && List() == Opened(old(List()), path, answer)
      ensures hdll == OpenResult(old(List()), path, answer) && asked == Asks(old(List()), path)
      ensures nodes == old(nodes) || (|nodes| == |old(nodes)| + 1 && nodes[1..] == old(nodes) && fresh(nodes[0]))
    {
      hide Chain, Views, FindPath, FindDll, Unsigned, Opened, OpenResult, Asks;
      ghost var was := List();
      ghost var k := FindPath(was, path);
      OpenedCases(was, path, answer);
      var pDrv := SearchPath(path);
      asked := false;
      if pDrv != null {
        NoNodeTwice(pRoot, nodes, k);
        pDrv.refcount := Unsigned(pDrv.refcount + 1);
        if pDrv.dll == 0 {
          pDrv.dll := answer;
          asked := true;
        }
        OneChanged(was, nodes, k);
        return pDrv.dll, asked;
      }
      pDrv := new DlNode(path, answer, pRoot);
      asked := true;
      Prepended(pDrv, nodes);
      pRoot := pDrv;
      nodes := [pDrv] + nodes;
      hdll := pDrv.dll;
    }

    /** `unloaded` says whether the loader was told to close the library. */
    method DllClose(hdll: HDLL) returns (r: int, unloaded: bool)
      requires Valid()
      modifies nodes
      ensures Valid() && List() == Closed(old(List()), hdll) && nodes == old(nodes)
      ensures r == (if FindDll(old(List()), hdll) < |old(List())| then 0 else -1)
      ensures unloaded == Unloads(old(List()), hdll)
    {
      hide Chain, Views, FindPath, FindDll, Unsigned, Closed, Unloads;
      ghost var was := List();
      ghost var k := FindDll(was, hdll);
      ClosedCases(was, hdll);
      unloaded := false;
      var pDrv := SearchDll(hdll);
      if pDrv == null {
        return -1, false;
      }
      NoNodeTwice(pRoot, nodes, k);
      pDrv.refcount := Unsigned(pDrv.refcount - 1);
      if pDrv.refcount == 0 && pDrv.safe_unload {
        unloaded := true;
        pDrv.dll := 0;
      }
      OneChanged(was, nodes, k);
      r := 0;
    }

    method SafeUnload(hdll: HDLL)
      requires Valid()
      modifies nodes
      ensures Valid() && List() == Marked(old(List()), hdll) && nodes == old(nodes)
    {
      hide Chain, Views, FindPath, FindDll, Unsigned;
      ghost var was := List();
      ghost var k := FindDll(List(), hdll);
      var pDrv := SearchDll(hdll);
      if pDrv == null {
        return;
      }
      NoNodeTwice(pRoot, nodes, k);
      pDrv.safe_unload := true;
      OneChanged(was, nodes, k);
    }
  }

  lemma FoundPath(l: seq<Driver>, path: string, i: nat)
    requires i <= |l| && (forall k :: 0 <= k < i ==> l[k].path != path) && (i < |l| ==> l[i].path == path)
    ensures FindPath(l, path) == i
  {
  }

  lemma FoundDll(l: seq<Driver>, h: HDLL, i: nat)
    requires i <= |l| && (forall k :: 0 <= k < i ==> l[k].dll != h) && (i < |l| ==> l[i].dll == h)
    ensures FindDll(l, h) == i
  {
  }

  lemma OpenedCases(l: seq<Driver>, path: string, ans: HDLL)
    ensures var k := FindPath(l, path);
            if k == |l| then
              Opened(l, path, ans) == [Driver(path, ans, 1, false)] + l
              && Asks(l, path) && OpenResult(l, path, ans) == ans
            else
              var dll := if l[k].dll == 0 then ans else l[k].dll;
              Opened(l, path, ans) == l[k := Driver(path, dll, Unsigned(l[k].refcount + 1), l[k].safe)]
              && (Asks(l, path) <==> l[k].dll == 0) && OpenResult(l, path, ans) == dll
  {
  }

  lemma ClosedCases(l: seq<Driver>, h: HDLL)
    ensures var k := FindDll(l, h);
            if k == |l| then
              Closed(l, h) == l && !Unloads(l, h)
            else
              var n := Unsigned(l[k].refcount - 1);
              (Unloads(l, h) <==> n == 0 && l[k].safe)
              && Closed(l, h) == l[k := Driver(l[k].path, if Unloads(l, h) then 0 else h, n, l[k].safe)]
  {
  }
}
