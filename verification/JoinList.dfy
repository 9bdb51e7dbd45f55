/** The loop that turns a double-NUL list of `KEY=VALUE` items into a connection string,
    in place. */
module JoinList {
  import opened CInt
  import opened CStrings
  import opened ConnString

  /** The bytes of a list: each item followed by a NUL. The list itself ends at a further NUL. */
  function Packed(items: seq<string>): string {
    if items == [] then "" else items[0] + [NUL] + Packed(items[1..])
  }

  predicate Item(t: string) {
    t != "" && NoNul(t)
  }

  predicate Items(items: seq<string>) {
    forall t :: t in items ==> Item(t)
  }

  lemma {:induction false} JoinLength(items: seq<string>)
    ensures |Packed(items)| == |Join(items)| + (if items == [] then 0 else 1)
  {
    if |items| > 1 {
      JoinLength(items[1..]);
    }
  }

  /** Where the packed list and the joined text differ, the list has a NUL and the text a `;`. */
  lemma {:induction false} OnlySeparators(items: seq<string>)
    requires Items(items) && items != []
    ensures |Packed(items)| == |Join(items)| + 1 && Packed(items)[|Join(items)|] == NUL
    ensures forall k :: 0 <= k < |Join(items)| ==>
              if Packed(items)[k] == NUL then Join(items)[k] == ';' else Join(items)[k] == Packed(items)[k]
    ensures NoNul(Join(items))
  {
    assert Item(items[0]) by { assert items[0] in items; }
    if |items| == 1 {
      assert Packed(items[1..]) == "";
      assert Packed(items) == items[0] + [NUL];
    } else {
      OnlySeparators(items[1..]);
    }
  }

  /** The bytes of the list starting at `curr`. */
  ghost predicate ListAt(b: seq<char>, curr: nat, items: seq<string>) {
    curr + |Packed(items)| < |b| && b[curr..curr + |Packed(items)|] == Packed(items)
    && b[curr + |Packed(items)|] == NUL
  }

  /** The first item of a list, and the list after it. */
  lemma ListStep(b: seq<char>, curr: nat, items: seq<string>)
    requires ListAt(b, curr, items) && Items(items) && items != []
    ensures var n := |items[0]|;
            && n > 0 && curr + n + 1 < |b|
            && NoNul(b[curr..curr + n]) && b[curr..curr + n] == items[0] && b[curr + n] == NUL
            && ListAt(b, curr + n + 1, items[1..]) && Items(items[1..])
            && (b[curr + n + 1] == NUL <==> |items| == 1)
  {
    var n := |items[0]|;
    assert Item(items[0]) by { assert items[0] in items; }
    var p := b[curr..curr + |Packed(items)|];
    var rest := Packed(items[1..]);
    assert p == items[0] + [NUL] + rest;
    hide ListAt, Packed;
    assert p[..n] == items[0];
    assert p[n + 1..] == rest;
    assert b[curr..curr + n] == p[..n];
    assert b[curr + n + 1..curr + |Packed(items)|] == p[n + 1..];
    if |items| > 1 {
      assert Item(items[1]) by { assert items[1] in items; }
      assert Packed(items[1..])[0] == items[1][0];
      assert items[1][0] in items[1];
    }
  }

  /** Every buffer with a double NUL, or with a NUL at its start, is such a list. */
  lemma {:induction false} ListExists(b: seq<char>, curr: nat, end: nat) returns (items: seq<string>)
    requires curr <= end < |b| && b[end] == NUL && (end == curr || b[end - 1] == NUL)
    ensures ListAt(b, curr, items) && Items(items)
    decreases end - curr
  {
    hide TextAt;
    if b[curr] == NUL {
      items := [];
      assert b[curr..curr] == "";
    } else {
      TextAtEnds(b, curr);
      var t := TextAt(b, curr);
      assert t == b[curr..curr + |t|] && t[0] == b[curr];
      var rest := ListExists(b, curr + |t| + 1, end);
      items := [t] + rest;
      var n := |Packed(rest)|;
      assert Packed(items) == t + [NUL] + Packed(rest);
      assert b[curr..curr + |t| + 1 + n]
             == b[curr..curr + |t|] + [b[curr + |t|]] + b[curr + |t| + 1..curr + |t| + 1 + n];
    }
  }

  lemma ListFrame(b: seq<char>, b': seq<char>, curr: nat, items: seq<string>)
    requires ListAt(b, curr, items) && |b'| == |b| && b'[curr..] == b[curr..]
    ensures ListAt(b', curr, items)
  {
  }

  /** What has been written so far: the joined items, with a `;` after each while more
      follow, and a NUL after the last. */
  function Written(done: seq<string>, last: bool): string {
    if done == [] then "" else Join(done) + (if last then [NUL] else ";")
  }

  lemma {:induction false} JoinGrows(done: seq<string>, t: string)
    ensures Join(done + [t]) == (if done == [] then "" else Join(done) + ";") + t
  {
    if done == [] {
      assert done + [t] == [t];
    } else {
      JoinGrows(done[1..], t);
      assert (done + [t])[1..] == done[1..] + [t];
      if |done| > 1 {
        assert done[1..] != [];
      }
    }
  }

  lemma WrittenGrows(done: seq<string>, t: string, last: bool)
    ensures Written(done + [t], last) == Written(done, false) + t + (if last then [NUL] else ";")
  {
    JoinGrows(done, t);
  }

  /** One round of the loop: the item's terminator becomes a separator unless it is the last. */
  lemma RoundWritten(b: seq<char>, b': seq<char>, curr: nat, done: seq<string>, t: string, last: bool)
    requires curr + |t| < |b| && b[..curr] == Written(done, false) && b[curr..curr + |t|] == t
    requires b[curr + |t|] == NUL && b' == if last then b else b[curr + |t| := ';']
    ensures b'[..curr + |t| + 1] == Written(done + [t], last)
    ensures b'[curr + |t| + 1..] == b[curr + |t| + 1..]
  {
    hide Written;
    WrittenGrows(done, t, last);
    assert b'[..curr + |t| + 1] == b[..curr] + b[curr..curr + |t|] + [b'[curr + |t|]];
  }

  /** `STRLEN (curr)`, as the position of the terminator. */
  method FindEnd(conn: array<char>, curr: nat, ghost t: string) returns (end: nat)
    requires curr + |t| < conn.Length && conn[curr..curr + |t|] == t && NoNul(t) && conn[curr + |t|] == NUL
    ensures end == curr + |t|
  {
    end := curr;
    while conn[end] != NUL
      invariant curr <= end <= curr + |t|
      decreases curr + |t| - end
    {
      end := end + 1;
    }
  }

  /** The closing loop of `_iodbcdm_drvconn_dialbox`. The list becomes the items joined by `;`;
      the bytes from its final terminator on are left alone. */
  method JoinInPlace(conn: array<char>, ghost items: seq<string>)
    requires ListAt(conn[..], 0, items) && Items(items)
    modifies conn
    ensures |Join(items)| < conn.Length && TextAt(conn[..], 0) == Join(items)
    ensures conn[..|Join(items)|] == Join(items)
    ensures conn[|Join(items)|..] == old(conn[|Join(items)|..])
  {
    hide ListAt, Packed, Written, Join, TextAt;
    EmptyExactly(conn[..], 0, items);
    WrittenNothing();
    ghost var done: seq<string>, left, orig := [], items, conn[..];
    var curr: nat := 0;
    while conn[curr] != NUL
      invariant curr < conn.Length && done + left == items && Items(left)
      invariant ListAt(conn[..], curr, left)
      invariant conn[..curr] == Written(done, left == [] && done != [])
      invariant left == [] && done != [] ==> curr > 0 && conn[curr - 1] == orig[curr - 1]
      invariant forall k :: curr <= k < conn.Length ==> conn[k] == orig[k]
      decreases |left|
    {
      EmptyExactly(conn[..], curr, left);
      ListStep(conn[..], curr, left);
      ghost var before, t := conn[..], left[0];
      var end := FindEnd(conn, curr, t);
      if conn[end + 1] != NUL {
        conn[end] := ';';
      }
      RoundWritten(before, conn[..], curr, done, t, |left| == 1);
      done, left := done + [t], left[1..];
      ListFrame(before, conn[..], end + 1, left);
      curr := end + 1;
    }
    EmptyExactly(conn[..], curr, left);
    assert done == items;
    Finished(conn[..], curr, items);
  }

  lemma WrittenNothing()
    ensures Written([], false) == ""
  {
  }

  lemma Finished(b: seq<char>, curr: nat, items: seq<string>)
    requires curr < |b| && b[curr] == NUL && Items(items) && b[..curr] == Written(items, items != [])
    ensures |Join(items)| == if items == [] then curr else curr - 1
    ensures |Join(items)| < |b| && TextAt(b, 0) == Join(items) && b[..|Join(items)|] == Join(items)
  {
    var n := |Join(items)|;
    if items != [] {
      OnlySeparators(items);
      assert b[..curr][..n] == Join(items) && b[..curr][n] == NUL;
    }
    assert b[0..0 + n] == Join(items);
    TextAtIs(b, 0, n);
  }

  lemma EmptyExactly(b: seq<char>, curr: nat, items: seq<string>)
    requires ListAt(b, curr, items) && Items(items)
    ensures curr < |b| && (b[curr] == NUL <==> items == [])
  {
    if items != [] {
      ListStep(b, curr, items);
      assert b[curr] == b[curr..curr + |items[0]|][0];
    }
  }

  /** Joined in place and parsed back: exactly for clean items, the parser's tokens are the
      items of the list, in order. */
  lemma JoinedListParses(items: seq<string>)
    requires Items(items)
    ensures Closed(Join(items)) && Tokens(Join(items)) == items <==> forall t :: t in items ==> Clean(t)
  {
    assert forall t :: t in items ==> Item(t);
    JoinSplitsExactly(items);
  }
}
