/** Connection strings as values: what the parser makes of a text, what the printer makes
    of the parsed entries, and how the two fit together. */
module ConnString {
  import opened CInt

  // ----- braces and tokens

  /** The scanner's brace flag after character `c`: braces do not nest. */
  predicate InBrace(inside: bool, c: char) {
    if inside then c != '}' else c == '{'
  }

  /** The brace flag after the whole of `s`. */
  predicate EndsInside(s: string, inside: bool) {
    if s == "" then inside else EndsInside(s[1..], InBrace(inside, s[0]))
  }

  /** Every `{` the scanner sees outside braces is closed by a later `}`. */
  predicate Closed(s: string) {
    !EndsInside(s, false)
  }

  /** Length of the text before the first `;` outside braces. */
  function Cut(s: string, inside: bool): (n: nat)
    ensures n <= |s|
  {
    if s == "" || (!inside && s[0] == ';') then 0
    else 1 + Cut(s[1..], InBrace(inside, s[0]))
  }

  /** A closed token with no separator in it. */
  predicate Clean(t: string) {
    Closed(t) && Cut(t, false) == |t|
  }

  /** The tokens of a connection string; nothing follows a final separator. */
  function Tokens(s: string): seq<string> {
    if s == "" then []
    else
      var n := Cut(s, false);
      [s[..n]] + (if n < |s| then Tokens(s[n + 1..]) else [])
  }

  function Join(ts: seq<string>): string {
    if ts == [] then "" else if |ts| == 1 then ts[0] else ts[0] + ";" + Join(ts[1..])
  }

  lemma {:induction false} EndsAppend(a: string, b: string, inside: bool)
    ensures EndsInside(a + b, inside) == EndsInside(b, EndsInside(a, inside))
  {
    if a == "" {
      assert a + b == b;
    } else {
      assert (a + b)[1..] == a[1..] + b;
      EndsAppend(a[1..], b, InBrace(inside, a[0]));
    }
  }

  lemma {:induction false} CutAppend(a: string, b: string, inside: bool)
    requires Cut(a, inside) == |a|
    ensures Cut(a + b, inside) == |a| + Cut(b, EndsInside(a, inside))
  {
    if a == "" {
      assert a + b == b;
    } else {
      assert (a + b)[1..] == a[1..] + b;
      CutAppend(a[1..], b, InBrace(inside, a[0]));
    }
  }

  /** The cut stops at a `;` outside braces, or at the end, and nowhere before. */
  lemma {:induction false} CutStops(s: string, inside: bool)
    ensures var n := Cut(s, inside);
            && Cut(s[..n], inside) == n
            && (n < |s| ==> s[n] == ';' && !EndsInside(s[..n], inside))
  {
    if s != "" && (inside || s[0] != ';') {
      var n := Cut(s, inside);
      CutStops(s[1..], InBrace(inside, s[0]));
      assert s[..n][1..] == s[1..][..n - 1];
    }
  }

  /** Where the scanner stops in a text with a terminator after it; nothing when it is inside
      a brace at the terminator, which it then steps over. */
  function ScanEnd(s: string, inside: bool): (r: Option<nat>)
    ensures r.Some? ==> r.value <= |s|
  {
    if s == "" then (if inside then None else Some(0))
    else if !inside && s[0] == ';' then Some(0)
    else match ScanEnd(s[1..], InBrace(inside, s[0]))
         case None => None
         case Some(n) => Some(n + 1)
  }

  /** Every scan of the token loop stops at or before the terminator. */
  predicate ScansStop(s: string) {
    s == "" ||
    match ScanEnd(s, false)
    case None => false
    case Some(n) => n < |s| ==> ScansStop(s[n + 1..])
  }

  lemma {:induction false} ScanEndIsCut(s: string, inside: bool)
    ensures ScanEnd(s, inside) ==
            if Cut(s, inside) == |s| && EndsInside(s, inside) then None else Some(Cut(s, inside))
  {
    if s != "" && (inside || s[0] != ';') {
      ScanEndIsCut(s[1..], InBrace(inside, s[0]));
    }
  }

  /** The parser stays inside the string exactly when every brace is closed. */
  lemma {:induction false} ScansStopExactly(s: string)
    ensures ScansStop(s) <==> Closed(s)
  {
    if s != "" {
      ScanEndIsCut(s, false);
      var n := Cut(s, false);
      if n < |s| {
        CutStops(s, false);
        ScansStopExactly(s[n + 1..]);
        assert s == s[..n] + ";" + s[n + 1..];
        EndsAppend(s[..n] + ";", s[n + 1..], false);
        EndsAppend(s[..n], ";", false);
      }
    }
  }

  /** A single open brace is enough. */
  lemma OpenBraceEscapes()
    ensures !ScansStop("{") && !Closed("{")
  {
    assert "{"[1..] == "";
    assert EndsInside("", true);
    ScansStopExactly("{");
  }

  /** Joining clean tokens keeps every brace closed. */
  lemma {:induction false} JoinClosed(ts: seq<string>)
    requires forall t :: t in ts ==> Clean(t)
    ensures Closed(Join(ts))
  {
    if ts != [] {
      assert Clean(ts[0]) by { assert ts[0] in ts; }
    }
    if |ts| > 1 {
      JoinClosed(ts[1..]);
      EndsAppend(ts[0] + ";", Join(ts[1..]), false);
      EndsAppend(ts[0], ";", false);
    }
  }

  /** Splitting a join of clean tokens gives the tokens back, in order. */
  lemma {:induction false} JoinSplits(ts: seq<string>)
    requires forall t :: t in ts ==> Clean(t)
    requires ts != [] ==> ts[|ts| - 1] != ""
    ensures Tokens(Join(ts)) == ts
  {
    if ts != [] {
      assert Clean(ts[0]) by { assert ts[0] in ts; }
    }
    if |ts| == 1 {
      assert ts[0][..|ts[0]|] == ts[0];
    } else if |ts| > 1 {
      var rest := Join(ts[1..]);
      var s := ts[0] + ";" + rest;
      JoinSplits(ts[1..]);
      assert s == ts[0] + (";" + rest);
      CutAppend(ts[0], ";" + rest, false);
      assert s[..|ts[0]|] == ts[0] && s[|ts[0]| + 1..] == rest;
    }
  }

  /** The tokens of a closed string are clean. */
  lemma {:induction false} TokensClean(s: string)
    requires Closed(s)
    ensures forall t :: t in Tokens(s) ==> Clean(t)
  {
    if s != "" {
      var n := Cut(s, false);
      CutStops(s, false);
      if n < |s| {
        assert s == s[..n + 1] + s[n + 1..] && s[..n + 1] == s[..n] + ";";
        EndsAppend(s[..n + 1], s[n + 1..], false);
        EndsAppend(s[..n], ";", false);
        TokensClean(s[n + 1..]);
      } else {
        assert s[..n] == s;
      }
    }
  }

  lemma JoinFirst(t: string, ts: seq<string>)
    ensures Join([t] + ts) == if ts == [] then t else t + ";" + Join(ts)
  {
    assert ([t] + ts)[1..] == ts;
  }

  lemma TokensUnfold(s: string)
    requires s != ""
    ensures var n := Cut(s, false);
            Tokens(s) == [s[..n]] + (if n < |s| then Tokens(s[n + 1..]) else [])
  {
    hide Cut, InBrace, EndsInside, Join;
    var n := Cut(s, false);
    var rest := if n < |s| then Tokens(s[n + 1..]) else [];
    assert Tokens(s) == [s[..n]] + rest;
  }

  /** A string is its first token, and the separator and the rest, if there are any. */
  lemma FirstCut(s: string)
    ensures var n := Cut(s, false);
            if n < |s| then s == s[..n] + ";" + s[n + 1..] else s[..n] == s
  {
    CutStops(s, false);
    hide *;
    var n := Cut(s, false);
    if n < |s| {
      SplitAt(s, n);
    }
  }

  lemma SplitAt(s: string, n: nat)
    requires n < |s| && s[n] == ';'
    ensures s == s[..n] + ";" + s[n + 1..]
  {
    assert s[n..n + 1] == ";";
  }

  lemma SeparatorMoves(a: string, b: string, c: string)
    requires b == c || b == c + ";"
    ensures a + ";" + b == a + ";" + c || a + ";" + b == a + ";" + c + ";"
  {
    assert a + ";" + (c + ";") == a + ";" + c + ";";
  }

  /** Nothing is lost by splitting, except a final separator. */
  lemma {:induction false} TokensCover(s: string)
    ensures s == Join(Tokens(s)) || s == Join(Tokens(s)) + ";"
  {
    if s != "" {
      TokensUnfold(s);
      FirstCut(s);
      hide Cut, Join, Tokens;
      var n := Cut(s, false);
      if n < |s| {
        var head, tail := s[..n], s[n + 1..];
        TokensCover(tail);
        NoTokens(tail);
        JoinFirst(head, Tokens(tail));
        SeparatorMoves(head, tail, Join(Tokens(tail)));
      } else {
        assert [s] + [] == [s];
        JoinFirst(s, []);
      }
    }
  }

  lemma NoTokens(s: string)
    ensures Tokens(s) == [] <==> s == ""
  {
  }

  /** For non-empty items, the joined text is closed and splits back into the items exactly
      when every item is clean. */
  lemma JoinSplitsExactly(items: seq<string>)
    requires forall t :: t in items ==> t != ""
    ensures Closed(Join(items)) && Tokens(Join(items)) == items <==> forall t :: t in items ==> Clean(t)
  {
    if forall t :: t in items ==> Clean(t) {
      JoinClosed(items);
      assert items != [] ==> items[|items| - 1] in items;
      JoinSplits(items);
    } else if Closed(Join(items)) {
      TokensClean(Join(items));
    }
  }

  // ----- entries

  datatype Entry = Entry(id: string, value: string)

  function FirstEq(t: string): (n: nat)
    ensures n <= |t| && (n < |t| ==> t[n] == '=') && '=' !in t[..n]
  {
    if t == "" || t[0] == '=' then 0
    else
      var n := 1 + FirstEq(t[1..]);
      assert t[..n] == [t[0]] + t[1..][..n - 1];
      n
  }

  /** A token splits at its first `=`. Without one it is the value of `DSN` when it is the
      first token, and is dropped otherwise. */
  function EntryOf(t: string, first: bool): Option<Entry> {
    var n := FirstEq(t);
    if n < |t| then Some(Entry(t[..n], t[n + 1..]))
    else if first then Some(Entry("DSN", t))
    else None
  }

  function Entries(ts: seq<string>, first: bool): seq<Entry> {
    if ts == [] then []
    else
      (match EntryOf(ts[0], first) case None => [] case Some(e) => [e]) + Entries(ts[1..], false)
  }

  function Parse(s: string): seq<Entry> {
    Entries(Tokens(s), true)
  }

  function Text(e: Entry): string {
    e.id + "=" + e.value
  }

  function Texts(es: seq<Entry>): (ts: seq<string>)
    ensures |ts| == |es| && forall i :: 0 <= i < |es| ==> ts[i] == Text(es[i])
  {
    seq(|es|, i requires 0 <= i < |es| => Text(es[i]))
  }

  function Print(es: seq<Entry>): string {
    Join(Texts(es))
  }

  /** What a parsed entry always is, and what an entry must be to survive printing. */
  predicate Good(e: Entry) {
    '=' !in e.id && Clean(Text(e))
  }

  lemma TextParses(e: Entry, first: bool)
    requires '=' !in e.id
    ensures EntryOf(Text(e), first) == Some(e)
  {
    var t, n := Text(e), FirstEq(Text(e));
    assert t[|e.id|] == '=';
    assert t[..|e.id|] == e.id && t[|e.id| + 1..] == e.value;
  }

  /** A clean token yields a good entry, the defaulted DSN included. */
  lemma EntryOfIsGood(t: string, first: bool)
    requires Clean(t) && EntryOf(t, first).Some?
    ensures Good(EntryOf(t, first).value)
  {
    var n := FirstEq(t);
    if n < |t| {
      assert t[..n] + "=" + t[n + 1..] == t;
    } else {
      assert Text(Entry("DSN", t)) == "DSN=" + t;
      DsnPrefix();
      EndsAppend("DSN=", t, false);
      CutAppend("DSN=", t, false);
    }
  }

  lemma DsnPrefix()
    ensures Clean("DSN=")
  {
  }

  lemma {:induction false} EntriesAreGood(ts: seq<string>, first: bool)
    requires forall t :: t in ts ==> Clean(t)
    ensures forall e :: e in Entries(ts, first) ==> Good(e)
  {
    if ts != [] {
      EntriesAreGood(ts[1..], false);
      if EntryOf(ts[0], first).Some? {
        EntryOfIsGood(ts[0], first);
      }
    }
  }

  lemma {:induction false} EntriesOfTexts(es: seq<Entry>, first: bool)
    requires forall e :: e in es ==> '=' !in e.id
    ensures Entries(Texts(es), first) == es
  {
    if es != [] {
      assert es[0] in es;
      TextParses(es[0], first);
      assert Texts(es)[1..] == Texts(es[1..]);
      EntriesOfTexts(es[1..], false);
      assert es == [es[0]] + es[1..];
    }
  }

  /** Printing then parsing returns the same entries, braces closed throughout, exactly when
      no id contains `=` and every `id=value` is closed with no `;` outside braces. */
  lemma PrintParsesExactly(es: seq<Entry>)
    ensures Closed(Print(es)) && Parse(Print(es)) == es <==> forall e :: e in es ==> Good(e)
  {
    var ts := Texts(es);
    if forall e :: e in es ==> Good(e) {
      forall t | t in ts ensures Clean(t) {
        var i :| 0 <= i < |ts| && ts[i] == t;
        assert es[i] in es;
      }
      JoinClosed(ts);
      JoinSplits(ts);
      EntriesOfTexts(es, true);
    } else if Closed(Print(es)) {
      TokensClean(Print(es));
      EntriesAreGood(Tokens(Print(es)), true);
    }
  }

  /** Parsing reaches a normal form: on every closed string, printing the parsed entries
      gives a closed string with the same entries, whatever was defaulted or dropped. */
  lemma NormalForm(s: string)
    requires Closed(s)
    ensures Closed(Print(Parse(s)))
    ensures Parse(Print(Parse(s))) == Parse(s)
  {
    TokensClean(s);
    EntriesAreGood(Tokens(s), true);
    PrintParsesExactly(Parse(s));
  }

  /** The printed text grows by a separator and the next definition. */
  lemma {:induction false} PrintGrows(done: seq<Entry>, e: Entry)
    ensures Print(done + [e]) == Print(done) + (if done == [] then "" else ";") + Text(e)
  {
    if done == [] {
      assert done + [e] == [e];
      assert Texts([e])[0] == Text(e);
    } else {
      PrintGrows(done[1..], e);
      assert (done + [e])[1..] == done[1..] + [e];
      PrintHead(done);
      PrintHead(done + [e]);
    }
  }

  lemma PrintHead(es: seq<Entry>)
    requires es != []
    ensures Print(es) == Text(es[0]) + (if |es| == 1 then "" else ";" + Print(es[1..]))
    ensures Print(es) != ""
  {
    assert Texts(es)[1..] == Texts(es[1..]);
    assert Texts(es)[0] == Text(es[0]);
  }

  /** What is printed first is a prefix of what is printed in the end. */
  lemma {:induction false} PrintPrefix(done: seq<Entry>, more: seq<Entry>)
    ensures Print(done) <= Print(done + more)
    decreases |more|
  {
    if more == [] {
      assert done + more == done;
    } else {
      PrintGrows(done, more[0]);
      assert done + [more[0]] + more[1..] == done + more;
      PrintPrefix(done + [more[0]], more[1..]);
    }
  }
}
