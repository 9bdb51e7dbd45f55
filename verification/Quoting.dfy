/** What the parser makes of concrete shapes of text: quoted pieces, plain characters,
    separators, definitions, and tokens without an equals sign. Nothing here is stated through
    the scanner's brace flag. */
module Quoting {
  import opened CInt
  import opened ConnString

  /** Text in which neither a brace opens nor a token ends. */
  predicate Plain(k: string) {
    '{' !in k && ';' !in k
  }

  lemma {:induction false} PlainPasses(k: string, rest: string)
    requires Plain(k)
    ensures Cut(k + rest, false) == |k| + Cut(rest, false)
    ensures EndsInside(k + rest, false) == EndsInside(rest, false)
  {
    if k == "" {
      assert k + rest == rest;
    } else {
      assert (k + rest)[0] == k[0] && k[0] in k;
      assert (k + rest)[1..] == k[1..] + rest;
      PlainPasses(k[1..], rest);
    }
  }

  /** Inside a brace everything passes up to the first closing one. */
  lemma {:induction false} BracedPasses(b: string, rest: string)
    requires '}' !in b
    ensures Cut(b + "}" + rest, true) == |b| + 1 + Cut(rest, false)
    ensures EndsInside(b + "}" + rest, true) == EndsInside(rest, false)
  {
    var s := b + "}" + rest;
    if b == "" {
      assert s[1..] == rest;
    } else {
      assert s[0] == b[0] && b[0] in b;
      assert s[1..] == b[1..] + "}" + rest;
      BracedPasses(b[1..], rest);
    }
  }

  lemma QuotedPasses(k: string, b: string, rest: string)
    requires Plain(k) && '}' !in b
    ensures var q := k + "{" + b + "}";
            && Cut(q + rest, false) == |q| + Cut(rest, false)
            && EndsInside(q + rest, false) == EndsInside(rest, false)
  {
    var s := "{" + (b + "}" + rest);
    assert s[1..] == b + "}" + rest;
    BracedPasses(b, rest);
    PlainPasses(k, s);
    assert k + "{" + b + "}" + rest == k + s;
  }

  /** A brace that is not closed is all there is to say about a text. */
  lemma {:induction false} OpenBraceNeverCloses(k: string, b: string)
    requires Plain(k) && '}' !in b
    ensures !Closed(k + "{" + b)
  {
    PlainPasses(k, "{" + b);
    assert k + "{" + b == k + ("{" + b) && ("{" + b)[1..] == b;
    StaysInside(b);
  }

  lemma {:induction false} StaysInside(b: string)
    requires '}' !in b
    ensures EndsInside(b, true)
  {
    if b != "" {
      assert b[0] in b;
      StaysInside(b[1..]);
    }
  }

  lemma TokenEnds(q: string, rest: string)
    requires Cut(q + ";" + rest, false) == |q|
    ensures Tokens(q + ";" + rest) == [q] + Tokens(rest)
  {
    var s := q + ";" + rest;
    assert s[..|q|] == q && s[|q| + 1..] == rest;
  }

  /** A quoted piece hides everything up to its closing brace, separators included, and a
      separator after it ends the token. */
  lemma QuotedToken(k: string, b: string, rest: string)
    requires Plain(k) && '}' !in b
    ensures var q := k + "{" + b + "}";
            && Tokens(q + ";" + rest) == [q] + Tokens(rest)
            && (Closed(q + ";" + rest) <==> Closed(rest))
  {
    var q := k + "{" + b + "}";
    QuotedPasses(k, b, ";" + rest);
    SeparatorStops(rest);
    hide Cut, EndsInside, Tokens;
    assert q + ";" + rest == q + (";" + rest);
    TokenEnds(q, rest);
  }

  lemma SeparatorStops(rest: string)
    ensures Cut(";" + rest, false) == 0 && EndsInside(";" + rest, false) == EndsInside(rest, false)
  {
    assert (";" + rest)[1..] == rest;
  }

  /** Text without braces ends at its separator. */
  lemma PlainToken(k: string, rest: string)
    requires Plain(k)
    ensures Tokens(k + ";" + rest) == [k] + Tokens(rest)
    ensures Closed(k + ";" + rest) <==> Closed(rest)
  {
    PlainPasses(k, ";" + rest);
    SeparatorStops(rest);
    hide Cut, EndsInside, Tokens;
    assert k + ";" + rest == k + (";" + rest);
    TokenEnds(k, rest);
  }

  /** A plain or quoted piece in front of more text belongs to the first token of that text. */
  lemma PieceJoins(k: string, quoted: Option<string>, rest: string)
    requires Plain(k) && rest != "" && (quoted.Some? ==> '}' !in quoted.value)
    ensures var q := k + (match quoted case None => "" case Some(b) => "{" + b + "}");
            && Tokens(rest) != [] && Tokens(q + rest) == [q + Tokens(rest)[0]] + Tokens(rest)[1..]
            && (Closed(q + rest) <==> Closed(rest))
  {
    var q := k + (match quoted case None => "" case Some(b) => "{" + b + "}");
    match quoted {
      case None =>
        assert q == k;
        PlainPasses(k, rest);
      case Some(b) =>
        assert q == k + "{" + b + "}";
        QuotedPasses(k, b, rest);
    }
    hide Cut, EndsInside;
    LongerToken(q, rest);
  }

  lemma LongerToken(q: string, rest: string)
    requires rest != "" && Cut(q + rest, false) == |q| + Cut(rest, false)
    ensures Tokens(rest) != [] && Tokens(q + rest) == [q + Tokens(rest)[0]] + Tokens(rest)[1..]
  {
    hide Cut, Tokens;
    var n := Cut(rest, false);
    TokensUnfold(q + rest);
    TokensUnfold(rest);
    Slices(q, rest, n);
    var more := if n < |rest| then Tokens(rest[n + 1..]) else [];
    Rebuilt(Tokens(q + rest), Tokens(rest), q + rest[..n], rest[..n], more);
  }

  lemma Rebuilt(longer: seq<string>, ts: seq<string>, a: string, b: string, more: seq<string>)
    requires longer == [a] + more && ts == [b] + more
    ensures ts != [] && ts[0] == b && longer == [a] + ts[1..]
  {
    assert ts[1..] == more;
  }

  lemma Slices(q: string, rest: string, n: nat)
    requires n <= |rest|
    ensures (q + rest)[..|q| + n] == q + rest[..n]
    ensures n < |rest| ==> (q + rest)[|q| + n + 1..] == rest[n + 1..]
  {
  }

  // ----- entries

  lemma EntriesFirst(t: string, ts: seq<string>, first: bool)
    ensures Entries([t] + ts, first) ==
            (match EntryOf(t, first) case None => [] case Some(e) => [e]) + Entries(ts, false)
  {
    assert ([t] + ts)[1..] == ts;
  }

  lemma FirstEqualsAt(id: string, v: string)
    requires '=' !in id
    ensures FirstEq(id + "=" + v) == |id|
  {
    var t := id + "=" + v;
    assert t[|id|] == '=' && t[..|id|] == id;
  }

  /** `id=value;...`, the value free of braces and separators, wherever it stands: it is cut
      at its first `=`. */
  lemma DefinitionParses(id: string, v: string, rest: string, first: bool)
    requires '=' !in id && Plain(id) && Plain(v)
    ensures Entries(Tokens(id + "=" + v + ";" + rest), first) == [Entry(id, v)] + Entries(Tokens(rest), false)
  {
    var t := id + "=" + v;
    PlainToken(t, rest);
    Split(id, v, first);
    hide Tokens, Entries, EntryOf;
    EntriesFirst(t, Tokens(rest), first);
  }

  /** `id={value};...`: the value keeps its braces and any separator in them. */
  lemma QuotedDefinitionParses(id: string, b: string, rest: string, first: bool)
    requires '=' !in id && Plain(id) && '}' !in b
    ensures Entries(Tokens(id + "={" + b + "};" + rest), first)
            == [Entry(id, "{" + b + "}")] + Entries(Tokens(rest), false)
  {
    var k, v := id + "=", "{" + b + "}";
    var t := k + "{" + b + "}";
    assert id + "={" + b + "};" + rest == t + ";" + rest && t == id + "=" + v;
    QuotedToken(k, b, rest);
    Split(id, v, first);
    hide Tokens, Entries, EntryOf;
    EntriesFirst(t, Tokens(rest), first);
  }

  lemma Split(id: string, v: string, first: bool)
    requires '=' !in id
    ensures EntryOf(id + "=" + v, first) == Some(Entry(id, v))
  {
    FirstEqualsAt(id, v);
    var t := id + "=" + v;
    assert t[..|id|] == id && t[|id| + 1..] == v;
  }

  lemma NoEquals(t: string, first: bool)
    requires '=' !in t
    ensures EntryOf(t, first) == if first then Some(Entry("DSN", t)) else None
  {
    assert forall i :: 0 <= i < |t| ==> t[i] in t;
  }

  /** A first token without `=` names the data source. */
  lemma FirstIsDsn(t: string, rest: string)
    requires '=' !in t && Plain(t)
    ensures Parse(t + ";" + rest) == [Entry("DSN", t)] + Entries(Tokens(rest), false)
  {
    PlainToken(t, rest);
    NoEquals(t, true);
    EntriesFirst(t, Tokens(rest), true);
  }

  /** A later token without `=` leaves no trace. */
  lemma LaterIsDropped(q: string, t: string, rest: string)
    requires Plain(q) && Plain(t) && '=' !in t
    ensures Parse(q + ";" + t + ";" + rest) == Parse(q + ";" + rest)
  {
    hide Tokens, Entries, EntryOf;
    PlainToken(q, t + ";" + rest);
    assert q + ";" + t + ";" + rest == q + ";" + (t + ";" + rest);
    PlainToken(t, rest);
    PlainToken(q, rest);
    NoEquals(t, false);
    DroppedEntry(q, t, Tokens(rest));
  }

  lemma DroppedEntry(q: string, t: string, ts: seq<string>)
    requires EntryOf(t, false) == None
    ensures Entries([q] + ([t] + ts), true) == Entries([q] + ts, true)
  {
    hide Entries, EntryOf;
    EntriesFirst(t, ts, false);
    EntriesFirst(q, [t] + ts, true);
    EntriesFirst(q, ts, true);
    assert [] + Entries(ts, false) == Entries(ts, false);
  }

  // ----- printed text

  /** One definition prints as `id=value`, and a `;` joins it to those that follow. */
  lemma PrintedText(e: Entry, es: seq<Entry>)
    ensures Print([]) == "" && Print([e]) == e.id + "=" + e.value
    ensures es != [] ==> Print([e] + es) == e.id + "=" + e.value + ";" + Print(es)
  {
    PrintHead([e]);
    PrintHead([e] + es);
    assert ([e] + es)[1..] == es;
  }
}
