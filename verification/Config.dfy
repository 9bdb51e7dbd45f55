/** Configuration entries as pointers into an image and as the text they stand for, and the
    section that the printer reads. */
module Config {
  import opened CInt
  import opened CStrings
  import opened ConnString

  // ----- entries

  /** A C string pointer of an entry: absent, a literal, or an offset into the image. */
  datatype CPtr = Null | Literal(text: string) | Image(offset: nat)

  datatype CfgEntry = CfgEntry(section: CPtr, id: CPtr, value: CPtr)

  /** An entry as its readers see it. */
  datatype Item = Section(name: string) | Define(entry: Entry) | Continue(value: string) | Blank

  /** The pointer's string ends before offset `limit` of the image. */
  predicate Settled(b: seq<char>, p: CPtr, limit: nat)
    requires limit <= |b|
  {
    match p
    case Null => true
    case Literal(text) => NoNul(text)
    case Image(o) => o < limit && NUL in b[o..limit]
  }

  predicate EntrySettled(b: seq<char>, e: CfgEntry, limit: nat)
    requires limit <= |b|
  {
    Settled(b, e.section, limit) && Settled(b, e.id, limit) && Settled(b, e.value, limit)
  }

  function Deref(b: seq<char>, p: CPtr): string {
    match p
    case Null => ""
    case Literal(text) => text
    case Image(o) => if o <= |b| then TextAt(b, o) else ""
  }

  function ItemOf(b: seq<char>, e: CfgEntry): Item {
    if e.section != Null then Section(Deref(b, e.section))
    else if e.value == Null then Blank
    else if e.id == Null then Continue(Deref(b, e.value))
    else Define(Entry(Deref(b, e.id), Deref(b, e.value)))
  }

  function ItemsOf(b: seq<char>, es: seq<CfgEntry>): (r: seq<Item>)
    ensures |r| == |es| && forall i :: 0 <= i < |es| ==> r[i] == ItemOf(b, es[i])
  {
    seq(|es|, i requires 0 <= i < |es| => ItemOf(b, es[i]))
  }

  /** How entries are told apart: a section name makes a header; else a value makes a definition,
      or a continuation without an id; else the entry is blank. */
  lemma ItemKinds(b: seq<char>, e: CfgEntry)
    ensures ItemOf(b, e).Section? <==> e.section != Null
    ensures ItemOf(b, e).Define? <==> e.section == Null && e.value != Null && e.id != Null
    ensures ItemOf(b, e).Continue? <==> e.section == Null && e.value != Null && e.id == Null
    ensures ItemOf(b, e).Blank? <==> e.section == Null && e.value == Null
  {
  }

  lemma {:induction false} TextStable(b: seq<char>, b': seq<char>, o: nat, limit: nat)
    requires limit <= |b| && |b'| == |b| && b[..limit] == b'[..limit]
    requires o < limit && NUL in b[o..limit]
    ensures TextAt(b, o) == TextAt(b', o)
    decreases limit - o
  {
    assert b[o] == b[..limit][o] == b'[o];
    if b[o] != NUL {
      assert b[o..limit][1..] == b[o + 1..limit];
      TextStable(b, b', o + 1, limit);
    }
  }

  /** Writing at or after `limit` changes no settled entry. */
  lemma ItemsStable(b: seq<char>, b': seq<char>, es: seq<CfgEntry>, limit: nat)
    requires limit <= |b| && |b'| == |b| && b[..limit] == b'[..limit]
    requires forall e :: e in es ==> EntrySettled(b, e, limit)
    ensures ItemsOf(b', es) == ItemsOf(b, es)
    ensures forall e :: e in es ==> EntrySettled(b', e, limit)
  {
    forall e | e in es ensures ItemOf(b', e) == ItemOf(b, e) && EntrySettled(b', e, limit) {
      PtrStable(b, b', e.section, limit);
      PtrStable(b, b', e.id, limit);
      PtrStable(b, b', e.value, limit);
    }
    assert forall i :: 0 <= i < |es| ==> es[i] in es;
  }

  lemma PtrStable(b: seq<char>, b': seq<char>, p: CPtr, limit: nat)
    requires limit <= |b| && |b'| == |b| && b[..limit] == b'[..limit] && Settled(b, p, limit)
    ensures Deref(b', p) == Deref(b, p) && Settled(b', p, limit)
  {
    if p.Image? {
      TextStable(b, b', p.offset, limit);
      assert b'[p.offset..limit] == b'[..limit][p.offset..] == b[p.offset..limit];
    }
  }

  function Defines(es: seq<Entry>): (r: seq<Item>)
    ensures |r| == |es| && forall i :: 0 <= i < |es| ==> r[i] == Define(es[i])
  {
    seq(|es|, i requires 0 <= i < |es| => Define(es[i]))
  }

  // ----- the section the printer reads

  function LowerChar(c: char): char {
    if 'A' <= c <= 'Z' then 'a' + (c - 'A') else c
  }

  /** `strcasecmp (a, b) == 0` in the C locale. */
  predicate SameIgnoringCase(a: string, b: string) {
    |a| == |b| && forall i :: 0 <= i < |a| ==> LowerChar(a[i]) == LowerChar(b[i])
  }

  /** The definitions up to the next section header. */
  function Collect(items: seq<Item>): seq<Entry> {
    if items == [] || items[0].Section? then []
    else (if items[0].Define? then [items[0].entry] else []) + Collect(items[1..])
  }

  /** The definitions of the first section with that name. */
  function SectionEntries(items: seq<Item>, name: string): seq<Entry> {
    if items == [] then []
    else if items[0].Section? && SameIgnoringCase(items[0].name, name) then Collect(items[1..])
    else SectionEntries(items[1..], name)
  }

  lemma {:induction false} CollectDefines(es: seq<Entry>)
    ensures Collect(Defines(es)) == es
  {
    if es != [] {
      assert Defines(es)[1..] == Defines(es[1..]);
      CollectDefines(es[1..]);
      assert es == [es[0]] + es[1..];
    }
  }

  /** What parsing stored is what printing the ODBC section reads. */
  lemma ParsedSection(es: seq<Entry>, name: string)
    requires SameIgnoringCase("ODBC", name)
    ensures SectionEntries([Section("ODBC")] + Defines(es), name) == es
  {
    assert ([Section("ODBC")] + Defines(es))[1..] == Defines(es);
    CollectDefines(es);
  }

  /** Letters match in either case, and nothing else does. */
  lemma LettersFold(c: char, d: char)
    ensures LowerChar(c) == LowerChar(d) <==>
              c == d
              || ('A' <= c <= 'Z' && 'a' <= d <= 'z' && d - 'a' == c - 'A')
              || ('A' <= d <= 'Z' && 'a' <= c <= 'z' && c - 'a' == d - 'A')
  {
  }

  /** Two names are the same when they differ at most in the case of letters. */
  lemma NamesFold(a: string, b: string)
    ensures SameIgnoringCase(a, b) <==>
              |a| == |b| && forall i :: 0 <= i < |a| ==>
                a[i] == b[i]
                || ('A' <= a[i] <= 'Z' && 'a' <= b[i] <= 'z' && b[i] - 'a' == a[i] - 'A')
                || ('A' <= b[i] <= 'Z' && 'a' <= a[i] <= 'z' && a[i] - 'a' == b[i] - 'A')
  {
    if |a| == |b| {
      forall i | 0 <= i < |a|
        ensures LowerChar(a[i]) == LowerChar(b[i]) <==>
                  a[i] == b[i]
                  || ('A' <= a[i] <= 'Z' && 'a' <= b[i] <= 'z' && b[i] - 'a' == a[i] - 'A')
                  || ('A' <= b[i] <= 'Z' && 'a' <= a[i] <= 'z' && a[i] - 'a' == b[i] - 'A')
      {
        LettersFold(a[i], b[i]);
      }
    }
    hide LowerChar;
  }

  lemma {:induction false} CollectStops(es: seq<Entry>, tail: seq<Item>)
    requires tail == [] || tail[0].Section?
    ensures Collect(Defines(es) + tail) == es
  {
    if es == [] {
      assert Defines(es) + tail == tail;
    } else {
      assert (Defines(es) + tail)[1..] == Defines(es[1..]) + tail;
      CollectStops(es[1..], tail);
      assert es == [es[0]] + es[1..];
    }
  }

  /** Continuation lines and blank entries define nothing. */
  lemma {:induction false} CollectSkips(a: seq<Item>, i: Item, b: seq<Item>)
    requires i.Continue? || i.Blank?
    ensures Collect(a + [i] + b) == Collect(a + b)
  {
    if a == [] {
      assert (a + [i] + b)[1..] == b && a + b == b;
      assert [] + Collect(b) == Collect(b);
    } else {
      assert (a + [i] + b)[1..] == a[1..] + [i] + b && (a + b)[1..] == a[1..] + b;
      CollectSkips(a[1..], i, b);
    }
  }

  /** What is printed of a section is its definitions: those after the first header of that name,
      in any case, up to the next header of any name. */
  lemma {:induction false} FirstSectionOnly(before: seq<Item>, header: string, es: seq<Entry>, tail: seq<Item>,
                                            name: string)
    requires forall i :: i in before && i.Section? ==> !SameIgnoringCase(i.name, name)
    requires SameIgnoringCase(header, name) && (tail == [] || tail[0].Section?)
    ensures SectionEntries(before + [Section(header)] + Defines(es) + tail, name) == es
  {
    var items := before + [Section(header)] + Defines(es) + tail;
    if before == [] {
      assert items[1..] == Defines(es) + tail;
      CollectStops(es, tail);
    } else {
      assert before[0] in before;
      assert items[1..] == before[1..] + [Section(header)] + Defines(es) + tail;
      FirstSectionOnly(before[1..], header, es, tail, name);
    }
  }

  /** A name without a header prints nothing. */
  lemma {:induction false} NoSuchSection(items: seq<Item>, name: string)
    requires forall i :: i in items && i.Section? ==> !SameIgnoringCase(i.name, name)
    ensures SectionEntries(items, name) == []
  {
    if items != [] {
      assert items[0] in items;
      NoSuchSection(items[1..], name);
    }
  }

  predicate ItemNoNul(i: Item) {
    match i
    case Section(name) => NoNul(name)
    case Define(e) => NoNul(e.id) && NoNul(e.value)
    case Continue(v) => NoNul(v)
    case Blank => true
  }

  /** Settled pointers read as proper C strings. */
  lemma ItemsNoNul(b: seq<char>, es: seq<CfgEntry>)
    requires forall e :: e in es ==> EntrySettled(b, e, |b|)
    ensures forall i :: i in ItemsOf(b, es) ==> ItemNoNul(i)
  {
    forall i | 0 <= i < |es| ensures ItemNoNul(ItemOf(b, es[i])) {
      assert es[i] in es;
      DerefNoNul(b, es[i].section);
      DerefNoNul(b, es[i].id);
      DerefNoNul(b, es[i].value);
    }
  }

  lemma DerefNoNul(b: seq<char>, p: CPtr)
    requires Settled(b, p, |b|)
    ensures NoNul(Deref(b, p))
  {
    if p.Image? {
      assert Terminated(b, p.offset) by {
        var k :| 0 <= k < |b[p.offset..|b|]| && b[p.offset..|b|][k] == NUL;
        assert b[p.offset + k] == NUL;
      }
      TextAtEnds(b, p.offset);
    }
  }

  /** The configuration stored for a closed string prints to a closed string that parses to
      the same stored configuration. */
  lemma StoredNormalForm(s: string, name: string)
    requires Closed(s) && SameIgnoringCase("ODBC", name)
    ensures var stored := [Section("ODBC")] + Defines(Parse(s));
            var printed := Print(SectionEntries(stored, name));
            Closed(printed) && [Section("ODBC")] + Defines(Parse(printed)) == stored
  {
    ParsedSection(Parse(s), name);
    NormalForm(s);
  }
}
