/** The configuration object of the driver manager: the parser that cuts its image up in
    place, the entry cursor, and the printer that appends into a bounded buffer. */
module ConfigObject {
  import opened CInt
  import opened CStrings
  import opened ConnString
  import opened Config

  /** The type bits of the configuration's flags. */
  datatype Kind = NoKind | SectionKind | DefineKind | ContinueKind

  class Configuration {
    var image: array?<char>
    var entries: seq<CfgEntry>
    var cursor: nat
    var valid: bool
    var eof: bool
    var kind: Kind
    var section: CPtr
    var id: CPtr
    var value: CPtr
    var dirty: bool

    constructor ()
      ensures WellFormed() && image == null && !valid && entries == []
    {
      image, entries, cursor := null, [], 0;
      valid, eof, kind, dirty := false, false, NoKind, false;
      section, id, value := Null, Null, Null;
    }

    function Bytes(): seq<char>
      reads this`image, image
    {
      if image == null then [] else image[..]
    }

    ghost predicate WellFormed()
      reads this`image, this`entries, image
    {
      forall e :: e in entries ==> EntrySettled(Bytes(), e, |Bytes()|)
    }

    /** The entries as text. */
    function Contents(): seq<Item>
      reads this`image, this`entries, image
    {
      ItemsOf(Bytes(), entries)
    }

    /** `_iodbcdm_cfg_freeimage`: everything back to zero. */
    method FreeImage()
      modifies this
      ensures image == null && entries == [] && cursor == 0 && !valid && !eof && !dirty && kind == NoKind
      ensures section == Null && id == Null && value == Null
    {
      image, entries, cursor := null, [], 0;
      valid, eof, kind, dirty := false, false, NoKind, false;
      section, id, value := Null, Null, Null;
    }

    /** `_iodbcdm_cfg_storeentry` with `dynamic == 0`: append the pointers as they are. */
    method StoreEntry(e: CfgEntry)
      modifies this`entries
      ensures entries == old(entries) + [e]
    {
      entries := entries + [e];
    }

    // ----- parsing

    /** The image holds the unread rest of the string from `s` on. */
    ghost predicate Unread(s: nat, rest: string)
      reads this, image
    {
      image != null && s + |rest| + 1 == image.Length && image[s..] == rest + [NUL] && NoNul(rest)
    }

    /** The first inner loop: move to the `;` outside braces, or to the terminator. */
    method ScanToken(s: nat, ghost rest: string) returns (cp: nat)
      requires Unread(s, rest) && Closed(rest)
      ensures cp == s + Cut(rest, false)
    {
      cp := s;
      while image[cp] != NUL && image[cp] != ';'
        invariant s <= cp < image.Length
        invariant Closed(rest[cp - s..]) && cp - s + Cut(rest[cp - s..], false) == Cut(rest, false)
        decreases image.Length - cp
      {
        assert image[cp] == image[s..][cp - s] == rest[cp - s];
        assert rest[cp - s..][1..] == rest[cp + 1 - s..];
        if image[cp] == '{' {
          cp := cp + 1;
          while image[cp] != NUL && image[cp] != '}'
            invariant s < cp < image.Length
            invariant !EndsInside(rest[cp - s..], true)
            invariant cp - s + Cut(rest[cp - s..], true) == Cut(rest, false)
            decreases image.Length - cp
          {
            assert image[cp] == image[s..][cp - s] == rest[cp - s];
            assert rest[cp - s..][1..] == rest[cp + 1 - s..];
            cp := cp + 1;
          }
          assert image[cp] == image[s..][cp - s];
          assert rest[cp - s..] != "" ==> rest[cp - s..][1..] == rest[cp + 1 - s..];
        }
        cp := cp + 1;
      }
      assert image[cp] == image[s..][cp - s];
    }

    /** The second inner loop: move to the first `=` of the token, or to its terminator. */
    method FindEquals(s: nat, ghost token: string) returns (cp: nat)
      requires image != null && s + |token| < image.Length
      requires image[s..s + |token|] == token && NoNul(token) && image[s + |token|] == NUL
      ensures cp == s + FirstEq(token)
    {
      cp := s;
      while image[cp] != NUL && image[cp] != '='
        invariant s <= cp <= s + |token|
        invariant cp - s + FirstEq(token[cp - s..]) == FirstEq(token)
        decreases s + |token| - cp
      {
        assert image[cp] == image[s..s + |token|][cp - s] == token[cp - s];
        assert token[cp - s..][1..] == token[cp + 1 - s..];
        cp := cp + 1;
      }
      assert cp < s + |token| ==> image[cp] == image[s..s + |token|][cp - s];
    }

    /** Terminate the token that starts at `s`; the next one starts at `n`. */
    method TerminateToken(s: nat, ghost rest: string) returns (n: nat)
      requires Unread(s, rest) && rest != "" && Closed(rest)
      modifies image
      ensures image[..] == old(image[..])[s + Cut(rest, false) := NUL]
      ensures n == s + Cut(rest, false) + (if Cut(rest, false) < |rest| then 1 else 0)
    {
      var cp := ScanToken(s, rest);
      assert image[cp] == image[s..][cp - s];
      if image[cp] != NUL {
        image[cp] := NUL;
        n := cp + 1;
      } else {
        n := cp;
      }
    }

    /** Split the terminated token at its first `=` and store it, or store it under DSN when
        it comes first, or drop it. */
    method StoreToken(s: nat, first: bool, ghost token: string)
      requires image != null && s + |token| < image.Length
      requires image[s..s + |token|] == token && NoNul(token) && image[s + |token|] == NUL
      modifies this`entries, image
      ensures image[..] == old(image[..])[s + FirstEq(token) := NUL]
      ensures entries == old(entries) + TokenEntries(s, token, first)
    {
      var cp := FindEquals(s, token);
      if image[cp] != NUL {
        image[cp] := NUL;
        StoreEntry(CfgEntry(Null, Image(s), Image(cp + 1)));
      } else if first {
        StoreEntry(CfgEntry(Null, Literal("DSN"), Image(s)));
      }
    }

    /** One round of the token loop. */
    method ParseToken(s: nat, first: bool, ghost rest: string, ghost items: seq<Item>) returns (n: nat)
      requires Parsing(Bytes(), entries, s, rest, items) && rest != "" && Closed(rest)
      modifies this`entries, image
      ensures image == old(image) && image != null && n < image.Length
      ensures Parsing(Bytes(), entries, n, AfterToken(rest), items + Defines(Entries([FirstToken(rest)], first)))
    {
      hide Closed, ItemsOf, Entries, Defines, FirstEq, TokenEntries, Cut, EndsInside, Parsing, AfterToken, FirstToken;
      ghost var b, es, token := Bytes(), entries, FirstToken(rest);
      TokenBytes(b, es, s, rest, items);
      RoundKeepsParsing(b, es, s, rest, items, first);
      n := TerminateToken(s, rest);
      assert image[s..s + |token|] == b[s..s + |token|];
      StoreToken(s, first, token);
    }

    /** `_iodbcdm_cfg_parse_str_Internal`: the whole token loop over a private copy of the
        string. The stored pointers read back as exactly the parsed entries. */
    method ParseStr(str: Option<string>) returns (ret: int)
      requires str.Some? ==> NoNul(str.value) && Closed(str.value)
      modifies this
      ensures ret == 0 && WellFormed() && (image != null ==> fresh(image))
      ensures str.None? ==> !valid && entries == []
      ensures str.Some? ==> valid && dirty && Contents() == [Section("ODBC")] + Defines(Parse(str.value))
    {
      hide Parsing, ItemsOf, EntrySettled, Defines, Parse;
      FreeImage();
      if str.None? {
        return 0;
      }
      image := CopyOf(str.value);
      StoreEntry(CfgEntry(Literal("ODBC"), Null, Null));
      assert entries == [CfgEntry(Literal("ODBC"), Null, Null)] && Bytes() == str.value + [NUL];
      ParsingStarts(str.value);
      StoreTokens(str.value, [Section("ODBC")]);
      ParsingEnds(Bytes(), entries, [Section("ODBC")] + Defines(Parse(str.value)));
      valid, dirty := true, true;
      return 0;
    }

    /** The token loop, from the start of the image to its terminator. */
    method StoreTokens(ghost text: string, ghost start: seq<Item>)
      requires image != null && image.Length > 0 && Parsing(Bytes(), entries, 0, text, start) && Closed(text)
      modifies this`entries, image
      ensures Parsing(Bytes(), entries, |Bytes()| - 1, "", start + Defines(Parse(text)))
    {
      hide Parsing;
      hide Defines;
      hide Entries;
      hide Tokens;
      hide AfterToken;
      hide EndsInside;
      var s: nat, count: nat := 0, 0;
      ghost var rest, items, todo := text, start, Defines(Parse(text));
      while image[s] != NUL
        invariant image == old(image) && Closed(rest)
        invariant s < image.Length && Parsing(Bytes(), entries, s, rest, items)
        invariant todo == Defines(Entries(Tokens(rest), count == 0))
        invariant items + todo == start + Defines(Parse(text))
        decreases |rest|
      {
        AtEndExactly(Bytes(), entries, s, rest, items);
        AfterTokenClosed(rest);
        ghost var added, todo' := TokenStep(rest, count == 0, todo);
        s := ParseToken(s, count == 0, rest, items);
        assert items + (added + todo') == items + added + todo';
        items, todo, rest, count := items + added, todo', AfterToken(rest), count + 1;
      }
      AtEndExactly(Bytes(), entries, s, rest, items);
      assert items + [] == items;
    }

    // ----- printing

    /** `_iodbcdm_cfg_rewind` */
    method Rewind() returns (ret: int)
      modifies this`cursor, this`eof, this`kind
      ensures ret == if valid then 0 else -1
      ensures valid ==> cursor == 0 && !eof && kind == NoKind
      ensures !valid ==> cursor == old(cursor) && eof == old(eof) && kind == old(kind)
    {
      if !valid {
        return -1;
      }
      cursor, eof, kind := 0, false, NoKind;
      return 0;
    }

    /** What the cursor fields say about an item. */
    ghost predicate Shows(i: Item)
      reads this, image
    {
      match i
      case Section(name) => kind == SectionKind && Deref(Bytes(), section) == name
      case Define(e) => kind == DefineKind && Deref(Bytes(), id) == e.id && Deref(Bytes(), value) == e.value
      case Continue(v) => kind == ContinueKind && Deref(Bytes(), value) == v
      case Blank => false
    }

    /** Put an entry into the cursor fields, unless it is blank. */
    method ShowEntry(e: CfgEntry) returns (shown: bool)
      requires kind == NoKind
      modifies this`kind, this`section, this`id, this`value
      ensures shown <==> ItemOf(Bytes(), e) != Blank
      ensures if shown then Shows(ItemOf(Bytes(), e)) else kind == NoKind
    {
      hide TextAt, Bytes, Deref;
      if e.section != Null {
        section, kind := e.section, SectionKind;
        return true;
      }
      if e.value != Null {
        value := e.value;
        if e.id != Null {
          id, kind := e.id, DefineKind;
        } else {
          kind := ContinueKind;
        }
        return true;
      }
      return false;
    }

    /** `_iodbcdm_cfg_nextentry`: move past blank entries to the next one, or to the end. */
    method NextEntry() returns (ret: int)
      modifies this`cursor, this`eof, this`kind, this`section, this`id, this`value
      ensures !valid || old(eof) ==> ret == -1 && cursor == old(cursor)
      ensures valid && !old(eof) ==>
                && old(cursor) <= cursor && ret == (if cursor <= |entries| && !eof then 0 else -1)
                && (ret == 0 ==>
                      && old(cursor) < cursor <= |entries| && Shows(Contents()[cursor - 1])
                      && forall k :: old(cursor) <= k < cursor - 1 ==> Contents()[k] == Blank)
                && (ret == -1 ==> forall k :: old(cursor) <= k < |entries| ==> Contents()[k] == Blank)
    {
      hide TextAt, Bytes, ItemsOf, ItemOf, Deref;
      if !valid || eof {
        return -1;
      }
      kind, id, value := NoKind, Null, Null;
      while true
        invariant old(cursor) <= cursor && !eof && kind == NoKind
        invariant forall k :: old(cursor) <= k < cursor && k < |entries| ==> Contents()[k] == Blank
        decreases |entries| - cursor
      {
        if cursor >= |entries| {
          eof := true;
          return -1;
        }
        var e := entries[cursor];
        assert Contents()[cursor] == ItemOf(Bytes(), e);
        cursor := cursor + 1;
        var shown := ShowEntry(e);
        if shown {
          return 0;
        }
      }
    }

    /** A C string pointer's text, as the callee reads it. */
    function Read(p: CPtr): string
      reads this`image, image
    {
      Deref(Bytes(), p)
    }

    /** `CATBUF`: append, and report whether everything fitted. When it did not, the buffer
        holds what fits of any text the appended one begins. */
    method CatBuf(buf: array<char>, piece: string, ghost text: string, ghost full: string) returns (ok: bool)
      requires NoNul(piece) && Terminated(buf[..], 0) && TextAt(buf[..], 0) == text && text + piece <= full
      requires buf.Length > 0
      modifies buf
      ensures ok <==> |text + piece| < buf.Length
      ensures Terminated(buf[..], 0)
      ensures ok ==> TextAt(buf[..], 0) == text + piece
      ensures !ok ==> |full| >= buf.Length && TextAt(buf[..], 0) == Fitting(full, buf.Length)
    {
      var need := StrCat(buf, piece);
      ok := need < buf.Length;
      if !ok {
        assert Fitting(text + piece, buf.Length) == Fitting(full, buf.Length);
      }
    }

    /** Append one definition, with its separator. */
    method PutDefine(buf: array<char>, ghost done: seq<Entry>, ghost goal: seq<Entry>) returns (ok: bool)
      requires image != buf && NoNul(Read(id)) && NoNul(Read(value))
      requires Terminated(buf[..], 0) && TextAt(buf[..], 0) == Print(done) && |Print(done)| < buf.Length
      requires done + [Entry(Read(id), Read(value))] <= goal
      modifies buf
      ensures Terminated(buf[..], 0)
      ensures ok ==> TextAt(buf[..], 0) == Print(done + [Entry(Read(id), Read(value))])
                     && |TextAt(buf[..], 0)| < buf.Length
      ensures !ok ==> |Print(goal)| >= buf.Length && TextAt(buf[..], 0) == Fitting(Print(goal), buf.Length)
    {
      DefineFits(done, Entry(Read(id), Read(value)), goal);
      TextAtEnds(buf[..], 0);
      hide Print, TextAt, Terminated, Deref;
      ghost var t, full := Print(done), Print(goal);
      if buf[0] != NUL {
        ok := CatBuf(buf, ";", t, full);
        if !ok {
          return;
        }
        t := t + ";";
      }
      ok := CatBuf(buf, Read(id), t, full);
      if !ok {
        return;
      }
      ok := CatBuf(buf, "=", t + Read(id), full);
      if !ok {
        return;
      }
      ok := CatBuf(buf, Read(value), t + Read(id) + "=", full);
    }

    /** `_iodbcdm_cfg_to_string`. On a valid configuration it returns 0 exactly when the whole
        text of the first section with that name fits with its terminator; otherwise it
        returns -1 and leaves the longest prefix that fits. */
    method ToString(name: string, buf: array<char>) returns (ret: int)
      requires WellFormed() && buf.Length > 0 && image != buf
      modifies this`cursor, this`eof, this`kind, this`section, this`id, this`value, buf
      ensures WellFormed() && Contents() == old(Contents())
      ensures !valid ==> ret == -1 && buf[..] == old(buf[..])
      ensures valid ==>
                var full := Print(SectionEntries(Contents(), name));
                && (ret == 0 <==> |full| < buf.Length) && (ret == 0 || ret == -1)
                && Terminated(buf[..], 0) && TextAt(buf[..], 0) == Fitting(full, buf.Length)
    {
      var r := Rewind();
      if r == -1 {
        return -1;
      }
      ghost var goal := SectionEntries(Contents(), name);
      buf[0] := NUL;
      TextPrefix(buf[..], 0);
      assert Contents()[0..] == Contents();
      ret := PrintSection(name, buf, goal);
    }

    /** `NextEntry`, and what it means for the definitions still to print. */
    method Advance(ghost atSection: bool, ghost name: string, ghost done: seq<Entry>, ghost goal: seq<Entry>)
      returns (ret: int, ghost item: Item)
      requires valid && !eof && WellFormed() && Ahead(Contents(), cursor, atSection, name, done, goal)
      modifies this`cursor, this`eof, this`kind, this`section, this`id, this`value
      ensures ret != 0 ==> done == goal
      ensures ret == 0 ==>
                && old(cursor) < cursor <= |entries| && !eof && Shows(item) && ItemNoNul(item)
                && Passed(item, Contents(), cursor, atSection, name, done, goal)
    {
      ghost var items, from := Contents(), cursor;
      ItemsNoNul(Bytes(), entries);
      hide Ahead, ItemsOf, EntrySettled, TextAt, Deref, Passed, ItemNoNul;
      AheadInside(items, from, atSection, name, done, goal);
      ret := NextEntry();
      item := Blank;
      assert Contents() == items;
      if ret != 0 {
        EndReached(items, from, atSection, name, done, goal);
      } else {
        NextItem(items, from, cursor, atSection, name, done, goal);
        item := items[cursor - 1];
        assert item in items;
      }
    }

    /** The printing loop, from the first entry on. */
    method PrintSection(name: string, buf: array<char>, ghost goal: seq<Entry>) returns (ret: int)
      requires valid && !eof && WellFormed() && image != buf && buf.Length > 0
      requires Terminated(buf[..], 0) && TextAt(buf[..], 0) == ""
      requires Ahead(Contents(), cursor, false, name, [], goal)
      modifies this`cursor, this`eof, this`kind, this`section, this`id, this`value, buf
      ensures Bytes() == old(Bytes())
      ensures (ret == 0 <==> |Print(goal)| < buf.Length) && (ret == 0 || ret == -1)
      ensures Terminated(buf[..], 0) && TextAt(buf[..], 0) == Fitting(Print(goal), buf.Length)
    {
      hide Ahead, ItemsOf, EntrySettled, Deref;
      ghost var done: seq<Entry> := [];
      var atSection := false;
      while true
        invariant valid && !eof && WellFormed() && Bytes() == old(Bytes())
        invariant Terminated(buf[..], 0) && TextAt(buf[..], 0) == Print(done) && |Print(done)| < buf.Length
        invariant Ahead(Contents(), cursor, atSection, name, done, goal)
        decreases |entries| - cursor
      {
        var r; ghost var item;
        r, item := Advance(atSection, name, done, goal);
        if r != 0 {
          break;
        }
        if atSection {
          if kind == SectionKind {
            break;
          }
          if kind == DefineKind {
            var ok := PutDefine(buf, done, goal);
            if !ok {
              return -1;
            }
            done := done + [Entry(Read(id), Read(value))];
          }
        } else if kind == SectionKind && SameIgnoringCase(Read(section), name) {
          atSection := true;
        }
      }
      return 0;
    }
  }

  /** Parse a string, print it into `buf` and, when it fitted, parse what was printed: the
      second configuration reads as the first. */
  method Reparse(text: string, buf: array<char>) returns (first: Configuration, second: Configuration, ret: int)
    requires NoNul(text) && Closed(text) && buf.Length > 0
    modifies buf
    ensures fresh(first) && fresh(second) && first.WellFormed() && second.WellFormed()
    ensures first.valid && first.Contents() == [Section("ODBC")] + Defines(Parse(text))
    ensures ret == 0 <==> |Print(Parse(text))| < buf.Length
    ensures ret == 0 ==> second.valid && second.Contents() == first.Contents()
  {
    hide *;
    first := new Configuration();
    second := new Configuration();
    var r := first.ParseStr(Some(text));
    ghost var items := first.Contents();
    ret := first.ToString("ODBC", buf);
    SameName("ODBC");
    ParsedSection(Parse(text), "ODBC");
    if ret == 0 {
      NormalForm(text);
      TextAtEnds(buf[..], 0);
      WholeFits(Print(Parse(text)), buf.Length);
      r := second.ParseStr(Some(TextAt(buf[..], 0)));
    }
  }

  lemma SameName(name: string)
    ensures SameIgnoringCase(name, name)
  {
  }

  lemma WholeFits(s: string, size: nat)
    requires |s| < size
    ensures Fitting(s, size) == s
  {
  }

  /** The definitions still to print, from item `i` on. */
  ghost predicate Ahead(items: seq<Item>, i: nat, atSection: bool, name: string, done: seq<Entry>, goal: seq<Entry>) {
    i <= |items|
    && (if atSection then done + Collect(items[i..]) == goal
        else done == [] && SectionEntries(items[i..], name) == goal)
  }

  lemma EndReached(items: seq<Item>, i: nat, atSection: bool, name: string, done: seq<Entry>, goal: seq<Entry>)
    requires Ahead(items, i, atSection, name, done, goal)
    requires forall k :: i <= k < |items| ==> items[k] == Blank
    ensures done == goal
  {
    BlanksSkipped(items, i, |items|, name);
    assert items[|items|..] == [];
  }

  /** How what is ahead depends on the item just passed. */
  ghost predicate Passed(item: Item, items: seq<Item>, j: nat, atSection: bool, name: string, done: seq<Entry>,
                         goal: seq<Entry>) {
    match item
    case Section(s) =>
      if atSection then done == goal
      else Ahead(items, j, SameIgnoringCase(s, name), name, done, goal)
    case Define(e) =>
      if atSection then done + [e] <= goal && Ahead(items, j, true, name, done + [e], goal)
      else Ahead(items, j, false, name, done, goal)
    case _ => Ahead(items, j, atSection, name, done, goal)
  }

  lemma ItemStep(items: seq<Item>, i: nat, name: string)
    requires i < |items|
    ensures Collect(items[i..]) ==
              if items[i].Section? then []
              else if items[i].Define? then [items[i].entry] + Collect(items[i + 1..])
              else Collect(items[i + 1..])
    ensures SectionEntries(items[i..], name) ==
              if items[i].Section? && SameIgnoringCase(items[i].name, name) then Collect(items[i + 1..])
              else SectionEntries(items[i + 1..], name)
  {
    assert items[i..][1..] == items[i + 1..];
    hide SameIgnoringCase;
    assert [] + Collect(items[i + 1..]) == Collect(items[i + 1..]);
  }

  /** One item further, past any blank ones. */
  lemma NextItem(items: seq<Item>, i: nat, j: nat, atSection: bool, name: string, done: seq<Entry>, goal: seq<Entry>)
    requires Ahead(items, i, atSection, name, done, goal)
    requires i < j <= |items| && forall k :: i <= k < j - 1 ==> items[k] == Blank
    ensures Passed(items[j - 1], items, j, atSection, name, done, goal)
  {
    BlanksSkipped(items, i, j - 1, name);
    ItemStep(items, j - 1, name);
    hide Collect, SectionEntries, SameIgnoringCase;
    if atSection {
      DefinesLeft(items[j - 1], done, Collect(items[j..]), goal);
    }
  }

  /** What is left to print after one more definition, or at the end of the section. */
  lemma DefinesLeft(item: Item, done: seq<Entry>, rest: seq<Entry>, goal: seq<Entry>)
    ensures item.Section? && done + [] == goal ==> done == goal
    ensures item.Define? && done + ([item.entry] + rest) == goal ==>
              done + [item.entry] <= goal && done + [item.entry] + rest == goal
  {
    assert done + [] == done;
    if item.Define? {
      assert done + ([item.entry] + rest) == done + [item.entry] + rest;
    }
  }

  lemma DefineFits(done: seq<Entry>, e: Entry, goal: seq<Entry>)
    requires done + [e] <= goal
    ensures Print(done + [e]) == Print(done) + (if Print(done) == "" then "" else ";") + e.id + "=" + e.value
    ensures Print(done + [e]) <= Print(goal)
  {
    PrintGrows(done, e);
    if done != [] {
      PrintHead(done);
    }
    var sep := Print(done) + (if done == [] then "" else ";");
    assert sep + Text(e) == sep + e.id + "=" + e.value;
    assert goal == done + [e] + goal[|done| + 1..];
    PrintPrefix(done + [e], goal[|done| + 1..]);
  }

  lemma AheadInside(items: seq<Item>, i: nat, atSection: bool, name: string, done: seq<Entry>, goal: seq<Entry>)
    requires Ahead(items, i, atSection, name, done, goal)
    ensures i <= |items|
  {
  }

  /** Blank entries do not matter to the printer. */
  lemma {:induction false} BlanksSkipped(items: seq<Item>, i: nat, j: nat, name: string)
    requires i <= j <= |items| && forall k :: i <= k < j ==> items[k] == Blank
    ensures Collect(items[i..]) == Collect(items[j..])
    ensures SectionEntries(items[i..], name) == SectionEntries(items[j..], name)
    decreases j - i
  {
    if i < j {
      assert items[i..][1..] == items[i + 1..];
      BlanksSkipped(items, i + 1, j, name);
    }
  }

  /** The bytes from `s` on are the unread rest of the string, and the stored entries, whose
      text lies before `s`, read as `items`. */
  ghost predicate Parsing(b: seq<char>, es: seq<CfgEntry>, s: nat, rest: string, items: seq<Item>) {
    && s + |rest| + 1 == |b| && b[s..] == rest + [NUL] && NoNul(rest)
    && (forall e :: e in es ==> EntrySettled(b, e, if rest == "" then s + 1 else s))
    && ItemsOf(b, es) == items
  }

  /** A fresh copy of the string, with the section header stored, is ready for its tokens. */
  lemma ParsingStarts(text: string)
    requires NoNul(text)
    ensures Parsing(text + [NUL], [CfgEntry(Literal("ODBC"), Null, Null)], 0, text, [Section("ODBC")])
  {
    assert NoNul("ODBC");
  }

  /** Once no token is left, every entry is settled in the image. */
  lemma ParsingEnds(b: seq<char>, es: seq<CfgEntry>, items: seq<Item>)
    requires |b| > 0 && Parsing(b, es, |b| - 1, "", items)
    ensures ItemsOf(b, es) == items && forall e :: e in es ==> EntrySettled(b, e, |b|)
  {
    hide EntrySettled, ItemsOf;
  }

  /** `strdup`. */
  method CopyOf(text: string) returns (b: array<char>)
    ensures fresh(b) && b[..] == text + [NUL]
  {
    b := new char[|text| + 1](i requires 0 <= i <= |text| => if i < |text| then text[i] else NUL);
  }

  /** What is left once the first token and its separator are gone. */
  function AfterToken(rest: string): string {
    var c := Cut(rest, false);
    if c < |rest| then rest[c + 1..] else ""
  }

  lemma AtEndExactly(b: seq<char>, es: seq<CfgEntry>, s: nat, rest: string, items: seq<Item>)
    requires Parsing(b, es, s, rest, items)
    ensures s < |b| && (b[s] == NUL <==> rest == "") && (rest == "" ==> s == |b| - 1)
    ensures rest == "" ==> Defines(Entries(Tokens(rest), false)) == [] && Defines(Entries(Tokens(rest), true)) == []
  {
  }

  function FirstToken(rest: string): string {
    rest[..Cut(rest, false)]
  }

  /** Where the first token and the rest after it lie in the image. */
  lemma TokenBytes(b: seq<char>, es: seq<CfgEntry>, s: nat, rest: string, items: seq<Item>)
    requires Parsing(b, es, s, rest, items) && rest != ""
    ensures s + |rest| + 1 == |b| && b[s..] == rest + [NUL] && NoNul(rest)
    ensures var token := FirstToken(rest);
            && |token| == Cut(rest, false) && NoNul(token) && b[s..s + |token|] == token
            && |rest| - |AfterToken(rest)| == |token| + (if |token| < |rest| then 1 else 0)
  {
    hide Cut, ItemsOf, EntrySettled;
    var c := Cut(rest, false);
    assert b[s..s + c] == b[s..][..c];
  }

  /** One round in place: terminate the token, then terminate its id. The stored texts do not
      change, the token's entry is added, and the bytes after the token are still unread. */
  lemma RoundKeepsParsing(b: seq<char>, es: seq<CfgEntry>, s: nat, rest: string, items: seq<Item>, first: bool)
    requires Parsing(b, es, s, rest, items) && rest != ""
    ensures var token := FirstToken(rest);
            var b' := b[s + |token| := NUL][s + FirstEq(token) := NUL];
            Parsing(b', es + TokenEntries(s, token, first), s + |rest| - |AfterToken(rest)|, AfterToken(rest),
                    items + Defines(Entries([token], first)))
  {
    hide EntrySettled;
    hide ItemsOf;
    hide Cut;
    hide FirstEq;
    hide Entries;
    hide Defines;
    hide TokenEntries;
    var c, token, after := Cut(rest, false), FirstToken(rest), AfterToken(rest);
    assert b[s..s + c] == b[s..][..c];
    RoundEntries(b, es, s, token, first);
    var b' := b[s + c := NUL][s + FirstEq(token) := NUL];
    RestBytes(b, b', s, c, rest, after);
    var n := s + |rest| - |after|;
    SettledLater(b', es + TokenEntries(s, token, first), s + c + 1, if after == "" then n + 1 else n);
  }

  lemma RoundEntries(b: seq<char>, es: seq<CfgEntry>, s: nat, token: string, first: bool)
    requires s + |token| < |b| && b[s..s + |token|] == token && NoNul(token)
    requires forall e :: e in es ==> EntrySettled(b, e, s)
    ensures var b' := b[s + |token| := NUL][s + FirstEq(token) := NUL];
            && (forall e :: e in es + TokenEntries(s, token, first) ==> EntrySettled(b', e, s + |token| + 1))
            && ItemsOf(b', es + TokenEntries(s, token, first)) == ItemsOf(b, es) + Defines(Entries([token], first))
  {
    var cut := b[s + |token| := NUL];
    ItemsStable(b, cut, es, s);
    assert cut[s..s + |token|] == b[s..s + |token|];
    TokenItems(cut, es, s, token, first);
  }

  lemma RestBytes(b: seq<char>, b': seq<char>, s: nat, c: nat, rest: string, after: string)
    requires s + |rest| + 1 == |b| && b[s..] == rest + [NUL] && NoNul(rest) && |b'| == |b| && c <= |rest|
    requires b'[s + c + 1..] == b[s + c + 1..] && b'[s + c] == NUL
    requires after == if c < |rest| then rest[c + 1..] else ""
    ensures b'[s + |rest| - |after|..] == after + [NUL] && NoNul(after)
  {
    if c < |rest| {
      assert b[s + c + 1..] == b[s..][c + 1..];
      assert (rest + [NUL])[c + 1..] == after + [NUL];
    } else {
      assert b'[s + c..] == [NUL];
    }
  }

  lemma AfterTokenClosed(rest: string)
    requires rest != "" && Closed(rest)
    ensures Closed(AfterToken(rest)) && |AfterToken(rest)| < |rest|
  {
    var c := Cut(rest, false);
    CutStops(rest, false);
    if c < |rest| {
      assert rest == rest[..c + 1] + rest[c + 1..] && rest[..c + 1] == rest[..c] + ";";
      EndsAppend(rest[..c + 1], rest[c + 1..], false);
      EndsAppend(rest[..c], ";", false);
    }
  }

  lemma TokenStep(rest: string, first: bool, todo: seq<Item>) returns (added: seq<Item>, todo': seq<Item>)
    requires rest != "" && todo == Defines(Entries(Tokens(rest), first))
    ensures added == Defines(Entries([FirstToken(rest)], first))
    ensures todo' == Defines(Entries(Tokens(AfterToken(rest)), false)) && todo == added + todo'
  {
    hide Defines, Cut;
    var t, ts := FirstToken(rest), Tokens(AfterToken(rest));
    assert Tokens(rest) == [t] + ts;
    EntriesStep(t, ts, first);
    added, todo' := Defines(Entries([t], first)), Defines(Entries(ts, false));
  }

  lemma EntriesStep(t: string, ts: seq<string>, first: bool)
    ensures Entries([t] + ts, first) == Entries([t], first) + Entries(ts, false)
  {
  }

  /** The entries stored for a token: one, or none. */
  function TokenEntries(s: nat, token: string, first: bool): seq<CfgEntry> {
    var n := FirstEq(token);
    if n < |token| then [CfgEntry(Null, Image(s), Image(s + n + 1))]
    else if first then [CfgEntry(Null, Literal("DSN"), Image(s))]
    else []
  }

  /** Terminating the id in place leaves the old entries alone and gives the new one its text. */
  lemma TokenItems(b: seq<char>, es: seq<CfgEntry>, s: nat, token: string, first: bool)
    requires s + |token| < |b| && b[s..s + |token|] == token && NoNul(token) && b[s + |token|] == NUL
    requires forall e :: e in es ==> EntrySettled(b, e, s)
    ensures var b' := b[s + FirstEq(token) := NUL];
            && (forall e :: e in es + TokenEntries(s, token, first) ==> EntrySettled(b', e, s + |token| + 1))
            && ItemsOf(b', es + TokenEntries(s, token, first)) == ItemsOf(b, es) + Defines(Entries([token], first))
  {
    hide FirstEq, TokenEntries, Entries, Defines, EntrySettled;
    var b' := b[s + FirstEq(token) := NUL];
    var added := TokenEntries(s, token, first);
    ItemsStable(b, b', es, s);
    SettledLater(b', es, s, s + |token| + 1);
    AddedSettled(b', s, token, first);
    AddedItems(b, b', s, token, first);
    ItemsAppend(b', es, added);
  }

  lemma ItemsAppend(b: seq<char>, es: seq<CfgEntry>, added: seq<CfgEntry>)
    ensures ItemsOf(b, es + added) == ItemsOf(b, es) + ItemsOf(b, added)
  {
    hide ItemOf;
  }

  lemma SingleEntry(token: string, first: bool)
    ensures Entries([token], first) == match EntryOf(token, first) case None => [] case Some(e) => [e]
  {
  }

  lemma AddedSettled(b': seq<char>, s: nat, token: string, first: bool)
    requires s + |token| < |b'| && b'[s + |token|] == NUL
    ensures forall e :: e in TokenEntries(s, token, first) ==> EntrySettled(b', e, s + |token| + 1)
  {
    hide FirstEq;
    NewTextsSettled(b', s, |token|, FirstEq(token));
  }

  lemma AddedItems(b: seq<char>, b': seq<char>, s: nat, token: string, first: bool)
    requires s + |token| < |b| && b[s..s + |token|] == token && NoNul(token) && b[s + |token|] == NUL
    requires b' == b[s + FirstEq(token) := NUL]
    ensures ItemsOf(b', TokenEntries(s, token, first)) == Defines(Entries([token], first))
  {
    hide FirstEq, Entries, TextAt, ItemsOf, Defines, EntryOf, NoNul;
    var n := FirstEq(token);
    TokenDefines(token, first);
    if n < |token| {
      SplitTexts(b, b', s, token);
      OneItem(b', CfgEntry(Null, Image(s), Image(s + n + 1)));
    } else if first {
      assert b' == b;
      TextAtIs(b, s, |token|);
      OneItem(b', CfgEntry(Null, Literal("DSN"), Image(s)));
    } else {
      assert ItemsOf(b', []) == [];
    }
  }

  lemma OneItem(b: seq<char>, e: CfgEntry)
    ensures ItemsOf(b, [e]) == [ItemOf(b, e)]
  {
    hide ItemOf;
  }

  /** The items a single token adds. */
  lemma TokenDefines(token: string, first: bool)
    ensures var n := FirstEq(token);
            Defines(Entries([token], first)) ==
              if n < |token| then [Define(Entry(token[..n], token[n + 1..]))]
              else if first then [Define(Entry("DSN", token))]
              else []
  {
    hide FirstEq;
    SingleEntry(token, first);
  }

  lemma NewTextsSettled(b': seq<char>, s: nat, length: nat, n: nat)
    requires n <= length && s + length < |b'| && b'[s + length] == NUL
    ensures Settled(b', Image(s), s + length + 1)
    ensures n < length ==> Settled(b', Image(s + n + 1), s + length + 1)
  {
  }

  lemma SettledLater(b: seq<char>, es: seq<CfgEntry>, limit: nat, limit': nat)
    requires limit <= limit' <= |b| && forall e :: e in es ==> EntrySettled(b, e, limit)
    ensures forall e :: e in es ==> EntrySettled(b, e, limit')
  {
  }

  lemma SplitTexts(b: seq<char>, b': seq<char>, s: nat, token: string)
    requires s + |token| < |b| && b[s..s + |token|] == token && NoNul(token) && b[s + |token|] == NUL
    requires FirstEq(token) < |token| && b' == b[s + FirstEq(token) := NUL]
    ensures TextAt(b', s) == token[..FirstEq(token)]
    ensures TextAt(b', s + FirstEq(token) + 1) == token[FirstEq(token) + 1..]
  {
    hide TextAt, FirstEq, NoNul;
    var n := FirstEq(token);
    assert forall k :: 0 <= k < |token| ==> b[s..s + |token|][k] == b[s + k] == token[k];
    SliceIs(b', s, token[..n]);
    PartsNoNul(token, n);
    TextAtIs(b', s, n);
    SliceIs(b', s + n + 1, token[n + 1..]);
    TextAtIs(b', s + n + 1, |token| - n - 1);
  }

  lemma SliceIs(b: seq<char>, from: nat, t: string)
    requires from + |t| <= |b| && forall k :: 0 <= k < |t| ==> b[from + k] == t[k]
    ensures b[from..from + |t|] == t
  {
  }

  lemma PartsNoNul(t: string, n: nat)
    requires NoNul(t) && n < |t|
    ensures NoNul(t[..n]) && NoNul(t[n + 1..])
  {
  }
}
