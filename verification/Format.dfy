/** The `%f` expansion that runs before `strftime`. */
module Format {
  import opened CStrings

  /** Scanning left to right, every `%f` becomes `us`; everything else is copied. A `%%`
      is not special here, so the `%f` inside `%%f` is replaced as well. */
  function Expand(s: string, us: string): string {
    if s == "" then ""
    else if |s| >= 2 && s[0] == '%' && s[1] == 'f' then us + Expand(s[2..], us)
    else [s[0]] + Expand(s[1..], us)
  }

  predicate Mentions(s: string) {
    exists i :: 0 <= i < |s| - 1 && s[i] == '%' && s[i + 1] == 'f'
  }

  /** Text without `%f` is copied unchanged. */
  lemma {:induction false} ExpandPlain(s: string, us: string)
    requires !Mentions(s)
    ensures Expand(s, us) == s
  {
    if s != "" {
      ExpandPlain(s[1..], us);
    }
  }

  /** Each `%f` is replaced where it stands, independently of the text around it. */
  lemma {:induction false} ExpandAround(a: string, us: string, b: string)
    ensures Expand(a + "%f" + b, us) == Expand(a, us) + us + Expand(b, us)
  {
    var s := a + "%f" + b;
    if a == "" {
      assert s[2..] == b;
    } else if |a| >= 2 && a[0] == '%' && a[1] == 'f' {
      assert s[2..] == a[2..] + "%f" + b;
      ExpandAround(a[2..], us, b);
    } else {
      assert s[1..] == a[1..] + "%f" + b;
      ExpandAround(a[1..], us, b);
    }
  }

  lemma {:induction false} ExpandNoNul(s: string, us: string)
    requires NoNul(s) && NoNul(us)
    ensures NoNul(Expand(s, us))
  {
    if s == "" {
    } else if |s| >= 2 && s[0] == '%' && s[1] == 'f' {
      assert NoNul(s[2..]);
      ExpandNoNul(s[2..], us);
    } else {
      assert NoNul(s[1..]);
      ExpandNoNul(s[1..], us);
    }
  }

  // ----- the six microsecond characters

  function Digit(n: nat): char
    requires n < 10
  {
    '0' + n as char
  }

  function Decimal(n: nat): (s: string)
    ensures |s| >= 1 && NoNul(s)
  {
    if n < 10 then [Digit(n)] else Decimal(n / 10) + [Digit(n % 10)]
  }

  function Zeros(n: nat): (s: string)
    ensures |s| == n && forall i :: 0 <= i < n ==> s[i] == '0'
  {
    seq(n, _ => '0')
  }

  function ZeroPad(s: string, width: nat): (r: string)
    ensures |r| >= width && |r| >= |s|
    ensures NoNul(s) ==> NoNul(r)
  {
    Zeros(if |s| < width then width - |s| else 0) + s
  }

  /** `snprintf(us, 7, "%06d", micros)`: padded to six, cut at six. */
  function Micros(n: int): (us: string)
    ensures |us| == 6 && NoNul(us)
  {
    if n >= 0 then ZeroPad(Decimal(n), 6)[..6]
    else ("-" + ZeroPad(Decimal(-n), 5))[..6]
  }

  function Value(s: string): nat {
    if s == "" then 0
    else Value(s[..|s| - 1]) * 10 + (if '0' <= s[|s| - 1] <= '9' then (s[|s| - 1] - '0') as nat else 0)
  }

  lemma {:induction false} DecimalValue(n: nat)
    ensures Value(Decimal(n)) == n
  {
    var s := Decimal(n);
    if n < 10 {
      assert s[..|s| - 1] == "";
    } else {
      DecimalValue(n / 10);
      assert s[..|s| - 1] == Decimal(n / 10);
    }
  }

  lemma {:induction false} DecimalShort(n: nat, k: nat)
    requires k >= 1 && (k == 1 ==> n < 10) && (k == 2 ==> n < 100) && (k == 3 ==> n < 1000)
    requires (k == 4 ==> n < 10000) && (k == 5 ==> n < 100000) && (k == 6 ==> n < 1000000) && k <= 6
    ensures |Decimal(n)| <= k
  {
    if n >= 10 {
      DecimalShort(n / 10, k - 1);
    }
  }

  lemma {:induction false} LeadingZeros(k: nat, s: string)
    ensures Value(Zeros(k) + s) == Value(s)
    decreases |s| + k
  {
    var t := Zeros(k) + s;
    if s == "" {
      if k > 0 {
        assert t[..|t| - 1] == Zeros(k - 1) + "";
        LeadingZeros(k - 1, "");
      }
    } else {
      assert t[..|t| - 1] == Zeros(k) + s[..|s| - 1];
      LeadingZeros(k, s[..|s| - 1]);
    }
  }

  predicate Digits(s: string) {
    forall i :: 0 <= i < |s| ==> '0' <= s[i] <= '9'
  }

  /** A decimal is digits only, with no leading zero. */
  lemma {:induction false} DecimalDigits(n: nat)
    ensures Digits(Decimal(n)) && (n > 0 ==> Decimal(n)[0] != '0')
  {
    if n >= 10 {
      DecimalDigits(n / 10);
    }
  }

  lemma {:induction false} DecimalLong(n: nat, k: nat)
    requires k <= 6 && (k >= 1 ==> n >= 1) && (k >= 2 ==> n >= 10) && (k >= 3 ==> n >= 100)
    requires (k >= 4 ==> n >= 1000) && (k >= 5 ==> n >= 10000) && (k >= 6 ==> n >= 100000)
    ensures |Decimal(n)| >= k
  {
    if k >= 2 {
      DecimalLong(n / 10, k - 1);
    }
  }

  lemma PaddedExact(n: nat, width: nat)
    requires |Decimal(n)| <= width
    ensures |ZeroPad(Decimal(n), width)| == width && Digits(ZeroPad(Decimal(n), width))
    ensures Value(ZeroPad(Decimal(n), width)) == n
  {
    DecimalValue(n);
    DecimalDigits(n);
    LeadingZeros(width - |Decimal(n)|, Decimal(n));
    hide Decimal, Value;
  }

  /** For a real microsecond count the six characters are digits, and are its decimal. */
  lemma MicrosExact(n: int)
    requires 0 <= n <= 999999
    ensures Digits(Micros(n)) && Value(Micros(n)) == n
  {
    DecimalShort(n, 6);
    PaddedExact(n, 6);
    hide Decimal, ZeroPad, Value;
    assert Micros(n) == ZeroPad(Decimal(n), 6);
  }

  /** A small negative count is a sign and five digits. */
  lemma MicrosSigned(n: int)
    requires -99999 <= n < 0
    ensures Micros(n)[0] == '-' && Digits(Micros(n)[1..]) && Value(Micros(n)[1..]) == -n
  {
    DecimalShort(-n, 5);
    PaddedExact(-n, 5);
    hide Decimal, ZeroPad, Value, Digits;
    assert Micros(n)[1..] == ZeroPad(Decimal(-n), 5);
  }

  lemma LongerThan(m: nat, kept: nat)
    requires (kept == 5 && m >= 100000) || (kept == 6 && m >= 1000000)
    ensures |Decimal(m)| > kept
  {
    DecimalLong(m / 10, kept);
    assert Decimal(m) == Decimal(m / 10) + [Digit(m % 10)];
    hide Decimal;
  }

  lemma NotPadded(d: string, width: nat)
    requires |d| >= width
    ensures ZeroPad(d, width) == d
  {
    assert "" + d == d;
  }

  /** What is kept and what is cut of a long decimal. */
  lemma LongDecimal(m: nat, kept: nat)
    requires (kept == 5 && m >= 100000) || (kept == 6 && m >= 1000000)
    ensures var d := Decimal(m);
            && |d| > kept && ZeroPad(d, kept) == d
            && Digits(d[..kept]) && Digits(d[kept..]) && d[0] != '0' && Value(d[..kept] + d[kept..]) == m
  {
    LongerThan(m, kept);
    DecimalDigits(m);
    DecimalValue(m);
    hide *;
    NotPadded(Decimal(m), kept);
    SplitDigits(Decimal(m), kept);
  }

  lemma SplitDigits(d: string, kept: nat)
    requires kept <= |d| && Digits(d)
    ensures Digits(d[..kept]) && Digits(d[kept..]) && d[..kept] + d[kept..] == d
  {
  }

  /** A count that does not fit keeps its sign and its first digits; `rest` is what is cut. */
  lemma MicrosCut(n: int) returns (rest: string)
    requires n > 999999 || n < -99999
    ensures rest != "" && Digits(rest)
    ensures if n > 0 then Digits(Micros(n)) && Micros(n)[0] != '0' && Value(Micros(n) + rest) == n
            else Micros(n)[0] == '-' && Digits(Micros(n)[1..]) && Micros(n)[1] != '0'
                 && Value(Micros(n)[1..] + rest) == -n
  {
    hide Decimal, Value, ZeroPad, Digits;
    if n > 0 {
      LongDecimal(n, 6);
      rest := Decimal(n)[6..];
    } else {
      LongDecimal(-n, 5);
      rest := Decimal(-n)[5..];
      SignedSlice(Decimal(-n));
    }
  }

  lemma SignedSlice(d: string)
    requires |d| > 5
    ensures ("-" + d)[..6][1..] == d[..5] && ("-" + d)[..6][1] == d[0]
  {
  }

  // ----- the loop

  const BUFFER_SIZE: nat := 1024

  /** The inner loop: copy the six characters while there is room. */
  method PutMicros(us: string, fmtbuf: array<char>, start: nat) returns (dst: nat)
    requires |us| == 6 && fmtbuf.Length == BUFFER_SIZE && start < BUFFER_SIZE
    modifies fmtbuf
    ensures dst == Min(start + 6, BUFFER_SIZE - 1)
    ensures fmtbuf[..dst] == old(fmtbuf[..start]) + us[..dst - start]
  {
    dst := start;
    var i := 0;
    while i < 6 && dst < BUFFER_SIZE - 1
      invariant 0 <= i <= 6 && dst == start + i <= BUFFER_SIZE - 1
      invariant fmtbuf[..dst] == old(fmtbuf[..start]) + us[..i]
    {
      fmtbuf[dst] := us[i];
      dst, i := dst + 1, i + 1;
    }
  }

  /** What is in the buffer after `out` has been written, as far as it fits. */
  ghost predicate Holds(fmtbuf: array<char>, dst: nat, out: string)
    requires fmtbuf.Length == BUFFER_SIZE
    reads fmtbuf
  {
    dst == Min(|out|, BUFFER_SIZE - 1) && fmtbuf[..dst] == out[..dst]
  }

  /** One round of the loop, on the text still to be expanded. */
  lemma Advance(text: string, p: nat, us: string, out: string)
    requires p < |text|
    ensures out + Expand(text[p..], us)
            == if p + 1 < |text| && text[p] == '%' && text[p + 1] == 'f'
               then out + us + Expand(text[p + 2..], us)
               else out + [text[p]] + Expand(text[p + 1..], us)
  {
  }

  /** The expansion loop of `_formatDate`. It terminates with exactly the first 1023
      characters of the expanded text in the buffer, and a terminator after them. */
  method ExpandMicros(src: array<char>, us: string, fmtbuf: array<char>)
    requires Terminated(src[..], 0) && |us| == 6 && NoNul(us)
    requires fmtbuf.Length == BUFFER_SIZE && fmtbuf != src
    modifies fmtbuf
    ensures Terminated(fmtbuf[..], 0)
    ensures TextAt(fmtbuf[..], 0) == Fitting(Expand(TextAt(src[..], 0), us), BUFFER_SIZE)
  {
    hide Expand, TextAt;
    ghost var text := TextAt(src[..], 0);
    TextAtEnds(src[..], 0);
    assert |text| < src.Length && src[|text|] == NUL;
    assert forall i :: 0 <= i < |text| ==> src[i] == text[i] && src[i] != NUL;
    var p: nat, dst: nat := 0, 0;
    ghost var out := "";
    while src[p] != NUL && dst < BUFFER_SIZE - 1
      invariant 0 <= p <= |text| && Holds(fmtbuf, dst, out)
      invariant out + Expand(text[p..], us) == Expand(text, us)
      decreases |text| - p
    {
      Advance(text, p, us, out);
      if src[p] == '%' && src[p + 1] == 'f' {
        dst := PutMicros(us, fmtbuf, dst);
        out, p := out + us, p + 2;
      } else {
        fmtbuf[dst] := src[p];
        out, dst, p := out + [src[p]], dst + 1, p + 1;
      }
    }
    fmtbuf[dst] := NUL;
    FirstPart(fmtbuf[..], dst, out, p, text, us);
  }

  /** What `strftime` is given: the format with the microseconds in place of each `%f`. */
  method PrepareFormat(src: array<char>, micros: int, fmtbuf: array<char>)
    requires Terminated(src[..], 0)
    requires fmtbuf.Length == BUFFER_SIZE && fmtbuf != src
    modifies fmtbuf
    ensures Terminated(fmtbuf[..], 0)
    ensures var full := Expand(TextAt(src[..], 0), Micros(micros));
            TextAt(fmtbuf[..], 0) == if |full| <= 1023 then full else full[..1023]
  {
    ExpandMicros(src, Micros(micros), fmtbuf);
  }

  lemma FirstPart(buf: seq<char>, dst: nat, out: string, p: nat, text: string, us: string)
    requires |buf| == BUFFER_SIZE && dst == Min(|out|, BUFFER_SIZE - 1)
    requires buf[..dst] == out[..dst] && buf[dst] == NUL
    requires p <= |text| && (p == |text| || dst == BUFFER_SIZE - 1)
    requires out + Expand(text[p..], us) == Expand(text, us)
    requires NoNul(text) && NoNul(us)
    ensures Terminated(buf, 0)
    ensures TextAt(buf, 0) == Fitting(Expand(text, us), BUFFER_SIZE)
  {
    ExpandNoNul(text, us);
    var full := Expand(text, us);
    assert full[..dst] == out[..dst] == buf[0..0 + dst];
    TextAtIs(buf, 0, dst);
  }
}
