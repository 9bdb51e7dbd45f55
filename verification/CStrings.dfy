/** NUL-terminated text inside a buffer. */
module CStrings {
  const NUL: char := '\0'

  predicate NoNul(s: string) {
    NUL !in s
  }

  /** The C string starting at offset `o`: everything before the first NUL. */
  function TextAt(b: seq<char>, o: nat): string
    requires o <= |b|
    decreases |b| - o
  {
    if o == |b| || b[o] == NUL then "" else [b[o]] + TextAt(b, o + 1)
  }

  predicate Terminated(b: seq<char>, o: nat) {
    exists i :: o <= i < |b| && b[i] == NUL
  }

  lemma {:induction false} TextAtIs(b: seq<char>, o: nat, n: nat)
    requires o + n < |b| && b[o + n] == NUL && NoNul(b[o..o + n])
    ensures TextAt(b, o) == b[o..o + n]
    decreases n
  {
    if n > 0 {
      assert b[o] in b[o..o + n];
      assert b[o + 1..o + n] <= b[o..o + n][1..];
      TextAtIs(b, o + 1, n - 1);
    }
  }

  lemma {:induction false} TextAtEnds(b: seq<char>, o: nat)
    requires o <= |b| && Terminated(b, o)
    ensures o + |TextAt(b, o)| < |b| && b[o + |TextAt(b, o)|] == NUL
    ensures TextAt(b, o) == b[o..o + |TextAt(b, o)|] && NoNul(TextAt(b, o))
    decreases |b| - o
  {
    if b[o] != NUL {
      TextAtEnds(b, o + 1);
    }
  }

  function Min(a: int, b: int): int {
    if a <= b then a else b
  }

  /** The part of `s` a buffer of `size` bytes can hold with its terminator. */
  function Fitting(s: string, size: nat): string
    requires size > 0
  {
    s[..Min(|s|, size - 1)]
  }

  /** What fits is the longest prefix that leaves room for the terminator. */
  lemma FittingIsLongest(s: string, size: nat)
    requires size > 0
    ensures Fitting(s, size) <= s && |Fitting(s, size)| < size
    ensures |s| < size ==> Fitting(s, size) == s
    ensures |s| >= size ==> |Fitting(s, size)| == size - 1
  {
  }

  /** `_iodbcdm_strlcat`: append `src` to the text in `dst`, as far as it fits with its
      terminator, and return the length it would have needed. A buffer with no terminator
      is left alone. */
  method StrCat(dst: array<char>, src: string) returns (need: nat)
    requires NoNul(src)
    modifies dst
    ensures need == |TextAt(old(dst[..]), 0)| + |src|
    ensures !Terminated(old(dst[..]), 0) ==> dst[..] == old(dst[..])
    ensures Terminated(old(dst[..]), 0) ==>
              Terminated(dst[..], 0) && TextAt(dst[..], 0) == Fitting(TextAt(old(dst[..]), 0) + src, dst.Length)
  {
    var d := 0;
    while d < dst.Length && dst[d] != NUL
      invariant d <= dst.Length && NoNul(dst[..d])
    {
      d := d + 1;
    }
    var dlen := d;
    TextPrefix(dst[..], dlen);
    if dlen == dst.Length {
      return dlen + |src|;
    }
    ghost var text := dst[..dlen];
    var s := 0;
    while s < |src|
      invariant 0 <= s <= |src| && d == Min(dlen + s, dst.Length - 1)
      invariant dst[..d] == (text + src[..s])[..d]
    {
      if d != dst.Length - 1 {
        dst[d] := src[s];
        d := d + 1;
      }
      s := s + 1;
    }
    dst[d] := NUL;
    assert src[..s] == src;
    assert dst[..][0..0 + d] == (text + src)[..d];
    TextAtIs(dst[..], 0, d);
    return dlen + |src|;
  }

  lemma TextPrefix(b: seq<char>, n: nat)
    requires n <= |b| && NoNul(b[..n]) && (n < |b| ==> b[n] == NUL)
    ensures TextAt(b, 0) == b[..n] && (Terminated(b, 0) <==> n < |b|)
  {
    if n < |b| {
      assert b[0..0 + n] == b[..n];
      TextAtIs(b, 0, n);
    } else {
      assert b[..n] == b;
      UnterminatedText(b, 0);
    }
  }

  lemma {:induction false} UnterminatedText(b: seq<char>, o: nat)
    requires o <= |b| && NoNul(b)
    ensures TextAt(b, o) == b[o..] && !Terminated(b, o)
    decreases |b| - o
  {
    if o < |b| {
      assert b[o] in b;
      UnterminatedText(b, o + 1);
    }
  }
}
