/** C strings in memory, and the bounded copy of missing/strlcpy.c. */
module CStrings {

  const NUL: char := '\0'

  /** The number of characters before the first terminator. */
  function StrLen(m: seq<char>): (n: nat)
    requires NUL in m
    ensures n < |m| && m[n] == NUL && NUL !in m[..n]
  {
    if m[0] == NUL then 0 else
      var n := StrLen(m[1..]);
      assert m[..n + 1] == [m[0]] + m[1..][..n];
      n + 1
  }

  /** The text that a buffer holds as a C string. */
  function CText(m: seq<char>): (t: string)
    requires NUL in m
    ensures |t| < |m| && NUL !in t
  {
    m[..StrLen(m)]
  }

  /** A text followed by a terminator reads back as that text, whatever comes after. */
  lemma TerminatedText(m: seq<char>, t: string)
    requires |t| < |m| && m[..|t|] == t && m[|t|] == NUL && NUL !in t
    ensures NUL in m && StrLen(m) == |t| && CText(m) == t
  {
    assert m[|t|] == NUL;
    var n := StrLen(m);
    assert n >= |t| by { assert forall k :: 0 <= k < |t| ==> m[k] == t[k]; }
    assert n <= |t| by { assert forall k :: 0 <= k < n ==> m[k] == m[..n][k]; }
  }

  /** What `strlcpy` leaves in `dst`: as much of `text` as fits, a terminator, and the old rest. */
  function Copied(dst: seq<char>, text: string, siz: nat): seq<char>
    requires siz <= |dst|
  {
    if siz == 0 then dst
    else
      var n := if |text| < siz then |text| else siz - 1;
      text[..n] + [NUL] + dst[n + 1..]
  }

  /** missing/strlcpy.c */
  method Strlcpy(dst: array<char>, src: seq<char>, siz: nat) returns (r: nat)
    requires siz <= dst.Length && NUL in src
    modifies dst
    ensures r == |CText(src)|
    ensures dst[..] == Copied(old(dst[..]), CText(src), siz)
  {
    ghost var len := StrLen(src);
    assert forall k :: 0 <= k < len ==> src[k] == src[..len][k];
    var d, s, n := 0, 0, siz;
    if n != 0 {
      n := n - 1;
      while n != 0
        invariant d == s <= len && n == siz - 1 - d
        invariant forall k :: 0 <= k < d ==> dst[k] == src[k]
        invariant forall k :: d <= k < dst.Length ==> dst[k] == old(dst[k])
      {
        dst[d] := src[s];
        d, s := d + 1, s + 1;
        if dst[d - 1] == NUL {
          break;
        }
        n := n - 1;
      }
    }
    if n == 0 {
      if siz != 0 {
        dst[d] := NUL;
      }
      s := SkipToEnd(src, s);
    }
    r := s - 1;
    CopiedElementwise(old(dst[..]), dst[..], src[..len], siz);
  }

  /** `while (*s++);` */
  method SkipToEnd(src: seq<char>, start: nat) returns (s: nat)
    requires NUL in src && start <= StrLen(src)
    ensures s == StrLen(src) + 1
  {
    s := start;
    while src[s] != NUL
      invariant s <= StrLen(src)
      decreases |src| - s
    {
      s := s + 1;
    }
    TerminatedText(src, src[..s]);
    s := s + 1;
  }

  lemma CopiedElementwise(before: seq<char>, after: seq<char>, text: string, siz: nat)
    requires siz <= |before| == |after|
    requires forall k :: 0 <= k < |text| && k < siz - 1 ==> after[k] == text[k]
    requires siz > 0 ==> after[if |text| < siz then |text| else siz - 1] == NUL
    requires forall k :: (if |text| < siz then |text| + 1 else siz) <= k < |before| ==> after[k] == before[k]
    ensures after == Copied(before, text, siz)
  {
  }

  /** The result tells truncation: the destination holds the source text exactly when the result is below `siz`. */
  lemma StrlcpyTruncates(dst: seq<char>, text: string, siz: nat)
    requires 0 < siz <= |dst| && NUL !in text
    ensures NUL in Copied(dst, text, siz)[..siz]
    ensures CText(Copied(dst, text, siz)) <= text
    ensures CText(Copied(dst, text, siz)) == text <==> |text| < siz
    ensures Copied(dst, text, siz)[siz..] == dst[siz..]
  {
    var n := if |text| < siz then |text| else siz - 1;
    TerminatedText(Copied(dst, text, siz), text[..n]);
    assert Copied(dst, text, siz)[..siz][n] == NUL;
  }
}
