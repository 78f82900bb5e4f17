/**
 Address prefixes as sets of bits: bit 0 is the most significant bit of byte 0, as section 3.1 of
 RFC 4632 and section 2.3 of RFC 4291 count them.  `Mask` keeps the first `n` bits of an address.
 */
module Cidr {
  import opened Bits
  import opened Words

  function Bit(s: seq<byte>, k: nat): bool
    requires k < 8 * |s|
  {
    TestBit(s[k / 8], 7 - k % 8)
  }

  /** How many of the first `n` bits lie in byte `i`. */
  function BitsInByte(n: nat, i: nat): (c: nat)
    ensures c <= 8
  {
    if n <= 8 * i then 0 else if n >= 8 * i + 8 then 8 else n - 8 * i
  }

  /** The byte whose first `c` bits are set. */
  function HighByte(c: nat): (b: byte)
    requires c <= 8
    ensures b == 0x100 - Pow2(8 - c)
  {
    Pow2Order(8 - c, 8);
    assert Pow2(8) == 256;
    HighOnes(c, 8)
  }

  function MaskByte(n: nat, i: nat): byte {
    HighByte(BitsInByte(n, i))
  }

  /** The network mask of length `n` as the bytes of an address of `len` bytes. */
  function NetMask(n: nat, len: nat): (m: seq<byte>)
    ensures |m| == len
  {
    seq(len, i requires 0 <= i < len => MaskByte(n, i))
  }

  /** The address with every bit from bit `n` on cleared. */
  function Mask(s: seq<byte>, n: nat): (r: seq<byte>)
    ensures |r| == |s|
  {
    seq(|s|, i requires 0 <= i < |s| => AndByte(s[i], MaskByte(n, i)))
  }

  /** Agreement on the first `n` bits. */
  ghost predicate SamePrefix(x: seq<byte>, net: seq<byte>, n: nat) {
    && |x| == |net|
    && forall k: nat :: k < n && k < 8 * |x| ==> Bit(x, k) == Bit(net, k)
  }

  /** The addresses that belong to the network `net/n`. */
  ghost function Network(net: seq<byte>, n: nat): iset<seq<byte>> {
    iset x: seq<byte> | SamePrefix(x, net, n)
  }

  lemma BitsDetermineAddress(a: seq<byte>, b: seq<byte>)
    requires |a| == |b|
    requires forall k: nat :: k < 8 * |a| ==> Bit(a, k) == Bit(b, k)
    ensures a == b
  {
    forall i | 0 <= i < |a|
      ensures a[i] == b[i]
    {
      forall t: nat | t < 8
        ensures TestBit(a[i], t) == TestBit(b[i], t)
      {
        var k := 8 * i + (7 - t);
        assert k / 8 == i && k % 8 == 7 - t;
        assert Bit(a, k) == Bit(b, k);
      }
      assert Pow2(8) == 256;
      SameBits(a[i], b[i], 8);
    }
  }

  /** `Mask` keeps exactly the first `n` bits and clears every other one. */
  lemma MaskBit(s: seq<byte>, n: nat, k: nat)
    requires k < 8 * |s|
    ensures Bit(Mask(s, n), k) <==> k < n && Bit(s, k)
  {
    var i, t := k / 8, 7 - k % 8;
    AndBit(s[i], MaskByte(n, i), t);
    HighOnesBit(BitsInByte(n, i), 8, t);
  }

  /** Nothing else keeps exactly the first `n` bits. */
  lemma MaskUnique(s: seq<byte>, n: nat, r: seq<byte>)
    requires |r| == |s|
    requires forall k: nat :: k < 8 * |s| ==> (Bit(r, k) <==> k < n && Bit(s, k))
    ensures r == Mask(s, n)
  {
    forall k: nat | k < 8 * |s|
      ensures Bit(r, k) == Bit(Mask(s, n), k)
    {
      MaskBit(s, n, k);
    }
    BitsDetermineAddress(r, Mask(s, n));
  }

  /** Two addresses mask to the same bytes iff they share their first `n` bits. */
  lemma MaskEqualIffSamePrefix(a: seq<byte>, b: seq<byte>, n: nat)
    requires |a| == |b|
    ensures Mask(a, n) == Mask(b, n) <==> SamePrefix(a, b, n)
  {
    if Mask(a, n) == Mask(b, n) {
      forall k: nat | k < n && k < 8 * |a|
        ensures Bit(a, k) == Bit(b, k)
      {
        MaskBit(a, n, k);
        MaskBit(b, n, k);
      }
    }
    if SamePrefix(a, b, n) {
      forall k: nat | k < 8 * |a|
        ensures Bit(Mask(a, n), k) <==> k < n && Bit(b, k)
      {
        MaskBit(a, n, k);
      }
      MaskUnique(b, n, Mask(a, n));
    }
  }

  /** Masking twice is masking once, to the shorter of the two prefixes. */
  lemma Remask(s: seq<byte>, n: nat, m: nat)
    ensures Mask(Mask(s, n), m) == Mask(s, if m < n then m else n)
  {
    var r := Mask(Mask(s, n), m);
    forall k: nat | k < 8 * |s|
      ensures Bit(r, k) <==> k < (if m < n then m else n) && Bit(s, k)
    {
      MaskBit(s, n, k);
      MaskBit(Mask(s, n), m, k);
    }
    MaskUnique(s, if m < n then m else n, r);
  }

  /** The address as the number its bytes spell in network order. */
  function Value(s: seq<byte>): nat {
    if s == [] then 0 else 256 * Value(s[..|s| - 1]) + s[|s| - 1]
  }

  lemma {:induction false} BytewiseBelow(a: seq<byte>, b: seq<byte>)
    requires |a| == |b|
    requires forall i :: 0 <= i < |a| ==> a[i] <= b[i]
    ensures Value(a) <= Value(b)
  {
    if a != [] { BytewiseBelow(a[..|a| - 1], b[..|b| - 1]); }
  }

  /** The masked address belongs to the network and is its least member. */
  lemma MaskIsLeast(s: seq<byte>, n: nat, x: seq<byte>)
    requires x in Network(s, n)
    ensures Mask(s, n) in Network(s, n)
    ensures Value(Mask(s, n)) <= Value(x)
  {
    MaskEqualIffSamePrefix(x, s, n);
    Remask(s, n, n);
    MaskEqualIffSamePrefix(Mask(s, n), s, n);
    forall i | 0 <= i < |x|
      ensures Mask(x, n)[i] <= x[i]
    {
      AndBelow(x[i], MaskByte(n, i));
    }
    BytewiseBelow(Mask(x, n), x);
  }

  /** The network is the same whether it is named by an address in it or by the masked address. */
  lemma MaskNamesSameNetwork(s: seq<byte>, n: nat)
    ensures Network(Mask(s, n), n) == Network(s, n)
  {
    Remask(s, n, n);
    MaskEqualIffSamePrefix(Mask(s, n), s, n);
  }

  /** Two networks are nested or disjoint. */
  lemma NestedOrDisjoint(a: seq<byte>, n: nat, b: seq<byte>, m: nat)
    requires n <= m
    ensures Network(b, m) <= Network(a, n) || Network(b, m) !! Network(a, n)
  {
    if x: seq<byte> :| x in Network(b, m) && x in Network(a, n) {
      forall y: seq<byte> | y in Network(b, m)
        ensures y in Network(a, n)
      {
        forall k: nat | k < n && k < 8 * |y|
          ensures Bit(y, k) == Bit(a, k)
        {
          assert Bit(y, k) == Bit(b, k) && Bit(x, k) == Bit(b, k) && Bit(x, k) == Bit(a, k);
        }
      }
    }
  }

  /** How a packet filter compares an address with a filter: byte by byte, under the filter's mask. */
  ghost predicate FilterMatches(addr: seq<byte>, mask: seq<byte>, x: seq<byte>) {
    && |x| <= |addr| && |x| <= |mask|
    && forall i :: 0 <= i < |x| ==> AndByte(addr[i], mask[i]) == AndByte(x[i], mask[i])
  }

  /** Under a prefix mask, that comparison is network membership. */
  lemma FilterIsNetwork(addr: seq<byte>, mask: seq<byte>, n: nat, x: seq<byte>)
    requires |x| <= |addr| && |x| <= |mask|
    requires forall i :: 0 <= i < |x| ==> mask[i] == MaskByte(n, i)
    ensures FilterMatches(addr, mask, x) <==> x in Network(addr[..|x|], n)
  {
    var net := addr[..|x|];
    MaskEqualIffSamePrefix(x, net, n);
    if FilterMatches(addr, mask, x) {
      assert Mask(net, n) == Mask(x, n);
    }
    if Mask(x, n) == Mask(net, n) {
      forall i | 0 <= i < |x|
        ensures AndByte(addr[i], mask[i]) == AndByte(x[i], mask[i])
      {
        assert Mask(net, n)[i] == Mask(x, n)[i];
      }
    }
  }
}
