/**
 The block of `parse_addr` that clears the host bits of an address (parse.c), on the bytes of memory
 it works on.  The prefix mask is built with 32-bit stores, one bit at a time, and then combined with
 the address one word at a time.
 */
module Netmask {
  import opened Bits
  import opened Words
  import opened Cidr

  const TWO_TO_32 := 0x1_0000_0000

  lemma PowersOf2()
    ensures Pow2(8) == 0x100 && Pow2(16) == 0x1_0000 && Pow2(24) == 0x100_0000 && Pow2(32) == TWO_TO_32
  {
    Pow2Plus8(0);
    Pow2Plus8(8);
    Pow2Plus8(16);
    Pow2Plus8(24);
  }

  /** The word whose `c` most significant bits are set: what the bit loop has built after `c` rounds. */
  function HighWord(c: nat): (w: word)
    requires c <= 32
    ensures w == TWO_TO_32 - Pow2(32 - c)
  {
    PowersOf2();
    HighOnes(c, 32)
  }

  lemma ZeroWord(e: Endian)
    ensures Join(e, Quad(0, 0, 0, 0)) == HighWord(0)
  {
    PowersOf2();
  }

  function MaskQuad(n: nat): Quad {
    Quad(MaskByte(n, 0), MaskByte(n, 1), MaskByte(n, 2), MaskByte(n, 3))
  }

  lemma MaskQuadShape(c: nat)
    requires c <= 32
    ensures c <= 8 ==> MaskQuad(c) == Quad(HighByte(c), 0, 0, 0)
    ensures 8 <= c <= 16 ==> MaskQuad(c) == Quad(0xff, HighByte(c - 8), 0, 0)
    ensures 16 <= c <= 24 ==> MaskQuad(c) == Quad(0xff, 0xff, HighByte(c - 16), 0)
    ensures 24 <= c ==> MaskQuad(c) == Quad(0xff, 0xff, 0xff, HighByte(c - 24))
  {
    assert HighByte(8) == 0xff && HighByte(0) == 0 by { PowersOf2(); }
  }

  lemma {:induction false} HighWordValue(c: nat)
    requires c <= 32
    ensures c <= 8 ==> HighWord(c) == 0x100_0000 * HighByte(c)
    ensures 8 <= c <= 16 ==> HighWord(c) == 0xff00_0000 + 0x1_0000 * HighByte(c - 8)
    ensures 16 <= c <= 24 ==> HighWord(c) == 0xffff_0000 + 0x100 * HighByte(c - 16)
    ensures 24 <= c ==> HighWord(c) == 0xffff_ff00 + HighByte(c - 24)
  {
    if c <= 24 { Pow2Plus8(24 - c); }
    if c <= 16 { Pow2Plus8(16 - c); }
    if c <= 8 { Pow2Plus8(8 - c); }
  }

  /** Read in network order, the mask of a `c`-bit prefix is the word with `c` leading ones. */
  lemma MaskIsHighWord(c: nat)
    requires c <= 32
    ensures JoinBig(MaskQuad(c)) == HighWord(c)
  {
    MaskQuadShape(c);
    HighWordValue(c);
  }

  lemma NextBit(c: nat)
    requires c < 32
    ensures Pow2(31 - c) < TWO_TO_32
    ensures Or(HighWord(c), Pow2(31 - c)) == HighWord(c + 1)
  {
    HighOnesLowZeros(c, 32);
    OrSetsBit(HighWord(c), 31 - c);
  }

  lemma QuadsAreMask(m: seq<byte>, n: nat, j: nat)
    requires |m| == 16
    requires j <= 4 && 32 * j <= n < 32 * j + 32 && n <= 128
    requires forall k :: 0 <= k < 4 * j ==> m[k] == 0xff
    requires j < 4 ==> QuadAt(m, j) == MaskQuad(n - 32 * j)
    requires forall k :: 4 * j + 4 <= k < 16 ==> m[k] == 0
    ensures m == NetMask(n, 16)
  {
    assert HighByte(8) == 0xff && HighByte(0) == 0 by { PowersOf2(); }
    forall k | 0 <= k < 16
      ensures m[k] == MaskByte(n, k)
    {
      if 4 * j <= k < 4 * j + 4 {
        assert BitsInByte(n, k) == BitsInByte(n - 32 * j, k - 4 * j);
      }
    }
  }

  /** `m[j] |= (1 << i)` */
  method SetBit(e: Endian, mask: array<byte>, j: nat, i: nat)
    requires mask.Length == 16 && j < 4 && i <= 31
    requires Join(e, QuadAt(mask[..], j)) == HighWord(31 - i)
    modifies mask
    ensures Join(e, QuadAt(mask[..], j)) == HighWord(32 - i)
    ensures forall k :: 0 <= k < 16 && !(4 * j <= k < 4 * j + 4) ==> mask[k] == old(mask[k])
  {
    var w := LoadWord(e, mask, j);
    NextBit(31 - i);
    StoreWord(e, mask, j, Or(w, Pow2(i)));
  }

  /** `m[j] = 0xFFFFFFFF` */
  method StoreOnes(e: Endian, mask: array<byte>, j: nat)
    requires mask.Length == 16 && j < 4
    modifies mask
    ensures forall k :: 4 * j <= k < 4 * j + 4 ==> mask[k] == 0xff
    ensures forall k :: 0 <= k < 16 && !(4 * j <= k < 4 * j + 4) ==> mask[k] == old(mask[k])
  {
    StoreWord(e, mask, j, 0xFFFF_FFFF);
    JoinInjective(e, QuadAt(mask[..], j), Quad(0xff, 0xff, 0xff, 0xff));
  }

  /** `m[j] = htonl(m[j])` */
  method ToNetworkOrder(e: Endian, mask: array<byte>, j: nat)
    requires mask.Length == 16 && j < 4
    modifies mask
    ensures JoinBig(QuadAt(mask[..], j)) == old(Join(e, QuadAt(mask[..], j)))
    ensures forall k :: 0 <= k < 16 && !(4 * j <= k < 4 * j + 4) ==> mask[k] == old(mask[k])
  {
    var w := LoadWord(e, mask, j);
    StoreWord(e, mask, j, Htonl(e, w));
    HtonlStoresNetworkOrder(e, QuadAt(mask[..], j), w);
  }

  /** The bit loop. */
  method SetHighBits(e: Endian, mask: array<byte>, j: nat, b: nat)
    requires mask.Length == 16 && j < 4 && b < 32
    requires QuadAt(mask[..], j) == Quad(0, 0, 0, 0)
    modifies mask
    ensures Join(e, QuadAt(mask[..], j)) == HighWord(b)
    ensures forall k :: 0 <= k < 16 && !(4 * j <= k < 4 * j + 4) ==> mask[k] == old(mask[k])
  {
    hide Join, HighWord, QuadAt;
    ZeroWord(e);
    var i := 31;
    while i > 31 - b
      invariant 31 - b <= i <= 31
      invariant Join(e, QuadAt(mask[..], j)) == HighWord(31 - i)
      invariant forall k :: 0 <= k < 16 && !(4 * j <= k < 4 * j + 4) ==> mask[k] == old(mask[k])
    {
      SetBit(e, mask, j, i);
      i := i - 1;
    }
  }

  /** The whole mask: full words, then bits, then the byte order of the word that has bits. */
  method BuildMask(e: Endian, netmask: nat) returns (mask: array<byte>)
    requires netmask <= 128
    ensures fresh(mask)
    ensures mask[..] == NetMask(netmask, 16)
  {
    hide JoinBig, HighWord, MaskByte;
    mask := new byte[16](_ => 0);
    var j := 0;
    var b := netmask;
    while b >= 32
      invariant 0 <= b && b + 32 * j == netmask
      invariant forall k :: 0 <= k < 4 * j ==> mask[k] == 0xff
      invariant forall k :: 4 * j <= k < 16 ==> mask[k] == 0
    {
      StoreOnes(e, mask, j);
      j := j + 1;
      b := b - 32;
    }
    if b != 0 {
      SetHighBits(e, mask, j, b);
      ToNetworkOrder(e, mask, j);
      MaskIsHighWord(b);
      JoinInjective(Big, QuadAt(mask[..], j), MaskQuad(b));
    } else {
      MaskQuadShape(0);
      PowersOf2();
    }
    QuadsAreMask(mask[..], netmask, j);
  }

  /** `a[i] &= m[i]` */
  method AndInto(e: Endian, a: array<byte>, m: array<byte>, i: nat)
    requires a.Length == 16 && m.Length == 16 && a != m && i < 4
    modifies a
    ensures forall k :: 4 * i <= k < 4 * i + 4 ==> a[k] == AndByte(old(a[k]), m[k])
    ensures forall k :: 0 <= k < 16 && !(4 * i <= k < 4 * i + 4) ==> a[k] == old(a[k])
  {
    hide Join, AndByte;
    ghost var q := AndQuad(QuadAt(a[..], i), QuadAt(m[..], i));
    AndIsBytewise(e, QuadAt(a[..], i), QuadAt(m[..], i));
    var x := LoadWord(e, a, i);
    var y := LoadWord(e, m, i);
    StoreWord(e, a, i, AndWord(x, y));
    JoinInjective(e, QuadAt(a[..], i), q);
  }

  /**
   `parse_addr` keeps exactly the first `netmask` bits of the address and clears all the others, whatever
   the byte order of the host.
   */
  method ClearHostBits(e: Endian, sa: array<byte>, netmask: nat)
    requires sa.Length == 16 && netmask <= 128
    modifies sa
    ensures sa[..] == Mask(old(sa[..]), netmask)
  {
    var mask := BuildMask(e, netmask);
    for i := 0 to 4
      invariant mask[..] == NetMask(netmask, 16)
      invariant forall k :: 0 <= k < 4 * i ==> sa[k] == AndByte(old(sa[k]), mask[k])
      invariant forall k :: 4 * i <= k < 16 ==> sa[k] == old(sa[k])
    {
      AndInto(e, sa, mask, i);
    }
  }
}
