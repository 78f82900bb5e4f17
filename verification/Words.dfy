/**
 Bytes of memory and the 32-bit words that C code reads and writes through them.
 Every access is parameterised by the byte order of the host.
 */
module Words {
  import opened Bits

  type byte = x: int | 0 <= x < 0x100
  type word = x: int | 0 <= x < 0x1_0000_0000

  /** The 16 bytes of a `struct in6_addr`, and of the `sa` union that holds one. */
  type Bytes16 = s: seq<byte> | |s| == 16 witness seq(16, _ => 0)

  /** The 4 bytes of a `struct in_addr`. */
  type Bytes4 = s: seq<byte> | |s| == 4 witness [0, 0, 0, 0]

  datatype Endian = Little | Big

  /** Four consecutive bytes of memory, lowest address first. */
  datatype Quad = Quad(b0: byte, b1: byte, b2: byte, b3: byte) {
    function Reversed(): Quad {
      Quad(b3, b2, b1, b0)
    }
  }

  function AndByte(x: byte, y: byte): byte {
    AndBelow(x, y);
    And(x, y)
  }

  function AndWord(x: word, y: word): word {
    AndBelow(x, y);
    And(x, y)
  }

  function JoinBig(q: Quad): word {
    256 * (256 * (256 * q.b0 + q.b1) + q.b2) + q.b3
  }

  function SplitBig(w: word): Quad {
    Quad(w / 256 / 256 / 256, w / 256 / 256 % 256, w / 256 % 256, w % 256)
  }

  /** The word a host reads from four bytes. */
  function Join(e: Endian, q: Quad): word {
    match e
    case Big => JoinBig(q)
    case Little => JoinBig(q.Reversed())
  }

  /** The four bytes a host leaves in memory when it stores a word. */
  function Split(e: Endian, w: word): Quad {
    match e
    case Big => SplitBig(w)
    case Little => SplitBig(w).Reversed()
  }

  /** `htonl`: the identity on a big-endian host, a byte swap on a little-endian one. */
  function Htonl(e: Endian, w: word): word {
    match e
    case Big => w
    case Little => JoinBig(SplitBig(w).Reversed())
  }

  /** Word `j` of a byte sequence, before the host interprets it. */
  function QuadAt(m: seq<byte>, j: nat): Quad
    requires 4 * j + 4 <= |m|
  {
    Quad(m[4 * j], m[4 * j + 1], m[4 * j + 2], m[4 * j + 3])
  }

  /** `((uint32_t *) a)[j]` */
  method LoadWord(e: Endian, a: array<byte>, j: nat) returns (w: word)
    requires 4 * j + 4 <= a.Length
    ensures w == Join(e, QuadAt(a[..], j))
  {
    w := Join(e, Quad(a[4 * j], a[4 * j + 1], a[4 * j + 2], a[4 * j + 3]));
  }

  /** `((uint32_t *) a)[j] = w` */
  method StoreWord(e: Endian, a: array<byte>, j: nat, w: word)
    requires 4 * j + 4 <= a.Length
    modifies a
    ensures Join(e, QuadAt(a[..], j)) == w
    ensures forall k :: 0 <= k < a.Length && !(4 * j <= k < 4 * j + 4) ==> a[k] == old(a[k])
  {
    var q := Split(e, w);
    JoinAfterSplit(e, w);
    a[4 * j], a[4 * j + 1], a[4 * j + 2], a[4 * j + 3] := q.b0, q.b1, q.b2, q.b3;
  }

  lemma JoinBigAfterSplitBig(w: word)
    ensures JoinBig(SplitBig(w)) == w
  {
  }

  lemma SplitBigAfterJoinBig(q: Quad)
    ensures SplitBig(JoinBig(q)) == q
  {
    var w1 := 256 * q.b0 + q.b1;
    var w2 := 256 * w1 + q.b2;
    assert JoinBig(q) / 256 == w2 && w2 / 256 == w1 && w1 / 256 == q.b0;
  }

  lemma JoinAfterSplit(e: Endian, w: word)
    ensures Join(e, Split(e, w)) == w
  {
    JoinBigAfterSplitBig(w);
    assert SplitBig(w).Reversed().Reversed() == SplitBig(w);
  }

  /** Different bytes are different words, in either byte order. */
  lemma JoinInjective(e: Endian, p: Quad, q: Quad)
    requires Join(e, p) == Join(e, q)
    ensures p == q
  {
    match e
    case Big =>
      SplitBigAfterJoinBig(p);
      SplitBigAfterJoinBig(q);
    case Little =>
      SplitBigAfterJoinBig(p.Reversed());
      SplitBigAfterJoinBig(q.Reversed());
  }

  /** What `htonl` is for: bytes stored through it spell the word in network order on every host. */
  lemma HtonlStoresNetworkOrder(e: Endian, q: Quad, w: word)
    requires Join(e, q) == Htonl(e, w)
    ensures JoinBig(q) == w
  {
    if e.Little? {
      JoinInjective(Big, q.Reversed(), SplitBig(w).Reversed());
      JoinBigAfterSplitBig(w);
    }
  }

  lemma {:induction false} AndJoinBig(p: Quad, q: Quad)
    ensures AndWord(JoinBig(p), JoinBig(q))
         == JoinBig(AndQuad(p, q))
  {
    hide And;
    var p1, q1 := 256 * p.b0 + p.b1, 256 * q.b0 + q.b1;
    var p2, q2 := 256 * p1 + p.b2, 256 * q1 + q.b2;
    AndConcat256(p2, p.b3, q2, q.b3);
    AndConcat256(p1, p.b2, q1, q.b2);
    AndConcat256(p.b0, p.b1, q.b0, q.b1);
  }

  function AndQuad(p: Quad, q: Quad): Quad {
    Quad(AndByte(p.b0, q.b0), AndByte(p.b1, q.b1), AndByte(p.b2, q.b2), AndByte(p.b3, q.b3))
  }

  /** A word-wise AND is a byte-wise AND, in either byte order. */
  lemma AndIsBytewise(e: Endian, p: Quad, q: Quad)
    ensures AndWord(Join(e, p), Join(e, q)) == Join(e, AndQuad(p, q))
  {
    match e
    case Big => AndJoinBig(p, q);
    case Little => AndJoinBig(p.Reversed(), q.Reversed());
  }
}
