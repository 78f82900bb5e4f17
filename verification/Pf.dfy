/**
 `pf_handle` (pf.c): one table entry for the parsed network, then one state-kill filter for each run
 of equal resolved addresses.
 */
module Pf {
  import opened Bits
  import opened Words
  import opened Cidr
  import opened Netmask
  import opened ErrorSlot
  import opened ParseAddr

  // ---- the state-kill mask ----

  /** `(u_int32_t) (0xffffffffffULL << k)`: a 64-bit shift cut down to 32 bits. */
  function TruncatedShift(k: nat): word {
    (0xff_ffff_ffff * Pow2(k)) % 0x1_0000_0000_0000_0000 % TWO_TO_32
  }

  /** The truncated 40-bit constant is the word with `n` leading ones. */
  lemma ShiftIsHighWord(n: nat)
    requires n < 32
    ensures TruncatedShift(32 - n) == HighWord(n)
  {
    var p := Pow2(32 - n);
    PowersOf2();
    Pow2Order(32 - n, 32);
    TruncateTwice(0xff_ffff_ffff * p);
    Remainder(256 * p - 1, TWO_TO_32 - p);
  }

  lemma TruncateTwice(x: nat)
    ensures x % 0x1_0000_0000_0000_0000 % TWO_TO_32 == x % TWO_TO_32
  {
  }

  lemma Remainder(k: nat, c: nat)
    requires c < TWO_TO_32
    ensures (TWO_TO_32 * k + c) % TWO_TO_32 == c
  {
  }

  /** `(0xff00 >> r) & 0xff` is the byte with `r` leading ones. */
  lemma PartialByte(r: nat)
    requires 0 < r < 8
    ensures And(Shr(0xff00, r), 0xff) == HighByte(r)
  {
    hide And;
    AndLowByte(Shr(0xff00, r));
    assert Pow2(1) == 2 && Pow2(2) == 4 && Pow2(3) == 8 && Pow2(4) == 16;
    assert Pow2(5) == 32 && Pow2(6) == 64 && Pow2(7) == 128;
    match r
    case 1 => assert Shr(0xff00, 1) == 0x7f80;
    case 2 => assert Shr(0xff00, 2) == 0x3fc0;
    case 3 => assert Shr(0xff00, 3) == 0x1fe0;
    case 4 => assert Shr(0xff00, 4) == 0x0ff0;
    case 5 => assert Shr(0xff00, 5) == 0x07f8;
    case 6 => assert Shr(0xff00, 6) == 0x03fc;
    case _ => assert Shr(0xff00, 7) == 0x01fe;
  }

  /** `x & 7` */
  lemma LowThreeBits(x: nat)
    ensures And(x, 7) == x % 8
  {
    hide And;
    var q, b2, b1, b0 := x / 8, x % 8 / 4, x % 8 / 2 % 2, x % 8 % 2;
    assert x == 2 * (2 * (2 * q + b2) + b1) + b0;
    AndOdd(2 * (2 * q + b2) + b1, b0, 3);
    AndOdd(2 * q + b2, b1, 1);
    AndOdd(q, b2, 0);
  }

  /**
   The mask of the state-kill filter is the mask `parse_addr` applied: its first 4 bytes for IPv4, all
   16 for IPv6, for every prefix length including the full ones, which skip the computation.
   */
  method KillMask(e: Endian, fa: Family, net: nat) returns (mask: array<byte>)
    ensures fresh(mask) && mask.Length == 16
    ensures fa == Inet && net <= 32 ==> mask[..4] == NetMask(net, 4)
    ensures fa == Inet6 && net <= 128 ==> mask[..] == NetMask(net, 16)
  {
    mask := new byte[16](_ => 0xff);
    if fa == Inet && net < 32 {
      StoreMask4(e, mask, net);
    } else if fa == Inet6 && net < 128 {
      StoreMask6(mask, net);
    } else {
      PowersOf2();
    }
  }

  method StoreMask4(e: Endian, mask: array<byte>, net: nat)
    requires mask.Length == 16 && net < 32
    modifies mask
    ensures mask[..4] == NetMask(net, 4)
  {
    hide JoinBig, HighWord, MaskByte, TruncatedShift;
    forall k | 0 <= k < 4 { mask[k] := 0; }
    var w := TruncatedShift(32 - net);
    StoreWord(e, mask, 0, Htonl(e, w));
    HtonlStoresNetworkOrder(e, QuadAt(mask[..], 0), w);
    ShiftIsHighWord(net);
    MaskIsHighWord(net);
    JoinInjective(Big, QuadAt(mask[..], 0), MaskQuad(net));
  }

  method StoreMask6(mask: array<byte>, net: nat)
    requires mask.Length == 16 && net < 128
    modifies mask
    ensures mask[..] == NetMask(net, 16)
  {
    hide And;
    LowThreeBits(net);
    var q, r := net / 8, And(net, 7);
    forall k | 0 <= k < 16 { mask[k] := 0; }
    if q > 0 {
      forall k | 0 <= k < q { mask[k] := 0xff; }
    }
    if r > 0 {
      PartialByte(r);
      mask[q] := And(Shr(0xff00, r), 0xff);
    }
    assert HighByte(8) == 0xff && HighByte(0) == 0 by { PowersOf2(); }
    assert forall k :: 0 <= k < 16 ==> mask[k] == MaskByte(net, k);
  }

  // ---- resolved addresses ----

  /** An entry of a `getaddrinfo` result: the family, and the bytes of the socket address unless it is NULL. */
  datatype AddrInfo = AddrInfo(family: Family, bytes: Option<seq<byte>>) {
    /** The layout of the BSD socket addresses, whose first byte is their length. */
    predicate Valid() {
      bytes.Some? ==>
        && |bytes.value| >= 16
        && (family == Inet ==> |bytes.value| == 16 && bytes.value[0] == 16)
        && (family == Inet6 ==> |bytes.value| == 28 && bytes.value[0] == 28)
    }

    /** What `memcmp` compares: `sizeof(struct sockaddr)` bytes. */
    function Key(): seq<byte>
      requires Valid() && bytes.Some?
    {
      bytes.value[..16]
    }

    /** `sin_addr` or `sin6_addr` */
    function Address(): seq<byte>
      requires Valid() && bytes.Some? && (family == Inet || family == Inet6)
    {
      if family == Inet then bytes.value[4..8] else bytes.value[8..24]
    }
  }

  /** `struct sockaddr_in`: length, family, port, address and padding. */
  function SockaddrIn(af: byte, port: seq<byte>, addr: seq<byte>): seq<byte> {
    [16, af] + port + addr + [0, 0, 0, 0, 0, 0, 0, 0]
  }

  /** `struct sockaddr_in6`: length, family, port, flow information, address and scope. */
  function SockaddrIn6(af: byte, port: seq<byte>, flow: seq<byte>, addr: seq<byte>, scope: seq<byte>): seq<byte> {
    [28, af] + port + flow + addr + scope
  }

  /** The bytes are a socket address of the family that holds `addr`. */
  ghost predicate Carries(fa: Family, bytes: seq<byte>, addr: seq<byte>) {
    || (&& fa == Inet && |addr| == 4
        && exists af, port :: |port| == 2 && bytes == SockaddrIn(af, port, addr))
    || (&& fa == Inet6 && |addr| == 16
        && exists af, port, flow, scope ::
             |port| == 2 && |flow| == 4 && |scope| == 4 && bytes == SockaddrIn6(af, port, flow, addr, scope))
  }

  /** The code takes the address from its place in such bytes. */
  lemma CarriedAddress(ai: AddrInfo, addr: seq<byte>)
    requires ai.bytes.Some? && Carries(ai.family, ai.bytes.value, addr)
    ensures ai.Valid() && ai.Address() == addr
  {
  }

  ghost predicate AllValid(res: seq<AddrInfo>) {
    forall i :: 0 <= i < |res| ==> res[i].Valid()
  }

  /** The initial `last_src` */
  function Ones(): Bytes16 {
    seq(16, _ => 0xff)
  }

  /** The key of the last entry that has an address: what `last_src` holds after those entries. */
  ghost function LastKey(res: seq<AddrInfo>): (key: seq<byte>)
    requires AllValid(res)
    ensures key == Ones() || exists ai :: ai in res && ai.bytes.Some? && ai.Key() == key
  {
    if res == [] then Ones()
    else
      var ai := res[|res| - 1];
      if ai.bytes.Some? then ai.Key() else LastKey(res[..|res| - 1])
  }

  /** The entries that begin a run: their key differs from that of the previous entry with an address. */
  ghost function Heads(res: seq<AddrInfo>): (h: seq<AddrInfo>)
    requires AllValid(res)
    ensures AllValid(h) && forall i :: 0 <= i < |h| ==> h[i].bytes.Some? && h[i] in res
  {
    if res == [] then []
    else
      var rest, ai := res[..|res| - 1], res[|res| - 1];
      Heads(rest) + if ai.bytes.None? || ai.Key() == LastKey(rest) then [] else [ai]
  }

  lemma {:induction false} HeadsPrefix(res: seq<AddrInfo>, i: nat)
    requires AllValid(res) && i <= |res|
    ensures AllValid(res[..i]) && Heads(res[..i]) <= Heads(res)
    decreases |res|
  {
    if i < |res| {
      HeadsPrefix(res[..|res| - 1], i);
      assert res[..|res| - 1][..i] == res[..i];
    } else {
      assert res[..i] == res;
    }
  }

  lemma HeadsOfNothing(res: seq<AddrInfo>)
    ensures Heads(res[..0]) == []
  {
  }

  lemma HeadsSnoc(rest: seq<AddrInfo>, ai: AddrInfo)
    requires AllValid(rest) && AllValid(rest + [ai]) && ai.Valid()
    ensures Heads(rest + [ai]) == Heads(rest) + if ai.bytes.None? || ai.Key() == LastKey(rest) then [] else [ai]
    ensures LastKey(rest + [ai]) == if ai.bytes.None? then LastKey(rest) else ai.Key()
  {
    assert (rest + [ai])[..|rest|] == rest;
  }

  /** One round of the loop, on the specification. */
  lemma HeadsStep(res: seq<AddrInfo>, i: nat)
    requires AllValid(res) && i < |res|
    ensures AllValid(res[..i]) && AllValid(res[..i + 1])
    ensures Heads(res[..i + 1]) == Heads(res[..i])
              + if res[i].bytes.None? || res[i].Key() == LastKey(res[..i]) then [] else [res[i]]
    ensures LastKey(res[..i + 1]) == if res[i].bytes.None? then LastKey(res[..i]) else res[i].Key()
    ensures Heads(res[..i + 1]) <= Heads(res)
  {
    hide Heads, LastKey;
    assert res[..i + 1] == res[..i] + [res[i]];
    HeadsPrefix(res, i + 1);
    HeadsSnoc(res[..i], res[i]);
  }

  /** Entry `j` is the nearest before `i` that has an address. */
  ghost predicate Nearest(res: seq<AddrInfo>, j: nat, i: nat)
    requires j < i <= |res|
  {
    res[j].bytes.Some? && forall m :: j < m < i ==> res[m].bytes.None?
  }

  lemma {:induction false} LastKeyIsNearest(res: seq<AddrInfo>, i: nat, j: nat)
    requires AllValid(res) && j < i <= |res| && Nearest(res, j, i)
    ensures LastKey(res[..i]) == res[j].Key()
  {
    if j < i - 1 {
      LastKeyIsNearest(res, i - 1, j);
    }
    assert res[..i][..i - 1] == res[..i - 1];
  }

  /**
   Which entries lead to a kill: those with an address whose first 16 bytes differ from those of the nearest entry
   before it that has one.
   */
  lemma HeadIff(res: seq<AddrInfo>, i: nat, j: nat)
    requires AllValid(res) && j < i < |res| && Nearest(res, j, i)
    ensures AllValid(res[..i]) && AllValid(res[..i + 1])
    ensures Heads(res[..i + 1])
         == Heads(res[..i])
            + if res[i].bytes.Some? && res[i].bytes.value[..16] != res[j].bytes.value[..16] then [res[i]] else []
  {
    hide Heads, LastKey;
    HeadsStep(res, i);
    LastKeyIsNearest(res, i, j);
  }

  // ---- the kill loop ----

  datatype TableEntry = TableEntry(fa: Family, net: nat, addr: Bytes16)

  datatype Kill = Kill(fa: Family, addr: seq<byte>, mask: seq<byte>)

  /** What the kernel has been told through /dev/pf. */
  class Device {
    var table: seq<TableEntry>
    var kills: seq<Kill>

    constructor ()
      ensures table == [] && kills == []
    {
      table, kills := [], [];
    }
  }

  /** A filter on the address of an entry.  For IPv4 only the first 4 bytes of the union are read. */
  ghost predicate KillFor(k: Kill, ai: AddrInfo, mask: seq<byte>)
    requires ai.Valid()
  {
    && (ai.family == Inet || ai.family == Inet6) && ai.bytes.Some?
    && k.fa == ai.family && k.mask == mask
    && |ai.Address()| <= |k.addr| && k.addr[..|ai.Address()|] == ai.Address()
  }

  ghost predicate KillsFor(ks: seq<Kill>, h: seq<AddrInfo>, mask: seq<byte>)
    requires AllValid(h)
  {
    |ks| <= |h| && forall i :: 0 <= i < |ks| ==> KillFor(ks[i], h[i], mask)
  }

  predicate Killable(ai: AddrInfo) {
    ai.family == Inet || ai.family == Inet6
  }

  /**
   One kill for each head, in order, up to the first head that has an unknown family or whose kill
   fails; the call succeeds iff there is none.
   */
  method KillLoop(dev: Device, mask: seq<byte>, res: seq<AddrInfo>, killOk: nat -> bool, error: Cell)
    returns (ok: bool, ghost ks: seq<Kill>)
    requires AllValid(res) && !error.slot.Crashed?
    modifies dev`kills, error
    ensures dev.kills == old(dev.kills) + ks
    ensures KillsFor(ks, Heads(res), mask)
    ensures ok <==> |ks| == |Heads(res)|
    ensures forall i :: 0 <= i < |ks| ==> killOk(i)
    ensures !ok ==> !Killable(Heads(res)[|ks|]) || !killOk(|ks|)
    ensures error.slot == if ok then old(error.slot)
                          else old(error.slot).Put(if Killable(Heads(res)[|ks|]) then KillFailed else UnknownFamily)
  {
    hide Ones, Heads;
    assert Heads(res[..0]) == [] by { HeadsOfNothing(res); }
    var last: seq<byte> := Ones();
    var addr: seq<byte> := seq(16, _ => 0);
    var n := 0;
    ks := [];
    for i := 0 to |res|
      invariant AllValid(res[..i]) && last == LastKey(res[..i])
      invariant |addr| == 16
      invariant dev.kills == old(dev.kills) + ks
      invariant |ks| == |Heads(res[..i])| && KillsFor(ks, Heads(res[..i]), mask)
      invariant n == |ks| && forall k :: 0 <= k < |ks| ==> killOk(k)
      invariant error.slot == old(error.slot)
    {
      HeadsStep(res, i);
      if res[i].bytes.None? || res[i].Key() == last {
        continue;
      }
      last := res[i].Key();
      assert Heads(res)[|ks|] == res[i];
      if !Killable(res[i]) {
        error.Set(UnknownFamily);
        return false, ks;
      }
      var a := res[i].Address();
      addr := a + addr[|a|..];
      if !killOk(n) {
        error.Set(KillFailed);
        return false, ks;
      }
      var k := Kill(res[i].family, addr, mask);
      assert KillFor(k, res[i], mask);
      dev.kills := dev.kills + [k];
      ks := ks + [k];
      n := n + 1;
    }
    assert res[..|res|] == res;
    ok := true;
  }

  // ---- the whole of pf_handle ----

  ghost predicate IsMaskFor(m: seq<byte>, fa: Family, n: nat) {
    && |m| == 16
    && (fa == Inet && n <= 32 ==> m[..4] == NetMask(n, 4))
    && (fa == Inet6 && n <= 128 ==> m == NetMask(n, 16))
  }

  /** The kills of a call: none unless the table was updated and the host resolved, and then those of the loop. */
  ghost predicate Killed(addOk: bool, resolved: Option<seq<AddrInfo>>, killOk: nat -> bool, mask: seq<byte>,
                         ks: seq<Kill>, ok: bool)
    requires resolved.Some? ==> AllValid(resolved.value)
  {
    if addOk && resolved.Some? then
      var h := Heads(resolved.value);
      && KillsFor(ks, h, mask) && (ok <==> |ks| == |h|)
      && (forall i :: 0 <= i < |ks| ==> killOk(i))
      && (!ok ==> !Killable(h[|ks|]) || !killOk(|ks|))
    else
      !ok && ks == []
  }

  /** The call succeeds: the table takes the entry, the host resolves, and every head is killed. */
  ghost predicate HandleOk(addOk: bool, resolved: Option<seq<AddrInfo>>, killOk: nat -> bool)
    requires resolved.Some? ==> AllValid(resolved.value)
  {
    && addOk && resolved.Some?
    && forall i :: 0 <= i < |Heads(resolved.value)| ==>
         (Heads(resolved.value)[i].family == Inet || Heads(resolved.value)[i].family == Inet6) && killOk(i)
  }

  lemma KilledIff(addOk: bool, resolved: Option<seq<AddrInfo>>, killOk: nat -> bool, mask: seq<byte>,
                  ks: seq<Kill>, ok: bool)
    requires resolved.Some? ==> AllValid(resolved.value)
    requires Killed(addOk, resolved, killOk, mask, ks, ok)
    ensures ok <==> HandleOk(addOk, resolved, killOk)
  {
    hide Heads;
    if addOk && resolved.Some? {
      assert forall i :: 0 <= i < |ks| ==> KillFor(ks[i], Heads(resolved.value)[i], mask);
    }
  }

  /** `pf_handle`.  A failure is reported exactly once. */
  method PfHandle(e: Endian, dev: Device, parsed: Addr, addOk: bool, resolved: Option<seq<AddrInfo>>,
                  killOk: nat -> bool, error: Cell)
    returns (ok: bool, ghost mask: seq<byte>, ghost ks: seq<Kill>)
    requires (resolved.Some? ==> AllValid(resolved.value)) && !error.slot.Crashed?
    modifies dev, error
    ensures dev.table == old(dev.table) + if addOk then [TableEntry(parsed.fa, parsed.netmask, parsed.sa)] else []
    ensures dev.kills == old(dev.kills) + ks
    ensures IsMaskFor(mask, parsed.fa, parsed.netmask)
    ensures Killed(addOk, resolved, killOk, mask, ks, ok)
    ensures ok <==> HandleOk(addOk, resolved, killOk)
    ensures ok ==> error.slot == old(error.slot)
    ensures !ok ==> exists e :: error.slot == old(error.slot).Put(e)
  {
    var m := KillMask(e, parsed.fa, parsed.netmask);
    mask, ks := m[..], [];
    if !addOk {
      error.Set(AddFailed);
      return false, mask, ks;
    }
    dev.table := dev.table + [TableEntry(parsed.fa, parsed.netmask, parsed.sa)];
    if resolved.None? {
      error.Set(UnresolvedHost);
      return false, mask, ks;
    }
    ok, ks := KillLoop(dev, m[..], resolved.value, killOk, error);
    KilledIff(addOk, resolved, killOk, mask, ks, ok);
  }

  /** The bytes of an address of a family. */
  function AddressSize(fa: Family): nat {
    if fa == Inet then 4 else 16
  }

  /** The kill for an entry filters on the address in its socket address. */
  lemma KillHasAddress(k: Kill, ai: AddrInfo, mask: seq<byte>, addr: seq<byte>)
    requires ai.Valid() && KillFor(k, ai, mask) && Carries(ai.family, ai.bytes.value, addr)
    ensures k.fa == ai.family && |addr| <= |k.addr| && k.addr[..|addr|] == addr
  {
    hide Carries;
    CarriedAddress(ai, addr);
  }

  /**
   The table entry and the state-kill filter denote the same addresses: the entry is the masked address
   with its prefix length, the filter the unmasked address with the recomputed mask.
   */
  lemma TableAndFilterAgree(net: Net, s: string, errno: int, a: Addr, raw: seq<byte>, k: Kill, x: seq<byte>)
    requires Parse(net, s, errno).addr == Some(a) && Spells(net, a.fa, Host(s), raw)
    requires IsMaskFor(k.mask, a.fa, a.netmask) && |x| == |raw| <= |k.addr| && k.addr[..|raw|] == raw
    ensures x in Network(a.sa[..|x|], a.netmask) <==> FilterMatches(k.addr, k.mask, x)
  {
    hide Parse, MaskByte, FilterMatches, Network, Keeps, Mask;
    ParsedNetwork(net, s, errno);
    var n := a.netmask;
    forall i | 0 <= i < |x|
      ensures k.mask[i] == MaskByte(n, i)
    {
      assert a.fa == Inet ==> k.mask[i] == k.mask[..4][i] == NetMask(n, 4)[i];
    }
    FilterIsNetwork(k.addr, k.mask, n, x);
  }

  /** `getaddrinfo` on a numeric host gives that address, any number of times. */
  ghost predicate ResolvesTo(res: seq<AddrInfo>, fa: Family, raw: seq<byte>) {
    forall i :: 0 <= i < |res| && res[i].bytes.Some? ==>
      res[i].family == fa && Carries(fa, res[i].bytes.value, raw)
  }

  /** Hence every kill that `pf_handle` issues for a parsed text matches exactly the network it added to the table. */
  lemma EveryKillMatchesTable(net: Net, s: string, errno: int, a: Addr, raw: seq<byte>, res: seq<AddrInfo>,
                              mask: seq<byte>, ks: seq<Kill>, i: nat, x: seq<byte>)
    requires Parse(net, s, errno).addr == Some(a) && Spells(net, a.fa, Host(s), raw)
    requires AllValid(res) && KillsFor(ks, Heads(res), mask) && IsMaskFor(mask, a.fa, a.netmask)
    requires ResolvesTo(res, a.fa, raw) && i < |ks| && |x| == |raw|
    ensures ks[i].fa == a.fa
    ensures FilterMatches(ks[i].addr, ks[i].mask, x) <==> x in Network(a.sa[..|x|], a.netmask)
  {
    hide Parse, FilterMatches, Network, IsMaskFor, Carries;
    var h := Heads(res)[i];
    assert KillFor(ks[i], h, mask);
    assert h in res;
    KillHasAddress(ks[i], h, mask, raw);
    TableAndFilterAgree(net, s, errno, a, raw, ks[i], x);
  }

  // ---- what the kills cover ----

  /** Every kill of a call was issued, under the mask of the prefix. */
  ghost predicate AllKilled(res: seq<AddrInfo>, fa: Family, n: nat, mask: seq<byte>, ks: seq<Kill>)
    requires AllValid(res)
  {
    IsMaskFor(mask, fa, n) && KillsFor(ks, Heads(res), mask) && |ks| == |Heads(res)|
  }

  ghost predicate MatchedBySome(ks: seq<Kill>, fa: Family, x: seq<byte>) {
    exists i :: 0 <= i < |ks| && ks[i].fa == fa && FilterMatches(ks[i].addr, ks[i].mask, x)
  }

  lemma {:induction false} EveryKeyHasHead(res: seq<AddrInfo>, ai: AddrInfo)
    requires AllValid(res) && ai in res && ai.bytes.Some? && ai.Key() != Ones()
    ensures exists h :: h in Heads(res) && h.Key() == ai.Key()
    decreases |res|
  {
    var rest, end := res[..|res| - 1], res[|res| - 1];
    if ai in rest {
      EveryKeyHasHead(rest, ai);
    } else if ai.Key() == LastKey(rest) {
      var p :| p in rest && p.bytes.Some? && p.Key() == ai.Key();
      EveryKeyHasHead(rest, p);
    } else {
      assert ai in Heads(res);
    }
  }

  lemma SameKeySameNetwork(ai: AddrInfo, h: AddrInfo, fa: Family, n: nat)
    requires ai.Valid() && h.Valid() && ai.bytes.Some? && h.bytes.Some? && ai.Key() == h.Key()
    requires ai.family == fa && h.family == fa && (fa == Inet || (fa == Inet6 && n <= 64))
    ensures ai.Address() in Network(h.Address(), n)
  {
    var a, b, size := ai.Address(), h.Address(), if fa == Inet then 4 else 8;
    forall i | 0 <= i < size
      ensures a[i] == b[i]
    {
      assert ai.Key()[size + i] == h.Key()[size + i];
    }
  }

  lemma SomeHead(res: seq<AddrInfo>, ai: AddrInfo)
    requires AllValid(res) && ai in res && ai.bytes.Some? && (ai.family == Inet || ai.family == Inet6)
    ensures exists i :: 0 <= i < |Heads(res)| && Heads(res)[i].Key() == ai.Key()
  {
    hide Heads;
    assert ai.Key()[0] != Ones()[0];
    EveryKeyHasHead(res, ai);
  }

  /**
   When `pf_handle` succeeds for a parsed text, the states it kills are exactly those of the network it added
   to the table, at every prefix length: a numeric host resolves to its own address.
   */
  lemma StatesKilledIff(net: Net, s: string, errno: int, a: Addr, raw: seq<byte>, res: seq<AddrInfo>, ai: AddrInfo,
                        mask: seq<byte>, ks: seq<Kill>, x: seq<byte>)
    requires Parse(net, s, errno).addr == Some(a) && Spells(net, a.fa, Host(s), raw)
    requires AllValid(res) && ResolvesTo(res, a.fa, raw) && ai in res && ai.bytes.Some?
    requires AllKilled(res, a.fa, a.netmask, mask, ks) && |x| == |raw|
    ensures MatchedBySome(ks, a.fa, x) <==> x in Network(a.sa[..|x|], a.netmask)
    ensures MatchedBySome(ks, a.fa, x) <==> x in Network(raw, a.netmask)
  {
    hide Parse, FilterMatches, Network, IsMaskFor, Heads, KillsFor, Carries, Keeps, Mask;
    ParsedNetwork(net, s, errno);
    SomeHead(res, ai);
    forall i: nat | i < |ks|
      ensures ks[i].fa == a.fa
      ensures FilterMatches(ks[i].addr, ks[i].mask, x) <==> x in Network(a.sa[..|x|], a.netmask)
    {
      EveryKillMatchesTable(net, s, errno, a, raw, res, mask, ks, i, x);
    }
    assert ks[0].fa == a.fa;
  }

  /** For such a host the call fails only if the table or a kill does. */
  lemma NumericHandled(fa: Family, raw: seq<byte>, res: seq<AddrInfo>, addOk: bool, killOk: nat -> bool)
    requires AllValid(res) && ResolvesTo(res, fa, raw) && (fa == Inet || fa == Inet6)
    ensures HandleOk(addOk, Some(res), killOk) <==> addOk && forall i :: 0 <= i < |Heads(res)| ==> killOk(i)
  {
    hide Heads, Carries;
    forall i | 0 <= i < |Heads(res)|
      ensures Heads(res)[i].family == fa
    {
      assert Heads(res)[i] in res;
    }
  }

  // ---- lists of different addresses ----

  ghost predicate OfFamily(res: seq<AddrInfo>, fa: Family) {
    forall i :: 0 <= i < |res| ==> res[i].family == fa
  }

  /** Every resolved address is matched by the filter of some kill. */
  ghost predicate Covered(res: seq<AddrInfo>, fa: Family, ks: seq<Kill>)
    requires AllValid(res) && OfFamily(res, fa) && (fa == Inet || fa == Inet6)
  {
    forall ai, addr :: ai in res && ai.bytes.Some? && Carries(fa, ai.bytes.value, addr) ==> MatchedBySome(ks, fa, addr)
  }

  /** The filter of a kill matches the network of the address it was made for. */
  lemma KillMatchesIff(k: Kill, h: AddrInfo, n: nat, mask: seq<byte>, x: seq<byte>)
    requires h.Valid() && KillFor(k, h, mask) && IsMaskFor(mask, h.family, n)
    requires (h.family == Inet && n <= 32) || (h.family == Inet6 && n <= 128)
    requires |x| == AddressSize(h.family)
    ensures FilterMatches(k.addr, k.mask, x) <==> x in Network(h.Address(), n)
  {
    hide MaskByte, FilterMatches, Network;
    forall i | 0 <= i < |x|
      ensures k.mask[i] == MaskByte(n, i)
    {
      assert h.family == Inet ==> k.mask[i] == k.mask[..4][i] == NetMask(n, 4)[i];
    }
    FilterIsNetwork(k.addr, k.mask, n, x);
  }

  /** An address of all zeros, and the one that differs from it in bit 64 only. */
  function Zeros(): Bytes16 {
    [0, 0, 0, 0, 0, 0, 0, 0, 0, 0, 0, 0, 0, 0, 0, 0]
  }

  function Bit64(): Bytes16 {
    [0, 0, 0, 0, 0, 0, 0, 0, 0x80, 0, 0, 0, 0, 0, 0, 0]
  }

  /** Two addresses the loop takes for one: the key does not hold bit 64. */
  function TwinAddresses(): (res: seq<AddrInfo>)
    ensures AllValid(res) && OfFamily(res, Inet6) && |res| == 2
    ensures res[0].bytes.Some? && Carries(Inet6, res[0].bytes.value, Zeros())
    ensures res[1].bytes.Some? && Carries(Inet6, res[1].bytes.value, Bit64())
  {
    var x := SockaddrIn6(28, [0, 0], [0, 0, 0, 0], Zeros(), [0, 0, 0, 0]);
    var y := SockaddrIn6(28, [0, 0], [0, 0, 0, 0], Bit64(), [0, 0, 0, 0]);
    [AddrInfo(Inet6, Some(x)), AddrInfo(Inet6, Some(y))]
  }

  lemma TwinHeads()
    ensures Heads(TwinAddresses()) == [TwinAddresses()[0]]
  {
    var res := TwinAddresses();
    var x, y := res[0], res[1];
    assert res[..1] == [x] && [x][..0] == [];
    assert x.Key() == y.Key();
    assert Ones()[0] == 0xff;
    assert Heads([]) == [] && Heads([x]) == [x];
  }

  lemma TwinsDiffer(n: nat)
    requires 64 < n <= 128
    ensures Bit64() !in Network(Zeros(), n)
  {
    assert !Bit(Zeros(), 64) by { ZeroBit(7); }
    assert Bit(Bit64(), 64) by {
      assert Bit64()[8] == 0x80;
      assert TestBit(0x80, 7);
    }
  }

  /** No kills of the loop cover them under a prefix that tells them apart. */
  lemma TwinsNotCovered(n: nat, mask: seq<byte>, ks: seq<Kill>)
    requires 64 < n <= 128 && AllKilled(TwinAddresses(), Inet6, n, mask, ks)
    ensures !Covered(TwinAddresses(), Inet6, ks)
  {
    hide Heads, FilterMatches, Network, IsMaskFor, TwinAddresses, Carries, Zeros, Bit64;
    TwinHeads();
    TwinsDiffer(n);
    var res := TwinAddresses();
    CarriedAddress(res[0], Zeros());
    KillMatchesIff(ks[0], res[0], n, mask, Bit64());
    assert !MatchedBySome(ks, Inet6, Bit64());
    assert res[1] in res && Carries(Inet6, res[1].bytes.value, Bit64());
  }

  lemma CoveredUpTo64(res: seq<AddrInfo>, fa: Family, n: nat, mask: seq<byte>, ks: seq<Kill>)
    requires (fa == Inet && n <= 32) || (fa == Inet6 && n <= 64)
    requires AllValid(res) && OfFamily(res, fa) && AllKilled(res, fa, n, mask, ks)
    ensures Covered(res, fa, ks)
  {
    hide Heads, FilterMatches, Network, IsMaskFor, Carries;
    forall ai: AddrInfo, addr | ai in res && ai.bytes.Some? && Carries(fa, ai.bytes.value, addr)
      ensures MatchedBySome(ks, fa, addr)
    {
      CarriedAddress(ai, addr);
      SomeHead(res, ai);
      var i :| 0 <= i < |Heads(res)| && Heads(res)[i].Key() == ai.Key();
      assert KillFor(ks[i], Heads(res)[i], mask);
      SameKeySameNetwork(ai, Heads(res)[i], fa, n);
      KillMatchesIff(ks[i], Heads(res)[i], n, mask, ai.Address());
    }
  }

  /**
   A list of different addresses of one family, as a name could resolve to, is covered by the kills whatever
   it holds for IPv4, and for IPv6 exactly up to a /64.
   */
  lemma CoverageIff(fa: Family, n: nat)
    requires (fa == Inet && n <= 32) || (fa == Inet6 && n <= 128)
    ensures (forall res, mask, ks | AllValid(res) && OfFamily(res, fa) && AllKilled(res, fa, n, mask, ks) ::
               Covered(res, fa, ks))
       <==> fa == Inet || n <= 64
  {
    hide AllKilled, Covered;
    if fa == Inet || n <= 64 {
      forall res, mask, ks | AllValid(res) && OfFamily(res, fa) && AllKilled(res, fa, n, mask, ks)
        ensures Covered(res, fa, ks)
      {
        CoveredUpTo64(res, fa, n, mask, ks);
      }
    } else {
      var mask: seq<byte>, ks := KillsOfTwins(n);
      TwinsNotCovered(n, mask, ks);
    }
  }

  lemma KillsOfTwins(n: nat) returns (mask: seq<byte>, ks: seq<Kill>)
    requires 64 < n <= 128
    ensures AllKilled(TwinAddresses(), Inet6, n, mask, ks)
  {
    hide Heads;
    TwinHeads();
    mask := NetMask(n, 16);
    ks := [Kill(Inet6, TwinAddresses()[0].Address(), mask)];
  }
}
