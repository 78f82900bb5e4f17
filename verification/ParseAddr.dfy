/** `parse_addr` (parse.c): from `address[/prefix]` to the bytes of a network. */
module ParseAddr {
  import opened Words
  import opened Cidr
  import opened Netmask
  import opened CStrings
  import opened ErrorSlot
  import opened ParseUlong

  datatype Family = Inet | Inet6 | OtherFamily(code: nat)

  /** The size of `humanrepr`: INET6_ADDRSTRLEN + 1. */
  const HUMANREPR_SIZE: nat := 47

  /** The library calls `parse_addr` makes: `inet_pton` for both families and a numeric `getaddrinfo`. */
  datatype Net = Net(
    pton4: string -> Option<Bytes4>,
    pton6: string -> Option<Bytes16>,
    numericFamily: string -> Option<Family>)

  /** The value of an `addr_t`. */
  datatype Addr = Addr(sa: Bytes16, fa: Family, saSize: nat, netmask: nat, humanrepr: string)

  /** The errors reported on the way, and the address if there is one. */
  datatype Outcome = Outcome(addr: Option<Addr>, errors: seq<Error>)

  // ---- splitting at the slash ----

  function SlashAt(s: string): (n: nat)
    ensures n <= |s| && '/' !in s[..n] && (n < |s| ==> s[n] == '/')
    ensures n < |s| <==> '/' in s
  {
    Span(c => c != '/', s)
  }

  /** The text before the first slash, and the whole text if there is none. */
  function Host(s: string): string {
    s[..SlashAt(s)]
  }

  function PrefixText(s: string): string
    requires '/' in s
  {
    s[SlashAt(s) + 1..]
  }

  /** The text after a slash is one `parse_ulong` accepts. */
  predicate PrefixAccepted(s: string, errno: int) {
    '/' in s ==> Complaint(PrefixText(s), errno).None?
  }

  lemma SplitAtSlash(host: string, prefix: string)
    requires '/' !in host
    ensures var s := host + "/" + prefix; '/' in s && Host(s) == host && PrefixText(s) == prefix
  {
    var s := host + "/" + prefix;
    assert s[|host|] == '/';
    var n := SlashAt(s);
    assert s[..|host|] == host;
    assert forall k :: 0 <= k < |host| ==> s[k] == host[k] != '/';
    assert forall k :: 0 <= k < n ==> s[k] == s[..n][k] != '/';
    assert s[|host| + 1..] == prefix;
  }

  // ---- the specification ----

  function Widen(b: Bytes4): Bytes16 {
    b + [0, 0, 0, 0, 0, 0, 0, 0, 0, 0, 0, 0]
  }

  /** The address that a text stands for in a family, in the 16 bytes of the union. */
  function Pton(net: Net, fa: Family, host: string): Option<Bytes16> {
    match fa
    case Inet => (match net.pton4(host) case Some(b) => Some(Widen(b)) case None => None)
    case Inet6 => net.pton6(host)
    case OtherFamily(_) => None
  }

  /** The errors of the prefix number, which do not stop `parse_addr`. */
  function PrefixErrors(s: string, errno: int): seq<Error>
    requires '/' in s
  {
    match Complaint(PrefixText(s), errno)
    case None => []
    case Some(e) => [e]
  }

  /** Host bits cleared, and the text kept if it fits. */
  function Finish(raw: Bytes16, fa: Family, n: nat, host: string): Outcome {
    if |host| < HUMANREPR_SIZE then
      Outcome(Some(Addr(Mask(raw, n), fa, if fa == Inet then 4 else 16, n, host)), [])
    else
      Outcome(None, [NameTooLong])
  }

  /** The address part of `address/prefix`, for the number `n` that the prefix text gave. */
  function ParseHost(net: Net, host: string, n: nat): Outcome {
    match net.numericFamily(host)
    case None => Outcome(None, [UnresolvedHost])
    case Some(fa) =>
      if (fa == Inet && n > 32) || (fa == Inet6 && n > 128) then Outcome(None, [PrefixTooLong])
      else match Pton(net, fa, host)
        case None => Outcome(None, [InvalidAddress])
        case Some(raw) => Finish(raw, fa, n, host)
  }

  function ParseWithPrefix(net: Net, s: string, errno: int): Outcome
    requires '/' in s
  {
    var o := ParseHost(net, Host(s), Strtoul(PrefixText(s), errno).value);
    o.(errors := PrefixErrors(s, errno) + o.errors)
  }

  /** Without a prefix, an IPv4 address is a /32 and an IPv6 address a /64. */
  function ParseBare(net: Net, s: string): Outcome {
    match Pton(net, Inet, s)
    case Some(raw) => Finish(raw, Inet, 32, s)
    case None =>
      match Pton(net, Inet6, s)
      case Some(raw) => Finish(raw, Inet6, 64, s)
      case None => Outcome(None, [InvalidAddress])
  }

  function Parse(net: Net, s: string, errno: int): Outcome {
    if '/' in s then ParseWithPrefix(net, s, errno) else ParseBare(net, s)
  }

  // ---- what a successful parse means ----

  /** `inet_pton` reads the host as these bytes: 4 for IPv4, 16 for IPv6. */
  predicate Spells(net: Net, fa: Family, host: string, raw: seq<byte>) {
    || (fa == Inet && net.pton4(host).Some? && net.pton4(host).value == raw)
    || (fa == Inet6 && net.pton6(host).Some? && net.pton6(host).value == raw)
  }

  /**
   When a text parses, and as what family: before a slash it is the one that the host resolves to, and a bare
   text is IPv4 if it can be.
   */
  lemma ParsesIff(net: Net, s: string, errno: int, fa: Family)
    ensures (Parse(net, s, errno).addr.Some? && Parse(net, s, errno).addr.value.fa == fa)
       <==> && |Host(s)| < 47
            && ((fa == Inet && net.pton4(Host(s)).Some?) || (fa == Inet6 && net.pton6(Host(s)).Some?))
            && if '/' in s then
                 && net.numericFamily(Host(s)) == Some(fa)
                 && Strtoul(PrefixText(s), errno).value <= (if fa == Inet then 32 else 128)
               else
                 fa == Inet || net.pton4(s).None?
  {
    hide Strtoul, Mask;
    if '/' !in s { assert Host(s) == s; }
  }

  /** The first bits of the address are those of `raw`, and all others are clear. */
  ghost predicate Keeps(sa: Bytes16, raw: seq<byte>, n: nat)
    requires |raw| <= 16
  {
    && (forall k :: 0 <= k < 8 * |raw| ==> (Bit(sa, k) <==> k < n && Bit(raw, k)))
    && (forall i :: |raw| <= i < 16 ==> sa[i] == 0)
  }

  /** The address is the network of these bytes and its own prefix. */
  ghost predicate IsNetworkOf(a: Addr, raw: seq<byte>)
    requires |raw| <= 16
  {
    && a.saSize == |raw| && a.netmask <= 8 * |raw| && Keeps(a.sa, raw, a.netmask)
    && a.sa[..|raw|] == Mask(raw, a.netmask) && Network(a.sa[..|raw|], a.netmask) == Network(raw, a.netmask)
  }

  /**
   A parsed address is the network of the address that `inet_pton` reads before the slash: the first bits are
   those of its bytes and all others are clear, the prefix fits the family, and `humanrepr` is the text before the
   slash, all of it.
   */
  lemma ParsedNetwork(net: Net, s: string, errno: int)
    requires Parse(net, s, errno).addr.Some?
    ensures var a := Parse(net, s, errno).addr.value;
            && a.humanrepr == Host(s)
            && a.netmask == (if '/' in s then Strtoul(PrefixText(s), errno).value else if a.fa == Inet then 32 else 64)
            && (|| (a.fa == Inet && net.pton4(Host(s)).Some? && IsNetworkOf(a, net.pton4(Host(s)).value))
                || (a.fa == Inet6 && net.pton6(Host(s)).Some? && IsNetworkOf(a, net.pton6(Host(s)).value)))
  {
    hide Strtoul, Mask, Network, Keeps;
    if '/' !in s { assert Host(s) == s; }
    var a := Parse(net, s, errno).addr.value;
    var wide := Pton(net, a.fa, Host(s)).value;
    var raw := if a.fa == Inet then net.pton4(Host(s)).value else net.pton6(Host(s)).value;
    assert wide == raw + seq(16 - |raw|, _ => 0);
    MaskedKeeps(wide, raw, a.netmask);
    MaskNamesSameNetwork(raw, a.netmask);
  }

  lemma MaskedKeeps(wide: Bytes16, raw: seq<byte>, n: nat)
    requires |raw| <= 16 && wide == raw + seq(16 - |raw|, _ => 0)
    ensures Keeps(Mask(wide, n), raw, n) && Mask(wide, n)[..|raw|] == Mask(raw, n)
  {
    forall k | 0 <= k < 8 * |raw|
      ensures Bit(Mask(wide, n), k) <==> k < n && Bit(raw, k)
    {
      MaskBit(wide, n, k);
      assert wide[k / 8] == raw[k / 8];
    }
    assert forall i :: |raw| <= i < 16 ==> wide[i] == 0;
  }

  // ---- prefixes that are odd ----

  /** A negative prefix is read as a huge one, so that no text with one parses, whatever follows the digits. */
  lemma NegativeRefused(net: Net, host: string, errno: int, prefix: string, blank: string, digits: string, tail: string)
    requires '/' !in host && Begins(prefix, blank, "-", digits, tail)
    requires 0 < DecValue(digits) <= 0x1_0000_0000_0000_0000 - 129
    ensures Parse(net, host + "/" + prefix, errno).addr.None?
  {
    hide Parse, Strtoul, DecValue, Begins;
    var s := host + "/" + prefix;
    SplitAtSlash(host, prefix);
    NumeralValue(prefix, errno, blank, "-", digits, tail);
    if Parse(net, s, errno).addr.Some? {
      ParsesIff(net, s, errno, Parse(net, s, errno).addr.value.fa);
    }
  }

  /** What follows the digits of a prefix is reported and does not change it. */
  lemma TailIgnored(net: Net, fa: Family, host: string, raw: seq<byte>, errno: int,
                    prefix: string, blank: string, sign: string, digits: string, tail: string)
    requires '/' !in host && |host| < 47 && net.numericFamily(host) == Some(fa) && Spells(net, fa, host, raw)
    requires Begins(prefix, blank, sign, digits, tail) && sign != "-" && DecValue(digits) <= 8 * |raw|
    ensures var o := Parse(net, host + "/" + prefix, errno);
            && o.addr.Some? && o.addr.value.fa == fa && o.addr.value.netmask == DecValue(digits)
            && |o.errors| == if tail == "" && DecValue(digits) > 0 then 0 else 1
  {
    hide Parse, Strtoul, DecValue, Begins;
    var s := host + "/" + prefix;
    SplitAtSlash(host, prefix);
    NumeralValue(prefix, errno, blank, sign, digits, tail);
    ParsesIff(net, s, errno, fa);
    ParsedNetwork(net, s, errno);
    ErrorCount(net, s, errno);
    BeginsLength(prefix, blank, sign, digits, tail);
  }

  /** A refused prefix is always reported, and any failure after it is reported on top of it. */
  lemma ErrorCount(net: Net, s: string, errno: int)
    ensures var o := Parse(net, s, errno);
            |o.errors| == (if PrefixAccepted(s, errno) then 0 else 1) + (if o.addr.Some? then 0 else 1)
  {
    hide Strtoul, Complaint, Mask, Host, Pton;
  }

  // ---- the code ----

  /** An `addr_t` in memory. */
  class AddrT {
    var sa: array<byte>
    var fa: Family
    var saSize: nat
    var netmask: byte
    var humanrepr: array<char>

    constructor ()
      ensures Valid() && fresh(sa) && fresh(humanrepr)
    {
      sa := new byte[16](_ => 0);
      humanrepr := new char[HUMANREPR_SIZE](_ => NUL);
      fa, saSize, netmask := OtherFamily(0), 0, 0;
    }

    ghost predicate Valid()
      reads this
    {
      sa.Length == 16 && humanrepr.Length == HUMANREPR_SIZE
    }

    ghost predicate Holds(a: Addr)
      requires Valid()
      reads this, sa, humanrepr
    {
      && sa[..] == a.sa && fa == a.fa && saSize == a.saSize && netmask == a.netmask
      && NUL in humanrepr[..] && CText(humanrepr[..]) == a.humanrepr
    }

    /** `bzero(addr, sizeof(*addr))` */
    method Clear()
      requires Valid()
      modifies this`fa, this`saSize, this`netmask, sa, humanrepr
      ensures Valid()
      ensures forall k :: 0 <= k < 16 ==> sa[k] == 0
    {
      forall k | 0 <= k < 16 { sa[k] := 0; }
      forall k | 0 <= k < HUMANREPR_SIZE { humanrepr[k] := NUL; }
      fa, saSize, netmask := OtherFamily(0), 0, 0;
    }

    /** What `inet_pton` writes when it succeeds: the first 4 or all 16 bytes of the union. */
    method Store(b: seq<byte>)
      requires Valid() && |b| <= 16
      modifies sa
      ensures sa[..] == b + old(sa[..])[|b|..]
    {
      forall k | 0 <= k < |b| { sa[k] := b[k]; }
    }

    /** The end of `parse_addr`: host bits, then the text. */
    method Complete(e: Endian, host: string, error: Cell) returns (ok: bool)
      requires Valid() && netmask <= 128 && NUL !in host && !error.slot.Crashed?
      modifies sa, humanrepr, error
      ensures ok <==> |host| < HUMANREPR_SIZE
      ensures error.slot == if ok then old(error.slot) else old(error.slot).Put(NameTooLong)
      ensures sa[..] == Mask(old(sa[..]), netmask)
      ensures ok ==> NUL in humanrepr[..] && CText(humanrepr[..]) == host
    {
      ClearHostBits(e, sa, netmask);
      TerminatedText(host + [NUL], host);
      StrlcpyTruncates(humanrepr[..], host, HUMANREPR_SIZE);
      var len := Strlcpy(humanrepr, host + [NUL], HUMANREPR_SIZE);
      ok := len < HUMANREPR_SIZE;
      if !ok {
        error.Set(NameTooLong);
      }
    }
  }

  /** `parse_addr`.  If the process ends on the way, the result is of no use. */
  method ParseAddr(e: Endian, net: Net, s: string, errno: int, addr: AddrT, error: Cell) returns (ok: bool)
    requires addr.Valid() && NUL !in s && !error.slot.Crashed?
    modifies addr`fa, addr`saSize, addr`netmask, addr.sa, addr.humanrepr, error
    ensures error.slot == old(error.slot).PutAll(Parse(net, s, errno).errors)
    ensures ok <==> !error.slot.Crashed? && Parse(net, s, errno).addr.Some?
    ensures ok ==> addr.Holds(Parse(net, s, errno).addr.value)
  {
    addr.Clear();
    if '/' in s {
      ok := ParseSlash(e, net, s, errno, addr, error);
    } else {
      ok := ParseNoSlash(e, net, s, addr, error);
    }
  }

  /** The branch for `address/prefix`. */
  method ParseSlash(e: Endian, net: Net, s: string, errno: int, addr: AddrT, error: Cell) returns (ok: bool)
    requires addr.Valid() && NUL !in s && '/' in s && !error.slot.Crashed?
    requires forall k :: 0 <= k < 16 ==> addr.sa[k] == 0
    modifies addr`fa, addr`saSize, addr`netmask, addr.sa, addr.humanrepr, error
    ensures error.slot == old(error.slot).PutAll(ParseWithPrefix(net, s, errno).errors)
    ensures ok <==> !error.slot.Crashed? && ParseWithPrefix(net, s, errno).addr.Some?
    ensures ok ==> addr.Holds(ParseWithPrefix(net, s, errno).addr.value)
  {
    hide Strtoul, Complaint, ParseHost;
    var accepted, prefix := ParseUlong.ParseUlong(PrefixText(s), errno, error);
    ghost var errors := PrefixErrors(s, errno);
    assert error.slot == old(error.slot).PutAll(errors);
    PutAllConcat(old(error.slot), errors, ParseHost(net, Host(s), prefix).errors);
    if error.slot.Crashed? {
      CrashedStays(ParseHost(net, Host(s), prefix).errors);
      return false;
    }
    ok := ParseSlashHost(e, net, Host(s), prefix, addr, error);
  }

  method ParseSlashHost(e: Endian, net: Net, host: string, prefix: nat, addr: AddrT, error: Cell) returns (ok: bool)
    requires addr.Valid() && NUL !in host && !error.slot.Crashed?
    requires forall k :: 0 <= k < 16 ==> addr.sa[k] == 0
    modifies addr`fa, addr`saSize, addr`netmask, addr.sa, addr.humanrepr, error
    ensures ok <==> !error.slot.Crashed? && ParseHost(net, host, prefix).addr.Some?
    ensures ok ==> addr.Holds(ParseHost(net, host, prefix).addr.value)
    ensures error.slot == old(error.slot).PutAll(ParseHost(net, host, prefix).errors)
  {
    hide Mask;
    var family := net.numericFamily(host);
    if family.None? {
      error.Set(UnresolvedHost);
      return false;
    }
    var fa := family.value;
    if (fa == Inet && prefix > 32) || (fa == Inet6 && prefix > 128) {
      error.Set(PrefixTooLong);
      return false;
    }
    if fa == Inet && net.pton4(host).Some? {
      addr.Store(net.pton4(host).value);
      addr.saSize := 4;
    } else if fa == Inet6 && net.pton6(host).Some? {
      addr.Store(net.pton6(host).value);
      addr.saSize := 16;
    } else {
      error.Set(InvalidAddress);
      return false;
    }
    assert addr.sa[..] == Pton(net, fa, host).value;
    addr.netmask := prefix % 0x100;
    addr.fa := fa;
    ok := addr.Complete(e, host, error);
  }

  /** The branch for a bare address. */
  method ParseNoSlash(e: Endian, net: Net, s: string, addr: AddrT, error: Cell) returns (ok: bool)
    requires addr.Valid() && NUL !in s && !error.slot.Crashed?
    requires forall k :: 0 <= k < 16 ==> addr.sa[k] == 0
    modifies addr`fa, addr`saSize, addr`netmask, addr.sa, addr.humanrepr, error
    ensures ok <==> !error.slot.Crashed? && ParseBare(net, s).addr.Some?
    ensures ok ==> addr.Holds(ParseBare(net, s).addr.value)
    ensures error.slot == old(error.slot).PutAll(ParseBare(net, s).errors)
  {
    hide Mask;
    if net.pton4(s).Some? {
      addr.Store(net.pton4(s).value);
      addr.fa, addr.netmask, addr.saSize := Inet, 32, 4;
    } else if net.pton6(s).Some? {
      addr.Store(net.pton6(s).value);
      addr.fa, addr.netmask, addr.saSize := Inet6, 64, 16;
    } else {
      error.Set(InvalidAddress);
      return false;
    }
    assert addr.sa[..] == Pton(net, addr.fa, s).value;
    ok := addr.Complete(e, s, error);
  }
}
