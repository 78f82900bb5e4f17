/**
 The code of the loop of banipd.c, over either backend and with the PF engine, proved to perform the steps of
 the daemon's machine.
 */
module Banipd {
  import opened Words
  import opened CStrings
  import opened ErrorSlot
  import opened Delivery
  import opened ParseAddr
  import opened Daemon
  import opened Queues
  import Pf
  import Cidr

  // ---- one round ----

  /** What the system does in a round: whether the receive, the table update and each state kill succeed. */
  datatype Round = Round(recvOk: bool, errno: int, addOk: bool, killOk: nat -> bool)

  type Resolver = string -> Option<seq<Pf.AddrInfo>>

  ghost predicate ValidResolver(resolve: Resolver) {
    forall s :: resolve(s).Some? ==> Pf.AllValid(resolve(s).value)
  }

  /** The filters that the engine issued for an address, under which mask. */
  datatype Handling = Handling(mask: seq<byte>, kills: seq<Pf.Kill>)

  /** The engine's answer for an address in a round. */
  ghost predicate EngineOk(resolve: Resolver, a: Addr, r: Round)
    requires ValidResolver(resolve)
  {
    Pf.HandleOk(r.addOk, resolve(a.humanrepr), r.killOk)
  }

  /** What the engine says, or would say, to a text in a round. */
  ghost predicate Answer(net: Net, resolve: Resolver, text: string, r: Round)
    requires ValidResolver(resolve)
  {
    var o := Parse(net, text, r.errno);
    o.addr.Some? && EngineOk(resolve, o.addr.value, r)
  }

  /** The event that a round on a text is. */
  ghost function TurnEvent(net: Net, resolve: Resolver, text: string, r: Round): Event
    requires ValidResolver(resolve)
  {
    if r.recvOk then Event.Serve(r.errno, Answer(net, resolve, text, r)) else ReceiveFails
  }

  /** The kills of `pf_handle` for that address. */
  ghost predicate Banned(resolve: Resolver, a: Addr, r: Round, h: Handling)
    requires ValidResolver(resolve)
  {
    && Pf.IsMaskFor(h.mask, a.fa, a.netmask)
    && Pf.Killed(r.addOk, resolve(a.humanrepr), r.killOk, h.mask, h.kills, EngineOk(resolve, a, r))
  }

  /** The table entry of an address. */
  function Entries(a: Addr, addOk: bool): seq<Pf.TableEntry> {
    if addOk then [Pf.TableEntry(a.fa, a.netmask, a.sa)] else []
  }

  /** What has been passed to PF in a round has reached it, and nothing else. */
  ghost predicate Passed(resolve: Resolver, before: seq<Addr>, after: seq<Addr>, r: Round, h: Handling,
                         table: seq<Pf.TableEntry>, table': seq<Pf.TableEntry>,
                         kills: seq<Pf.Kill>, kills': seq<Pf.Kill>)
    requires ValidResolver(resolve)
  {
    if |before| < |after| then
      && table' == table + Entries(after[|before|], r.addOk)
      && kills' == kills + h.kills && Banned(resolve, after[|before|], r, h)
    else
      table' == table && kills' == kills
  }

  lemma NothingPassed(resolve: Resolver, handled: seq<Addr>, r: Round, h: Handling,
                      table: seq<Pf.TableEntry>, kills: seq<Pf.Kill>)
    requires ValidResolver(resolve)
    ensures Passed(resolve, handled, handled, r, h, table, table, kills, kills)
  {
  }

  /** Parse the text in the buffer and hand the address to PF; report and free an error. */
  method ParseAndHandle(e: Endian, net: Net, resolve: Resolver, out: array<char>, addr: AddrT, error: Cell,
                        dev: Pf.Device, r: Round, ghost handled: seq<Addr>)
    returns (ghost h: Handling)
    requires NUL in out[..] && addr.Valid() && out != addr.humanrepr && ValidResolver(resolve) && !error.slot.Crashed?
    modifies addr`fa, addr`saSize, addr`netmask, addr.sa, addr.humanrepr, error, dev
    ensures var text := CText(out[..]);
            var o := Parse(net, text, r.errno);
            && error.slot == SlotAfter(old(error.slot), o, Answer(net, resolve, text, r))
            && Passed(resolve, handled, HandledAfter(handled, old(error.slot), o), r, h,
                      old(dev.table), dev.table, old(dev.kills), dev.kills)
  {
    hide Parse;
    h := Handling([], []);
    var ok := ParseAddr.ParseAddr(e, net, CText(out[..]), r.errno, addr, error);
    if error.slot.Crashed? {
      return;
    }
    if ok {
      var parsed := Addr(addr.sa[..], addr.fa, addr.saSize, addr.netmask, CText(addr.humanrepr[..]));
      ghost var mask, ks;
      ok, mask, ks := Pf.PfHandle(e, dev, parsed, r.addOk, resolve(parsed.humanrepr), r.killOk, error);
      h := Handling(mask, ks);
      if error.slot.Crashed? {
        return;
      }
    }
    if !ok {
      error.Free();
    }
  }

  // ---- the daemon among its senders ----

  /**
   The daemon's queue and variables, and the handles of the processes that send to that queue; `memory` is
   what all of them write to.
   */
  datatype Site = Site(
    q: AnyQueue, senders: seq<AnyQueue>, out: array<char>, addr: AddrT, error: Cell, dev: Pf.Device,
    ghost memory: set<object>)
  {

    /** A sender has the same queue open, and a buffer of its own. */
    ghost predicate Joined(s: AnyQueue)
      requires q.Ready()
      reads *
    {
      && s.Ready() && q.SameQueue(s)
      && (q.SystemVQ? ==>
            s.vh.buffer != q.vh.buffer && s.vh.buffer != out && s.vh.buffer != addr.humanrepr)
    }

    /** No memory is shared but the system's. */
    ghost predicate Valid()
      reads *
    {
      && q.Ready() && out.Length == DaemonRoom(q.Kind())
      && addr.Valid() && out != addr.humanrepr
      && (q.SystemVQ? ==> q.vh.buffer != out && q.vh.buffer != addr.humanrepr)
      && q.Writes() + {out, error, dev, addr, addr.sa, addr.humanrepr} <= memory
      && (forall i :: 0 <= i < |senders| ==> Joined(senders[i]) && senders[i].Writes() <= memory)
      && (q.SystemVQ? ==> forall i, j :: 0 <= i < j < |senders| ==> senders[i].vh.buffer != senders[j].vh.buffer)
    }

    /** The state of the daemon's machine that this memory holds. */
    ghost predicate Represents(w: World)
      reads *
    {
      && Valid() && Daemon.Valid(q.Kind(), w)
      && w.inFlight == q.Pending() && w.rtext == q.Text() && w.out == out[..] && w.slot == error.slot
      && |w.senders| == |senders| && forall i :: 0 <= i < |senders| ==> w.senders[i] == senders[i].Text()
    }
  }

  /** The handle itself is as it was. */
  twostate predicate Still(s: AnyQueue)
    reads if s.SystemVQ? then {s.vh} else {s.ph}
  {
    match s
    case PosixQ(ph, _) => unchanged(ph)
    case SystemVQ(vh, _) => unchanged(vh)
  }

  /** So is the memory behind it. */
  twostate predicate KeepsText(s: AnyQueue)
    reads if s.SystemVQ? then {s.vh, s.vh.buffer} else {}
  {
    s.SystemVQ? && s.vh.buffer != null && old(s.vh.buffer) == s.vh.buffer ==> s.vh.buffer[..] == old(s.vh.buffer[..])
  }

  /** Messages come and go: whoever had the queue open still has it. */
  twostate lemma StayJoined(site: Site)
    requires old(site.Valid()) && site.q.OnlyMessages() && Still(site.q)
    requires site.addr.humanrepr == old(site.addr.humanrepr) && site.addr.sa == old(site.addr.sa)
    requires forall i :: 0 <= i < |site.senders| ==> Still(site.senders[i])
    ensures site.Valid() && site.q.Kind() == old(site.q.Kind())
    ensures forall i :: 0 <= i < |site.senders| && KeepsText(site.senders[i]) ==>
              site.senders[i].Text() == old(site.senders[i].Text())
  {
  }

  /** A send reaches the daemon's queue, and touches nothing but that and the sender's own buffer. */
  method SendAt(site: Site, who: nat, text: string, ok: bool)
    requires site.Valid() && who < |site.senders| && NUL !in text && Fits(site.q.Kind(), text)
    modifies site.senders[who].Writes()
    ensures site.Valid() && site.q.Kind() == old(site.q.Kind()) && site.q.OnlyMessages()
    ensures unchanged(site.dev) && unchanged(site.error) && unchanged(site.out) && site.q.Text() == old(site.q.Text())
    ensures var b, mtext := site.q.Kind(), old(site.senders[who].Text());
            && site.q.Pending()
               == old(site.q.Pending()) + (if Accepts(b, text, ok) then [Encode(b, mtext, text)] else [])
            && site.senders[who].Text() == if b.Posix? then [] else Filled(mtext, text)
    ensures forall i :: 0 <= i < |site.senders| && i != who ==> site.senders[i].Text() == old(site.senders[i].Text())
  {
    hide Encode, Filled;
    assert site.Joined(site.senders[who]);
    var sent := SendText(site.senders[who], text, ok);
    assert forall i :: 0 <= i < |site.senders| && i != who ==> KeepsText(site.senders[i]);
    StayJoined(site);
  }

  /** A send is a step of the machine. */
  method Submit(site: Site, who: nat, text: string, ok: bool, ghost net: Net, ghost w: World)
    requires site.Represents(w) && CanStep(site.q.Kind(), w, Send(who, text, ok))
    modifies site.senders[who].Writes()
    ensures site.q.Ready() && site.q.Kind() == old(site.q.Kind()) && site.q.OnlyMessages() && unchanged(site.dev)
    ensures site.Represents(Step(net, site.q.Kind(), w, Send(who, text, ok)))
  {
    StepValid(net, site.q.Kind(), w, Send(who, text, ok));
    assert site.q.SystemVQ? || site.senders[who].Text() == [] by { assert site.Joined(site.senders[who]); }
    hide GoodMessage, Encode, Filled, Site.Joined, AnyQueue.Text, AnyQueue.Pending;
    SendAt(site, who, text, ok);
  }

  /** Receiving is the first half of a step. */
  method ReceiveAt(site: Site, ok: bool, ghost w: World) returns (read: int)
    requires site.Represents(w) && !w.slot.Crashed? && (ok ==> w.inFlight != [])
    modifies site.q.Writes(), site.out, site.error
    ensures site.q.Ready() && site.q.Kind() == old(site.q.Kind()) && site.q.OnlyMessages() && (read == -1 <==> !ok)
    ensures unchanged(site.dev)
    ensures site.Represents(if ok then Taken(site.q.Kind(), w) else w.(slot := w.slot.Put(ReceiveFailed)))
  {
    hide HandedOver, ReceivedInto, Receivable, GoodMessage, Decode;
    if ok { GoodReads(site.q.Kind(), w.rtext, w.inFlight[0]); }
    read := Receive(site.q, site.out, ok, site.error);
    assert forall i :: 0 <= i < |site.senders| ==> KeepsText(site.senders[i]);
    StayJoined(site);
  }

  /** An error is reported and freed, if the daemon lives. */
  method ReportError(site: Site, ghost w: World)
    requires site.Represents(w)
    modifies site.error
    ensures site.q.Ready() && site.q.Kind() == old(site.q.Kind())
    ensures site.Represents(w.(slot := w.slot.Freed()))
  {
    if !site.error.slot.Crashed? {
      site.error.Free();
    }
    StayJoined(site);
  }

  /** If receiving fails, that is the whole step. */
  method Take(site: Site, ok: bool, ghost w: World) returns (read: int)
    requires site.Represents(w) && !w.slot.Crashed? && (ok ==> w.inFlight != [])
    modifies site.q.Writes(), site.out, site.error
    ensures site.q.Ready() && site.q.Kind() == old(site.q.Kind()) && site.q.OnlyMessages() && (read == -1 <==> !ok)
    ensures unchanged(site.dev)
    ensures site.Represents(if ok then Taken(site.q.Kind(), w) else w.(slot := w.slot.Put(ReceiveFailed).Freed()))
  {
    assert Valid(site.q.Kind(), w);
    hide Taken, Valid, Site.Represents, AnyQueue.Ready, AnyQueue.Kind;
    read := ReceiveAt(site, ok, w);
    if read == -1 {
      ReportError(site, w.(slot := w.slot.Put(ReceiveFailed)));
    }
  }

  /** What has been received and handled is not in memory. */
  lemma HistoryApart(site: Site, w: World, w': World)
    requires site.Represents(w) && w' == w.(received := w'.received, handled := w'.handled)
    ensures site.Represents(w')
  {
  }

  /** Parsing and handling are the other half. */
  method Handle(e: Endian, net: Net, resolve: Resolver, site: Site, r: Round, ghost w: World)
    returns (ghost h: Handling)
    requires site.Represents(w) && !w.slot.Crashed? && NUL in w.out && ValidResolver(resolve)
    modifies site.error, site.dev
    modifies site.addr`fa, site.addr`saSize, site.addr`netmask, site.addr.sa, site.addr.humanrepr
    ensures site.q.Ready() && site.q.Kind() == old(site.q.Kind()) && site.q.OnlyMessages()
    ensures var o := Parse(net, CText(w.out), r.errno);
            && site.Represents(w.(slot := SlotAfter(w.slot, o, Answer(net, resolve, CText(w.out), r))))
            && Passed(resolve, w.handled, HandledAfter(w.handled, w.slot, o), r, h,
                      old(site.dev.table), site.dev.table, old(site.dev.kills), site.dev.kills)
  {
    hide Parse, SlotAfter, HandledAfter, Passed, Answer;
    h := ParseAndHandle(e, net, resolve, site.out, site.addr, site.error, site.dev, r, w.handled);
    StayJoined(site);
  }

  /** The text that the next round works on, if there is one. */
  ghost function FirstText(b: Backend, w: World): string
    requires Daemon.Valid(b, w)
  {
    if w.inFlight == [] then "" else Decode(b, w.inFlight[0])
  }

  /** The step that a round is, in two halves. */
  lemma StepHalves(net: Net, resolve: Resolver, b: Backend, w: World, r: Round)
    requires Daemon.Valid(b, w) && !w.slot.Crashed? && (r.recvOk ==> w.inFlight != []) && ValidResolver(resolve)
    ensures CanStep(b, w, TurnEvent(net, resolve, FirstText(b, w), r))
    ensures Step(net, b, w, TurnEvent(net, resolve, FirstText(b, w), r))
         == if !r.recvOk then w.(slot := w.slot.Put(ReceiveFailed).Freed())
            else
              var w1 := Taken(b, w);
              var text := CText(w1.out);
              var o := Parse(net, text, r.errno);
              w1.(slot := SlotAfter(w1.slot, o, Answer(net, resolve, text, r)),
                  received := w.received + [Received(text, r.errno)], handled := HandledAfter(w1.handled, w1.slot, o))
  {
    hide Parse, SlotAfter, HandledAfter, Taken, Answer, GoodMessage, Decode, ValidResolver;
  }

  /** The body of the loop is a step of the machine, and hands to PF what the machine says. */
  method Iterate(e: Endian, net: Net, resolve: Resolver, site: Site, r: Round, ghost b: Backend, ghost w: World)
    returns (ghost h: Handling, ghost w': World)
    requires site.Represents(w) && site.q.Kind() == b && !w.slot.Crashed? && (r.recvOk ==> w.inFlight != [])
    requires ValidResolver(resolve)
    modifies site.memory
    ensures w' == Step(net, b, w, TurnEvent(net, resolve, FirstText(b, w), r))
    ensures site.Represents(w') && site.q.Kind() == b && site.q.OnlyMessages()
    ensures Passed(resolve, w.handled, w'.handled, r, h,
                   old(site.dev.table), site.dev.table, old(site.dev.kills), site.dev.kills)
  {
    StepHalves(net, resolve, b, w, r);
    assert site.q.Writes() <= site.memory;
    assert {site.out, site.error, site.dev, site.addr, site.addr.sa, site.addr.humanrepr} <= site.memory;
    hide Parse, SlotAfter, HandledAfter, Taken, Passed, ValidResolver, Answer, Step, TurnEvent, FirstText, CanStep;
    hide Site.Represents, Daemon.Valid, AnyQueue.Ready, AnyQueue.Kind;
    h := Handling([], []);
    w' := Step(net, b, w, TurnEvent(net, resolve, FirstText(b, w), r));
    var read := Take(site, r.recvOk, w);
    if read == -1 {
      NothingPassed(resolve, w.handled, r, h, site.dev.table, site.dev.kills);
    } else {
      ghost var w1 := Taken(b, w);
      h := Handle(e, net, resolve, site, r, w1);
      ghost var o := Parse(net, CText(w1.out), r.errno);
      HistoryApart(site, w1.(slot := SlotAfter(w1.slot, o, Answer(net, resolve, CText(w1.out), r))), w');
    }
  }

  // ---- the loop ----

  /** What happens next: a process sends a text, or the loop gets its turn. */
  datatype Op = Client(who: nat, text: string, ok: bool) | Turn(r: Round)

  /** The event that an operation is, if the next round works on `text`. */
  ghost function OpEvent(net: Net, resolve: Resolver, text: string, op: Op): Event
    requires ValidResolver(resolve)
  {
    match op
    case Client(who, t, ok) => Send(who, t, ok)
    case Turn(r) => TurnEvent(net, resolve, text, r)
  }

  /** The text that the next round works on, if there is one. */
  function NextText(b: Backend, trace: seq<Event>): string {
    if |Rounds(trace)| < |Sent(b, trace)| then Sent(b, trace)[|Rounds(trace)|] else ""
  }

  /** The loop has no turn: the daemon has ended, or the receive blocks. */
  ghost predicate Stuck(net: Net, b: Backend, trace: seq<Event>, r: Round) {
    Overwrites(Log(net, b, trace)) || (r.recvOk && |Rounds(trace)| >= |Sent(b, trace)|)
  }

  /** The events that the operations amount to, among `n` senders. */
  ghost function Trace(net: Net, resolve: Resolver, b: Backend, n: nat, ops: seq<Op>): seq<Event>
    requires ValidResolver(resolve)
  {
    if ops == [] then []
    else Next(net, resolve, b, n, Trace(net, resolve, b, n, ops[..|ops| - 1]), ops[|ops| - 1])
  }

  ghost function Next(net: Net, resolve: Resolver, b: Backend, n: nat, trace: seq<Event>, op: Op): seq<Event>
    requires ValidResolver(resolve)
  {
    if (if op.Client? then op.who < n else !Stuck(net, b, trace, op.r)) then
      trace + [OpEvent(net, resolve, NextText(b, trace), op)]
    else trace
  }

  lemma TraceNext(net: Net, resolve: Resolver, b: Backend, n: nat, ops: seq<Op>, i: nat)
    requires ValidResolver(resolve) && i < |ops|
    ensures Trace(net, resolve, b, n, ops[..i + 1])
         == Next(net, resolve, b, n, Trace(net, resolve, b, n, ops[..i]), ops[i])
  {
    hide Next;
    assert ops[..i + 1][..i] == ops[..i];
  }

  /** The texts that the clients get into the queue. */
  function Submitted(b: Backend, n: nat, ops: seq<Op>): seq<string> {
    if ops == [] then [] else Submitted(b, n, ops[..|ops| - 1]) + Submission(b, n, ops[|ops| - 1])
  }

  function Submission(b: Backend, n: nat, op: Op): seq<string> {
    if op.Client? && op.who < n && Accepts(b, op.text, op.ok) then [op.text] else []
  }

  lemma NextSends(net: Net, resolve: Resolver, b: Backend, n: nat, trace: seq<Event>, op: Op)
    requires ValidResolver(resolve)
    ensures Sent(b, Next(net, resolve, b, n, trace, op)) == Sent(b, trace) + Submission(b, n, op)
  {
    hide Sent, Rounds, Log, Stuck, Accepts, Answer, NextText, ValidResolver;
    NextCounts(net, b, trace, OpEvent(net, resolve, NextText(b, trace), op));
    assert Sent(b, trace) + [] == Sent(b, trace);
  }

  /** Whatever the loop does meanwhile, they are what is sent. */
  lemma {:induction false} TraceSends(net: Net, resolve: Resolver, b: Backend, n: nat, ops: seq<Op>)
    requires ValidResolver(resolve)
    ensures Sent(b, Trace(net, resolve, b, n, ops)) == Submitted(b, n, ops)
  {
    hide Next, Submission, ValidResolver;
    if ops != [] {
      hide Sent;
      var k := |ops| - 1;
      TraceSends(net, resolve, b, n, ops[..k]);
      NextSends(net, resolve, b, n, Trace(net, resolve, b, n, ops[..k]), ops[k]);
    }
  }

  // ---- what PF is told ----

  /** An address that is passed to PF, and the round in which it is. */
  datatype Ban = Ban(a: Addr, r: Round)

  /**
   The address that a round passes to PF: the parse of its text, if the daemon lives through it.  With a refused
   prefix, no earlier one may have been refused.
   */
  ghost function NewBan(net: Net, b: Backend, trace: seq<Event>, op: Op): seq<Ban> {
    if op.Client? || !op.r.recvOk || Stuck(net, b, trace, op.r) then []
    else
      var text := NextText(b, trace);
      var o := Parse(net, text, op.r.errno);
      if o.addr.Some? && (PrefixAccepted(text, op.r.errno) || !SomeRefused(Log(net, b, trace))) then
        [Ban(o.addr.value, op.r)]
      else []
  }

  /** The addresses that the operations make the daemon pass to PF. */
  ghost function Bans(net: Net, resolve: Resolver, b: Backend, n: nat, ops: seq<Op>): seq<Ban>
    requires ValidResolver(resolve)
  {
    if ops == [] then []
    else
      var before := ops[..|ops| - 1];
      Bans(net, resolve, b, n, before) + NewBan(net, b, Trace(net, resolve, b, n, before), ops[|ops| - 1])
  }

  lemma BansNext(net: Net, resolve: Resolver, b: Backend, n: nat, ops: seq<Op>, i: nat)
    requires ValidResolver(resolve) && i < |ops|
    ensures Bans(net, resolve, b, n, ops[..i + 1])
         == Bans(net, resolve, b, n, ops[..i]) + NewBan(net, b, Trace(net, resolve, b, n, ops[..i]), ops[i])
  {
    hide NewBan, Trace;
    assert ops[..i + 1][..i] == ops[..i];
  }

  ghost function Addrs(bans: seq<Ban>): (addrs: seq<Addr>)
    ensures |addrs| == |bans| && forall i :: 0 <= i < |bans| ==> addrs[i] == bans[i].a
  {
    seq(|bans|, i requires 0 <= i < |bans| => bans[i].a)
  }

  /** The entries that they make in the table. */
  ghost function TableOf(bans: seq<Ban>): seq<Pf.TableEntry> {
    if bans == [] then []
    else TableOf(bans[..|bans| - 1]) + Entries(bans[|bans| - 1].a, bans[|bans| - 1].r.addOk)
  }

  ghost function Kills(hs: seq<Handling>): seq<Pf.Kill> {
    if hs == [] then [] else Kills(hs[..|hs| - 1]) + hs[|hs| - 1].kills
  }

  /** The engine has dealt with these addresses in their order: that is all that the table holds and was killed. */
  ghost predicate Enforced(resolve: Resolver, bans: seq<Ban>, hs: seq<Handling>,
                           table: seq<Pf.TableEntry>, kills: seq<Pf.Kill>)
    requires ValidResolver(resolve)
  {
    && table == TableOf(bans)
    && |hs| == |bans| && (forall i :: 0 <= i < |hs| ==> Banned(resolve, bans[i].a, bans[i].r, hs[i]))
    && kills == Kills(hs)
  }

  /** A round adds what it passes. */
  lemma EnforcedNext(resolve: Resolver, bans: seq<Ban>, hs: seq<Handling>, more: seq<Ban>, r: Round, h: Handling,
                     table: seq<Pf.TableEntry>, table': seq<Pf.TableEntry>,
                     kills: seq<Pf.Kill>, kills': seq<Pf.Kill>)
    requires ValidResolver(resolve) && Enforced(resolve, bans, hs, table, kills)
    requires more == [] || more == [Ban(more[0].a, r)]
    requires Passed(resolve, Addrs(bans), Addrs(bans + more), r, h, table, table', kills, kills')
    ensures Enforced(resolve, bans + more, if more == [] then hs else hs + [h], table', kills')
  {
    hide Banned, Entries;
    if more == [] {
      assert bans + more == bans;
    } else {
      assert (hs + [h])[..|hs|] == hs && (bans + more)[..|bans|] == bans;
      assert Addrs(bans + more)[|bans|] == more[0].a;
    }
  }

  /** The operation can happen: there is such a sender, or the loop has its turn. */
  predicate Happens(n: nat, w: World, op: Op) {
    match op
    case Client(who, _, _) => who < n
    case Turn(r) => !w.slot.Crashed? && (r.recvOk ==> w.inFlight != [])
  }

  /** What the machine makes of an operation. */
  ghost function AfterOp(net: Net, resolve: Resolver, b: Backend, w: World, op: Op): World
    requires ValidResolver(resolve) && Daemon.Valid(b, w)
    requires Happens(|w.senders|, w, op) ==> CanStep(b, w, OpEvent(net, resolve, FirstText(b, w), op))
  {
    if Happens(|w.senders|, w, op) then Step(net, b, w, OpEvent(net, resolve, FirstText(b, w), op)) else w
  }

  /** The machine and the trace agree on the next text, and on when the loop is stuck. */
  lemma Agree(net: Net, b: Backend, w0: World, trace: seq<Event>, w: World, r: Round)
    requires Start(b, w0) && Run(net, b, w0, trace) == Some(w) && Daemon.Valid(b, w)
    ensures FirstText(b, w) == NextText(b, trace)
    ensures Stuck(net, b, trace, r) <==> w.slot.Crashed? || (r.recvOk && w.inFlight == [])
    ensures w.slot.Empty? <==> !SomeRefused(Log(net, b, trace))
  {
    hide Run, Log, Overwrites, SomeRefused, Conserved, Start, Decode, GoodMessage;
    CrashIff(net, b, w0, trace);
    EndToEnd(net, b, w0, trace);
    InFlightCount(net, b, trace, w);
    if w.inFlight != [] {
      assert DecodeAll(b, w.inFlight)[0] == Sent(b, trace)[|Rounds(trace)|];
    }
  }

  /** The machine takes the operation as the trace has it. */
  lemma Advance(net: Net, resolve: Resolver, b: Backend, w0: World, w: World, trace: seq<Event>, op: Op)
    requires Start(b, w0) && Daemon.Valid(b, w) && ValidResolver(resolve) && Run(net, b, w0, trace) == Some(w)
    requires Happens(|w.senders|, w, op) ==> CanStep(b, w, OpEvent(net, resolve, FirstText(b, w), op))
    ensures Run(net, b, w0, Next(net, resolve, b, |w.senders|, trace, op)) == Some(AfterOp(net, resolve, b, w, op))
  {
    hide Run, Step, CanStep, Daemon.Valid, Stuck, OpEvent, FirstText, NextText, SomeRefused, Log, ValidResolver;
    Agree(net, b, w0, trace, w, RoundOf(op));
    RunNext(net, b, w0, trace, OpEvent(net, resolve, FirstText(b, w), op));
  }

  /** What a round hands to PF. */
  lemma RoundHands(net: Net, b: Backend, w: World, errno: int, ok: bool)
    requires Daemon.Valid(b, w) && CanStep(b, w, Event.Serve(errno, ok))
    ensures var text := FirstText(b, w);
            var o := Parse(net, text, errno);
            Step(net, b, w, Event.Serve(errno, ok)).handled
            == w.handled + if o.addr.Some? && (PrefixAccepted(text, errno) || w.slot.Empty?) then [o.addr.value] else []
  {
    hide Parse, SlotAfter, Step, Daemon.Valid, Decode, PrefixAccepted;
    ServedText(net, b, w, Event.Serve(errno, ok));
    RoundSlot(net, w.slot, FirstText(b, w), errno, ok);
  }

  lemma StepIdle(net: Net, b: Backend, w: World, ev: Event)
    requires Daemon.Valid(b, w) && CanStep(b, w, ev) && !ev.Serve?
    ensures Step(net, b, w, ev).handled == w.handled
  {
    hide Daemon.Valid;
  }

  /** The machine hands to PF what the trace says. */
  lemma Hands(net: Net, resolve: Resolver, b: Backend, w0: World, w: World, trace: seq<Event>, op: Op)
    requires Start(b, w0) && Daemon.Valid(b, w) && ValidResolver(resolve) && Run(net, b, w0, trace) == Some(w)
    requires Happens(|w.senders|, w, op) ==> CanStep(b, w, OpEvent(net, resolve, FirstText(b, w), op))
    ensures AfterOp(net, resolve, b, w, op).handled == w.handled + Addrs(NewBan(net, b, trace, op))
  {
    hide Run, Daemon.Valid, Stuck, NextText, SomeRefused, Log, ValidResolver, Start, Answer, Parse, PrefixAccepted;
    hide FirstText;
    Agree(net, b, w0, trace, w, RoundOf(op));
    if Happens(|w.senders|, w, op) && op.Turn? && op.r.recvOk {
      RoundHands(net, b, w, op.r.errno, Answer(net, resolve, FirstText(b, w), op.r));
    } else if Happens(|w.senders|, w, op) {
      StepIdle(net, b, w, OpEvent(net, resolve, FirstText(b, w), op));
    }
  }

  function RoundOf(op: Op): Round {
    if op.Turn? then op.r else Round(false, 0, false, _ => false)
  }
  lemma CanHappen(net: Net, resolve: Resolver, b: Backend, w: World, op: Op)
    requires Daemon.Valid(b, w) && ValidResolver(resolve) && (op.Client? ==> NUL !in op.text && Fits(b, op.text))
    ensures Happens(|w.senders|, w, op) ==> CanStep(b, w, OpEvent(net, resolve, FirstText(b, w), op))
    ensures Happens(|w.senders|, w, op) ==> |AfterOp(net, resolve, b, w, op).senders| == |w.senders|
  {
    hide Parse, Answer, FirstText, Taken, SlotAfter, HandledAfter, ValidResolver;
    if Happens(|w.senders|, w, op) {
      SendKeepsSenders(net, b, w, OpEvent(net, resolve, FirstText(b, w), op));
    }
  }

  /** One operation. */
  method Perform(e: Endian, net: Net, resolve: Resolver, site: Site, op: Op, ghost b: Backend, ghost w: World)
    returns (ghost h: Handling)
    requires site.Represents(w) && site.q.Kind() == b && ValidResolver(resolve)
    requires op.Client? ==> NUL !in op.text && Fits(b, op.text)
    modifies site.memory
    ensures Daemon.Valid(b, w) && |w.senders| == |site.senders|
    ensures Happens(|w.senders|, w, op) ==> CanStep(b, w, OpEvent(net, resolve, FirstText(b, w), op))
    ensures site.q.Ready() && site.q.Kind() == b && site.q.OnlyMessages()
    ensures var w' := AfterOp(net, resolve, b, w, op);
            && site.Represents(w')
            && Passed(resolve, w.handled, w'.handled, RoundOf(op), h,
                      old(site.dev.table), site.dev.table, old(site.dev.kills), site.dev.kills)
  {
    assert Daemon.Valid(b, w) && |w.senders| == |site.senders|;
    assert w.slot == site.error.slot && w.inFlight == site.q.Pending();
    assert op.Client? && op.who < |site.senders| ==> site.senders[op.who].Writes() <= site.memory;
    assert site.q.Writes() <= site.memory;
    assert {site.out, site.error, site.dev, site.addr, site.addr.sa, site.addr.humanrepr} <= site.memory;
    CanHappen(net, resolve, b, w, op);
    hide Parse, Taken, SlotAfter, HandledAfter, Passed, Answer, FirstText, Step, CanStep, ValidResolver;
    hide Site.Represents, Daemon.Valid, AnyQueue.Ready, AnyQueue.Kind;
    h := Handling([], []);
    match op {
      case Client(who, text, ok) =>
        if who < |site.senders| {
          Submit(site, who, text, ok, net, w);
        }
        NothingPassed(resolve, w.handled, RoundOf(op), h, site.dev.table, site.dev.kills);
      case Turn(r) =>
        if !site.error.slot.Crashed? && (!r.recvOk || site.q.Pending() != []) {
          ghost var w';
          h, w' := Iterate(e, net, resolve, site, r, b, w);
        } else {
          NothingPassed(resolve, w.handled, r, h, site.dev.table, site.dev.kills);
        }
    }
  }

  lemma NothingYet(net: Net, b: Backend, n: nat, w0: World, resolve: Resolver)
    requires Start(b, w0) && ValidResolver(resolve)
    ensures Run(net, b, w0, Trace(net, resolve, b, n, [])) == Some(w0)
    ensures w0.handled == Addrs(Bans(net, resolve, b, n, []))
    ensures Enforced(resolve, Bans(net, resolve, b, n, []), [], [], [])
  {
  }

  /** One more operation is in the account. */
  lemma Account(net: Net, resolve: Resolver, b: Backend, w0: World, w: World, ops: seq<Op>, i: nat, hs: seq<Handling>,
                h: Handling, table: seq<Pf.TableEntry>, table': seq<Pf.TableEntry>,
                kills: seq<Pf.Kill>, kills': seq<Pf.Kill>)
    requires Start(b, w0) && ValidResolver(resolve) && Daemon.Valid(b, w) && i < |ops|
    requires Run(net, b, w0, Trace(net, resolve, b, |w.senders|, ops[..i])) == Some(w)
    requires Happens(|w.senders|, w, ops[i]) ==> CanStep(b, w, OpEvent(net, resolve, FirstText(b, w), ops[i]))
    requires w.handled == Addrs(Bans(net, resolve, b, |w.senders|, ops[..i]))
    requires Enforced(resolve, Bans(net, resolve, b, |w.senders|, ops[..i]), hs, table, kills)
    requires Passed(resolve, w.handled, AfterOp(net, resolve, b, w, ops[i]).handled, RoundOf(ops[i]), h,
                    table, table', kills, kills')
    ensures var w' := AfterOp(net, resolve, b, w, ops[i]);
            var bans := Bans(net, resolve, b, |w.senders|, ops[..i + 1]);
            && Run(net, b, w0, Trace(net, resolve, b, |w.senders|, ops[..i + 1])) == Some(w')
            && w'.handled == Addrs(bans)
            && Enforced(resolve, bans, if |bans| == |hs| then hs else hs + [h], table', kills')
  {
    hide Run, Start, Daemon.Valid, AfterOp, Happens, OpEvent, CanStep, Next, Passed, Trace, Bans, Enforced;
    var trace, op := Trace(net, resolve, b, |w.senders|, ops[..i]), ops[i];
    var bans, more := Bans(net, resolve, b, |w.senders|, ops[..i]), NewBan(net, b, trace, op);
    TraceNext(net, resolve, b, |w.senders|, ops, i);
    BansNext(net, resolve, b, |w.senders|, ops, i);
    Advance(net, resolve, b, w0, w, trace, op);
    Hands(net, resolve, b, w0, w, trace, op);
    assert Addrs(bans) + Addrs(more) == Addrs(bans + more);
    OneBan(net, b, trace, op);
    EnforcedCount(resolve, bans, hs, table, kills);
    EnforcedNext(resolve, bans, hs, more, RoundOf(op), h, table, table', kills, kills');
  }

  lemma OneBan(net: Net, b: Backend, trace: seq<Event>, op: Op)
    ensures var more := NewBan(net, b, trace, op); more == [] || more == [Ban(more[0].a, RoundOf(op))]
  {
    hide Parse, Stuck, PrefixAccepted, SomeRefused, Log;
  }

  lemma EnforcedCount(resolve: Resolver, bans: seq<Ban>, hs: seq<Handling>,
                      table: seq<Pf.TableEntry>, kills: seq<Pf.Kill>)
    requires ValidResolver(resolve) && Enforced(resolve, bans, hs, table, kills)
    ensures |hs| == |bans|
  {
  }

  /**
   The loop, with other processes sending in between, for as long as one looks: what happens is a run of the
   machine, and what PF is told is what the operations make the machine hand to it.
   */
  method Serve(e: Endian, net: Net, resolve: Resolver, site: Site, ops: seq<Op>, ghost b: Backend, ghost w0: World)
    returns (ghost hs: seq<Handling>, ghost w: World)
    requires site.Represents(w0) && site.q.Kind() == b && Start(b, w0) && ValidResolver(resolve)
    requires site.dev.table == [] && site.dev.kills == []
    requires forall i :: 0 <= i < |ops| && ops[i].Client? ==> NUL !in ops[i].text && Fits(b, ops[i].text)
    modifies site.memory
    ensures site.Represents(w) && site.q.Kind() == b && site.q.OnlyMessages()
    ensures Run(net, b, w0, Trace(net, resolve, b, |site.senders|, ops)) == Some(w)
    ensures w.handled == Addrs(Bans(net, resolve, b, |site.senders|, ops))
    ensures Enforced(resolve, Bans(net, resolve, b, |site.senders|, ops), hs, site.dev.table, site.dev.kills)
  {
    assert |w0.senders| == |site.senders|;
    hide Parse, Run, Step, CanStep, Start, Enforced, Passed, Trace, Bans, Addrs, AfterOp, OpEvent, Fits, Happens;
    hide FirstText, Daemon.Valid, Site.Represents, AnyQueue.Ready, AnyQueue.Kind, ValidResolver;
    hs, w := [], w0;
    ghost var n := |site.senders|;
    NothingYet(net, b, n, w0, resolve);
    for i := 0 to |ops|
      invariant site.q.Ready() && site.q.Kind() == b && site.q.OnlyMessages() && site.Represents(w) && |w.senders| == n
      invariant Run(net, b, w0, Trace(net, resolve, b, n, ops[..i])) == Some(w)
      invariant w.handled == Addrs(Bans(net, resolve, b, n, ops[..i]))
      invariant Enforced(resolve, Bans(net, resolve, b, n, ops[..i]), hs, site.dev.table, site.dev.kills)
    {
      ghost var table, kills := site.dev.table, site.dev.kills;
      ghost var h := Perform(e, net, resolve, site, ops[i], b, w);
      CanHappen(net, resolve, b, w, ops[i]);
      Account(net, resolve, b, w0, w, ops, i, hs, h, table, site.dev.table, kills, site.dev.kills);
      hs := if |Bans(net, resolve, b, n, ops[..i + 1])| == |hs| then hs else hs + [h];
      w := AfterOp(net, resolve, b, w, ops[i]);
    }
    assert ops[..|ops|] == ops;
  }

  // ---- what it comes to ----

  /** If the table takes every entry, it holds the networks of the addresses handled, in their order. */
  lemma {:induction false} AllInTable(bans: seq<Ban>)
    requires forall i :: 0 <= i < |bans| ==> bans[i].r.addOk
    ensures |TableOf(bans)| == |bans|
    ensures forall i :: 0 <= i < |bans| ==>
              TableOf(bans)[i] == Pf.TableEntry(bans[i].a.fa, bans[i].a.netmask, bans[i].a.sa)
  {
    if bans != [] { AllInTable(bans[..|bans| - 1]); }
  }

  /** The rounds of the bans are turns among the operations. */
  lemma {:induction false} BansAreTurns(net: Net, resolve: Resolver, b: Backend, n: nat, ops: seq<Op>, ban: Ban)
    requires ValidResolver(resolve) && ban in Bans(net, resolve, b, n, ops)
    ensures Turn(ban.r) in ops && ban.r.recvOk
  {
    hide Trace, Stuck, Parse, PrefixAccepted, SomeRefused, Log, ValidResolver;
    if ops != [] && ban in Bans(net, resolve, b, n, ops[..|ops| - 1]) {
      BansAreTurns(net, resolve, b, n, ops[..|ops| - 1], ban);
    }
  }

  /**
   If the table takes every entry in every turn, it holds exactly the networks of the addresses handled, whatever
   becomes of the kills.
   */
  lemma TableIsHandled(net: Net, resolve: Resolver, b: Backend, n: nat, ops: seq<Op>)
    requires ValidResolver(resolve) && forall op :: op in ops && op.Turn? ==> op.r.addOk
    ensures var bans := Bans(net, resolve, b, n, ops);
            var addrs := Addrs(bans);
            && |TableOf(bans)| == |addrs|
            && forall i :: 0 <= i < |addrs| ==>
                 TableOf(bans)[i] == Pf.TableEntry(addrs[i].fa, addrs[i].netmask, addrs[i].sa)
  {
    hide Bans, ValidResolver, TableOf;
    var bans := Bans(net, resolve, b, n, ops);
    forall i | 0 <= i < |bans|
      ensures bans[i].r.addOk
    {
      BansAreTurns(net, resolve, b, n, ops, bans[i]);
      assert Turn(bans[i].r).Turn?;
    }
    AllInTable(bans);
  }

  /** What a successful handling means: the states of exactly the banned network are gone. */
  lemma BanKillsNetwork(net: Net, resolve: Resolver, text: string, errno: int, a: Addr, raw: seq<byte>, r: Round,
                        h: Handling, res: seq<Pf.AddrInfo>, ai: Pf.AddrInfo, x: seq<byte>)
    requires ValidResolver(resolve) && Banned(resolve, a, r, h) && EngineOk(resolve, a, r)
    requires Parse(net, text, errno).addr == Some(a) && Spells(net, a.fa, Host(text), raw)
    requires resolve(a.humanrepr) == Some(res) && ai in res && ai.bytes.Some? && Pf.AllValid(res)
    requires Pf.ResolvesTo(res, a.fa, raw) && |x| == |raw|
    ensures Pf.MatchedBySome(h.kills, a.fa, x) <==> x in Cidr.Network(a.sa[..|x|], a.netmask)
    ensures Pf.MatchedBySome(h.kills, a.fa, x) <==> x in Cidr.Network(raw, a.netmask)
  {
    hide Parse;
    Pf.StatesKilledIff(net, text, errno, a, raw, res, ai, h.mask, h.kills, x);
  }
}
