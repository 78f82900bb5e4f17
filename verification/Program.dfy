/** banipd.c from `queue_open` on, together with the processes that send to its queue. */
module Program {
  import opened Words
  import opened CStrings
  import opened ErrorSlot
  import opened Delivery
  import opened ParseAddr
  import opened Daemon
  import opened Queues
  import Pf
  import opened Banipd
  import PosixQueue
  import SystemVQueue

  /** A process opens the queue to send to it; it is a sender of the daemon if it got the same queue. */
  method Join(q: AnyQueue, ftok: (nat, int) -> int, name: string, me: nat, f: OpenFates) returns (s: Option<AnyQueue>)
    requires q.Ready() && q.SystemValid()
    modifies q.System()
    ensures q.SystemKept() && q.Ready()
    ensures s.Some? <==> Found(q.Kernel(), ftok, name, f) == Some(q.Id())
    ensures s.Some? ==>
              && s.value.Ready() && q.SameQueue(s.value) && fresh(s.value.Itself())
              && (q.SystemVQ? ==> fresh(s.value.vh.buffer))
  {
    var c;
    match q {
      case PosixQ(_, ps) =>
        var h := new PosixQueue.Handle(me);
        c := PosixQ(h, ps);
      case SystemVQ(_, vs) =>
        var h := new SystemVQueue.Handle(me);
        c := SystemVQ(h, vs);
    }
    var ok := OpenQueue(c, ftok, name, false, f);
    s := if ok && q.SameQueue(c) then Some(c) else None;
  }

  /** Senders of the queue of `q`, each with a handle and a buffer of its own. */
  ghost predicate Crowd(q: AnyQueue, senders: seq<AnyQueue>, memory: set<object>)
    reads *
  {
    && (forall i :: 0 <= i < |senders| ==>
          senders[i].Ready() && q.SameQueue(senders[i]) && senders[i].Writes() <= memory + {q.System()})
    && (q.SystemVQ? ==> forall i, j :: 0 <= i < j < |senders| ==> senders[i].vh.buffer != senders[j].vh.buffer)
    && (q.SystemVQ? ==> forall i :: 0 <= i < |senders| ==> senders[i].vh.buffer in memory)
  }

  /** How many of these processes get the queue `id`. */
  ghost function Joining(k: AnyKernel, id: nat, ftok: (nat, int) -> int, name: string, fates: seq<OpenFates>): nat {
    if fates == [] then 0
    else
      Joining(k, id, ftok, name, fates[..|fates| - 1])
      + if Found(k, ftok, name, fates[|fates| - 1]) == Some(id) then 1 else 0
  }

  lemma {:induction false} AllJoin(k: AnyKernel, id: nat, ftok: (nat, int) -> int, name: string, fates: seq<OpenFates>)
    requires Announced(k, id, ftok, name) && forall i :: 0 <= i < |fates| ==> NoneFails(fates[i])
    ensures Joining(k, id, ftok, name, fates) == |fates|
  {
    hide Found, NoneFails, Announced;
    if fates != [] {
      AllJoin(k, id, ftok, name, fates[..|fates| - 1]);
      AnnouncedIsFound(k, id, ftok, name, fates[|fates| - 1]);
    }
  }

  /** One more process tries to open the queue. */
  method Welcome(q: AnyQueue, ftok: (nat, int) -> int, name: string, me: nat, f: OpenFates,
                 senders: seq<AnyQueue>, ghost memory: set<object>)
    returns (senders': seq<AnyQueue>, ghost memory': set<object>)
    requires q.Ready() && q.SystemValid() && Crowd(q, senders, memory)
    modifies q.System()
    ensures q.SystemKept() && q.Ready() && Crowd(q, senders', memory')
    ensures memory <= memory' && fresh(memory' - memory)
    ensures |senders'| == |senders| + if Found(q.Kernel(), ftok, name, f) == Some(q.Id()) then 1 else 0
  {
    hide Found;
    senders', memory' := senders, memory;
    var s := Join(q, ftok, name, me, f);
    if s.Some? {
      senders' := senders + [s.value];
      memory' := memory + if s.value.SystemVQ? then {s.value.vh.buffer} else {};
    }
  }

  /** Any number of processes do. */
  method JoinAll(q: AnyQueue, ftok: (nat, int) -> int, name: string, fates: seq<OpenFates>)
    returns (senders: seq<AnyQueue>, ghost memory: set<object>)
    requires q.Ready() && q.SystemValid()
    modifies q.System()
    ensures q.SystemKept() && q.Ready()
    ensures |senders| == old(Joining(q.Kernel(), q.Id(), ftok, name, fates))
    ensures Crowd(q, senders, memory) && fresh(memory)
  {
    senders, memory := [], {};
    assert Crowd(q, senders, memory);
    hide Found, Crowd;
    for i := 0 to |fates|
      invariant q.SystemKept() && q.Ready() && q.SystemValid()
      invariant |senders| == old(Joining(q.Kernel(), q.Id(), ftok, name, fates[..i]))
      invariant Crowd(q, senders, memory) && fresh(memory)
    {
      assert fates[..i + 1][..i] == fates[..i];
      senders, memory := Welcome(q, ftok, name, i, fates[i], senders, memory);
    }
    assert fates[..|fates|] == fates;
  }

  ghost function Texts(senders: seq<AnyQueue>): (ts: seq<seq<char>>)
    requires forall i :: 0 <= i < |senders| ==> senders[i].Ready()
    reads *
    ensures |ts| == |senders| && forall i :: 0 <= i < |ts| ==> ts[i] == senders[i].Text()
  {
    if senders == [] then [] else Texts(senders[..|senders| - 1]) + [senders[|senders| - 1].Text()]
  }

  /** The first state of the machine: nothing sent, and whatever the buffers hold. */
  lemma FirstWorld(site: Site) returns (w: World)
    requires site.Valid() && site.q.Pending() == [] && site.error.slot.Empty?
    ensures site.Represents(w) && Start(site.q.Kind(), w)
  {
    w := World([], Texts(site.senders), site.q.Text(), site.out[..], Empty, [], []);
  }

  /** The start of banipd: the queue, and a buffer for its messages. */
  method StartUp(q: AnyQueue, ftok: (nat, int) -> int, name: string, f: OpenFates, statOk: bool, callocOk: bool)
    returns (buffer: array?<char>)
    requires q.Idle()
    modifies q.Itself(), q.System()
    ensures q.SystemValid() && (q.PosixQ? ==> q.ph.attr == old(q.ph.attr))
    ensures buffer != null <==> old(MayOwn(q, ftok, name, f)) && callocOk && (q.SystemVQ? ==> statOk)
    ensures buffer != null ==>
              && q.Ready() && q.Pending() == [] && Announced(q.Kernel(), q.Id(), ftok, name)
              && fresh(buffer) && buffer.Length == DaemonRoom(q.Kind())
              && (q.SystemVQ? ==> fresh(q.vh.buffer) && q.vh.buffer != buffer)
  {
    buffer := null;
    var ok := OpenQueue(q, ftok, name, true, f);
    if ok {
      buffer := AllocateBuffer(q, statOk, callocOk);
    }
  }

  /**
   What a caller sees of the sizes of a POSIX queue that the library creates: a text is sent iff the system lets
   it through and it has at most 1024 characters, and the daemon's buffer has 1025.
   */
  method PosixLimits(sys: PosixQueue.System, ftok: (nat, int) -> int, name: string, f: OpenFates, text: string,
                     sendOk: bool)
    returns (open: bool, sent: bool, buffer: array?<char>)
    requires sys.Valid() && NUL !in text
    modifies sys
    ensures open <==> f.strdupOk && f.openOk && f.finishOk && name !in old(sys.k.names)
    ensures sent <==> open && sendOk && |text| <= 1024
    ensures open <==> buffer != null
    ensures open ==> buffer.Length == 1025
  {
    sent, buffer := false, null;
    var h := new PosixQueue.Handle(0);
    var q := PosixQ(h, sys);
    open := OpenQueue(q, ftok, name, true, f);
    if open {
      buffer := AllocateBuffer(q, true, true);
      sent := SendText(q, text, sendOk);
    }
  }

  /** The loop, from its first round. */
  method Launch(e: Endian, net: Net, resolve: Resolver, q: AnyQueue, buffer: array<char>, senders: seq<AnyQueue>,
                ops: seq<Op>, dev: Pf.Device, ghost memory: set<object>, ghost b: Backend)
    returns (ghost w0: World, ghost hs: seq<Handling>, ghost w: World)
    requires q.Ready() && q.Pending() == [] && buffer.Length == DaemonRoom(q.Kind()) && q.Kind() == b
    requires Crowd(q, senders, memory) && {buffer as object} + q.Writes() !! memory && buffer !in q.Writes()
    requires ValidResolver(resolve) && dev.table == [] && dev.kills == []
    requires forall i :: 0 <= i < |ops| && ops[i].Client? ==> NUL !in ops[i].text && Fits(b, ops[i].text)
    modifies memory, q.Writes(), buffer, dev
    ensures q.Ready() && q.Kind() == b && q.OnlyMessages() && q.Pending() == w.inFlight && q.Text() == w.rtext
    ensures Start(b, w0) && |w0.senders| == |senders|
    ensures Run(net, b, w0, Trace(net, resolve, b, |senders|, ops)) == Some(w)
    ensures w.handled == Addrs(Bans(net, resolve, b, |senders|, ops))
    ensures Enforced(resolve, Bans(net, resolve, b, |senders|, ops), hs, dev.table, dev.kills)
  {
    hide Trace, Enforced, Run, Bans, Addrs;
    var addr := new AddrT();
    var error := new Cell();
    var site := Site(q, senders, buffer, addr, error, dev,
                     memory + q.Writes() + {buffer, error, dev, addr, addr.sa, addr.humanrepr});
    assert site.Valid();
    w0 := FirstWorld(site);
    hs, w := Banipd.Serve(e, net, resolve, site, ops, b, w0);
  }

  /**
   The account of a session on backend `b` with `n` senders: the machine has taken the operations, the texts
   received are the first ones the clients submitted, in order, the others are in flight, and PF holds exactly
   what the operations make it hold.
   */
  ghost predicate Accounted(net: Net, resolve: Resolver, b: Backend, n: nat, ops: seq<Op>, w0: World, w: World,
                            hs: seq<Handling>, table: seq<Pf.TableEntry>, kills: seq<Pf.Kill>)
    requires ValidResolver(resolve)
  {
    var trace, bans := Trace(net, resolve, b, n, ops), Bans(net, resolve, b, n, ops);
    && Start(b, w0) && |w0.senders| == n && Run(net, b, w0, trace) == Some(w) && Conserved(net, b, trace, w)
    && Sent(b, trace) == Submitted(b, n, ops)
    && w.handled == Addrs(bans) && Enforced(resolve, bans, hs, table, kills)
  }

  lemma Accounting(net: Net, resolve: Resolver, b: Backend, n: nat, ops: seq<Op>, w0: World, w: World,
                   hs: seq<Handling>, table: seq<Pf.TableEntry>, kills: seq<Pf.Kill>)
    requires ValidResolver(resolve) && Start(b, w0) && |w0.senders| == n
    requires Run(net, b, w0, Trace(net, resolve, b, n, ops)) == Some(w)
    requires w.handled == Addrs(Bans(net, resolve, b, n, ops))
    requires Enforced(resolve, Bans(net, resolve, b, n, ops), hs, table, kills)
    ensures Accounted(net, resolve, b, n, ops, w0, w, hs, table, kills)
  {
    hide Trace, Enforced, Conserved, Run, Bans, Addrs, Sent, Submitted, ValidResolver, Start;
    EndToEnd(net, b, w0, Trace(net, resolve, b, n, ops));
    TraceSends(net, resolve, b, n, ops);
  }

  /** The senders open the queue, and then the loop runs. */
  method Operate(e: Endian, net: Net, resolve: Resolver, q: AnyQueue, buffer: array<char>, ftok: (nat, int) -> int,
                 name: string, fates: seq<OpenFates>, ops: seq<Op>, dev: Pf.Device, ghost b: Backend)
    returns (ghost w0: World, ghost hs: seq<Handling>, ghost w: World)
    requires q.Ready() && q.SystemValid() && q.Pending() == [] && q.Kind() == b
    requires buffer.Length == DaemonRoom(b) && buffer !in q.Writes()
    requires ValidResolver(resolve) && dev.table == [] && dev.kills == []
    requires forall i :: 0 <= i < |ops| && ops[i].Client? ==> NUL !in ops[i].text && Fits(b, ops[i].text)
    modifies q.Writes(), buffer, dev
    ensures q.Ready() && q.Kind() == b && q.OnlyMessages() && q.Pending() == w.inFlight && q.Text() == w.rtext
    ensures var n := old(Joining(q.Kernel(), q.Id(), ftok, name, fates));
            Accounted(net, resolve, b, n, ops, w0, w, hs, dev.table, dev.kills)
  {
    hide Trace, Enforced, Run, Start, Bans, Addrs, Accounted, Joining, Fits, ValidResolver;
    var senders; ghost var memory;
    senders, memory := JoinAll(q, ftok, name, fates);
    w0, hs, w := Launch(e, net, resolve, q, buffer, senders, ops, dev, memory, b);
    Accounting(net, resolve, b, |senders|, ops, w0, w, hs, dev.table, dev.kills);
  }

  /**
   banipd from `queue_open` on, on the queue `q`: exactly when it gets through the start; and then, whatever
   happens, the account of the session.  Its backend is that of `q`, its senders are those that find `q`, and what
   is in flight is in `q`.
   */
  method Session(e: Endian, net: Net, resolve: Resolver, q: AnyQueue, ftok: (nat, int) -> int, name: string,
                 f: OpenFates, statOk: bool, callocOk: bool, fates: seq<OpenFates>, ops: seq<Op>)
    returns (started: bool, dev: Pf.Device, ghost w0: World, ghost hs: seq<Handling>, ghost w: World)
    requires q.Idle() && ValidResolver(resolve)
    requires forall i :: 0 <= i < |ops| && ops[i].Client? ==>
               NUL !in ops[i].text && (q.SystemVQ? ==> Fits(SystemV(q.vs.qbytes), ops[i].text))
    modifies q.Itself(), q.System()
    ensures started <==> old(MayOwn(q, ftok, name, f)) && callocOk && (q.SystemVQ? ==> statOk)
    ensures !started ==> dev.table == [] && dev.kills == []
    ensures started ==>
              && q.Ready() && q.Kind() == (if q.PosixQ? then Posix(old(q.ph.attr.msgsize)) else SystemV(q.vs.qbytes))
              && Announced(q.Kernel(), q.Id(), ftok, name) && q.Pending() == w.inFlight && q.Text() == w.rtext
              && var n := Joining(q.Kernel(), q.Id(), ftok, name, fates);
                 Accounted(net, resolve, q.Kind(), n, ops, w0, w, hs, dev.table, dev.kills)
  {
    hide Accounted, MayOwn, Joining, Announced;
    dev := new Pf.Device();
    hs, w0 := [], World([], [], [], [], Empty, [], []);
    w := w0;
    var buffer := StartUp(q, ftok, name, f, statOk, callocOk);
    started := buffer != null;
    if started {
      ghost var b := q.Kind();
      w0, hs, w := Operate(e, net, resolve, q, buffer, ftok, name, fates, ops, dev, b);
    }
  }
}
