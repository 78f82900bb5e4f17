/** queues/posix.c: the handle, and the calls of the queue API on it. */
module PosixQueue {
  import opened CStrings
  import opened ErrorSlot
  import opened Delivery
  import opened PosixProtocol

  /** The part of the system that all handles share. */
  class System {
    var k: Kernel
    var messages: map<nat, seq<seq<char>>>

    /** Every queue has its messages. */
    ghost predicate Valid()
      reads this
    {
      messages.Keys == k.queues.Keys
    }

    constructor ()
      ensures k == BOOT && messages == map[] && Valid()
    {
      k, messages := BOOT, map[];
    }

    /** `mq_open` with `O_CREAT | O_EXCL` */
    method CreateQueue(name: Path, at: Attr, who: nat, ok: bool) returns (mq: Option<nat>)
      modifies this
      ensures mq == if ok && name !in old(k.names) then Some(old(k.next)) else None
      ensures k == if mq.None? then old(k) else
                Kernel(old(k.names)[name := mq.value], old(k.queues)[mq.value := Mq(at, Some(who))], mq.value + 1)
      ensures messages == if mq.None? then old(messages) else old(messages)[mq.value := []]
    {
      if ok && name !in k.names {
        mq := Some(k.next);
        k := Kernel(k.names[name := mq.value], k.queues[mq.value := Mq(at, Some(who))], mq.value + 1);
        messages := messages[mq.value := []];
      } else {
        mq := None;
      }
    }

    /** `mq_open` of an existing queue */
    method FindQueue(name: Path, ok: bool) returns (mq: Option<nat>)
      ensures mq == if ok && name in k.names then Some(k.names[name]) else None
    {
      if ok && name in k.names { mq := Some(k.names[name]); } else { mq := None; }
    }

    /** `mq_unlink` */
    method RemoveName(name: Path, ok: bool) returns (removed: bool)
      modifies this`k
      ensures removed <==> ok && name in old(k.names)
      ensures k == if removed then old(k).(names := old(k.names) - {name}) else old(k)
    {
      removed := ok && name in k.names;
      if removed {
        k := k.(names := k.names - {name});
      }
    }
  }

  class Handle {
    const me: nat
    ghost var phase: Phase
    ghost var made: bool
    ghost var touched: bool
    var mq: Option<nat>
    var filename: Option<Path>
    var attr: Attr

    /** The handle as the protocol sees it. */
    ghost function View(): PosixProtocol.Handle
      reads this
    {
      PosixProtocol.Handle(phase, mq, filename, attr, made, touched)
    }

    /** `queue_init` */
    constructor (me: nat)
      ensures View() == FRESH && this.me == me && attr.maxmsg == 10 && attr.msgsize == 1024
    {
      this.me := me;
      phase, made, touched := Idle, false, false;
      mq, filename, attr := None, None, Attr(10, 1024);
    }

    /** One more action of this handle has been carried out: the protocol state follows. */
    ghost method Note(sys: System, k0: Kernel, h0: PosixProtocol.Handle,
                      trace: seq<Action>, k: Kernel, h: PosixProtocol.Handle, a: Action)
      returns (longer: seq<Action>)
      requires Exec(me, k0, h0, trace) == Some((k, h)) && CanDo(h, a)
      requires var (k', h') := Do(me, k, h, a); sys.k == k' && mq == h'.mq && filename == h'.filename && attr == h'.attr
      modifies this`phase, this`made, this`touched
      ensures View() == Do(me, k, h, a).1
      ensures longer == trace + [a] && Exec(me, k0, h0, longer) == Some((sys.k, View()))
    {
      hide Exec, Do, CanDo;
      ExecNext(me, k0, h0, trace, a, k, h);
      var h' := Do(me, k, h, a).1;
      phase, made, touched := h'.phase, h'.made, h'.touched;
      longer := trace + [a];
    }

    /** `queue_set_attribute` */
    method SetAttribute(ghost sys: System, which: Attribute, value: nat) returns (status: Status)
      requires AtRest(phase)
      modifies this
      ensures status == SetStatus(old(View()), which)
      ensures status == if old(filename).None? then NotOwner else if which.MaxQueueSize? then NotSupported else Ok
      ensures (sys.k, View()) == Do(me, old(sys.k), old(View()), PosixProtocol.SetAttribute(which, value))
      ensures attr.msgsize == if status.Ok? && which.MaxMessageSize? then value else old(attr.msgsize)
      ensures attr.maxmsg == if status.Ok? && which.MaxMessageInQueue? then value else old(attr.maxmsg)
    {
      if filename.None? {
        return NotOwner;
      }
      match which {
        case MaxMessageSize => attr := attr.(msgsize := value);
        case MaxMessageInQueue => attr := attr.(maxmsg := value);
        case MaxQueueSize => return NotSupported;
      }
      touched := true;
      status := Ok;
    }

    /** `queue_get_attribute` */
    method GetAttribute(which: Attribute) returns (status: Status, value: nat)
      ensures status == if which.MaxQueueSize? then NotSupported else Ok
      ensures which.MaxMessageSize? ==> value == attr.msgsize
      ensures which.MaxMessageInQueue? ==> value == attr.maxmsg
    {
      match which
      case MaxMessageSize => return Ok, attr.msgsize;
      case MaxMessageInQueue => return Ok, attr.maxmsg;
      case MaxQueueSize => return NotSupported, 0;
    }

    /**
     `queue_open`: the protocol steps of this handle, in their order, up to the first one that fails; the
     handle ends up open if none does.
     */
    method Open(sys: System, name: Path, owner: bool, strdupOk: bool, openOk: bool, finishOk: bool)
      returns (ok: bool, ghost trace: seq<Action>)
      requires phase.Idle? && mq.None?
      modifies this, sys
      ensures Exec(me, old(sys.k), old(View()), trace) == Some((sys.k, View()))
      ensures phase == if ok then PosixProtocol.Open else OpenFailed
      ensures ok <==> && openOk && finishOk && owner == (name !in old(sys.k.names))
                      && if owner then strdupOk else old(sys.k.names)[name] in old(sys.k.queues)
      ensures trace <= [StartOpen(owner, name, strdupOk), MqOpen(openOk), Finish(finishOk)]
      ensures sys.messages == if owner && mq.Some? then old(sys.messages)[mq.value := []] else old(sys.messages)
      ensures if owner then attr == old(attr) else sys.k == old(sys.k)
      ensures old(sys.Valid()) ==> sys.Valid()
      ensures ok ==> name in sys.k.names && mq == Some(sys.k.names[name])
      ensures ok && (owner || old(sys.Valid())) ==> Ready(sys)
    {
      hide Exec;
      ghost var k0, h0 := sys.k, View();
      ok, trace := false, [];
      ExecNothing(me, k0, h0);
      if owner {
        if strdupOk {
          filename := Some(name);
        }
        trace := Note(sys, k0, h0, trace, k0, h0, StartOpen(owner, name, strdupOk));
        if !strdupOk {
          return;
        }
      } else {
        trace := Note(sys, k0, h0, trace, k0, h0, StartOpen(owner, name, strdupOk));
      }
      ghost var k, h := sys.k, View();
      if owner {
        mq := sys.CreateQueue(name, attr, me, openOk);
      } else {
        mq := sys.FindQueue(name, openOk);
      }
      trace := Note(sys, k0, h0, trace, k, h, MqOpen(openOk));
      if mq.None? {
        return;
      }
      k, h := sys.k, View();
      if finishOk && !owner && mq.value in sys.k.queues {
        attr := sys.k.queues[mq.value].attr;
      }
      trace := Note(sys, k0, h0, trace, k, h, Finish(finishOk));
      ok := finishOk && (owner || mq.value in sys.k.queues);
    }

    /** The first part of `queue_close`: the descriptor. */
    method CloseDescriptor(sys: System, closeOk: bool,
                           ghost k0: Kernel, ghost h0: PosixProtocol.Handle, ghost before: seq<Action>)
      returns (ghost trace: seq<Action>)
      requires phase.Closing? && mq.Some? && Exec(me, k0, h0, before) == Some((sys.k, View()))
      modifies this`phase, this`made, this`touched, this`mq
      ensures Exec(me, k0, h0, trace) == Some((sys.k, View()))
      ensures if closeOk then phase.Closing? && mq.None? else phase.CloseFailed? && mq == old(mq)
      ensures trace == before + [MqClose(closeOk)]
    {
      hide Exec;
      ghost var h := View();
      if closeOk {
        mq := None;
      }
      trace := Note(sys, k0, h0, before, sys.k, h, MqClose(closeOk));
    }

    /** The next part for an owner: the name. */
    method RemoveOwnName(sys: System, unlinkOk: bool,
                         ghost k0: Kernel, ghost h0: PosixProtocol.Handle, ghost before: seq<Action>)
      returns (ok: bool, ghost trace: seq<Action>)
      requires phase.Closing? && mq.None? && filename.Some? && Exec(me, k0, h0, before) == Some((sys.k, View()))
      modifies this`phase, this`made, this`touched, this`filename, sys`k
      ensures Exec(me, k0, h0, trace) == Some((sys.k, View()))
      ensures ok <==> unlinkOk && old(filename).value in old(sys.k.names)
      ensures if ok then phase.Closing? && filename.None? else phase.CloseFailed? && filename == old(filename)
      ensures trace == before + [MqUnlink(unlinkOk)]
      ensures sys.k == if ok then Without(old(sys.k), old(filename)) else old(sys.k)
    {
      hide Exec;
      ghost var k, h := sys.k, View();
      ok := sys.RemoveName(filename.value, unlinkOk);
      if ok {
        filename := None;
      }
      trace := Note(sys, k0, h0, before, k, h, MqUnlink(unlinkOk));
    }

    /** The body of `queue_close` for a handle: it succeeds iff each call it needs does, and resumes where it failed. */
    method Release(sys: System, closeOk: bool, unlinkOk: bool)
      returns (ok: bool, ghost trace: seq<Action>)
      requires AtRest(phase)
      modifies this, sys`k
      ensures Exec(me, old(sys.k), old(View()), trace) == Some((sys.k, View()))
      ensures if ok then phase.Freed? else phase.CloseFailed?
      ensures if ok then trace == CloseTrace(old(View()), closeOk, unlinkOk) + [Free]
              else trace <= CloseTrace(old(View()), closeOk, unlinkOk)
      ensures old(sys.Valid()) ==> sys.Valid()
      ensures mq == (if closeOk then None else old(mq)) && filename == (if ok then None else old(filename))
      ensures sys.k == Without(old(sys.k), if ok then old(filename) else None)
      ensures ok <==> (old(mq).Some? ==> closeOk)
                      && (old(filename).Some? ==> unlinkOk && old(filename).value in old(sys.k.names))
    {
      hide Exec;
      ghost var k0, h0 := sys.k, View();
      ExecNothing(me, k0, h0);
      trace := Note(sys, k0, h0, [], k0, h0, BeginClose);
      if mq.Some? {
        trace := CloseDescriptor(sys, closeOk, k0, h0, trace);
        if !closeOk {
          return false, trace;
        }
      }
      if filename.Some? {
        ok, trace := RemoveOwnName(sys, unlinkOk, k0, h0, trace);
        if !ok {
          return;
        }
      }
      trace := Note(sys, k0, h0, trace, sys.k, View(), Free);
      ok := true;
    }

    /** `queue_close(&p)`: the pointer becomes NULL exactly when the call succeeds. */
    static method Close(p: Handle?, sys: System, closeOk: bool, unlinkOk: bool)
      returns (p': Handle?, ok: bool, ghost trace: seq<Action>)
      requires p != null ==> AtRest(p.phase)
      modifies p, sys`k
      ensures ok <==> p' == null
      ensures !ok ==> p' == p && p.phase.CloseFailed?
      ensures p != null && ok ==> p.phase.Freed?
      ensures p != null ==> Exec(p.me, old(sys.k), old(p.View()), trace) == Some((sys.k, p.View()))
      ensures p != null ==> if ok then trace == CloseTrace(old(p.View()), closeOk, unlinkOk) + [Free]
                            else trace <= CloseTrace(old(p.View()), closeOk, unlinkOk)
      ensures p == null ==> ok && sys.k == old(sys.k)
      ensures p != null ==>
                && p.mq == (if closeOk then None else old(p.mq)) && p.filename == (if ok then None else old(p.filename))
                && sys.k == Without(old(sys.k), if ok then old(p.filename) else None)
      ensures p != null ==>
                (ok <==> && (old(p.mq).Some? ==> closeOk)
                         && (old(p.filename).Some? ==> unlinkOk && old(p.filename).value in old(sys.k.names)))
      ensures old(sys.Valid()) ==> sys.Valid()
    {
      p', ok, trace := p, true, [];
      if p != null {
        ok, trace := p.Release(sys, closeOk, unlinkOk);
        if ok {
          p' := null;
        }
      }
    }

    // ---- messages ----

    /** An open descriptor of a queue, with the attributes of that queue in the cache. */
    ghost predicate Ready(sys: System)
      reads this, sys
    {
      && phase.Open? && mq.Some? && mq.value in sys.k.queues && mq.value in sys.messages
      && attr == sys.k.queues[mq.value].attr
    }

    /** `queue_send`.  `mq_send` refuses what is longer than `mq_msgsize`. */
    method Send(sys: System, msg: seq<char>, len: int, ok: bool, error: Cell) returns (sent: bool)
      requires Ready(sys) && !error.slot.Crashed? && if len < 0 then NUL in msg else len <= |msg|
      modifies sys`messages, error
      ensures var m := if len < 0 then CText(msg) else msg[..len];
              && (sent <==> ok && |m| <= attr.msgsize)
              && sys.messages == if !sent then old(sys.messages) else
                   old(sys.messages)[mq.value := old(sys.messages)[mq.value] + [Encode(Posix(attr.msgsize), [], m)]]
      ensures error.slot == if sent then old(error.slot) else old(error.slot).Put(SendFailed)
    {
      var n := len;
      if n < 0 {
        n := StrLen(msg);
      }
      sent := ok && n <= sys.k.queues[mq.value].attr.msgsize;
      if sent {
        sys.messages := sys.messages[mq.value := sys.messages[mq.value] + [msg[..n]]];
      } else {
        error.Set(SendFailed);
      }
    }

    /** `queue_receive` of any message the queue can hold, into a buffer one larger than the cached message size. */
    method Receive(sys: System, out: array<char>, ok: bool, error: Cell) returns (read: int)
      requires Ready(sys) && out.Length == DaemonRoom(Posix(attr.msgsize)) && !error.slot.Crashed?
      requires ok ==> sys.messages[mq.value] != [] && Receivable(Posix(attr.msgsize), [], sys.messages[mq.value][0])
      modifies out, sys`messages, error
      ensures if ok then
                var b, m := Posix(attr.msgsize), old(sys.messages)[mq.value][0];
                && read == |m|
                && out[..] == HandedOver(b, [], old(out[..]), m)
                && sys.messages == old(sys.messages)[mq.value := old(sys.messages)[mq.value][1..]]
                && error.slot == old(error.slot)
              else
                && read == -1 && sys.messages == old(sys.messages) && out[..] == old(out[..])
                && error.slot == old(error.slot).Put(ReceiveFailed)
    {
      if !ok {
        error.Set(ReceiveFailed);
        return -1;
      }
      var m := sys.messages[mq.value][0];
      sys.messages := sys.messages[mq.value := sys.messages[mq.value][1..]];
      forall i | 0 <= i < |m| { out[i] := m[i]; }
      read := |m|;
      out[read] := NUL;
    }
  }
}
