/** The queue API of queues/queue.h over either backend. */
module Queues {
  import opened CStrings
  import opened ErrorSlot
  import opened Delivery
  import PosixQueue
  import SystemVQueue
  import PosixProtocol
  import SystemVProtocol

  datatype AnyKernel = PosixK(pk: PosixProtocol.Kernel) | SystemVK(vk: SystemVProtocol.Kernel)

  /** A queue handle of the backend the program was built with, and the system it lives in. */
  datatype AnyQueue =
    | PosixQ(ph: PosixQueue.Handle, ps: PosixQueue.System)
    | SystemVQ(vh: SystemVQueue.Handle, vs: SystemVQueue.System)
  {
    /** What sending and receiving write to, besides the caller's own memory. */
    ghost function Writes(): set<object>
      reads if SystemVQ? then {vh} else {}
    {
      match this
      case PosixQ(_, ps) => {ps}
      case SystemVQ(vh, vs) => {vs} + if vh.buffer == null then {} else {vh.buffer}
    }

    ghost predicate Ready()
      reads if SystemVQ? then {vh, vs} else {ph, ps}
    {
      match this
      case PosixQ(ph, ps) => ph.Ready(ps)
      case SystemVQ(vh, vs) => vh.Ready(vs) && vh.qid.value in vs.messages
    }

    ghost function Kind(): Backend
      requires Ready()
      reads if SystemVQ? then {vh, vs} else {ph, ps}
    {
      match this
      case PosixQ(ph, ps) => Posix(ph.attr.msgsize)
      case SystemVQ(vh, vs) => SystemV(vs.qbytes)
    }

    ghost function Kernel(): AnyKernel
      reads if SystemVQ? then {vs} else {ps}
    {
      if PosixQ? then PosixK(ps.k) else SystemVK(vs.k)
    }

    ghost function Id(): nat
      requires Ready()
      reads if SystemVQ? then {vh, vs} else {ph, ps}
    {
      if PosixQ? then ph.mq.value else vh.qid.value
    }

    /** The messages in the queue. */
    function Pending(): seq<seq<char>>
      requires Ready()
      reads if SystemVQ? then {vh, vs} else {ph, ps}
    {
      match this
      case PosixQ(ph, ps) => ps.messages[ph.mq.value]
      case SystemVQ(vh, vs) => vs.messages[vh.qid.value]
    }

    /** What the buffer of a System V handle holds behind `mtype`. */
    ghost function Text(): seq<char>
      requires Ready()
      reads if SystemVQ? then {vh, vs, vh.buffer} else {ph, ps}
    {
      match this
      case PosixQ(_, _) => []
      case SystemVQ(vh, _) => vh.buffer[SystemVQueue.MTYPE..]
    }

    /** A handle on which no call has been made, and its system. */
    ghost predicate Idle()
      reads if SystemVQ? then {vh, vs} else {ph, ps}
    {
      match this
      case PosixQ(ph, ps) => ph.phase.Idle? && ph.mq.None? && ps.Valid()
      case SystemVQ(vh, vs) => vh.phase.Idle? && vh.qid.None? && vs.Valid()
    }

    /** Between calls. */
    ghost predicate AtRest()
      reads if SystemVQ? then {vh} else {ph}
    {
      match this
      case PosixQ(ph, _) => PosixProtocol.AtRest(ph.phase)
      case SystemVQ(vh, _) => SystemVProtocol.AtRest(vh.phase)
    }

    /** The handle has been freed. */
    ghost predicate Gone()
      reads if SystemVQ? then {vh} else {ph}
    {
      if PosixQ? then ph.phase.Freed? else vh.phase.Freed?
    }

    ghost function System(): object {
      if PosixQ? then ps else vs
    }

    ghost function Itself(): object {
      if PosixQ? then ph else vh
    }

    ghost predicate SystemValid()
      reads if SystemVQ? then {vs} else {ps}
    {
      match this
      case PosixQ(_, ps) => ps.Valid()
      case SystemVQ(_, vs) => vs.Valid()
    }

    /** Nothing has changed in the system. */
    twostate predicate SystemKept()
      reads if SystemVQ? then {vs} else {ps}
    {
      match this
      case PosixQ(_, ps) => ps.k == old(ps.k) && ps.messages == old(ps.messages)
      case SystemVQ(_, vs) => vs.k == old(vs.k) && vs.messages == old(vs.messages)
    }

    /** Both handles have the same queue open. */
    predicate SameQueue(s: AnyQueue)
      reads if SystemVQ? then {vh} else {ph}, if s.SystemVQ? then {s.vh} else {s.ph}
    {
      match this
      case PosixQ(ph, ps) => s.PosixQ? && s.ps == ps && s.ph.mq == ph.mq
      case SystemVQ(vh, vs) => s.SystemVQ? && s.vs == vs && s.vh.qid == vh.qid
    }

    /** Nothing but messages has changed in the system. */
    twostate predicate OnlyMessages()
      reads if SystemVQ? then {vs} else {ps}
    {
      match this
      case PosixQ(_, ps) => ps.k == old(ps.k) && ps.messages.Keys == old(ps.messages.Keys)
      case SystemVQ(_, vs) => vs.k == old(vs.k) && vs.messages.Keys == old(vs.messages.Keys)
    }
  }

  // ---- open ----

  /** Which of the calls of `queue_open` the system lets through, for either backend. */
  datatype OpenFates = OpenFates(strdupOk: bool, openOk: bool, finishOk: bool, sysv: SystemVProtocol.OpenFate)

  /** The owner's calls of `queue_open` succeed on this system. */
  ghost predicate MayOwn(q: AnyQueue, ftok: (nat, int) -> int, name: string, f: OpenFates)
    reads if q.SystemVQ? then {q.vs} else {q.ps}
  {
    match q
    case PosixQ(_, ps) => f.strdupOk && f.openOk && f.finishOk && name !in ps.k.names
    case SystemVQ(_, vs) => SystemVProtocol.OwnerMayOpen(ftok, vs.k, name, f.sysv)
  }

  /** Whoever opens the name gets the queue `id`. */
  ghost predicate Announced(k: AnyKernel, id: nat, ftok: (nat, int) -> int, name: string) {
    match k
    case PosixK(pk) => name in pk.names && pk.names[name] == id && id in pk.queues
    case SystemVK(vk) => SystemVProtocol.Announces(ftok, vk, name, id)
  }

  /** The queue that a process which does not own it gets by opening the name, if it gets one. */
  ghost function Found(k: AnyKernel, ftok: (nat, int) -> int, name: string, f: OpenFates): Option<nat> {
    match k
    case PosixK(pk) =>
      if f.openOk && f.finishOk && name in pk.names && pk.names[name] in pk.queues then Some(pk.names[name]) else None
    case SystemVK(vk) =>
      if SystemVProtocol.OtherMayOpen(ftok, vk, name, f.sysv) then
        Some(vk.keys[ftok(vk.names[name], SystemVProtocol.ReadBack(vk, vk.names[name], f.sysv))])
      else None
  }

  /** None of the calls of such a process fails. */
  predicate NoneFails(f: OpenFates) {
    && f.openOk && f.finishOk
    && f.sysv.fopenOk && f.sysv.ioOk && f.sysv.ftokOk && f.sysv.msggetOk && f.sysv.finishOk
  }

  lemma AnnouncedIsFound(k: AnyKernel, id: nat, ftok: (nat, int) -> int, name: string, f: OpenFates)
    requires Announced(k, id, ftok, name) && NoneFails(f)
    ensures Found(k, ftok, name, f) == Some(id)
  {
  }

  /** `queue_open`: a handle that it succeeds for is ready, and an owner's queue is empty and can be found. */
  method OpenQueue(q: AnyQueue, ftok: (nat, int) -> int, name: string, owner: bool, f: OpenFates) returns (ok: bool)
    requires q.Idle()
    modifies q.Itself(), q.System()
    ensures q.SystemValid() && (!owner ==> q.SystemKept())
    ensures ok ==> q.Ready() && (q.SystemVQ? ==> fresh(q.vh.buffer))
    ensures ok <==> if owner then old(MayOwn(q, ftok, name, f)) else Found(q.Kernel(), ftok, name, f).Some?
    ensures ok && owner ==> q.Pending() == [] && Announced(q.Kernel(), q.Id(), ftok, name)
    ensures q.PosixQ? && owner ==> q.ph.attr == old(q.ph.attr)
    ensures ok && !owner ==> Found(q.Kernel(), ftok, name, f) == Some(q.Id())
  {
    match q
    case PosixQ(ph, ps) =>
      ghost var trace;
      ok, trace := ph.Open(ps, name, owner, f.strdupOk, f.openOk, f.finishOk);
    case SystemVQ(vh, vs) =>
      ghost var trace;
      ok, trace := vh.Open(vs, ftok, name, owner, f.sysv);
  }

  /** The daemon's buffer: `calloc` of the maximum message size, plus one, if that size and that memory can be had. */
  method AllocateBuffer(q: AnyQueue, statOk: bool, callocOk: bool) returns (buffer: array?<char>)
    requires q.Ready()
    ensures buffer != null ==> fresh(buffer) && buffer.Length == DaemonRoom(q.Kind())
    ensures buffer != null ==> buffer.Length == 1 + if q.PosixQ? then q.ph.attr.msgsize else q.vs.qbytes
    ensures buffer == null <==> !callocOk || (q.SystemVQ? && !(statOk && q.vh.qid.value in q.vs.k.queues))
  {
    buffer := null;
    var size: Option<nat>;
    match q {
      case PosixQ(ph, ps) =>
        var status, value := ph.GetAttribute(PosixProtocol.MaxMessageSize);
        size := if status.Ok? then Some(value) else None;
      case SystemVQ(vh, vs) =>
        size := vh.GetMaxMessageSize(vs, statOk);
    }
    if size.Some? && callocOk {
      buffer := new char[size.value + 1](_ => NUL);
    }
  }

  // ---- send and receive ----

  /** `queue_receive`: the text of the first message ends up in `out`. */
  method Receive(q: AnyQueue, out: array<char>, ok: bool, error: Cell) returns (read: int)
    requires q.Ready() && out.Length == DaemonRoom(q.Kind()) && out !in q.Writes() && !error.slot.Crashed?
    requires ok ==> q.Pending() != [] && Receivable(q.Kind(), q.Text(), q.Pending()[0])
    modifies q.Writes(), out, error
    ensures q.Ready() && q.OnlyMessages()
    ensures if ok then
              var m := old(q.Pending())[0];
              && read != -1 && q.Pending() == old(q.Pending())[1..]
              && q.Text() == ReceivedInto(q.Kind(), old(q.Text()), m)
              && out[..] == HandedOver(q.Kind(), old(q.Text()), old(out[..]), m)
              && error.slot == old(error.slot)
            else
              && read == -1 && q.Pending() == old(q.Pending()) && q.Text() == old(q.Text()) && out[..] == old(out[..])
              && error.slot == old(error.slot).Put(ReceiveFailed)
  {
    match q
    case PosixQ(ph, ps) => read := ph.Receive(ps, out, ok, error);
    case SystemVQ(vh, vs) =>
      read := vh.Receive(vs, out, ok, error);
  }

  /** `queue_send` of a text by a process of its own. */
  method SendText(q: AnyQueue, text: string, ok: bool) returns (sent: bool)
    requires q.Ready() && NUL !in text && (q.SystemVQ? ==> |text| < TextRoom(q.vs.qbytes))
    modifies q.Writes()
    ensures q.Ready() && q.OnlyMessages()
    ensures sent <==> ok && (q.PosixQ? ==> |text| <= q.Kind().msgsize)
    ensures q.Pending() == old(q.Pending()) + if sent then [Encode(q.Kind(), old(q.Text()), text)] else []
    ensures q.Text() == if q.PosixQ? then [] else Filled(old(q.Text()), text)
  {
    TerminatedText(text + [NUL], text);
    var error := new Cell();
    match q
    case PosixQ(ph, ps) => sent := ph.Send(ps, text + [NUL], -1, ok, error);
    case SystemVQ(vh, vs) => sent := vh.Send(vs, text + [NUL], -1, ok, error);
  }

  // ---- close ----

  /** The calls of `queue_close` succeed: those of the owner, or of the descriptor. */
  ghost predicate MayClose(q: AnyQueue, firstOk: bool, unlinkOk: bool)
    reads if q.SystemVQ? then {q.vh, q.vs} else {q.ph, q.ps}
  {
    match q
    case PosixQ(ph, ps) =>
      (ph.mq.Some? ==> firstOk) && (ph.filename.Some? ==> unlinkOk && ph.filename.value in ps.k.names)
    case SystemVQ(vh, vs) =>
      vh.filename.Some? ==>
        && (vh.qid.Some? ==> firstOk && vh.qid.value in vs.k.queues)
        && unlinkOk && vh.filename.value in vs.k.names
  }

  /**
   What closing has come to so far: what the handle has forgotten is gone from the system, and nothing else is.
   An owner forgets its name and, for System V, its queue.
   */
  twostate predicate Undone(q: AnyQueue)
    reads if q.SystemVQ? then {q.vh, q.vs} else {q.ph, q.ps}
  {
    match q
    case PosixQ(ph, ps) =>
      && (ph.filename == old(ph.filename) || ph.filename.None?) && (ph.mq == old(ph.mq) || ph.mq.None?)
      && ps.k == PosixProtocol.Without(old(ps.k), if ph.filename == old(ph.filename) then None else old(ph.filename))
      && ps.messages == old(ps.messages)
    case SystemVQ(vh, vs) =>
      && (vh.filename == old(vh.filename) || vh.filename.None?)
      && (vh.qid == old(vh.qid) || (vh.qid.None? && old(vh.filename).Some? && old(vh.qid).value in old(vs.k.queues)))
      && vs.k == SystemVProtocol.Without(old(vs.k), if vh.qid == old(vh.qid) then None else old(vh.qid),
                                         if vh.filename == old(vh.filename) then None else old(vh.filename))
      && vs.messages == if vh.qid == old(vh.qid) then old(vs.messages) else old(vs.messages) - {old(vh.qid).value}
  }

  /** The handle has nothing left to remove or to close. */
  ghost predicate Spent(q: AnyQueue)
    reads if q.SystemVQ? then {q.vh} else {q.ph}
  {
    match q
    case PosixQ(ph, _) => ph.filename.None? && ph.mq.None?
    case SystemVQ(vh, _) => vh.filename.None?
  }

  /**
   `queue_close`: exactly when it succeeds.  It goes as far as its calls do: the first one is effective even if the
   unlink fails, and then the name stays.
   */
  method CloseQueue(q: AnyQueue, ghost ftok: (nat, int) -> int, firstOk: bool, unlinkOk: bool) returns (ok: bool)
    requires q.AtRest()
    modifies q.Itself(), q.System()
    ensures ok <==> old(MayClose(q, firstOk, unlinkOk))
    ensures if ok then q.Gone() && Spent(q) else q.AtRest()
    ensures Undone(q) && (old(q.SystemValid()) ==> q.SystemValid())
    ensures q.PosixQ? ==>
              && q.ph.mq == (if firstOk then None else old(q.ph.mq))
              && q.ph.filename == (if ok then None else old(q.ph.filename))
    ensures q.SystemVQ? ==>
              && q.vh.qid == (if SystemVProtocol.Removes(old(q.vh.View()), old(q.vs.k), firstOk) then None
                              else old(q.vh.qid))
              && q.vh.filename == (if ok then None else old(q.vh.filename))
  {
    match q
    case PosixQ(ph, ps) =>
      var p; ghost var trace;
      p, ok, trace := PosixQueue.Handle.Close(ph, ps, firstOk, unlinkOk);
    case SystemVQ(vh, vs) =>
      var p; ghost var trace;
      p, ok, trace := SystemVQueue.Handle.Close(vh, vs, ftok, firstOk, unlinkOk);
  }
}
