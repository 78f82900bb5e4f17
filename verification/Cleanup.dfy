/** `cleanup` of banipd.c, which runs in signal handlers and at exit. */
module Cleanup {
  import opened ErrorSlot
  import opened Queues
  import Pf

  /** The globals that `cleanup` releases, and the memory that is allocated and not yet freed. */
  class Globals {
    var buffer: array?<char>
    var ctxt: Pf.Device?
    var queue: Option<AnyQueue>
    ghost var live: set<object>

    ghost function Held(): set<object>
      reads this
    {
      (if buffer == null then {} else {buffer}) + (if ctxt == null then {} else {ctxt})
      + if queue.None? then {} else {queue.value.Itself()}
    }

    ghost predicate Valid()
      reads *
    {
      Held() <= live && (queue.Some? ==> queue.value.AtRest())
    }

    /** `free`, of memory that is allocated. */
    ghost method Free(p: object)
      requires p in live
      modifies this`live
      ensures live == old(live) - {p}
    {
      live := live - {p};
    }
  }

  /** The buffer and the engine's context. */
  method FreeVariables(g: Globals)
    requires g.Valid()
    modifies g`buffer, g`ctxt, g`live
    ensures g.Valid() && g.buffer == null && g.ctxt == null
    ensures g.live == old(g.live) - (old(g.Held()) - g.Held())
  {
    if g.buffer != null {
      g.Free(g.buffer);
      g.buffer := null;
    }
    if g.ctxt != null {
      g.Free(g.ctxt);
      g.ctxt := null;
    }
  }

  /** `queue_close(&queue, NULL)` */
  method CloseGlobal(g: Globals, ghost ftok: (nat, int) -> int, firstOk: bool, unlinkOk: bool)
    requires g.Valid() && g.queue.Some?
    modifies g`queue, g`live, g.queue.value.Itself(), g.queue.value.System()
    ensures g.Valid()
    ensures g.queue == if old(MayClose(g.queue.value, firstOk, unlinkOk)) then None else old(g.queue)
    ensures Undone(old(g.queue).value)
    ensures g.queue.None? ==> old(g.queue).value.Gone() && Spent(old(g.queue).value)
    ensures old(g.queue.value.SystemValid()) ==> old(g.queue).value.SystemValid()
    ensures g.live == old(g.live) - (old(g.Held()) - g.Held())
  {
    hide MayClose, Undone, Spent;
    var ok := CloseQueue(g.queue.value, ftok, firstOk, unlinkOk);
    if ok {
      g.Free(g.queue.value.Itself());
      g.queue := None;
    }
  }

  /** `cleanup`: nothing is freed that is not allocated, and what is freed is forgotten. */
  method Cleanup(g: Globals, ghost ftok: (nat, int) -> int, firstOk: bool, unlinkOk: bool)
    requires g.Valid()
    modifies g, if g.queue.Some? then {g.queue.value.Itself(), g.queue.value.System()} else {}
    ensures g.Valid() && g.buffer == null && g.ctxt == null
    ensures g.queue == if old(g.queue.Some? && !MayClose(g.queue.value, firstOk, unlinkOk)) then old(g.queue) else None
    ensures old(g.queue).Some? ==> Undone(old(g.queue).value)
    ensures old(g.queue).Some? && g.queue.None? ==> old(g.queue).value.Gone() && Spent(old(g.queue).value)
    ensures old(g.queue.Some? && g.queue.value.SystemValid()) ==> old(g.queue).value.SystemValid()
    ensures g.live == old(g.live) - (old(g.Held()) - g.Held())
  {
    hide MayClose, Spent;
    FreeVariables(g);
    if g.queue.Some? {
      CloseGlobal(g, ftok, firstOk, unlinkOk);
    }
  }

  /** Called again and again, from signal handlers and at exit, it frees what it held at most once. */
  method CleanupRepeatedly(g: Globals, ghost ftok: (nat, int) -> int, outcomes: seq<(bool, bool)>)
    requires g.Valid()
    modifies g, if g.queue.Some? then {g.queue.value.Itself(), g.queue.value.System()} else {}
    ensures g.Valid() && g.live == old(g.live) - (old(g.Held()) - g.Held()) && g.Held() <= old(g.Held())
    ensures outcomes != [] ==> g.buffer == null && g.ctxt == null
    ensures g.queue == old(g.queue) || (g.queue.None? && old(g.queue).value.Gone() && Spent(old(g.queue).value))
    ensures old(g.queue).Some? ==> Undone(old(g.queue).value)
  {
    ghost var q := g.queue;
    for i := 0 to |outcomes|
      invariant g.Valid() && g.live == old(g.live) - (old(g.Held()) - g.Held()) && g.Held() <= old(g.Held())
      invariant i > 0 ==> g.buffer == null && g.ctxt == null
      invariant g.queue == old(g.queue) || (g.queue.None? && old(g.queue).value.Gone() && Spent(old(g.queue).value))
      invariant q.Some? ==> Undone(q.value)
    {
      Cleanup(g, ftok, outcomes[i].0, outcomes[i].1);
    }
  }
}
