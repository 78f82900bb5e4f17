/**
 The error slot that callers pass down as a `char **` (queues/error.c).  The text of a message is
 reduced to the reason for it.
 */
module ErrorSlot {

  datatype Option<+T> = None | Some(value: T)

  datatype Error =
    | NumberOutOfRange | NoDigit | NonDigit | NotPositive
    | UnresolvedHost | PrefixTooLong | InvalidAddress | NameTooLong
    | SendFailed | ReceiveFailed | AddFailed | KillFailed | UnknownFamily | EngineFailed

  /**
   The slot of a process.  `_error_set` on a slot that holds a message frees the address of the slot itself,
   which no allocator has given out: that is the end of the process, `Crashed`.
   */
  datatype Slot = Empty | Holds(message: Error) | Crashed {
    function Put(e: Error): Slot {
      if Empty? then Holds(e) else Crashed
    }

    function PutAll(es: seq<Error>): Slot
      decreases |es|
    {
      if es == [] then this else Put(es[0]).PutAll(es[1..])
    }

    /** After `error_free`, if the process got there. */
    function Freed(): Slot {
      if Crashed? then Crashed else Empty
    }
  }

  /** The process ends exactly when the errors it reports, and the one it may hold already, are more than one. */
  lemma {:induction false} PutAllCrashes(s: Slot, es: seq<Error>)
    requires !s.Crashed?
    ensures s.PutAll(es).Crashed? <==> |es| + (if s.Holds? then 1 else 0) > 1
    ensures s.PutAll(es).Empty? <==> s.Empty? && es == []
    decreases |es|
  {
    if es != [] {
      if s.Empty? {
        PutAllCrashes(s.Put(es[0]), es[1..]);
      } else {
        CrashedStays(es[1..]);
      }
    }
  }

  lemma {:induction false} CrashedStays(es: seq<Error>)
    ensures Crashed.PutAll(es) == Crashed
    decreases |es|
  {
    if es != [] { CrashedStays(es[1..]); }
  }

  lemma {:induction false} PutAllConcat(s: Slot, es: seq<Error>, fs: seq<Error>)
    ensures s.PutAll(es + fs) == s.PutAll(es).PutAll(fs)
    decreases |es|
  {
    if es == [] {
      assert es + fs == fs;
    } else {
      assert (es + fs)[1..] == es[1..] + fs;
      PutAllConcat(s.Put(es[0]), es[1..], fs);
    }
  }

  /** A slot in memory.  A process that has crashed makes no more calls. */
  class Cell {
    var slot: Slot

    constructor ()
      ensures slot == Empty
    {
      slot := Empty;
    }

    /** `_error_set` */
    method Set(e: Error)
      requires !slot.Crashed?
      modifies this
      ensures slot == old(slot).Put(e)
    {
      if slot.Holds? {
        slot := Crashed;
        return;
      }
      slot := Holds(e);
    }

    /** `error_free` */
    method Free()
      requires !slot.Crashed?
      modifies this
      ensures slot == Empty
    {
      slot := Empty;
    }
  }
}
