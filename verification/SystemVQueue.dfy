/** queues/systemv.c: the handle, and the calls of the queue API on it. */
module SystemVQueue {
  import opened CStrings
  import opened ErrorSlot
  import opened Delivery
  import opened SystemVProtocol

  /** The part of the system that all handles share.  `qbytes` is `msg_qbytes` of every queue. */
  class System {
    var k: Kernel
    var messages: map<nat, seq<seq<char>>>
    const qbytes: nat

    /** Every queue has its messages. */
    ghost predicate Valid()
      reads this
    {
      messages.Keys == k.queues.Keys
    }

    constructor (qbytes: nat)
      ensures k == BOOT && messages == map[] && this.qbytes == qbytes && Valid()
    {
      this.qbytes := qbytes;
      k, messages := BOOT, map[];
    }

    /** `fopen(name, "wx")` */
    method CreateFile(name: Path, who: nat, ok: bool) returns (fp: Option<nat>)
      modifies this`k
      ensures fp == if ok && name !in old(k.names) then Some(old(k.nextInode)) else None
      ensures k == if fp.None? then old(k) else
                old(k).(names := old(k.names)[name := fp.value],
                        inodes := old(k.inodes)[fp.value := Inode(who, None)], nextInode := fp.value + 1)
    {
      if ok && name !in k.names {
        fp := Some(k.nextInode);
        k := k.(names := k.names[name := fp.value], inodes := k.inodes[fp.value := Inode(who, None)],
                nextInode := fp.value + 1);
      } else {
        fp := None;
      }
    }

    /** `fopen(name, "r")` */
    method OpenExisting(name: Path, ok: bool) returns (fp: Option<nat>)
      ensures fp == if ok && name in k.names then Some(k.names[name]) else None
    {
      if ok && name in k.names { fp := Some(k.names[name]); } else { fp := None; }
    }

    /** `fwrite` of the identifier, and `fflush` */
    method WriteId(fp: nat, ok: bool) returns (written: bool)
      modifies this`k
      ensures written <==> ok && fp in old(k.inodes)
      ensures k == if !written then old(k) else
                old(k).(inodes := old(k.inodes)[fp := old(k.inodes)[fp].(content := Some(ID))])
    {
      written := ok && fp in k.inodes;
      if written {
        k := k.(inodes := k.inodes[fp := k.inodes[fp].(content := Some(ID))]);
      }
    }

    /** `fread` of the identifier, whose failure goes unnoticed */
    method ReadId(fp: nat, ok: bool, junk: int) returns (id: int)
      ensures id == if ok && fp in k.inodes && k.inodes[fp].content.Some? then k.inodes[fp].content.value else junk
    {
      if ok && fp in k.inodes && k.inodes[fp].content.Some? { id := k.inodes[fp].content.value; } else { id := junk; }
    }

    /** `msgget` with `IPC_CREAT | IPC_EXCL` */
    method CreateQueue(key: int, who: nat, ok: bool) returns (qid: Option<nat>)
      modifies this
      ensures qid == if ok && key !in old(k.keys) then Some(old(k.nextQid)) else None
      ensures k == if qid.None? then old(k) else
                old(k).(keys := old(k.keys)[key := qid.value], queues := old(k.queues)[qid.value := Queue(key, who)],
                        nextQid := qid.value + 1)
      ensures messages == if qid.None? then old(messages) else old(messages)[qid.value := []]
    {
      if ok && key !in k.keys {
        qid := Some(k.nextQid);
        k := k.(keys := k.keys[key := qid.value], queues := k.queues[qid.value := Queue(key, who)],
                nextQid := qid.value + 1);
        messages := messages[qid.value := []];
      } else {
        qid := None;
      }
    }

    /** `msgget` without flags */
    method FindQueue(key: int, ok: bool) returns (qid: Option<nat>)
      ensures qid == if ok && key in k.keys then Some(k.keys[key]) else None
    {
      if ok && key in k.keys { qid := Some(k.keys[key]); } else { qid := None; }
    }

    /** `msgctl(qid, IPC_RMID, NULL)` */
    method RemoveQueue(qid: nat, ok: bool) returns (removed: bool)
      modifies this
      ensures removed <==> ok && qid in old(k.queues)
      ensures k == if !removed then old(k) else
                old(k).(keys := old(k.keys) - {old(k.queues)[qid].key}, queues := old(k.queues) - {qid})
      ensures messages == if removed then old(messages) - {qid} else old(messages)
    {
      removed := ok && qid in k.queues;
      if removed {
        k := k.(keys := k.keys - {k.queues[qid].key}, queues := k.queues - {qid});
        messages := messages - {qid};
      }
    }

    /** `unlink(name)` */
    method RemoveFile(name: Path, ok: bool) returns (removed: bool)
      modifies this`k
      ensures removed <==> ok && name in old(k.names)
      ensures k == if removed then old(k).(names := old(k.names) - {name}) else old(k)
    {
      removed := ok && name in k.names;
      if removed {
        k := k.(names := k.names - {name});
      }
    }
  }

  /** The size of `long`, which `mtype` occupies at the front of the buffer. */
  const MTYPE: nat := 8

  /** `strcpy(dst + at, src)` */
  method Strcpy(dst: array<char>, at: nat, src: seq<char>)
    requires NUL in src && at + |CText(src)| < dst.Length
    modifies dst
    ensures dst[..at] == old(dst[..at])
    ensures dst[at..] == Filled(old(dst[at..]), CText(src))
  {
    ghost var n := StrLen(src);
    assert forall k :: 0 <= k < n ==> src[k] == src[..n][k];
    var i := 0;
    while src[i] != NUL
      invariant i <= n
      invariant forall k :: 0 <= k < i ==> dst[at + k] == src[k]
      invariant forall k :: 0 <= k < dst.Length && !(at <= k < at + i) ==> dst[k] == old(dst[k])
      decreases n - i
    {
      dst[at + i] := src[i];
      i := i + 1;
    }
    TerminatedText(src, src[..i]);
    dst[at + i] := NUL;
  }

  class Handle {
    const me: nat
    ghost var phase: Phase
    var qid: Option<nat>
    var filename: Option<Path>
    var buffer: array?<char>
    var bufferSize: nat

    /** The handle as the protocol sees it. */
    ghost function View(): SystemVProtocol.Handle
      reads this
    {
      SystemVProtocol.Handle(phase, qid, filename)
    }

    /** A buffer of the allocated size: room for `bufferSize` pointers after `mtype`. */
    ghost predicate Ready(sys: System)
      reads this, sys
    {
      && phase.Open? && qid.Some?
      && bufferSize == MessageSize(sys.qbytes)
      && buffer != null && buffer.Length == MTYPE + TextRoom(sys.qbytes)
    }

    /** `queue_init` */
    constructor (me: nat)
      ensures View() == SystemVProtocol.Handle(Idle, None, None) && buffer == null && this.me == me
    {
      this.me := me;
      phase := Idle;
      qid, filename, buffer, bufferSize := None, None, null, 0;
    }

    /** One more action of this handle has been carried out: the protocol state follows. */
    ghost method Note(sys: System, ftok: (nat, int) -> int, k0: Kernel, h0: SystemVProtocol.Handle,
                      trace: seq<Action>, k: Kernel, h: SystemVProtocol.Handle, a: Action)
      returns (longer: seq<Action>)
      requires Exec(ftok, me, k0, h0, trace) == Some((k, h)) && CanDo(h, a)
      requires var (k', h') := Do(ftok, me, k, h, a); sys.k == k' && qid == h'.qid && filename == h'.filename
      modifies this`phase
      ensures phase == Do(ftok, me, k, h, a).1.phase
      ensures longer == trace + [a] && Exec(ftok, me, k0, h0, longer) == Some((sys.k, View()))
    {
      hide Exec, Do, CanDo;
      ExecNext(ftok, me, k0, h0, trace, a, k, h);
      phase := Do(ftok, me, k, h, a).1.phase;
      longer := trace + [a];
    }

    /** The first part of `queue_open`: the key file, created exclusively by an owner. */
    method OpenKeyFile(sys: System, ghost ftok: (nat, int) -> int, name: Path, owner: bool, fate: OpenFate)
      returns (fp: Option<nat>, ghost trace: seq<Action>)
      requires phase.Idle?
      modifies this`phase, sys`k
      ensures Exec(ftok, me, old(sys.k), old(View()), trace) == Some((sys.k, View()))
      ensures phase == if fp.Some? then FileOpen(owner, name, fp.value) else OpenFailed
      ensures if fp.Some? then trace == KeyTrace(owner, name, fate)[..2] else trace <= KeyTrace(owner, name, fate)
      ensures sys.k.queues == old(sys.k.queues) && (!owner ==> sys.k == old(sys.k))
      ensures fp.Some? <==> |name| < 1024 && fate.fopenOk && owner == (name !in old(sys.k.names))
      ensures fp.Some? && owner ==> fp.value == old(sys.k.nextInode) && fp.value in sys.k.inodes
      ensures fp.Some? ==> name in sys.k.names && sys.k.names[name] == fp.value
      ensures sys.k.keys == old(sys.k.keys)
    {
      hide Exec;
      ghost var k0, h0 := sys.k, View();
      fp, trace := None, [];
      ExecNothing(ftok, me, k0, h0);
      trace := Note(sys, ftok, k0, h0, trace, k0, h0, StartOpen(owner, name));
      if |name| >= MAXPATHLEN {
        return;
      }
      ghost var k, h := sys.k, View();
      if owner {
        fp := sys.CreateFile(name, me, fate.fopenOk);
      } else {
        fp := sys.OpenExisting(name, fate.fopenOk);
      }
      trace := Note(sys, ftok, k0, h0, trace, k, h, OpenFile(fate.fopenOk));
    }

    /** The next part: the identifier is written or read, and the key derived. */
    method DeriveKey(sys: System, ftok: (nat, int) -> int, name: Path, fp: nat, owner: bool, fate: OpenFate,
                     ghost k0: Kernel, ghost h0: SystemVProtocol.Handle, ghost before: seq<Action>)
      returns (key: Option<int>, ghost trace: seq<Action>)
      requires phase == FileOpen(owner, name, fp) && before == KeyTrace(owner, name, fate)[..2]
      requires Exec(ftok, me, k0, h0, before) == Some((sys.k, View()))
      modifies this`phase, sys`k
      ensures Exec(ftok, me, k0, h0, trace) == Some((sys.k, View()))
      ensures key.None? ==> phase.OpenFailed?
      ensures key.Some? ==> phase.KeyKnown? && phase.owner == owner && phase.name == name && phase.key == key.value
      ensures if key.Some? then trace == KeyTrace(owner, name, fate) else trace <= KeyTrace(owner, name, fate)
      ensures sys.k.queues == old(sys.k.queues) && (!owner ==> sys.k == old(sys.k))
      ensures sys.k.keys == old(sys.k.keys) && sys.k.names == old(sys.k.names)
      ensures key.Some? && owner ==> fp in sys.k.inodes && sys.k.inodes[fp].content == Some(ID)
      ensures key == if fate.ftokOk && name in old(sys.k.names) && (owner ==> fate.ioOk && fp in old(sys.k.inodes)) then
                Some(ftok(old(sys.k.names)[name], if owner then ID else ReadBack(old(sys.k), fp, fate))) else None
    {
      hide Exec;
      key, trace := None, before;
      ghost var k, h := sys.k, View();
      var id := ID;
      if owner {
        var written := sys.WriteId(fp, fate.ioOk);
        if !written {
          trace := Note(sys, ftok, k0, h0, trace, k, h, TransferId(fate.ioOk, fate.junk));
          return;
        }
      } else {
        id := sys.ReadId(fp, fate.ioOk, fate.junk);
      }
      trace := Note(sys, ftok, k0, h0, trace, k, h, TransferId(fate.ioOk, fate.junk));
      k, h := sys.k, View();
      if fate.ftokOk && name in sys.k.names {
        key := Some(ftok(sys.k.names[name], id));
      }
      trace := Note(sys, ftok, k0, h0, trace, k, h, MakeKey(fate.ftokOk));
    }

    /** The next part: the owner records the file as its own, and the queue behind the key is looked for. */
    method FindOrCreate(sys: System, ghost ftok: (nat, int) -> int, name: Path, key: int, owner: bool, fate: OpenFate,
                        ghost k0: Kernel, ghost h0: SystemVProtocol.Handle, ghost before: seq<Action>)
      returns (ghost trace: seq<Action>)
      requires phase.KeyKnown? && phase.owner == owner && phase.name == name && phase.key == key && qid.None?
      requires Exec(ftok, me, k0, h0, before) == Some((sys.k, View()))
      modifies this, sys
      ensures Exec(ftok, me, k0, h0, trace) == Some((sys.k, View()))
      ensures phase == if qid.Some? then GotQueue else OpenFailed
      ensures if qid.Some? then trace == before + AttachTrace(owner, fate)[..if owner then 2 else 1]
              else before <= trace <= before + AttachTrace(owner, fate)
      ensures sys.messages == if owner && qid.Some? then old(sys.messages)[qid.value := []] else old(sys.messages)
      ensures (old(sys.Valid()) ==> sys.Valid()) && (!owner ==> sys.k == old(sys.k))
      ensures sys.k.names == old(sys.k.names) && sys.k.inodes == old(sys.k.inodes)
      ensures qid.Some? <==> fate.msggetOk && owner == (key !in old(sys.k.keys)) && (owner ==> fate.strdupOk)
      ensures qid.Some? ==> key in sys.k.keys && qid.value == sys.k.keys[key] && (owner ==> qid.value in sys.k.queues)
    {
      hide Exec;
      trace := before;
      ghost var k, h := sys.k, View();
      if owner {
        if !fate.strdupOk {
          trace := Note(sys, ftok, k0, h0, trace, k, h, Record(false));
          return;
        }
        filename := Some(name);
        trace := Note(sys, ftok, k0, h0, trace, k, h, Record(true));
        k, h := sys.k, View();
        qid := sys.CreateQueue(key, me, fate.msggetOk);
      } else {
        qid := sys.FindQueue(key, fate.msggetOk);
      }
      trace := Note(sys, ftok, k0, h0, trace, k, h, GetQueue(fate.msggetOk));
    }

    /** The last part: the size of the queue, and a buffer for it. */
    method Attach(sys: System, ghost ftok: (nat, int) -> int, finishOk: bool,
                  ghost k0: Kernel, ghost h0: SystemVProtocol.Handle, ghost before: seq<Action>)
      returns (ok: bool, ghost trace: seq<Action>)
      requires phase.GotQueue? && qid.Some?
      requires Exec(ftok, me, k0, h0, before) == Some((sys.k, View()))
      modifies this
      ensures Exec(ftok, me, k0, h0, trace) == Some((sys.k, View()))
      ensures if ok then Ready(sys) && fresh(buffer) else phase.OpenFailed?
      ensures trace == before + [Finish(finishOk)] && qid == old(qid)
      ensures ok <==> finishOk && qid.value in sys.k.queues
      ensures ok ==> 8 * bufferSize <= sys.qbytes < 8 * bufferSize + 8 && buffer.Length == 8 + 8 * bufferSize
    {
      hide Exec;
      trace := Note(sys, ftok, k0, h0, before, sys.k, View(), Finish(finishOk));
      ok := finishOk && qid.value in sys.k.queues;
      if ok {
        bufferSize := sys.qbytes / 8;
        buffer := new char[MTYPE + 8 * bufferSize];
      }
    }

    /**
     `queue_open`: the protocol steps of this handle, in their order, up to the first one that fails; the
     handle ends up open if none does.
     */
    method Open(sys: System, ftok: (nat, int) -> int, name: Path, owner: bool, fate: OpenFate)
      returns (ok: bool, ghost trace: seq<Action>)
      requires phase.Idle? && qid.None?
      modifies this, sys
      ensures Exec(ftok, me, old(sys.k), old(View()), trace) == Some((sys.k, View()))
      ensures if ok then Ready(sys) && fresh(buffer) else phase.OpenFailed?
      ensures if ok then trace == OpenTrace(owner, name, fate) else trace <= OpenTrace(owner, name, fate)
      ensures sys.messages == if owner && qid.Some? then old(sys.messages)[qid.value := []] else old(sys.messages)
      ensures (old(sys.Valid()) ==> sys.Valid()) && (!owner ==> sys.k == old(sys.k))
      ensures ok ==> qid.value in sys.k.queues
      ensures ok <==> if owner then OwnerMayOpen(ftok, old(sys.k), name, fate)
                      else OtherMayOpen(ftok, old(sys.k), name, fate)
      ensures ok ==> 8 * bufferSize <= sys.qbytes < 8 * bufferSize + 8 && buffer.Length == 8 + 8 * bufferSize
      ensures ok && owner ==> Announces(ftok, sys.k, name, qid.value)
      ensures ok && !owner ==>
                qid == Some(sys.k.keys[ftok(sys.k.names[name], ReadBack(sys.k, sys.k.names[name], fate))])
    {
      hide Exec, KeyTrace;
      ghost var k0, h0 := sys.k, View();
      var fp;
      fp, trace := OpenKeyFile(sys, ftok, name, owner, fate);
      if fp.None? {
        return false, trace;
      }
      var key;
      key, trace := DeriveKey(sys, ftok, name, fp.value, owner, fate, k0, h0, trace);
      if key.None? {
        return false, trace;
      }
      trace := FindOrCreate(sys, ftok, name, key.value, owner, fate, k0, h0, trace);
      if qid.None? {
        return false, trace;
      }
      assert AttachTrace(owner, fate)[..if owner then 2 else 1] + [Finish(fate.finishOk)] == AttachTrace(owner, fate);
      ok, trace := Attach(sys, ftok, fate.finishOk, k0, h0, trace);
    }

    /** The first part of `queue_close` for an owner: its queue. */
    method RemoveOwnQueue(sys: System, ghost ftok: (nat, int) -> int, rmidOk: bool,
                          ghost k0: Kernel, ghost h0: SystemVProtocol.Handle, ghost before: seq<Action>)
      returns (ok: bool, ghost trace: seq<Action>)
      requires phase.Closing? && filename.Some? && qid.Some?
      requires Exec(ftok, me, k0, h0, before) == Some((sys.k, View()))
      modifies this`phase, this`qid, sys
      ensures Exec(ftok, me, k0, h0, trace) == Some((sys.k, View()))
      ensures ok <==> rmidOk && old(qid).value in old(sys.k.queues)
      ensures if ok then phase.Closing? && qid.None? else phase.CloseFailed? && qid == old(qid)
      ensures trace == before + [Rmid(rmidOk)]
      ensures sys.k == Without(old(sys.k), if ok then old(qid) else None, None)
      ensures sys.messages == if ok then old(sys.messages) - {old(qid).value} else old(sys.messages)
      ensures old(sys.Valid()) ==> sys.Valid()
    {
      hide Exec;
      ghost var k, h := sys.k, View();
      ok := sys.RemoveQueue(qid.value, rmidOk);
      if ok {
        qid := None;
      }
      trace := Note(sys, ftok, k0, h0, before, k, h, Rmid(rmidOk));
    }

    /** The next part for an owner: its key file. */
    method RemoveOwnFile(sys: System, ghost ftok: (nat, int) -> int, unlinkOk: bool,
                         ghost k0: Kernel, ghost h0: SystemVProtocol.Handle, ghost before: seq<Action>)
      returns (ok: bool, ghost trace: seq<Action>)
      requires phase.Closing? && filename.Some? && qid.None?
      requires Exec(ftok, me, k0, h0, before) == Some((sys.k, View()))
      modifies this`phase, this`filename, sys`k
      ensures Exec(ftok, me, k0, h0, trace) == Some((sys.k, View()))
      ensures ok <==> unlinkOk && old(filename).value in old(sys.k.names)
      ensures if ok then phase.Closing? && filename.None? else phase.CloseFailed? && filename == old(filename)
      ensures trace == before + [Unlink(unlinkOk)]
      ensures sys.k == Without(old(sys.k), None, if ok then old(filename) else None)
    {
      hide Exec;
      ghost var k, h := sys.k, View();
      ok := sys.RemoveFile(filename.value, unlinkOk);
      if ok {
        filename := None;
      }
      trace := Note(sys, ftok, k0, h0, before, k, h, Unlink(unlinkOk));
    }

    /** Both parts, as far as they are needed. */
    method RemoveOwn(sys: System, ghost ftok: (nat, int) -> int, rmidOk: bool, unlinkOk: bool,
                     ghost k0: Kernel, ghost h0: SystemVProtocol.Handle, ghost before: seq<Action>)
      returns (ok: bool, ghost trace: seq<Action>)
      requires phase.Closing? && filename.Some?
      requires Exec(ftok, me, k0, h0, before) == Some((sys.k, View()))
      modifies this`phase, this`qid, this`filename, sys
      ensures Exec(ftok, me, k0, h0, trace) == Some((sys.k, View()))
      ensures if ok then phase.Closing? && filename.None? else phase.CloseFailed?
      ensures var acts := (if old(qid).Some? then [Rmid(rmidOk)] else []) + [Unlink(unlinkOk)];
              if ok then trace == before + acts else trace <= before + acts
      ensures old(sys.Valid()) ==> sys.Valid()
      ensures qid == (if Removes(old(View()), old(sys.k), rmidOk) then None else old(qid))
      ensures filename == (if ok then None else old(filename))
      ensures sys.k == Without(old(sys.k), if Removes(old(View()), old(sys.k), rmidOk) then old(qid) else None,
                               if ok then old(filename) else None)
      ensures sys.messages == if Removes(old(View()), old(sys.k), rmidOk) then old(sys.messages) - {old(qid).value}
                              else old(sys.messages)
      ensures ok <==> && (old(qid).Some? ==> rmidOk && old(qid).value in old(sys.k.queues))
                      && unlinkOk && old(filename).value in old(sys.k.names)
    {
      hide Exec;
      trace := before;
      if qid.Some? {
        ok, trace := RemoveOwnQueue(sys, ftok, rmidOk, k0, h0, trace);
        if !ok {
          return;
        }
      }
      ok, trace := RemoveOwnFile(sys, ftok, unlinkOk, k0, h0, trace);
    }

    /** The body of `queue_close` for a handle: it succeeds iff each call it needs does, and resumes where it failed. */
    method Release(sys: System, ghost ftok: (nat, int) -> int, rmidOk: bool, unlinkOk: bool)
      returns (ok: bool, ghost trace: seq<Action>)
      requires AtRest(phase)
      modifies this, sys
      ensures Exec(ftok, me, old(sys.k), old(View()), trace) == Some((sys.k, View()))
      ensures if ok then phase.Freed? else phase.CloseFailed?
      ensures if ok then trace == CloseTrace(old(View()), rmidOk, unlinkOk) + [Free]
              else trace <= CloseTrace(old(View()), rmidOk, unlinkOk)
      ensures old(sys.Valid()) ==> sys.Valid()
      ensures qid == (if Removes(old(View()), old(sys.k), rmidOk) then None else old(qid))
      ensures filename == (if ok then None else old(filename))
      ensures sys.k == Without(old(sys.k), if Removes(old(View()), old(sys.k), rmidOk) then old(qid) else None,
                               if ok then old(filename) else None)
      ensures sys.messages == if Removes(old(View()), old(sys.k), rmidOk) then old(sys.messages) - {old(qid).value}
                              else old(sys.messages)
      ensures ok <==> (old(filename).Some? ==>
                         && (old(qid).Some? ==> rmidOk && old(qid).value in old(sys.k.queues))
                         && unlinkOk && old(filename).value in old(sys.k.names))
    {
      hide Exec;
      ghost var k0, h0 := sys.k, View();
      ExecNothing(ftok, me, k0, h0);
      trace := Note(sys, ftok, k0, h0, [], k0, h0, BeginClose);
      if filename.Some? {
        ok, trace := RemoveOwn(sys, ftok, rmidOk, unlinkOk, k0, h0, trace);
        if !ok {
          return;
        }
      }
      buffer := null;
      trace := Note(sys, ftok, k0, h0, trace, sys.k, View(), Free);
      ok := true;
    }

    /** `queue_close(&p)`: the pointer becomes NULL exactly when the call succeeds. */
    static method Close(p: Handle?, sys: System, ghost ftok: (nat, int) -> int, rmidOk: bool, unlinkOk: bool)
      returns (p': Handle?, ok: bool, ghost trace: seq<Action>)
      requires p != null ==> AtRest(p.phase)
      modifies p, sys
      ensures ok <==> p' == null
      ensures !ok ==> p' == p && p.phase.CloseFailed?
      ensures p != null && ok ==> p.phase.Freed?
      ensures p != null ==> Exec(ftok, p.me, old(sys.k), old(p.View()), trace) == Some((sys.k, p.View()))
      ensures p != null ==> if ok then trace == CloseTrace(old(p.View()), rmidOk, unlinkOk) + [Free]
                            else trace <= CloseTrace(old(p.View()), rmidOk, unlinkOk)
      ensures p == null ==> ok && sys.k == old(sys.k) && sys.messages == old(sys.messages)
      ensures p != null ==>
                var gone := Removes(old(p.View()), old(sys.k), rmidOk);
                && p.qid == (if gone then None else old(p.qid)) && p.filename == (if ok then None else old(p.filename))
                && sys.k == Without(old(sys.k), if gone then old(p.qid) else None, if ok then old(p.filename) else None)
                && sys.messages == if gone then old(sys.messages) - {old(p.qid).value} else old(sys.messages)
      ensures p != null ==>
                (ok <==> (old(p.filename).Some? ==>
                            && (old(p.qid).Some? ==> rmidOk && old(p.qid).value in old(sys.k.queues))
                            && unlinkOk && old(p.filename).value in old(sys.k.names)))
      ensures old(sys.Valid()) ==> sys.Valid()
    {
      p', ok, trace := p, true, [];
      if p != null {
        ok, trace := p.Release(sys, ftok, rmidOk, unlinkOk);
        if ok {
          p' := null;
        }
      }
    }

    // ---- messages ----

    /** `queue_get_attribute`: both sizes are `msg_qbytes`. */
    method GetMaxMessageSize(sys: System, ok: bool) returns (value: Option<nat>)
      requires qid.Some?
      ensures value == if ok && qid.value in sys.k.queues then Some(sys.qbytes) else None
    {
      if ok && qid.value in sys.k.queues { value := Some(sys.qbytes); } else { value := None; }
    }

    /** `queue_send`.  That the text fits the buffer is left to the caller, and the length it passes is not used. */
    method Send(sys: System, msg: seq<char>, len: int, ok: bool, error: Cell) returns (sent: bool)
      requires Ready(sys) && NUL in msg && |CText(msg)| < TextRoom(sys.qbytes) && !error.slot.Crashed?
      modifies buffer, sys`messages, error
      ensures buffer[MTYPE..] == Filled(old(buffer[MTYPE..]), CText(msg))
      ensures sent <==> ok && qid.value in old(sys.messages)
      ensures sys.messages == if !sent then old(sys.messages) else
                old(sys.messages)[qid.value := old(sys.messages)[qid.value]
                                              + [Encode(SystemV(sys.qbytes), old(buffer[MTYPE..]), CText(msg))]]
      ensures sent ==>
                var ms := sys.messages[qid.value];
                8 * |ms[|ms| - 1]| <= sys.qbytes < 8 * |ms[|ms| - 1]| + 8
      ensures error.slot == if sent then old(error.slot) else old(error.slot).Put(SendFailed)
    {
      Strcpy(buffer, MTYPE, msg);
      sent := ok && qid.value in sys.messages;
      if sent {
        sys.messages := sys.messages[qid.value := sys.messages[qid.value] + [buffer[MTYPE..MTYPE + bufferSize]]];
        assert buffer[MTYPE..MTYPE + bufferSize] == buffer[MTYPE..][..bufferSize];
      } else {
        error.Set(SendFailed);
      }
    }

    /** `msgrcv`: the first message is taken out of the queue and copied behind `mtype`. */
    method TakeFirst(sys: System) returns (m: seq<char>)
      requires Ready(sys) && qid.value in sys.messages && sys.messages[qid.value] != []
      requires |sys.messages[qid.value][0]| <= TextRoom(sys.qbytes)
      modifies buffer, sys`messages
      ensures m == old(sys.messages)[qid.value][0]
      ensures buffer[MTYPE..] == Overlaid(old(buffer[MTYPE..]), m)
      ensures sys.messages == old(sys.messages)[qid.value := old(sys.messages)[qid.value][1..]]
    {
      m := sys.messages[qid.value][0];
      sys.messages := sys.messages[qid.value := sys.messages[qid.value][1..]];
      forall i | 0 <= i < |m| { buffer[MTYPE + i] := m[i]; }
    }

    /** `queue_receive`: if it succeeds, there is a message to receive, of which the code checks nothing. */
    method Receive(sys: System, out: array<char>, ok: bool, error: Cell) returns (read: int)
      requires Ready(sys) && out != buffer && out.Length == DaemonRoom(SystemV(sys.qbytes)) && !error.slot.Crashed?
      requires ok ==> qid.value in sys.messages && sys.messages[qid.value] != []
                      && Receivable(SystemV(sys.qbytes), buffer[MTYPE..], sys.messages[qid.value][0])
      modifies buffer, out, sys`messages, error
      ensures if ok then
                var b, m := SystemV(sys.qbytes), old(sys.messages)[qid.value][0];
                && read == |m|
                && buffer[MTYPE..] == ReceivedInto(b, old(buffer[MTYPE..]), m)
                && out[..] == HandedOver(b, old(buffer[MTYPE..]), old(out[..]), m)
                && sys.messages == old(sys.messages)[qid.value := old(sys.messages)[qid.value][1..]]
                && error.slot == old(error.slot)
              else
                && read == -1 && sys.messages == old(sys.messages)
                && buffer[..] == old(buffer[..]) && out[..] == old(out[..])
                && error.slot == old(error.slot).Put(ReceiveFailed)
    {
      if !ok {
        error.Set(ReceiveFailed);
        return -1;
      }
      var m := TakeFirst(sys);
      assert out[0..] == out[..];
      Strcpy(out, 0, buffer[MTYPE..]);
      assert out[0..] == out[..];
      read := |m|;
    }
  }
}
