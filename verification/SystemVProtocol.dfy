/**
 The System V backend (queues/systemv.c) as a protocol: many handles, owners and senders, whose calls to
 `queue_open` and `queue_close` are broken at every system call so that they interleave, and every
 system call may fail.
 */
module SystemVProtocol {
  import opened ErrorSlot

  type Path = string

  /** The identifier an owner whose name has no colon writes into the key file. */
  const ID: int := 98
  const MAXPATHLEN: nat := 1024

  /** A file: who created it, and the identifier in it once that is fully written. */
  datatype Inode = Inode(creator: nat, content: Option<int>)

  datatype Queue = Queue(key: int, creator: nat)

  /** `keys` finds a live queue by its key, as `msgget` does. */
  datatype Kernel = Kernel(
    names: map<Path, nat>, inodes: map<nat, Inode>, nextInode: nat,
    keys: map<int, nat>, queues: map<nat, Queue>, nextQid: nat)

  const BOOT := Kernel(map[], map[], 0, map[], map[], 0)

  /**
   Where a handle is in its calls, with the locals of `queue_open`.  `genuine` records that a sender read
   its identifier from a fully written file.
   */
  datatype Phase =
    | Idle
    | Named(owner: bool, name: Path)
    | FileOpen(owner: bool, name: Path, inode: nat)
    | IdKnown(owner: bool, name: Path, id: int, genuine: bool)
    | KeyKnown(owner: bool, name: Path, inode: nat, key: int, genuine: bool)
    | Recorded(name: Path, key: int)
    | GotQueue
    | Open
    | OpenFailed
    | Closing
    | CloseFailed
    | Freed
    | Dead

  datatype Handle = Handle(phase: Phase, qid: Option<nat>, filename: Option<Path>)

  /** One system call, or the start of a library call.  `ok` is false when the call fails for a reason of its own. */
  datatype Action =
    | StartOpen(owner: bool, name: Path)
    | OpenFile(ok: bool)
    | TransferId(ok: bool, junk: int)
    | MakeKey(ok: bool)
    | Record(ok: bool)
    | GetQueue(ok: bool)
    | Finish(ok: bool)
    | BeginClose
    | Rmid(ok: bool)
    | Unlink(ok: bool)
    | Free
    | Crash

  predicate CanDo(h: Handle, a: Action) {
    match a
    case StartOpen(_, _) => h.phase.Idle?
    case OpenFile(_) => h.phase.Named?
    case TransferId(_, _) => h.phase.FileOpen?
    case MakeKey(_) => h.phase.IdKnown?
    case Record(_) => h.phase.KeyKnown? && h.phase.owner
    case GetQueue(_) => (h.phase.KeyKnown? && !h.phase.owner) || h.phase.Recorded?
    case Finish(_) => h.phase.GotQueue? && h.qid.Some?
    case BeginClose => h.phase.Idle? || h.phase.Open? || h.phase.OpenFailed? || h.phase.CloseFailed?
    case Rmid(_) => h.phase.Closing? && h.filename.Some? && h.qid.Some?
    case Unlink(_) => h.phase.Closing? && h.filename.Some? && h.qid.None?
    case Free => h.phase.Closing? && h.filename.None?
    case Crash => !h.phase.Freed? && !h.phase.Dead?
  }

  /**
   The effect of an action of handle `me` on the kernel and on the handle.  `ftok` is any function of the
   file and the identifier, so that two files may share a key.
   */
  function Do(ftok: (nat, int) -> int, me: nat, k: Kernel, h: Handle, a: Action): (Kernel, Handle)
    requires CanDo(h, a)
  {
    match a
    case StartOpen(owner, name) =>
      (k, h.(phase := if |name| < MAXPATHLEN then Named(owner, name) else OpenFailed))
    case OpenFile(ok) => DoOpenFile(me, k, h, ok)
    case TransferId(ok, junk) => DoTransferId(k, h, ok, junk)
    case MakeKey(ok) =>
      var p := h.phase;
      if ok && p.name in k.names then
        (k, h.(phase := KeyKnown(p.owner, p.name, k.names[p.name], ftok(k.names[p.name], p.id), p.genuine)))
      else (k, h.(phase := OpenFailed))
    case Record(ok) =>
      if ok then (k, h.(phase := Recorded(h.phase.name, h.phase.key), filename := Some(h.phase.name)))
      else (k, h.(phase := OpenFailed))
    case GetQueue(ok) => DoGetQueue(me, k, h, ok)
    case Finish(ok) => (k, h.(phase := if ok && h.qid.value in k.queues then Open else OpenFailed))
    case BeginClose => (k, h.(phase := Closing))
    case Rmid(ok) =>
      var q := h.qid.value;
      if ok && q in k.queues then
        (k.(keys := k.keys - {k.queues[q].key}, queues := k.queues - {q}), h.(qid := None))
      else (k, h.(phase := CloseFailed))
    case Unlink(ok) =>
      var n := h.filename.value;
      if ok && n in k.names then (k.(names := k.names - {n}), h.(filename := None))
      else (k, h.(phase := CloseFailed))
    case Free => (k, h.(phase := Freed))
    case Crash => (k, h.(phase := Dead))
  }

  /** `fopen(filename, "wx")` creates the file or fails; `fopen(filename, "r")` wants it to exist. */
  function DoOpenFile(me: nat, k: Kernel, h: Handle, ok: bool): (Kernel, Handle)
    requires h.phase.Named?
  {
    var Named(owner, name) := h.phase;
    if !ok || owner == (name in k.names) then (k, h.(phase := OpenFailed))
    else if owner then
      var i := k.nextInode;
      (k.(names := k.names[name := i], inodes := k.inodes[i := Inode(me, None)], nextInode := i + 1),
       h.(phase := FileOpen(true, name, i)))
    else (k, h.(phase := FileOpen(false, name, k.names[name])))
  }

  /** `fwrite` for an owner, `fread` for the others: the test on the result of `fread` never fires. */
  function DoTransferId(k: Kernel, h: Handle, ok: bool, junk: int): (Kernel, Handle)
    requires h.phase.FileOpen?
  {
    var FileOpen(owner, name, i) := h.phase;
    if !owner then
      if ok && i in k.inodes && k.inodes[i].content.Some? then
        (k, h.(phase := IdKnown(false, name, k.inodes[i].content.value, true)))
      else (k, h.(phase := IdKnown(false, name, junk, false)))
    else if ok && i in k.inodes then
      (k.(inodes := k.inodes[i := k.inodes[i].(content := Some(ID))]), h.(phase := IdKnown(true, name, ID, true)))
    else (k, h.(phase := OpenFailed))
  }

  /** `msgget`: exclusive creation for an owner, look-up for the others. */
  function DoGetQueue(me: nat, k: Kernel, h: Handle, ok: bool): (Kernel, Handle)
    requires h.phase.KeyKnown? || h.phase.Recorded?
  {
    var key := h.phase.key;
    if !ok || h.phase.Recorded? == (key in k.keys) then (k, h.(phase := OpenFailed))
    else if h.phase.Recorded? then
      var q := k.nextQid;
      (k.(keys := k.keys[key := q], queues := k.queues[q := Queue(key, me)], nextQid := q + 1),
       h.(phase := GotQueue, qid := Some(q)))
    else (k, h.(phase := GotQueue, qid := Some(k.keys[key])))
  }

  /** A sequence of actions by one handle, if each of them is possible in turn. */
  function Exec(ftok: (nat, int) -> int, me: nat, k: Kernel, h: Handle, acts: seq<Action>): Option<(Kernel, Handle)> {
    if acts == [] then Some((k, h))
    else
      match Exec(ftok, me, k, h, acts[..|acts| - 1])
      case None => None
      case Some((k', h')) =>
        if CanDo(h', acts[|acts| - 1]) then Some(Do(ftok, me, k', h', acts[|acts| - 1])) else None
  }

  lemma ExecNext(ftok: (nat, int) -> int, me: nat, k: Kernel, h: Handle, acts: seq<Action>, a: Action,
                 k': Kernel, h': Handle)
    requires Exec(ftok, me, k, h, acts) == Some((k', h')) && CanDo(h', a)
    ensures Exec(ftok, me, k, h, acts + [a]) == Some(Do(ftok, me, k', h', a))
  {
    assert (acts + [a])[..|acts|] == acts;
  }

  lemma ExecNothing(ftok: (nat, int) -> int, me: nat, k: Kernel, h: Handle)
    ensures Exec(ftok, me, k, h, []) == Some((k, h))
  {
  }

  // ---- whole calls ----

  /** Which of the calls in `queue_open` the system lets through. */
  datatype OpenFate = OpenFate(
    fopenOk: bool, ioOk: bool, junk: int, ftokOk: bool, strdupOk: bool, msggetOk: bool, finishOk: bool)

  /** The calls `queue_open` makes when none of them fails, in their order. */
  function OpenTrace(owner: bool, name: Path, fate: OpenFate): seq<Action> {
    KeyTrace(owner, name, fate) + AttachTrace(owner, fate)
  }

  function KeyTrace(owner: bool, name: Path, fate: OpenFate): (r: seq<Action>)
    ensures |r| == 4
  {
    [StartOpen(owner, name), OpenFile(fate.fopenOk), TransferId(fate.ioOk, fate.junk), MakeKey(fate.ftokOk)]
  }

  function AttachTrace(owner: bool, fate: OpenFate): seq<Action> {
    (if owner then [Record(fate.strdupOk)] else []) + [GetQueue(fate.msggetOk), Finish(fate.finishOk)]
  }

  /** The calls that `queue_close` makes for a handle before it frees the memory, if none of them fails. */
  function CloseTrace(h: Handle, rmidOk: bool, unlinkOk: bool): seq<Action> {
    [BeginClose] + (if h.filename.Some? && h.qid.Some? then [Rmid(rmidOk)] else [])
    + if h.filename.Some? then [Unlink(unlinkOk)] else []
  }

  /** The kernel without a queue and its key, and without a name. */
  function Without(k: Kernel, qid: Option<nat>, name: Option<Path>): Kernel {
    var k' := if qid.Some? && qid.value in k.queues then
                k.(keys := k.keys - {k.queues[qid.value].key}, queues := k.queues - {qid.value})
              else k;
    if name.Some? then k'.(names := k'.names - {name.value}) else k'
  }

  /** A close of this handle gets through `IPC_RMID`. */
  predicate Removes(h: Handle, k: Kernel, rmidOk: bool) {
    h.filename.Some? && h.qid.Some? && rmidOk && h.qid.value in k.queues
  }

  /** Between calls: the caller may start another one on this handle. */
  predicate AtRest(p: Phase) {
    p.Idle? || p.Open? || p.OpenFailed? || p.CloseFailed?
  }

  /** An owner's `queue_open` succeeds: the name is free, no queue has the key of the new file, and no call fails. */
  predicate OwnerMayOpen(ftok: (nat, int) -> int, k: Kernel, name: Path, fate: OpenFate) {
    && |name| < MAXPATHLEN && name !in k.names && ftok(k.nextInode, ID) !in k.keys
    && fate.fopenOk && fate.ioOk && fate.ftokOk && fate.strdupOk && fate.msggetOk && fate.finishOk
  }

  /** The identifier that a handle which does not own the file ends up with. */
  function ReadBack(k: Kernel, inode: nat, fate: OpenFate): int {
    if fate.ioOk && inode in k.inodes && k.inodes[inode].content.Some? then k.inodes[inode].content.value else fate.junk
  }

  /** Another handle's `queue_open` succeeds: there is a queue behind the key it derives, and no call fails. */
  predicate OtherMayOpen(ftok: (nat, int) -> int, k: Kernel, name: Path, fate: OpenFate) {
    && |name| < MAXPATHLEN && name in k.names && fate.fopenOk && fate.ftokOk && fate.msggetOk && fate.finishOk
    && (var key := ftok(k.names[name], ReadBack(k, k.names[name], fate));
        key in k.keys && k.keys[key] in k.queues)
  }

  /** Whoever reads the key file at `name` finds the queue `q`. */
  predicate Announces(ftok: (nat, int) -> int, k: Kernel, name: Path, q: nat) {
    && |name| < MAXPATHLEN && name in k.names && k.names[name] in k.inodes
    && k.inodes[k.names[name]].content == Some('b' as int)
    && ftok(k.names[name], 'b' as int) in k.keys && k.keys[ftok(k.names[name], 'b' as int)] == q && q in k.queues
  }

  const ALL_OK := OpenFate(true, true, 0, true, true, true, true)

  const FRESH := Handle(Idle, None, None)

  /** The kernel after an owner has opened `name`. */
  function WithOwner(ftok: (nat, int) -> int, me: nat, k: Kernel, name: Path): Kernel {
    var i, q, key := k.nextInode, k.nextQid, ftok(k.nextInode, ID);
    Kernel(k.names[name := i], k.inodes[i := Inode(me, Some(ID))], i + 1,
           k.keys[key := q], k.queues[q := Queue(key, me)], q + 1)
  }

  /** One more action of a fixed sequence. */
  lemma ExecStep(ftok: (nat, int) -> int, me: nat, k0: Kernel, h0: Handle, acts: seq<Action>, n: nat,
                 k: Kernel, h: Handle, k': Kernel, h': Handle)
    requires n < |acts| && Exec(ftok, me, k0, h0, acts[..n]) == Some((k, h))
    requires CanDo(h, acts[n]) && Do(ftok, me, k, h, acts[n]) == (k', h')
    ensures Exec(ftok, me, k0, h0, acts[..n + 1]) == Some((k', h'))
  {
    assert acts[..n + 1][..n] == acts[..n];
  }

  lemma OwnerGetsKey(ftok: (nat, int) -> int, me: nat, k: Kernel, name: Path)
    requires |name| < MAXPATHLEN && name !in k.names
    ensures var i := k.nextInode;
            Exec(ftok, me, k, FRESH, OpenTrace(true, name, ALL_OK)[..4])
            == Some((k.(names := k.names[name := i], inodes := k.inodes[i := Inode(me, Some(ID))], nextInode := i + 1),
                     FRESH.(phase := KeyKnown(true, name, i, ftok(i, ID), true))))
  {
    hide Exec;
    var acts, i := OpenTrace(true, name, ALL_OK), k.nextInode;
    var h1, h2 := FRESH.(phase := Named(true, name)), FRESH.(phase := FileOpen(true, name, i));
    var h3 := FRESH.(phase := IdKnown(true, name, ID, true));
    var k2 := k.(names := k.names[name := i], inodes := k.inodes[i := Inode(me, None)], nextInode := i + 1);
    var k3 := k2.(inodes := k.inodes[i := Inode(me, Some(ID))]);
    assert k2.inodes[i := Inode(me, Some(ID))] == k3.inodes;
    ExecNothing(ftok, me, k, FRESH);
    assert acts[..0] == [];
    ExecStep(ftok, me, k, FRESH, acts, 0, k, FRESH, k, h1);
    ExecStep(ftok, me, k, FRESH, acts, 1, k, h1, k2, h2);
    ExecStep(ftok, me, k, FRESH, acts, 2, k2, h2, k3, h3);
    ExecStep(ftok, me, k, FRESH, acts, 3, k3, h3, k3, FRESH.(phase := KeyKnown(true, name, i, ftok(i, ID), true)));
  }

  /** If the name is free and no queue has the key of the new file, an owner whose calls all succeed gets its queue. */
  lemma OwnerOpens(ftok: (nat, int) -> int, me: nat, k: Kernel, name: Path)
    requires |name| < MAXPATHLEN && name !in k.names && ftok(k.nextInode, ID) !in k.keys
    ensures Exec(ftok, me, k, FRESH, OpenTrace(true, name, ALL_OK))
         == Some((WithOwner(ftok, me, k, name), Handle(Open, Some(k.nextQid), Some(name))))
  {
    hide Exec;
    OwnerGetsKey(ftok, me, k, name);
    var acts, i, q, key := OpenTrace(true, name, ALL_OK), k.nextInode, k.nextQid, ftok(k.nextInode, ID);
    var k4 := k.(names := k.names[name := i], inodes := k.inodes[i := Inode(me, Some(ID))], nextInode := i + 1);
    var k6 := WithOwner(ftok, me, k, name);
    var h5, h6 := Handle(Recorded(name, key), None, Some(name)), Handle(GotQueue, Some(q), Some(name));
    ExecStep(ftok, me, k, FRESH, acts, 4, k4, FRESH.(phase := KeyKnown(true, name, i, key, true)), k4, h5);
    ExecStep(ftok, me, k, FRESH, acts, 5, k4, h5, k6, h6);
    ExecStep(ftok, me, k, FRESH, acts, 6, k6, h6, k6, h6.(phase := Open));
    assert acts[..7] == acts;
  }

  /** A handle that then opens the name without owning it gets that same queue. */
  lemma SenderOpensOwned(ftok: (nat, int) -> int, me: nat, k: Kernel, name: Path, sender: nat)
    requires |name| < MAXPATHLEN && name !in k.names && ftok(k.nextInode, ID) !in k.keys
    ensures var k1 := WithOwner(ftok, me, k, name);
            Exec(ftok, sender, k1, FRESH, OpenTrace(false, name, ALL_OK))
            == Some((k1, Handle(Open, Some(k.nextQid), None)))
  {
    hide Exec;
    var acts, k1 := OpenTrace(false, name, ALL_OK), WithOwner(ftok, me, k, name);
    var h1, h2 := FRESH.(phase := Named(false, name)), FRESH.(phase := FileOpen(false, name, k.nextInode));
    var h3 := FRESH.(phase := IdKnown(false, name, ID, true));
    var h4 := FRESH.(phase := KeyKnown(false, name, k.nextInode, ftok(k.nextInode, ID), true));
    var h5 := Handle(GotQueue, Some(k.nextQid), None);
    ExecNothing(ftok, sender, k1, FRESH);
    assert acts[..0] == [];
    ExecStep(ftok, sender, k1, FRESH, acts, 0, k1, FRESH, k1, h1);
    ExecStep(ftok, sender, k1, FRESH, acts, 1, k1, h1, k1, h2);
    ExecStep(ftok, sender, k1, FRESH, acts, 2, k1, h2, k1, h3);
    ExecStep(ftok, sender, k1, FRESH, acts, 3, k1, h3, k1, h4);
    ExecStep(ftok, sender, k1, FRESH, acts, 4, k1, h4, k1, h5);
    ExecStep(ftok, sender, k1, FRESH, acts, 5, k1, h5, k1, h5.(phase := Open));
    assert acts[..6] == acts;
  }

  /** Closing undoes opening: the names, the keys and the queues are what they were. */
  lemma CloseUndoesOpen(ftok: (nat, int) -> int, me: nat, k: Kernel, name: Path)
    requires name !in k.names && ftok(k.nextInode, ID) !in k.keys && k.nextQid !in k.queues
    ensures var k1 := WithOwner(ftok, me, k, name);
            Exec(ftok, me, k1, Handle(Open, Some(k.nextQid), Some(name)), [BeginClose, Rmid(true), Unlink(true), Free])
            == Some((k1.(names := k.names, keys := k.keys, queues := k.queues), Handle(Freed, None, None)))
  {
    hide Exec;
    var acts: seq<Action> := [BeginClose, Rmid(true), Unlink(true), Free];
    var k1, h0 := WithOwner(ftok, me, k, name), Handle(Open, Some(k.nextQid), Some(name));
    var k2 := k1.(keys := k.keys, queues := k.queues);
    assert k1.keys - {ftok(k.nextInode, ID)} == k.keys && k1.queues - {k.nextQid} == k.queues;
    assert k1.names - {name} == k.names;
    ExecNothing(ftok, me, k1, h0);
    assert acts[..0] == [];
    ExecStep(ftok, me, k1, h0, acts, 0, k1, h0, k1, h0.(phase := Closing));
    ExecStep(ftok, me, k1, h0, acts, 1, k1, h0.(phase := Closing), k2, Handle(Closing, None, Some(name)));
    ExecStep(ftok, me, k1, h0, acts, 2, k2, Handle(Closing, None, Some(name)),
             k2.(names := k.names), Handle(Closing, None, None));
    ExecStep(ftok, me, k1, h0, acts, 3, k2.(names := k.names), Handle(Closing, None, None),
             k2.(names := k.names), Handle(Freed, None, None));
    assert acts[..4] == acts;
  }

  // ---- runs ----

  datatype State = State(k: Kernel, handles: map<nat, Handle>)

  datatype Event = Create(who: nat) | Act(who: nat, a: Action)

  predicate CanStep(s: State, ev: Event) {
    match ev
    case Create(who) => who !in s.handles
    case Act(who, a) => who in s.handles && CanDo(s.handles[who], a)
  }

  function Step(ftok: (nat, int) -> int, s: State, ev: Event): State
    requires CanStep(s, ev)
  {
    match ev
    case Create(who) => s.(handles := s.handles[who := FRESH])
    case Act(who, a) =>
      var (k, h) := Do(ftok, who, s.k, s.handles[who], a);
      State(k, s.handles[who := h])
  }

  /** The state after a run, if each event of it was possible. */
  function Run(ftok: (nat, int) -> int, evs: seq<Event>): Option<State> {
    if evs == [] then Some(State(BOOT, map[]))
    else
      match Run(ftok, evs[..|evs| - 1])
      case None => None
      case Some(s) => if CanStep(s, evs[|evs| - 1]) then Some(Step(ftok, s, evs[|evs| - 1])) else None
  }

  function ActsOf(me: nat, acts: seq<Action>): (evs: seq<Event>)
    ensures |evs| == |acts|
  {
    seq(|acts|, i requires 0 <= i < |acts| => Act(me, acts[i]))
  }

  /** A call of the library, made from a state that a run has reached, continues that run. */
  lemma {:induction false} CallContinuesRun(ftok: (nat, int) -> int, evs: seq<Event>, me: nat, acts: seq<Action>)
    requires Run(ftok, evs).Some? && me in Run(ftok, evs).value.handles
    requires var s := Run(ftok, evs).value; Exec(ftok, me, s.k, s.handles[me], acts).Some?
    ensures var s := Run(ftok, evs).value;
            var (k, h) := Exec(ftok, me, s.k, s.handles[me], acts).value;
            Run(ftok, evs + ActsOf(me, acts)) == Some(State(k, s.handles[me := h]))
  {
    hide Do, CanDo;
    var s := Run(ftok, evs).value;
    if acts == [] {
      assert evs + ActsOf(me, acts) == evs;
      assert s.handles[me := s.handles[me]] == s.handles;
    } else {
      var before, a := acts[..|acts| - 1], acts[|acts| - 1];
      CallContinuesRun(ftok, evs, me, before);
      var (k', h') := Exec(ftok, me, s.k, s.handles[me], before).value;
      var all := evs + ActsOf(me, acts);
      assert all[..|all| - 1] == evs + ActsOf(me, before) && all[|all| - 1] == Act(me, a);
      var (k, h) := Do(ftok, me, k', h', a);
      assert s.handles[me := h'][me := h] == s.handles[me := h];
    }
  }

  // ---- the invariant ----

  /** The file at `name` is one that handle `me` created. */
  ghost predicate OwnsFile(k: Kernel, me: nat, name: Path) {
    name in k.names && k.names[name] in k.inodes && k.inodes[k.names[name]].creator == me
  }

  /** ... and it is the fully written key file from which `key` derives. */
  ghost predicate OwnsKeyFile(ftok: (nat, int) -> int, k: Kernel, me: nat, name: Path, key: int) {
    OwnsFile(k, me, name) && k.inodes[k.names[name]].content == Some(ID) && key == ftok(k.names[name], ID)
  }

  ghost predicate OwnsQueue(k: Kernel, me: nat, q: nat) {
    q in k.queues && k.queues[q].creator == me
  }

  ghost predicate CreatedNothing(k: Kernel, me: nat) {
    forall i :: i in k.inodes ==> k.inodes[i].creator != me
  }

  ghost predicate PhaseOk(ftok: (nat, int) -> int, k: Kernel, me: nat, h: Handle) {
    match h.phase
    case Idle => CreatedNothing(k, me) && h.filename.None? && h.qid.None?
    case Named(_, _) => CreatedNothing(k, me) && h.filename.None? && h.qid.None?
    case FileOpen(owner, name, i) =>
      h.filename.None? && h.qid.None? && (owner ==> OwnsFile(k, me, name) && k.names[name] == i)
    case IdKnown(owner, name, id, genuine) =>
      && h.filename.None? && h.qid.None? && (genuine ==> id == ID)
      && (owner ==> genuine && OwnsFile(k, me, name) && k.inodes[k.names[name]].content == Some(ID))
    case KeyKnown(owner, name, i, key, genuine) =>
      && h.filename.None? && h.qid.None? && (genuine ==> key == ftok(i, ID))
      && (owner ==> OwnsKeyFile(ftok, k, me, name, key))
    case Recorded(name, key) =>
      h.filename == Some(name) && h.qid.None? && OwnsKeyFile(ftok, k, me, name, key)
    case Freed => h.filename.None?
    case _ => true
  }

  ghost predicate HandleOk(ftok: (nat, int) -> int, k: Kernel, me: nat, h: Handle) {
    && (h.filename.Some? ==> OwnsFile(k, me, h.filename.value))
    && (h.filename.Some? && h.qid.Some? ==> OwnsQueue(k, me, h.qid.value))
    && PhaseOk(ftok, k, me, h)
  }

  /** A live queue belongs to a handle that holds it and still has the key file its key derives from. */
  ghost predicate QueueOk(ftok: (nat, int) -> int, s: State, q: nat)
    requires q in s.k.queues
  {
    var rec := s.k.queues[q];
    && rec.creator in s.handles && s.handles[rec.creator].qid == Some(q)
    && s.handles[rec.creator].filename.Some?
    && OwnsKeyFile(ftok, s.k, rec.creator, s.handles[rec.creator].filename.value, rec.key)
    && rec.key in s.k.keys && s.k.keys[rec.key] == q
  }

  ghost predicate KernelOk(k: Kernel) {
    && (forall i :: i in k.inodes ==>
          i < k.nextInode && (k.inodes[i].content.Some? ==> k.inodes[i].content.value == ID))
    && (forall i, j :: i in k.inodes && j in k.inodes && k.inodes[i].creator == k.inodes[j].creator ==> i == j)
    && (forall q :: q in k.queues ==> q < k.nextQid)
    && (forall key :: key in k.keys ==> k.keys[key] in k.queues && k.queues[k.keys[key]].key == key)
  }

  ghost predicate Inv(ftok: (nat, int) -> int, s: State) {
    && KernelOk(s.k)
    && (forall i :: i in s.k.inodes ==> s.k.inodes[i].creator in s.handles)
    && (forall who :: who in s.handles ==> HandleOk(ftok, s.k, who, s.handles[who]))
    && (forall q :: q in s.k.queues ==> QueueOk(ftok, s, q))
  }

  // ---- what one handle's action leaves to the others ----

  ghost predicate Frame(k: Kernel, k': Kernel, me: nat) {
    && (forall c, name | c != me && OwnsFile(k, c, name) ::
          OwnsFile(k', c, name) && k'.names[name] == k.names[name]
          && k'.inodes[k.names[name]] == k.inodes[k.names[name]])
    && (forall q :: q in k.queues && k.queues[q].creator != me ==> q in k'.queues && k'.queues[q] == k.queues[q])
    && (forall q :: q in k'.queues && k'.queues[q].creator != me ==> q in k.queues && k.queues[q] == k'.queues[q])
    && (forall q :: q in k'.queues && k'.queues[q].creator != me && k'.queues[q].key in k.keys ==>
          k'.queues[q].key in k'.keys && k'.keys[k'.queues[q].key] == k.keys[k'.queues[q].key])
    && (forall i :: i in k'.inodes ==>
          k'.inodes[i].creator == me || (i in k.inodes && k'.inodes[i].creator == k.inodes[i].creator))
  }

  /** Every live queue is found under its key. */
  ghost predicate AllKeyed(k: Kernel) {
    forall q :: q in k.queues ==> k.queues[q].key in k.keys && k.keys[k.queues[q].key] == q
  }

  lemma FrameOpenFile(me: nat, k: Kernel, h: Handle, ok: bool)
    requires KernelOk(k) && CreatedNothing(k, me) && h.phase.Named?
    ensures Frame(k, DoOpenFile(me, k, h, ok).0, me)
  {
  }

  lemma KernelOpenFile(me: nat, k: Kernel, h: Handle, ok: bool)
    requires KernelOk(k) && CreatedNothing(k, me) && h.phase.Named?
    ensures KernelOk(DoOpenFile(me, k, h, ok).0)
  {
  }

  lemma FrameTransferId(me: nat, k: Kernel, h: Handle, ok: bool, junk: int)
    requires KernelOk(k) && h.phase.FileOpen?
    requires h.phase.owner ==> OwnsFile(k, me, h.phase.name) && k.names[h.phase.name] == h.phase.inode
    ensures var k' := DoTransferId(k, h, ok, junk).0; Frame(k, k', me) && KernelOk(k')
  {
  }

  lemma FrameGetQueue(me: nat, k: Kernel, h: Handle, ok: bool)
    requires KernelOk(k) && (h.phase.KeyKnown? || h.phase.Recorded?)
    ensures var k' := DoGetQueue(me, k, h, ok).0; Frame(k, k', me) && KernelOk(k')
  {
  }

  lemma FrameRmid(ftok: (nat, int) -> int, me: nat, k: Kernel, h: Handle, ok: bool)
    requires KernelOk(k) && AllKeyed(k) && HandleOk(ftok, k, me, h) && CanDo(h, Rmid(ok))
    ensures var k' := Do(ftok, me, k, h, Rmid(ok)).0; Frame(k, k', me) && KernelOk(k')
  {
  }

  lemma FrameUnlink(ftok: (nat, int) -> int, me: nat, k: Kernel, h: Handle, ok: bool)
    requires KernelOk(k) && HandleOk(ftok, k, me, h) && CanDo(h, Unlink(ok))
    ensures var k' := Do(ftok, me, k, h, Unlink(ok)).0; Frame(k, k', me) && KernelOk(k')
  {
  }

  lemma FrameSame(k: Kernel, me: nat)
    ensures Frame(k, k, me)
  {
  }

  lemma DoFrame(ftok: (nat, int) -> int, me: nat, k: Kernel, h: Handle, a: Action)
    requires KernelOk(k) && AllKeyed(k) && HandleOk(ftok, k, me, h) && CanDo(h, a)
    ensures var k' := Do(ftok, me, k, h, a).0; Frame(k, k', me) && KernelOk(k')
  {
    hide Frame, KernelOk;
    match a
    case OpenFile(ok) =>
      FrameOpenFile(me, k, h, ok);
      KernelOpenFile(me, k, h, ok);
    case TransferId(ok, junk) => FrameTransferId(me, k, h, ok, junk);
    case GetQueue(ok) => FrameGetQueue(me, k, h, ok);
    case Rmid(ok) => FrameRmid(ftok, me, k, h, ok);
    case Unlink(ok) => FrameUnlink(ftok, me, k, h, ok);
    case _ =>
      assert Do(ftok, me, k, h, a).0 == k;
      FrameSame(k, me);
  }

  lemma DoHandle(ftok: (nat, int) -> int, me: nat, k: Kernel, h: Handle, a: Action)
    requires KernelOk(k) && HandleOk(ftok, k, me, h) && CanDo(h, a)
    ensures var (k', h') := Do(ftok, me, k, h, a); HandleOk(ftok, k', me, h')
  {
  }

  lemma FrameHandle(ftok: (nat, int) -> int, k: Kernel, k': Kernel, me: nat, c: nat, h: Handle)
    requires Frame(k, k', me) && c != me && HandleOk(ftok, k, c, h)
    ensures HandleOk(ftok, k', c, h)
  {
  }

  /** A handle that keeps a queue keeps what goes with it. */
  lemma OwnQueueKept(ftok: (nat, int) -> int, me: nat, k: Kernel, h: Handle, a: Action, q: nat)
    requires KernelOk(k) && AllKeyed(k) && HandleOk(ftok, k, me, h) && CanDo(h, a)
    requires q in k.queues && h.qid == Some(q) && h.filename.Some?
    requires OwnsKeyFile(ftok, k, me, h.filename.value, k.queues[q].key)
    requires q in Do(ftok, me, k, h, a).0.queues
    ensures var (k', h') := Do(ftok, me, k, h, a);
            h'.qid == h.qid && h'.filename == h.filename && k' == k
  {
  }

  /** A new queue is made by an owner that has recorded its key file. */
  lemma NewQueue(ftok: (nat, int) -> int, me: nat, k: Kernel, h: Handle, a: Action, q: nat)
    requires HandleOk(ftok, k, me, h) && CanDo(h, a)
    requires q !in k.queues && q in Do(ftok, me, k, h, a).0.queues
    ensures var (k', h') := Do(ftok, me, k, h, a);
            && h'.qid == Some(q) && h'.filename.Some? && k'.queues[q].key in k'.keys && k'.keys[k'.queues[q].key] == q
            && OwnsKeyFile(ftok, k', me, h'.filename.value, k'.queues[q].key)
  {
  }

  /** The acting handle keeps its own queue in order. */
  lemma OwnQueueOk(ftok: (nat, int) -> int, s: State, who: nat, a: Action, q: nat)
    requires Inv(ftok, s) && AllKeyed(s.k) && CanStep(s, Act(who, a))
    requires var s' := Step(ftok, s, Act(who, a)); q in s'.k.queues && s'.k.queues[q].creator == who
    ensures QueueOk(ftok, Step(ftok, s, Act(who, a)), q)
  {
    hide Do, CanDo, HandleOk, KernelOk;
    if q in s.k.queues {
      assert QueueOk(ftok, s, q);
      CreatorKept(ftok, s, who, a, q);
      OwnQueueKept(ftok, who, s.k, s.handles[who], a, q);
    } else {
      NewQueue(ftok, who, s.k, s.handles[who], a, q);
    }
  }

  lemma CreatorKept(ftok: (nat, int) -> int, s: State, who: nat, a: Action, q: nat)
    requires CanStep(s, Act(who, a)) && KernelOk(s.k)
    requires q in s.k.queues && q in Step(ftok, s, Act(who, a)).k.queues
    ensures Step(ftok, s, Act(who, a)).k.queues[q] == s.k.queues[q]
  {
  }

  lemma OtherQueueOk(ftok: (nat, int) -> int, s: State, who: nat, a: Action, q: nat)
    requires Inv(ftok, s) && AllKeyed(s.k) && CanStep(s, Act(who, a))
    requires Frame(s.k, Step(ftok, s, Act(who, a)).k, who)
    requires var s' := Step(ftok, s, Act(who, a)); q in s'.k.queues && s'.k.queues[q].creator != who
    ensures QueueOk(ftok, Step(ftok, s, Act(who, a)), q)
  {
    hide Do;
    assert QueueOk(ftok, s, q);
  }

  lemma ActInv(ftok: (nat, int) -> int, s: State, who: nat, a: Action)
    requires Inv(ftok, s) && CanStep(s, Act(who, a))
    ensures Inv(ftok, Step(ftok, s, Act(who, a)))
  {
    hide Do, HandleOk, CanDo, QueueOk, KernelOk, AllKeyed;
    var s' := Step(ftok, s, Act(who, a));
    assert AllKeyed(s.k) by { QueuesKeyed(ftok, s); }
    DoFrame(ftok, who, s.k, s.handles[who], a);
    DoHandle(ftok, who, s.k, s.handles[who], a);
    forall c | c in s'.handles
      ensures HandleOk(ftok, s'.k, c, s'.handles[c])
    {
      if c != who { FrameHandle(ftok, s.k, s'.k, who, c, s.handles[c]); }
    }
    forall q | q in s'.k.queues
      ensures QueueOk(ftok, s', q)
    {
      if s'.k.queues[q].creator == who {
        OwnQueueOk(ftok, s, who, a, q);
      } else {
        OtherQueueOk(ftok, s, who, a, q);
      }
    }
  }

  lemma QueuesKeyed(ftok: (nat, int) -> int, s: State)
    requires Inv(ftok, s)
    ensures AllKeyed(s.k)
  {
    forall q | q in s.k.queues
      ensures s.k.queues[q].key in s.k.keys && s.k.keys[s.k.queues[q].key] == q
    {
      assert QueueOk(ftok, s, q);
    }
  }

  lemma CreateInv(ftok: (nat, int) -> int, s: State, who: nat)
    requires Inv(ftok, s) && who !in s.handles
    ensures Inv(ftok, Step(ftok, s, Create(who)))
  {
    var s' := Step(ftok, s, Create(who));
    forall q | q in s'.k.queues
      ensures QueueOk(ftok, s', q)
    {
      assert QueueOk(ftok, s, q);
    }
  }

  /** The invariant holds after every run. */
  lemma {:induction false} RunInv(ftok: (nat, int) -> int, evs: seq<Event>)
    requires Run(ftok, evs).Some?
    ensures Inv(ftok, Run(ftok, evs).value)
  {
    if evs != [] {
      var before, ev := evs[..|evs| - 1], evs[|evs| - 1];
      RunInv(ftok, before);
      match ev
      case Create(who) => CreateInv(ftok, Run(ftok, before).value, who);
      case Act(who, a) => ActInv(ftok, Run(ftok, before).value, who, a);
    }
  }

  // ---- what the invariant says ----

  /** At most one handle is recorded as the owner of a name, and the file at that name is the one it created. */
  lemma ExclusiveOwnership(ftok: (nat, int) -> int, evs: seq<Event>, x: nat, y: nat)
    requires Run(ftok, evs).Some?
    ensures var s := Run(ftok, evs).value;
            (x in s.handles && y in s.handles && s.handles[x].filename.Some?
             && s.handles[x].filename == s.handles[y].filename)
            ==> x == y && OwnsFile(s.k, x, s.handles[x].filename.value)
  {
    hide Run;
    RunInv(ftok, evs);
  }

  lemma Removals(ftok: (nat, int) -> int, me: nat, k: Kernel, h: Handle, a: Action)
    requires CanDo(h, a)
    ensures var k' := Do(ftok, me, k, h, a).0;
            && (forall q :: q in k.queues && q !in k'.queues ==>
                  a == Rmid(true) && h.qid == Some(q) && h.filename.Some?)
            && (forall n :: n in k.names && n !in k'.names ==> a == Unlink(true) && h.filename == Some(n))
  {
  }

  /**
   Whatever disappears from the kernel in a step was created by the handle that took the step: a queue
   goes only with `IPC_RMID` by its creator, a key file only with `unlink` by its creator.
   */
  lemma OnlyOwnThingsRemoved(ftok: (nat, int) -> int, evs: seq<Event>, ev: Event)
    requires Run(ftok, evs).Some? && CanStep(Run(ftok, evs).value, ev)
    ensures var s := Run(ftok, evs).value;
            var s' := Step(ftok, s, ev);
            && (forall q :: q in s.k.queues && q !in s'.k.queues ==>
                  ev == Act(s.k.queues[q].creator, Rmid(true)) && s.handles[ev.who].qid == Some(q))
            && (forall n :: n in s.k.names && n !in s'.k.names ==>
                  ev.Act? && ev.a == Unlink(true) && OwnsFile(s.k, ev.who, n) && s.handles[ev.who].filename == Some(n))
  {
    hide Run, Do;
    RunInv(ftok, evs);
    var s := Run(ftok, evs).value;
    if ev.Act? {
      assert HandleOk(ftok, s.k, ev.who, s.handles[ev.who]);
      Removals(ftok, ev.who, s.k, s.handles[ev.who], ev.a);
    }
  }

  /** A close whose calls are not refused by the system does remove the queue and the file. */
  lemma OwnThingsRemovable(ftok: (nat, int) -> int, evs: seq<Event>, who: nat)
    requires Run(ftok, evs).Some? && who in Run(ftok, evs).value.handles
    ensures var s := Run(ftok, evs).value;
            && (CanDo(s.handles[who], Rmid(true)) ==>
                  s.handles[who].qid.value in s.k.queues
                  && s.handles[who].qid.value !in Step(ftok, s, Act(who, Rmid(true))).k.queues)
            && (CanDo(s.handles[who], Unlink(true)) ==>
                  s.handles[who].filename.value in s.k.names
                  && s.handles[who].filename.value !in Step(ftok, s, Act(who, Unlink(true))).k.names)
  {
    hide Run;
    RunInv(ftok, evs);
  }

  /**
   While a queue is alive, its key file is: still the file its creator made, fully written, and the
   source of its key.  This survives failed closes and the death of the creator.
   */
  lemma LiveQueueHasKeyFile(ftok: (nat, int) -> int, evs: seq<Event>, q: nat)
    requires Run(ftok, evs).Some? && q in Run(ftok, evs).value.k.queues
    ensures var s := Run(ftok, evs).value;
            exists n :: n in s.k.names && OwnsKeyFile(ftok, s.k, s.k.queues[q].creator, n, s.k.queues[q].key)
  {
    hide Run;
    RunInv(ftok, evs);
    assert QueueOk(ftok, Run(ftok, evs).value, q);
  }

  /**
   A sender that read a fully written key file and derived its key from the file that is at that name
   finds the queue of the owner of that file, whenever that owner has one.
   */
  lemma SenderFindsOwner(ftok: (nat, int) -> int, evs: seq<Event>, who: nat, q: nat)
    requires Run(ftok, evs).Some?
    requires var s := Run(ftok, evs).value;
             && who in s.handles && s.handles[who].phase.KeyKnown? && !s.handles[who].phase.owner
             && s.handles[who].phase.genuine
             && s.handles[who].phase.name in s.k.names
             && s.k.names[s.handles[who].phase.name] == s.handles[who].phase.inode
             && q in s.k.queues && OwnsFile(s.k, s.k.queues[q].creator, s.handles[who].phase.name)
    ensures var s := Run(ftok, evs).value;
            && s.handles[who].phase.key == s.k.queues[q].key
            && Step(ftok, s, Act(who, GetQueue(true))).handles[who].qid == Some(q)
  {
    hide Run;
    RunInv(ftok, evs);
    var s := Run(ftok, evs).value;
    assert QueueOk(ftok, s, q);
    assert HandleOk(ftok, s.k, who, s.handles[who]);
  }

  // ---- close ----

  /** `IPC_RMID`, `unlink` and `free` have happened for a handle, and cannot happen again. */
  ghost predicate PastClose(h: Handle) {
    h.phase.Closing? || h.phase.CloseFailed? || h.phase.Freed? || h.phase.Dead?
  }

  ghost predicate SpentIn(s: State, ev: Event)
    requires ev.Act?
  {
    && ev.who in s.handles && PastClose(s.handles[ev.who])
    && match ev.a
       case Rmid(_) => s.handles[ev.who].qid.None?
       case Unlink(_) => s.handles[ev.who].filename.None?
       case _ => s.handles[ev.who].phase.Freed?
  }

  lemma SpentStays(ftok: (nat, int) -> int, s: State, ev: Event, e: Event)
    requires CanStep(s, ev) && e.Act? && (e.a == Rmid(true) || e.a == Unlink(true) || e.a == Free)
    requires SpentIn(s, e)
    ensures ev != e && SpentIn(Step(ftok, s, ev), e)
  {
  }

  /**
   However often `queue_close` is called and however its calls fail, `IPC_RMID` and `unlink` succeed at
   most once for a handle, and its memory is released at most once.
   */
  lemma {:induction false} ClosedAtMostOnce(ftok: (nat, int) -> int, evs: seq<Event>, e: Event)
    requires Run(ftok, evs).Some?
    requires e.Act? && (e.a == Rmid(true) || e.a == Unlink(true) || e.a == Free)
    ensures multiset(evs)[e] <= 1
    ensures e in evs ==> SpentIn(Run(ftok, evs).value, e)
  {
    if evs != [] {
      var before, ev := evs[..|evs| - 1], evs[|evs| - 1];
      assert evs == before + [ev];
      ClosedAtMostOnce(ftok, before, e);
      RunInv(ftok, before);
      if e in before {
        SpentStays(ftok, Run(ftok, before).value, ev, e);
      } else if ev == e {
        FirstSpent(ftok, Run(ftok, before).value, e);
      }
    }
  }

  lemma FirstSpent(ftok: (nat, int) -> int, s: State, e: Event)
    requires Inv(ftok, s) && CanStep(s, e) && e.Act? && (e.a == Rmid(true) || e.a == Unlink(true) || e.a == Free)
    ensures SpentIn(Step(ftok, s, e), e)
  {
  }
}
