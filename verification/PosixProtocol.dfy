/**
 The POSIX backend (queues/posix.c) as a protocol: handles whose `queue_open` and `queue_close` are broken
 at every system call, any of which may fail.
 */
module PosixProtocol {
  import opened ErrorSlot

  type Path = string

  /** `struct mq_attr` */
  datatype Attr = Attr(maxmsg: nat, msgsize: nat)

  const DEFAULT := Attr(10, 1024)

  datatype Attribute = MaxQueueSize | MaxMessageSize | MaxMessageInQueue

  datatype Status = Ok | GeneralFailure | NotSupported | NotOwner

  /** A queue, and the handle that created it; other programs may create queues too. */
  datatype Mq = Mq(attr: Attr, creator: Option<nat>)

  /** A queue object outlives its name. */
  datatype Kernel = Kernel(names: map<Path, nat>, queues: map<nat, Mq>, next: nat)

  const BOOT := Kernel(map[], map[], 0)

  datatype Phase =
    | Idle
    | Opening(owner: bool, name: Path)
    | Opened(owner: bool)
    | Open
    | OpenFailed
    | Closing
    | CloseFailed
    | Freed
    | Dead

  /**
   A handle.  Two fields record its history: `made`, that its `mq_open` created a queue, and `touched`, that
   `queue_set_attribute` changed its cached attributes.
   */
  datatype Handle = Handle(phase: Phase, mq: Option<nat>, filename: Option<Path>, attr: Attr, made: bool, touched: bool)

  const FRESH := Handle(Idle, None, None, DEFAULT, false, false)

  datatype Action =
    | SetAttribute(which: Attribute, value: nat)
    | StartOpen(owner: bool, name: Path, ok: bool)
    | MqOpen(ok: bool)
    | Finish(ok: bool)
    | BeginClose
    | MqClose(ok: bool)
    | MqUnlink(ok: bool)
    | Free
    | Crash

  /** Between calls: the caller may start another one on this handle. */
  predicate AtRest(p: Phase) {
    p.Idle? || p.Open? || p.OpenFailed? || p.CloseFailed?
  }

  predicate CanDo(h: Handle, a: Action) {
    match a
    case SetAttribute(_, _) => AtRest(h.phase)
    case StartOpen(_, _, _) => h.phase.Idle?
    case MqOpen(_) => h.phase.Opening?
    case Finish(_) => h.phase.Opened?
    case BeginClose => AtRest(h.phase)
    case MqClose(_) => h.phase.Closing? && h.mq.Some?
    case MqUnlink(_) => h.phase.Closing? && h.mq.None? && h.filename.Some?
    case Free => h.phase.Closing? && h.mq.None? && h.filename.None?
    case Crash => !h.phase.Freed? && !h.phase.Dead?
  }

  /** What `queue_set_attribute` answers. */
  function SetStatus(h: Handle, which: Attribute): Status {
    if h.filename.None? then NotOwner else if which.MaxQueueSize? then NotSupported else Ok
  }

  function WithAttribute(at: Attr, which: Attribute, value: nat): Attr {
    match which
    case MaxMessageSize => at.(msgsize := value)
    case MaxMessageInQueue => at.(maxmsg := value)
    case MaxQueueSize => at
  }

  function Do(me: nat, k: Kernel, h: Handle, a: Action): (Kernel, Handle)
    requires CanDo(h, a)
  {
    match a
    case SetAttribute(which, value) =>
      if SetStatus(h, which).Ok? then (k, h.(attr := WithAttribute(h.attr, which, value), touched := true)) else (k, h)
    case StartOpen(owner, name, ok) =>
      if !owner then (k, h.(phase := Opening(false, name)))
      else if ok then (k, h.(phase := Opening(true, name), filename := Some(name)))
      else (k, h.(phase := OpenFailed))
    case MqOpen(ok) => DoMqOpen(me, k, h, ok)
    case Finish(ok) => DoFinish(k, h, ok)
    case BeginClose => (k, h.(phase := Closing))
    case MqClose(ok) => if ok then (k, h.(mq := None)) else (k, h.(phase := CloseFailed))
    case MqUnlink(ok) =>
      var n := h.filename.value;
      if ok && n in k.names then (k.(names := k.names - {n}), h.(filename := None))
      else (k, h.(phase := CloseFailed))
    case Free => (k, h.(phase := Freed))
    case Crash => (k, h.(phase := Dead))
  }

  /** `mq_open`, with `O_CREAT | O_EXCL` for an owner. */
  function DoMqOpen(me: nat, k: Kernel, h: Handle, ok: bool): (Kernel, Handle)
    requires h.phase.Opening?
  {
    var Opening(owner, name) := h.phase;
    if !ok || owner == (name in k.names) then (k, h.(phase := OpenFailed, mq := None))
    else if owner then
      (k.(names := k.names[name := k.next], queues := k.queues[k.next := Mq(h.attr, Some(me))], next := k.next + 1),
       h.(phase := Opened(true), mq := Some(k.next), made := true))
    else (k, h.(phase := Opened(false), mq := Some(k.names[name])))
  }

  /** The rest of `queue_open`: `mq_getattr` unless the handle is the owner. */
  function DoFinish(k: Kernel, h: Handle, ok: bool): (Kernel, Handle)
    requires h.phase.Opened?
  {
    if !ok then (k, h.(phase := OpenFailed))
    else if h.phase.owner then (k, h.(phase := Open))
    else if h.mq.Some? && h.mq.value in k.queues then (k, h.(phase := Open, attr := k.queues[h.mq.value].attr))
    else (k, h.(phase := OpenFailed))
  }

  /** A sequence of actions by one handle, if each of them is possible in turn. */
  function Exec(me: nat, k: Kernel, h: Handle, acts: seq<Action>): Option<(Kernel, Handle)> {
    if acts == [] then Some((k, h))
    else
      match Exec(me, k, h, acts[..|acts| - 1])
      case None => None
      case Some((k', h')) =>
        if CanDo(h', acts[|acts| - 1]) then Some(Do(me, k', h', acts[|acts| - 1])) else None
  }

  lemma ExecNext(me: nat, k: Kernel, h: Handle, acts: seq<Action>, a: Action, k': Kernel, h': Handle)
    requires Exec(me, k, h, acts) == Some((k', h')) && CanDo(h', a)
    ensures Exec(me, k, h, acts + [a]) == Some(Do(me, k', h', a))
  {
    assert (acts + [a])[..|acts|] == acts;
  }

  lemma ExecNothing(me: nat, k: Kernel, h: Handle)
    ensures Exec(me, k, h, []) == Some((k, h))
  {
  }

  // ---- whole calls ----

  /** One more action of a fixed sequence. */
  lemma ExecStep(me: nat, k0: Kernel, h0: Handle, acts: seq<Action>, n: nat,
                 k: Kernel, h: Handle, k': Kernel, h': Handle)
    requires n < |acts| && Exec(me, k0, h0, acts[..n]) == Some((k, h))
    requires CanDo(h, acts[n]) && Do(me, k, h, acts[n]) == (k', h')
    ensures Exec(me, k0, h0, acts[..n + 1]) == Some((k', h'))
  {
    assert acts[..n + 1][..n] == acts[..n];
  }

  /** The calls of `queue_open` when none of them fails. */
  function OpenTrace(owner: bool, name: Path): seq<Action> {
    [StartOpen(owner, name, true), MqOpen(true), Finish(true)]
  }

  /** The calls that `queue_close` makes for a handle before it frees the memory, if none of them fails. */
  function CloseTrace(h: Handle, closeOk: bool, unlinkOk: bool): seq<Action> {
    [BeginClose] + (if h.mq.Some? then [MqClose(closeOk)] else [])
    + if h.filename.Some? then [MqUnlink(unlinkOk)] else []
  }

  /** The kernel without a name. */
  function Without(k: Kernel, name: Option<Path>): Kernel {
    if name.Some? then k.(names := k.names - {name.value}) else k
  }

  /** The kernel after an owner has opened `name`. */
  function WithOwner(me: nat, k: Kernel, name: Path): Kernel {
    Kernel(k.names[name := k.next], k.queues[k.next := Mq(DEFAULT, Some(me))], k.next + 1)
  }

  /** If the name is free, an owner whose calls all succeed gets a new queue with the default attributes. */
  lemma OwnerOpens(me: nat, k: Kernel, name: Path)
    requires name !in k.names
    ensures Exec(me, k, FRESH, OpenTrace(true, name))
         == Some((WithOwner(me, k, name), Handle(Open, Some(k.next), Some(name), DEFAULT, true, false)))
    ensures var at := WithOwner(me, k, name).queues[k.next].attr; at.maxmsg == 10 && at.msgsize == 1024
  {
    hide Exec;
    var acts, k2 := OpenTrace(true, name), WithOwner(me, k, name);
    var h1 := Handle(Opening(true, name), None, Some(name), DEFAULT, false, false);
    var h2 := Handle(Opened(true), Some(k.next), Some(name), DEFAULT, true, false);
    ExecNothing(me, k, FRESH);
    assert acts[..0] == [];
    ExecStep(me, k, FRESH, acts, 0, k, FRESH, k, h1);
    ExecStep(me, k, FRESH, acts, 1, k, h1, k2, h2);
    ExecStep(me, k, FRESH, acts, 2, k2, h2, k2, h2.(phase := Open));
    assert acts[..3] == acts;
  }

  /** If the name exists, any other handle gets its queue and that queue's attributes, and the kernel is unchanged. */
  lemma OtherOpens(me: nat, k: Kernel, name: Path)
    requires name in k.names && k.names[name] in k.queues
    ensures Exec(me, k, FRESH, OpenTrace(false, name))
         == Some((k, Handle(Open, Some(k.names[name]), None, k.queues[k.names[name]].attr, false, false)))
  {
    hide Exec;
    var acts, q := OpenTrace(false, name), k.names[name];
    var h1, h2 := FRESH.(phase := Opening(false, name)), FRESH.(phase := Opened(false), mq := Some(q));
    ExecNothing(me, k, FRESH);
    assert acts[..0] == [];
    ExecStep(me, k, FRESH, acts, 0, k, FRESH, k, h1);
    ExecStep(me, k, FRESH, acts, 1, k, h1, k, h2);
    ExecStep(me, k, FRESH, acts, 2, k, h2, k, h2.(phase := Open, attr := k.queues[q].attr));
    assert acts[..3] == acts;
  }

  /** Closing undoes opening: the names are what they were. */
  lemma CloseUndoesOpen(me: nat, k: Kernel, name: Path)
    requires name !in k.names
    ensures var k1 := WithOwner(me, k, name);
            Exec(me, k1, Handle(Open, Some(k.next), Some(name), DEFAULT, true, false),
                 [BeginClose, MqClose(true), MqUnlink(true), Free])
            == Some((k1.(names := k.names), Handle(Freed, None, None, DEFAULT, true, false)))
  {
    hide Exec;
    var acts: seq<Action> := [BeginClose, MqClose(true), MqUnlink(true), Free];
    var k1, h0 := WithOwner(me, k, name), Handle(Open, Some(k.next), Some(name), DEFAULT, true, false);
    var k2 := k1.(names := k.names);
    assert k1.names - {name} == k.names;
    ExecNothing(me, k1, h0);
    assert acts[..0] == [];
    ExecStep(me, k1, h0, acts, 0, k1, h0, k1, h0.(phase := Closing));
    ExecStep(me, k1, h0, acts, 1, k1, h0.(phase := Closing), k1, h0.(phase := Closing, mq := None));
    ExecStep(me, k1, h0, acts, 2, k1, h0.(phase := Closing, mq := None),
             k2, h0.(phase := Closing, mq := None, filename := None));
    ExecStep(me, k1, h0, acts, 3, k2, h0.(phase := Closing, mq := None, filename := None),
             k2, h0.(phase := Freed, mq := None, filename := None));
    assert acts[..4] == acts;
  }

  // ---- runs ----

  datatype State = State(k: Kernel, handles: map<nat, Handle>)

  datatype Event = Create(who: nat) | Foreign(name: Path, attr: Attr) | Act(who: nat, a: Action)

  predicate CanStep(s: State, ev: Event) {
    match ev
    case Create(who) => who !in s.handles
    case Foreign(name, _) => name !in s.k.names
    case Act(who, a) => who in s.handles && CanDo(s.handles[who], a)
  }

  function Step(s: State, ev: Event): State
    requires CanStep(s, ev)
  {
    match ev
    case Create(who) => s.(handles := s.handles[who := FRESH])
    case Foreign(name, at) =>
      s.(k := Kernel(s.k.names[name := s.k.next], s.k.queues[s.k.next := Mq(at, None)], s.k.next + 1))
    case Act(who, a) =>
      var (k, h) := Do(who, s.k, s.handles[who], a);
      State(k, s.handles[who := h])
  }

  function Run(evs: seq<Event>): Option<State> {
    if evs == [] then Some(State(BOOT, map[]))
    else
      match Run(evs[..|evs| - 1])
      case None => None
      case Some(s) => if CanStep(s, evs[|evs| - 1]) then Some(Step(s, evs[|evs| - 1])) else None
  }

  function ActsOf(me: nat, acts: seq<Action>): (evs: seq<Event>)
    ensures |evs| == |acts|
  {
    seq(|acts|, i requires 0 <= i < |acts| => Act(me, acts[i]))
  }

  /** A call of the library, made from a state that a run has reached, continues that run. */
  lemma {:induction false} CallContinuesRun(evs: seq<Event>, me: nat, acts: seq<Action>)
    requires Run(evs).Some? && me in Run(evs).value.handles
    requires var s := Run(evs).value; Exec(me, s.k, s.handles[me], acts).Some?
    ensures var s := Run(evs).value;
            var (k, h) := Exec(me, s.k, s.handles[me], acts).value;
            Run(evs + ActsOf(me, acts)) == Some(State(k, s.handles[me := h]))
  {
    hide Do, CanDo;
    var s := Run(evs).value;
    if acts == [] {
      assert evs + ActsOf(me, acts) == evs;
      assert s.handles[me := s.handles[me]] == s.handles;
    } else {
      var before, a := acts[..|acts| - 1], acts[|acts| - 1];
      CallContinuesRun(evs, me, before);
      var (k', h') := Exec(me, s.k, s.handles[me], before).value;
      var all := evs + ActsOf(me, acts);
      assert all[..|all| - 1] == evs + ActsOf(me, before) && all[|all| - 1] == Act(me, a);
      var (k, h) := Do(me, k', h', a);
      assert s.handles[me := h'][me := h] == s.handles[me := h];
    }
  }

  // ---- attributes ----

  ghost predicate KernelOk(k: Kernel) {
    && (forall q :: q in k.queues ==> q < k.next && (k.queues[q].creator.Some? ==> k.queues[q].attr == DEFAULT))
    && (forall n :: n in k.names ==> k.names[n] in k.queues)
  }

  /** Some queue was created by handle `me`. */
  ghost predicate Created(k: Kernel, me: nat) {
    exists q :: q in k.queues && k.queues[q].creator == Some(me)
  }

  ghost predicate HandleOk(k: Kernel, me: nat, h: Handle) {
    && (h.mq.Some? ==> h.mq.value in k.queues)
    && (h.phase.Idle? ==> h.filename.None? && h.mq.None? && !h.made && h.attr == DEFAULT)
    && (h.phase.Opening? ==> h.mq.None? && !h.made && h.attr == DEFAULT && !h.touched)
    && (h.phase.Opening? ==> h.filename == if h.phase.owner then Some(h.phase.name) else None)
    && (h.phase.Opened? ==> h.mq.Some? && !h.touched && h.phase.owner == h.made == h.filename.Some?)
    && (h.phase.Opened? && h.phase.owner ==> h.attr == k.queues[h.mq.value].attr)
    && (h.phase.Open? ==> h.mq.Some? && (!h.touched ==> h.attr == k.queues[h.mq.value].attr))
    && (h.phase.Open? ==> (h.made <==> h.filename.Some?))
    && (h.phase.Freed? ==> h.filename.None? && h.mq.None?)
    && (h.touched ==> h.phase != Idle && (h.phase.Open? ==> h.filename.Some?))
    && (h.made <==> Created(k, me))
  }

  ghost predicate Inv(s: State) {
    && KernelOk(s.k)
    && (forall who :: who in s.handles ==> HandleOk(s.k, who, s.handles[who]))
    && (forall q :: q in s.k.queues && s.k.queues[q].creator.Some? ==> s.k.queues[q].creator.value in s.handles)
  }

  /** Queues are only ever added, and never change. */
  ghost predicate Grows(k: Kernel, k': Kernel, me: Option<nat>) {
    && (forall q :: q in k.queues ==> q in k'.queues && k'.queues[q] == k.queues[q])
    && (forall q :: q in k'.queues && q !in k.queues ==> k'.queues[q].creator == me)
  }

  lemma GrowsHandle(k: Kernel, k': Kernel, me: Option<nat>, c: nat, h: Handle)
    requires HandleOk(k, c, h) && Grows(k, k', me) && me != Some(c)
    ensures HandleOk(k', c, h)
  {
  }

  lemma MqOpenOk(me: nat, k: Kernel, h: Handle, ok: bool)
    requires KernelOk(k) && HandleOk(k, me, h) && h.phase.Opening?
    ensures var (k', h') := DoMqOpen(me, k, h, ok); KernelOk(k') && Grows(k, k', Some(me)) && HandleOk(k', me, h')
  {
  }

  lemma UnlinkOk(me: nat, k: Kernel, h: Handle, ok: bool)
    requires KernelOk(k) && HandleOk(k, me, h) && CanDo(h, MqUnlink(ok))
    ensures var (k', h') := Do(me, k, h, MqUnlink(ok)); KernelOk(k') && Grows(k, k', Some(me)) && HandleOk(k', me, h')
  {
  }

  lemma DoHandle(me: nat, k: Kernel, h: Handle, a: Action)
    requires KernelOk(k) && HandleOk(k, me, h) && CanDo(h, a)
    ensures var (k', h') := Do(me, k, h, a); KernelOk(k') && Grows(k, k', Some(me)) && HandleOk(k', me, h')
  {
    hide Created, KernelOk;
    match a
    case MqOpen(ok) => MqOpenOk(me, k, h, ok);
    case MqUnlink(ok) => UnlinkOk(me, k, h, ok);
    case _ => assert Do(me, k, h, a).0 == k;
  }

  lemma StepInv(s: State, ev: Event)
    requires Inv(s) && CanStep(s, ev)
    ensures Inv(Step(s, ev))
  {
    hide HandleOk, Do;
    match ev
    case Create(who) =>
      assert HandleOk(s.k, who, FRESH) by { FreshOk(s, who); }
    case Foreign(name, at) =>
      var k' := Step(s, ev).k;
      forall c | c in s.handles
        ensures HandleOk(k', c, s.handles[c])
      {
        GrowsHandle(s.k, k', None, c, s.handles[c]);
      }
    case Act(who, a) =>
      DoHandle(who, s.k, s.handles[who], a);
      forall c | c in s.handles && c != who
        ensures HandleOk(Step(s, ev).k, c, s.handles[c])
      {
        GrowsHandle(s.k, Step(s, ev).k, Some(who), c, s.handles[c]);
      }
  }

  lemma FreshOk(s: State, who: nat)
    requires Inv(s) && who !in s.handles
    ensures HandleOk(s.k, who, FRESH)
  {
  }

  lemma {:induction false} RunInv(evs: seq<Event>)
    requires Run(evs).Some?
    ensures Inv(Run(evs).value)
  {
    if evs != [] {
      RunInv(evs[..|evs| - 1]);
      StepInv(Run(evs[..|evs| - 1]).value, evs[|evs| - 1]);
    }
  }

  /** A handle that has not opened its queue cannot set an attribute: the call is refused and changes nothing. */
  lemma SetBeforeOpenRefused(evs: seq<Event>, who: nat, which: Attribute, value: nat)
    requires Run(evs).Some? && who in Run(evs).value.handles && Run(evs).value.handles[who].phase.Idle?
    ensures var s := Run(evs).value;
            SetStatus(s.handles[who], which) == NotOwner && Step(s, Act(who, SetAttribute(which, value))) == s
  {
    hide Run;
    RunInv(evs);
    var s := Run(evs).value;
    assert HandleOk(s.k, who, s.handles[who]);
    assert s.handles[who := s.handles[who]] == s.handles;
  }

  /** Hence every queue ever created through the library has the default attributes, whatever was asked for. */
  lemma OnlyDefaultQueues(evs: seq<Event>, q: nat)
    requires Run(evs).Some? && q in Run(evs).value.k.queues && Run(evs).value.k.queues[q].creator.Some?
    ensures Run(evs).value.k.queues[q].attr.maxmsg == 10 && Run(evs).value.k.queues[q].attr.msgsize == 1024
  {
    RunInv(evs);
  }

  /**
   The cached attributes of an open handle are the kernel's, for owners and others alike, unless an owner
   changed them after opening; and then exactly if it put the defaults back.
   */
  lemma CacheAgrees(evs: seq<Event>, who: nat)
    requires Run(evs).Some? && who in Run(evs).value.handles && Run(evs).value.handles[who].phase.Open?
    ensures var s := Run(evs).value;
            var h := s.handles[who];
            && h.mq.Some? && h.mq.value in s.k.queues
            && (!h.touched || h.filename.None? ==> h.attr == s.k.queues[h.mq.value].attr)
            && (s.k.queues[h.mq.value].creator.Some? ==>
                  (h.attr == s.k.queues[h.mq.value].attr <==> h.attr.maxmsg == 10 && h.attr.msgsize == 1024))
  {
    hide Run;
    RunInv(evs);
    assert HandleOk(Run(evs).value.k, who, Run(evs).value.handles[who]);
  }

  // ---- ownership ----

  /** The event removes a name. */
  predicate Unlinks(s: State, ev: Event) {
    && CanStep(s, ev) && ev.Act? && ev.a == MqUnlink(true)
    && s.handles[ev.who].filename.value in s.k.names
  }

  /** The queue whose name the event removes was created by the handle that removes it. */
  predicate UnlinksOwn(s: State, ev: Event)
    requires Unlinks(s, ev)
  {
    var q := s.k.names[s.handles[ev.who].filename.value];
    q in s.k.queues && s.k.queues[q].creator == Some(ev.who)
  }

  /** Every name that the run removes is removed by the handle that created its queue. */
  ghost predicate OnlyOwnUnlinked(evs: seq<Event>) {
    forall i | 0 <= i < |evs| && Run(evs[..i]).Some? ::
      Unlinks(Run(evs[..i]).value, evs[i]) ==> UnlinksOwn(Run(evs[..i]).value, evs[i])
  }

  /** No name is removed by a handle whose `mq_open` did not create a queue. */
  ghost predicate NoUnlinkAfterFailedOpen(evs: seq<Event>) {
    forall i | 0 <= i < |evs| && Run(evs[..i]).Some? ::
      Unlinks(Run(evs[..i]).value, evs[i]) ==> Run(evs[..i]).value.handles[evs[i].who].made
  }

  /** A handle that created a queue and has not removed its name still has it. */
  ghost predicate KeepsName(k: Kernel, me: nat, h: Handle) {
    h.made && h.filename.Some? ==>
      h.filename.value in k.names && k.names[h.filename.value] in k.queues
      && k.queues[k.names[h.filename.value]].creator == Some(me)
  }

  ghost predicate AllKeepNames(s: State) {
    forall who :: who in s.handles ==> KeepsName(s.k, who, s.handles[who])
  }

  /** An action of one handle leaves the names of the others' queues alone. */
  lemma OtherKeepsName(me: nat, k: Kernel, h: Handle, a: Action, c: nat, hc: Handle)
    requires KernelOk(k) && CanDo(h, a) && c != me && KeepsName(k, c, hc)
    requires KeepsName(k, me, h) && (a == MqUnlink(true) && h.filename.value in k.names ==> h.made)
    ensures KeepsName(Do(me, k, h, a).0, c, hc)
  {
  }

  lemma SelfKeepsName(me: nat, k: Kernel, h: Handle, a: Action)
    requires KernelOk(k) && HandleOk(k, me, h) && CanDo(h, a) && KeepsName(k, me, h)
    ensures var (k', h') := Do(me, k, h, a); KeepsName(k', me, h')
  {
    hide Created;
  }

  lemma StepKeepsNames(s: State, ev: Event)
    requires Inv(s) && AllKeepNames(s) && CanStep(s, ev)
    requires Unlinks(s, ev) ==> s.handles[ev.who].made
    ensures AllKeepNames(Step(s, ev))
  {
    hide HandleOk, Do, KernelOk;
    forall who | who in Step(s, ev).handles
      ensures KeepsName(Step(s, ev).k, who, Step(s, ev).handles[who])
    {
      if who in s.handles {
        assert KeepsName(s.k, who, s.handles[who]);
        if ev.Act? {
          var me, a := ev.who, ev.a;
          if who == me {
            SelfKeepsName(me, s.k, s.handles[me], a);
          } else {
            assert KeepsName(s.k, me, s.handles[me]);
            OtherKeepsName(me, s.k, s.handles[me], a, who, s.handles[who]);
          }
        } else if ev.Foreign? {
          ForeignKeepsName(s, ev, who);
        }
      }
    }
  }

  lemma ForeignKeepsName(s: State, ev: Event, who: nat)
    requires KernelOk(s.k) && CanStep(s, ev) && ev.Foreign? && who in s.handles && KeepsName(s.k, who, s.handles[who])
    ensures KeepsName(Step(s, ev).k, who, s.handles[who])
  {
  }

  lemma {:induction false} NamesKept(evs: seq<Event>)
    requires Run(evs).Some? && NoUnlinkAfterFailedOpen(evs)
    ensures AllKeepNames(Run(evs).value)
  {
    if evs != [] {
      var before, ev := evs[..|evs| - 1], evs[|evs| - 1];
      forall i | 0 <= i < |before| && Run(before[..i]).Some?
        ensures Unlinks(Run(before[..i]).value, before[i]) ==> Run(before[..i]).value.handles[before[i].who].made
      {
        assert before[..i] == evs[..i] && before[i] == evs[i];
      }
      NamesKept(before);
      RunInv(before);
      StepKeepsNames(Run(before).value, ev);
    }
  }

  /**
   A run removes only names of queues their removers created exactly when it never lets a handle whose
   owner open failed at `mq_open` get through the `mq_unlink` of `queue_close`.
   */
  lemma OwnershipIff(evs: seq<Event>)
    requires Run(evs).Some?
    ensures OnlyOwnUnlinked(evs) <==> NoUnlinkAfterFailedOpen(evs)
  {
    forall i | 0 <= i < |evs| && Run(evs[..i]).Some? && Unlinks(Run(evs[..i]).value, evs[i])
      ensures OnlyOwnUnlinked(evs) ==> Run(evs[..i]).value.handles[evs[i].who].made
      ensures NoUnlinkAfterFailedOpen(evs) ==> UnlinksOwn(Run(evs[..i]).value, evs[i])
    {
      var s, who := Run(evs[..i]).value, evs[i].who;
      RunInv(evs[..i]);
      assert HandleOk(s.k, who, s.handles[who]);
      if NoUnlinkAfterFailedOpen(evs) {
        forall j | 0 <= j < i && Run(evs[..i][..j]).Some?
          ensures Unlinks(Run(evs[..i][..j]).value, evs[..i][j]) ==>
                    Run(evs[..i][..j]).value.handles[evs[..i][j].who].made
        {
          assert evs[..i][..j] == evs[..j];
        }
        NamesKept(evs[..i]);
        assert KeepsName(s.k, who, s.handles[who]);
      }
    }
  }

  // ---- a rule for callers ----

  /** The handle was told to own its queue. */
  predicate Asked(evs: seq<Event>, who: nat) {
    evs != [] && (Asked(evs[..|evs| - 1], who)
                  || (var e := evs[|evs| - 1]; e.Act? && e.who == who && e.a.StartOpen? && e.a.owner))
  }

  /** Its `queue_open` has returned true. */
  predicate WasOpen(evs: seq<Event>, who: nat) {
    || (Run(evs).Some? && who in Run(evs).value.handles && Run(evs).value.handles[who].phase.Open?)
    || (evs != [] && WasOpen(evs[..|evs| - 1], who))
  }

  /** `queue_close` is called for an owner only if its `queue_open` returned true. */
  predicate ClosesOnlyOpened(evs: seq<Event>) {
    evs == []
    || (var before, e := evs[..|evs| - 1], evs[|evs| - 1];
        ClosesOnlyOpened(before) && (e.Act? && e.a.BeginClose? && Asked(before, e.who) ==> WasOpen(before, e.who)))
  }

  /** What the caller has seen of a handle explains the handle. */
  ghost predicate Seen(evs: seq<Event>, who: nat, h: Handle) {
    && (h.filename.Some? ==> Asked(evs, who))
    && (h.filename.Some? && WasOpen(evs, who) ==> h.made)
    && (h.filename.Some? && (h.phase.Closing? || h.phase.CloseFailed?) ==> h.made)
    && (h.phase.Idle? || h.phase.Opening? || h.phase.Opened? ==> !WasOpen(evs, who))
  }

  lemma DoSeen(me: nat, k: Kernel, h: Handle, a: Action, asked: bool, wasOpen: bool)
    requires KernelOk(k) && HandleOk(k, me, h) && CanDo(h, a)
    requires (h.filename.Some? ==> asked) && (h.filename.Some? && wasOpen ==> h.made)
    requires h.filename.Some? && (h.phase.Closing? || h.phase.CloseFailed?) ==> h.made
    requires h.phase.Idle? || h.phase.Opening? || h.phase.Opened? ==> !wasOpen
    requires a.BeginClose? && asked ==> wasOpen
    ensures var h' := Do(me, k, h, a).1;
            && (h'.filename.Some? ==> asked || (a.StartOpen? && a.owner))
            && (h'.filename.Some? && (wasOpen || h'.phase.Open?) ==> h'.made)
            && (h'.filename.Some? && (h'.phase.Closing? || h'.phase.CloseFailed?) ==> h'.made)
            && (h'.phase.Idle? || h'.phase.Opening? || h'.phase.Opened? ==> !wasOpen)
  {
    hide Created, KernelOk;
  }

  lemma {:induction false} AllSeen(evs: seq<Event>, who: nat)
    requires Run(evs).Some? && ClosesOnlyOpened(evs) && who in Run(evs).value.handles
    ensures Seen(evs, who, Run(evs).value.handles[who])
  {
    var before, e := evs[..|evs| - 1], evs[|evs| - 1];
    var s := Run(before).value;
    hide Do, CanDo;
    if who in s.handles {
      AllSeen(before, who);
      if e.Act? && e.who == who {
        RunInv(before);
        assert HandleOk(s.k, who, s.handles[who]);
        DoSeen(who, s.k, s.handles[who], e.a, Asked(before, who), WasOpen(before, who));
      }
    } else {
      NotYetOpen(before, who);
    }
  }

  lemma {:induction false} NotYetOpen(evs: seq<Event>, who: nat)
    requires Run(evs).Some? && who !in Run(evs).value.handles
    ensures !WasOpen(evs, who)
  {
    hide Do, CanDo;
    if evs != [] { NotYetOpen(evs[..|evs| - 1], who); }
  }

  lemma {:induction false} ClosesOnlyOpenedPrefix(evs: seq<Event>, i: nat)
    requires ClosesOnlyOpened(evs) && i <= |evs|
    ensures ClosesOnlyOpened(evs[..i])
    decreases |evs|
  {
    if i < |evs| {
      ClosesOnlyOpenedPrefix(evs[..|evs| - 1], i);
      assert evs[..|evs| - 1][..i] == evs[..i];
    } else {
      assert evs[..i] == evs;
    }
  }

  /** A caller that closes an owner only after a successful open never removes the name of another's queue. */
  lemma CloseAfterOpenIsSafe(evs: seq<Event>)
    requires Run(evs).Some? && ClosesOnlyOpened(evs)
    ensures OnlyOwnUnlinked(evs)
  {
    hide Run, ClosesOnlyOpened;
    forall i | 0 <= i < |evs| && Run(evs[..i]).Some? && Unlinks(Run(evs[..i]).value, evs[i])
      ensures Run(evs[..i]).value.handles[evs[i].who].made
    {
      ClosesOnlyOpenedPrefix(evs, i);
      AllSeen(evs[..i], evs[i].who);
    }
    OwnershipIff(evs);
  }

  // ---- the other owner's queue ----

  /** Two owners of one name: the second fails to open it and then closes, as the API tells it to. */
  function TakeoverOf(name: Path): seq<Event> {
    [Create(0), Act(0, StartOpen(true, name, true)), Act(0, MqOpen(true)), Act(0, Finish(true)),
     Create(1), Act(1, StartOpen(true, name, true)), Act(1, MqOpen(true)), Act(1, BeginClose), Act(1, MqUnlink(true))]
  }

  lemma RunNext(evs: seq<Event>, n: nat, s: State, s': State)
    requires n < |evs| && Run(evs[..n]) == Some(s) && CanStep(s, evs[n]) && Step(s, evs[n]) == s'
    ensures Run(evs[..n + 1]) == Some(s')
  {
    assert evs[..n + 1][..n] == evs[..n];
  }

  lemma RunNothing(evs: seq<Event>)
    ensures Run(evs[..0]) == Some(State(BOOT, map[]))
  {
  }

  lemma FirstOwnerOpens(name: Path)
    ensures Run(TakeoverOf(name)[..4]) == Some(State(
      Kernel(map[name := 0], map[0 := Mq(DEFAULT, Some(0))], 1),
      map[0 := Handle(Open, Some(0), Some(name), DEFAULT, true, false)]))
  {
    hide Run;
    var evs := TakeoverOf(name);
    var k := Kernel(map[name := 0], map[0 := Mq(DEFAULT, Some(0))], 1);
    RunNothing(evs);
    RunNext(evs, 0, State(BOOT, map[]), State(BOOT, map[0 := FRESH]));
    var s2 := State(BOOT, map[0 := Handle(Opening(true, name), None, Some(name), DEFAULT, false, false)]);
    RunNext(evs, 1, State(BOOT, map[0 := FRESH]), s2);
    var s3 := State(k, map[0 := Handle(Opened(true), Some(0), Some(name), DEFAULT, true, false)]);
    RunNext(evs, 2, s2, s3);
    RunNext(evs, 3, s3, State(k, map[0 := Handle(Open, Some(0), Some(name), DEFAULT, true, false)]));
  }

  ghost function BeforeTakeover(name: Path, second: Handle): State {
    State(Kernel(map[name := 0], map[0 := Mq(DEFAULT, Some(0))], 1),
          map[0 := Handle(Open, Some(0), Some(name), DEFAULT, true, false), 1 := second])
  }

  lemma SecondOwnerFails(name: Path)
    ensures Run(TakeoverOf(name)[..8])
         == Some(BeforeTakeover(name, Handle(Closing, None, Some(name), DEFAULT, false, false)))
  {
    hide Run;
    var evs := TakeoverOf(name);
    var k := Kernel(map[name := 0], map[0 := Mq(DEFAULT, Some(0))], 1);
    FirstOwnerOpens(name);
    var s5 := BeforeTakeover(name, FRESH);
    RunNext(evs, 4, State(k, map[0 := s5.handles[0]]), s5);
    var s6 := BeforeTakeover(name, Handle(Opening(true, name), None, Some(name), DEFAULT, false, false));
    RunNext(evs, 5, s5, s6);
    var s7 := BeforeTakeover(name, Handle(OpenFailed, None, Some(name), DEFAULT, false, false));
    RunNext(evs, 6, s6, s7);
    RunNext(evs, 7, s7, BeforeTakeover(name, Handle(Closing, None, Some(name), DEFAULT, false, false)));
  }

  /** It takes the name of the first one's live queue away. */
  lemma Takeover(name: Path)
    ensures Run(TakeoverOf(name)).Some?
    ensures var s := Run(TakeoverOf(name)).value;
            && 0 in s.handles && s.handles[0].phase.Open? && s.handles[0].filename == Some(name) && name !in s.k.names
            && 1 in s.handles && !s.handles[1].made
    ensures !OnlyOwnUnlinked(TakeoverOf(name))
  {
    hide Run;
    var evs := TakeoverOf(name);
    SecondOwnerFails(name);
    var s8 := BeforeTakeover(name, Handle(Closing, None, Some(name), DEFAULT, false, false));
    assert Unlinks(s8, evs[8]) && !UnlinksOwn(s8, evs[8]);
    RunNext(evs, 8, s8, Step(s8, evs[8]));
    assert evs[..9] == evs;
  }

  // ---- close ----

  ghost predicate SpentIn(s: State, ev: Event)
    requires ev.Act?
  {
    && ev.who in s.handles
    && (var h := s.handles[ev.who];
        && (h.phase.Closing? || h.phase.CloseFailed? || h.phase.Freed? || h.phase.Dead?)
        && match ev.a
           case MqClose(_) => h.mq.None?
           case MqUnlink(_) => h.mq.None? && h.filename.None?
           case _ => h.phase.Freed?)
  }

  predicate IsRelease(a: Action) {
    a == MqClose(true) || a == MqUnlink(true) || a == Free
  }

  /** The event takes effect: `mq_unlink` also fails when the name is already gone. */
  predicate Effective(s: State, ev: Event)
    requires CanStep(s, ev)
  {
    ev.Act? && ev.a == MqUnlink(true) ==> Unlinks(s, ev)
  }

  /** How often an event of a handle took effect in a run. */
  ghost function Times(evs: seq<Event>, e: Event): nat
    requires Run(evs).Some?
  {
    if evs == [] then 0
    else
      var before, ev := evs[..|evs| - 1], evs[|evs| - 1];
      Times(before, e) + if ev == e && Effective(Run(before).value, ev) then 1 else 0
  }

  lemma SpentStays(s: State, ev: Event, e: Event)
    requires CanStep(s, ev) && e.Act? && IsRelease(e.a) && SpentIn(s, e)
    ensures ev != e && SpentIn(Step(s, ev), e)
  {
  }

  lemma FirstSpent(s: State, e: Event)
    requires CanStep(s, e) && e.Act? && IsRelease(e.a) && Effective(s, e)
    ensures SpentIn(Step(s, e), e)
  {
  }

  /**
   However often `queue_close` is called and however its calls fail, `mq_close` and `mq_unlink` succeed at
   most once for a handle, and its memory is released at most once.
   */
  lemma {:induction false} ClosedAtMostOnce(evs: seq<Event>, e: Event)
    requires Run(evs).Some? && e.Act? && IsRelease(e.a)
    ensures Times(evs, e) <= 1
    ensures Times(evs, e) == 1 ==> SpentIn(Run(evs).value, e)
  {
    if evs != [] {
      var before, ev := evs[..|evs| - 1], evs[|evs| - 1];
      ClosedAtMostOnce(before, e);
      var s := Run(before).value;
      if Times(before, e) == 1 {
        SpentStays(s, ev, e);
      } else if ev == e && Effective(s, ev) {
        FirstSpent(s, e);
      }
    }
  }
}
