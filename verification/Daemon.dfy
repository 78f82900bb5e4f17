/**
 The loop of banipd (banipd.c) over either queue: receive, parse, hand to the engine, report an error.
 A run interleaves it with any number of senders.
 */
module Daemon {
  import opened Words
  import opened CStrings
  import opened ErrorSlot
  import opened Delivery
  import opened ParseUlong
  import opened ParseAddr

  /** A message as the loop got it, with the `errno` that `parse_ulong` found. */
  datatype Received = Received(text: string, errno: int)

  /**
   The kernel queue, the buffers of the senders and of the receiver with whatever they hold, the daemon's
   buffer and error slot; and what has been sent, received and passed to the engine so far.
   */
  datatype World = World(
    inFlight: seq<seq<char>>, senders: seq<seq<char>>, rtext: seq<char>, out: seq<char>, slot: Slot,
    received: seq<Received>, handled: seq<Addr>)

  datatype Event =
    | Send(who: nat, text: string, ok: bool)
    | ReceiveFails
    | Serve(errno: int, handleOk: bool)

  /** Buffers of the sizes the backend allocates, and messages that the library has sent. */
  ghost predicate Valid(b: Backend, w: World) {
    && |w.out| == DaemonRoom(b)
    && (b.SystemV? ==> |w.rtext| == TextRoom(b.qbytes))
    && (b.SystemV? ==> forall i :: 0 <= i < |w.senders| ==> |w.senders[i]| == TextRoom(b.qbytes))
    && (forall i :: 0 <= i < |w.inFlight| ==> GoodMessage(b, w.inFlight[i]))
  }

  /** Before the first message: buffers with any stale bytes. */
  ghost predicate Start(b: Backend, w: World) {
    Valid(b, w) && w.inFlight == [] && w.slot.Empty? && w.received == [] && w.handled == []
  }

  /** After a crash the senders are on their own. */
  predicate CanStep(b: Backend, w: World, ev: Event) {
    match ev
    case Send(who, text, _) => who < |w.senders| && NUL !in text && Fits(b, text)
    case ReceiveFails => !w.slot.Crashed?
    case Serve(_, _) => !w.slot.Crashed? && w.inFlight != []
  }

  /** `mq_send` refuses a text longer than the message size. */
  predicate Accepts(b: Backend, text: string, ok: bool) {
    ok && (b.Posix? ==> |text| <= b.msgsize)
  }

  /** The error slot after the loop has dealt with a message. */
  function SlotAfter(s: Slot, o: Outcome, handleOk: bool): Slot {
    var s' := s.PutAll(o.errors);
    if o.addr.None? then s'.Freed() else if handleOk then s' else s'.Put(EngineFailed).Freed()
  }

  /** An address is passed to the engine unless the daemon ends while it parses. */
  function HandledAfter(handled: seq<Addr>, s: Slot, o: Outcome): seq<Addr> {
    if o.addr.Some? && !s.PutAll(o.errors).Crashed? then handled + [o.addr.value] else handled
  }

  /** The first message has been received. */
  ghost function Taken(b: Backend, w: World): (w': World)
    requires Valid(b, w) && w.inFlight != []
    ensures Valid(b, w') && NUL in w'.out && CText(w'.out) == Decode(b, w.inFlight[0])
    ensures w'.slot == w.slot && w'.handled == w.handled
  {
    var m := w.inFlight[0];
    GoodReads(b, w.rtext, m);
    HandsOverText(b, w.rtext, w.out, m);
    w.(inFlight := w.inFlight[1..], rtext := ReceivedInto(b, w.rtext, m), out := HandedOver(b, w.rtext, w.out, m))
  }

  ghost function Step(net: Net, b: Backend, w: World, ev: Event): World
    requires Valid(b, w) && CanStep(b, w, ev)
  {
    match ev
    case Send(who, text, ok) =>
      var w' := if b.Posix? then w else w.(senders := w.senders[who := Filled(w.senders[who], text)]);
      if Accepts(b, text, ok) then w'.(inFlight := w.inFlight + [Encode(b, w.senders[who], text)]) else w'
    case ReceiveFails => w.(slot := w.slot.Put(ReceiveFailed).Freed())
    case Serve(errno, handleOk) =>
      var w' := Taken(b, w);
      var o := Parse(net, CText(w'.out), errno);
      w'.(slot := SlotAfter(w.slot, o, handleOk), received := w.received + [Received(CText(w'.out), errno)],
          handled := HandledAfter(w.handled, w.slot, o))
  }

  /** The text that a round works on. */
  lemma ServedText(net: Net, b: Backend, w: World, ev: Event)
    requires Valid(b, w) && CanStep(b, w, ev) && ev.Serve?
    ensures var w' := Step(net, b, w, ev);
            var text := Decode(b, w.inFlight[0]);
            var o := Parse(net, text, ev.errno);
            && w'.inFlight == w.inFlight[1..] && w'.senders == w.senders
            && w'.received == w.received + [Received(text, ev.errno)]
            && w'.slot == SlotAfter(w.slot, o, ev.handleOk)
            && w'.handled == HandledAfter(w.handled, w.slot, o)
            && Valid(b, w')
  {
    hide Parse, SlotAfter, HandledAfter, GoodMessage, Decode;
  }

  lemma StepValid(net: Net, b: Backend, w: World, ev: Event)
    requires Valid(b, w) && CanStep(b, w, ev)
    ensures Valid(b, Step(net, b, w, ev))
  {
    hide Parse, SlotAfter, HandledAfter, GoodMessage, Decode;
    match ev
    case Send(who, text, ok) => if Accepts(b, text, ok) { EncodeDecodes(b, w.senders[who], text); }
    case ReceiveFails =>
    case Serve(_, _) =>
      hide Step;
      ServedText(net, b, w, ev);
  }

  /** The state after a run, if each event of it was possible. */
  ghost function Run(net: Net, b: Backend, w0: World, evs: seq<Event>): (r: Option<World>)
    requires Valid(b, w0)
    ensures r.Some? ==> Valid(b, r.value)
  {
    if evs == [] then Some(w0)
    else
      match Run(net, b, w0, evs[..|evs| - 1])
      case None => None
      case Some(w) =>
        if CanStep(b, w, evs[|evs| - 1]) then
          StepValid(net, b, w, evs[|evs| - 1]);
          Some(Step(net, b, w, evs[|evs| - 1]))
        else None
  }

  // ---- end to end ----

  /** The texts that the sends of a run put into the queue, in their order. */
  function Sent(b: Backend, evs: seq<Event>): seq<string> {
    if evs == [] then []
    else
      var ev := evs[|evs| - 1];
      Sent(b, evs[..|evs| - 1]) + if ev.Send? && Accepts(b, ev.text, ev.ok) then [ev.text] else []
  }

  /** The rounds of the loop that got a message, by the `errno` they started with. */
  function Rounds(evs: seq<Event>): seq<int> {
    if evs == [] then []
    else Rounds(evs[..|evs| - 1]) + if evs[|evs| - 1].Serve? then [evs[|evs| - 1].errno] else []
  }

  /** The addresses of the texts that parse, in the order of the texts. */
  function ParseAll(net: Net, rs: seq<Received>): seq<Addr> {
    if rs == [] then []
    else
      var o := Parse(net, rs[|rs| - 1].text, rs[|rs| - 1].errno);
      ParseAll(net, rs[..|rs| - 1]) + if o.addr.Some? then [o.addr.value] else []
  }

  function Pair(texts: seq<string>, errnos: seq<int>): (rs: seq<Received>)
    requires |errnos| <= |texts|
    ensures |rs| == |errnos|
  {
    seq(|errnos|, i requires 0 <= i < |errnos| => Received(texts[i], errnos[i]))
  }

  function DecodeAll(b: Backend, ms: seq<seq<char>>): (ts: seq<string>)
    requires forall i :: 0 <= i < |ms| ==> GoodMessage(b, ms[i])
    ensures |ts| == |ms|
  {
    seq(|ms|, i requires 0 <= i < |ms| => Decode(b, ms[i]))
  }

  predicate Accepted(r: Received) {
    PrefixAccepted(r.text, r.errno)
  }

  ghost predicate AllAccepted(rs: seq<Received>) {
    forall i :: 0 <= i < |rs| ==> Accepted(rs[i])
  }

  /** The texts that were parsed to the end: the second one with a refused prefix is the last and is not. */
  ghost function Completed(rs: seq<Received>): seq<Received> {
    if rs != [] && !Accepted(rs[|rs| - 1]) && !AllAccepted(rs[..|rs| - 1]) then rs[..|rs| - 1] else rs
  }

  /**
   Nothing is lost, duplicated or reordered: what was received and what is in flight make up what was sent,
   and what was handled is what was parsed.
   */
  ghost predicate Conserved(net: Net, b: Backend, evs: seq<Event>, w: World)
    requires Valid(b, w)
  {
    && |Rounds(evs)| <= |Sent(b, evs)|
    && w.received == Pair(Sent(b, evs), Rounds(evs))
    && DecodeAll(b, w.inFlight) == Sent(b, evs)[|Rounds(evs)|..]
    && w.handled == ParseAll(net, Completed(w.received))
    && (!w.slot.Crashed? ==> Completed(w.received) == w.received)
    && (w.slot.Empty? <==> AllAccepted(w.received))
  }

  lemma SendConserves(net: Net, b: Backend, evs: seq<Event>, w: World, ev: Event)
    requires Valid(b, w) && CanStep(b, w, ev) && Conserved(net, b, evs, w) && ev.Send?
    ensures Valid(b, Step(net, b, w, ev)) && Conserved(net, b, evs + [ev], Step(net, b, w, ev))
  {
    hide GoodMessage, Decode, ParseAll, Completed, AllAccepted;
    StepValid(net, b, w, ev);
    assert (evs + [ev])[..|evs|] == evs;
    var w' := Step(net, b, w, ev);
    if Accepts(b, ev.text, ev.ok) {
      EncodeDecodes(b, w.senders[ev.who], ev.text);
      assert DecodeAll(b, w'.inFlight) == DecodeAll(b, w.inFlight) + [ev.text];
      assert Pair(Sent(b, evs + [ev]), Rounds(evs + [ev])) == Pair(Sent(b, evs), Rounds(evs));
    }
  }

  /** What a round does to the slot: it counts the message held, the refused prefix and the failure. */
  lemma RoundSlot(net: Net, s: Slot, text: string, errno: int, handleOk: bool)
    requires !s.Crashed?
    ensures var o := Parse(net, text, errno);
            var s' := SlotAfter(s, o, handleOk);
            var refused, failed := !PrefixAccepted(text, errno), o.addr.None? || !handleOk;
            && (s'.Crashed? <==> (s.Holds? && (refused || failed)) || (refused && failed))
            && (s'.Empty? <==> s.Empty? && !refused)
            && (o.addr.Some? ==> (s.PutAll(o.errors).Crashed? <==> s.Holds? && refused))
  {
    hide Parse, PrefixAccepted;
    ErrorCount(net, text, errno);
    PutAllCrashes(s, Parse(net, text, errno).errors);
  }

  lemma CompletedNext(net: Net, rs: seq<Received>, r: Received)
    ensures Completed(rs + [r]) == if !Accepted(r) && !AllAccepted(rs) then rs else rs + [r]
    ensures AllAccepted(rs + [r]) <==> AllAccepted(rs) && Accepted(r)
    ensures ParseAll(net, rs + [r])
         == ParseAll(net, rs) + (var o := Parse(net, r.text, r.errno); if o.addr.Some? then [o.addr.value] else [])
  {
    hide Parse, Accepted;
    assert (rs + [r])[..|rs|] == rs;
    if AllAccepted(rs + [r]) {
      assert forall i :: 0 <= i < |rs| ==> (rs + [r])[i] == rs[i];
      assert (rs + [r])[|rs|] == r;
    }
  }

  /** A round keeps the account of what was handled. */
  lemma RoundHandles(net: Net, w: World, w': World, r: Received, handleOk: bool)
    requires !w.slot.Crashed? && (w.slot.Empty? <==> AllAccepted(w.received))
    requires Completed(w.received) == w.received && w.handled == ParseAll(net, w.received)
    requires w'.received == w.received + [r]
    requires var o := Parse(net, r.text, r.errno);
             w'.slot == SlotAfter(w.slot, o, handleOk) && w'.handled == HandledAfter(w.handled, w.slot, o)
    ensures w'.handled == ParseAll(net, Completed(w'.received))
    ensures !w'.slot.Crashed? ==> Completed(w'.received) == w'.received
    ensures w'.slot.Empty? <==> AllAccepted(w'.received)
  {
    RoundSlot(net, w.slot, r.text, r.errno, handleOk);
    CompletedNext(net, w.received, r);
    hide Parse, SlotAfter, Completed, AllAccepted, ParseAll, PrefixAccepted;
  }

  /** A round keeps the account of what was sent. */
  lemma RoundReceives(b: Backend, sent: seq<string>, rounds: seq<int>, errno: int, ms: seq<seq<char>>)
    requires ms != [] && forall i :: 0 <= i < |ms| ==> GoodMessage(b, ms[i])
    requires |rounds| <= |sent| && DecodeAll(b, ms) == sent[|rounds|..]
    ensures |rounds| < |sent| && Decode(b, ms[0]) == sent[|rounds|]
    ensures DecodeAll(b, ms[1..]) == sent[|rounds| + 1..]
    ensures Pair(sent, rounds + [errno]) == Pair(sent, rounds) + [Received(Decode(b, ms[0]), errno)]
  {
    hide GoodMessage, Decode;
    assert DecodeAll(b, ms)[0] == sent[|rounds|];
    assert DecodeAll(b, ms[1..]) == DecodeAll(b, ms)[1..] == sent[|rounds| + 1..];
  }

  lemma ServeConserves(net: Net, b: Backend, evs: seq<Event>, w: World, ev: Event)
    requires Valid(b, w) && CanStep(b, w, ev) && Conserved(net, b, evs, w) && !ev.Send?
    ensures Valid(b, Step(net, b, w, ev)) && Conserved(net, b, evs + [ev], Step(net, b, w, ev))
  {
    hide Parse, SlotAfter, GoodMessage, Decode, HandledAfter, Accepts, DecodeAll, Pair;
    hide ParseAll, Completed, AllAccepted;
    StepValid(net, b, w, ev);
    assert (evs + [ev])[..|evs|] == evs;
    assert Sent(b, evs + [ev]) == Sent(b, evs);
    if ev.ReceiveFails? {
      assert Rounds(evs + [ev]) == Rounds(evs);
    } else {
      hide Step;
      ServedText(net, b, w, ev);
      RoundReceives(b, Sent(b, evs), Rounds(evs), ev.errno, w.inFlight);
      RoundHandles(net, w, Step(net, b, w, ev), Received(Decode(b, w.inFlight[0]), ev.errno), ev.handleOk);
    }
  }

  /**
   Over every interleaving of sends and rounds, with any failures and any stale bytes in the buffers, the
   texts received are, in order, the first ones sent, the others are in flight, and the addresses passed to
   the engine are exactly, in order, the parses of the texts received.  While the daemon lives that is all of
   them; it may have ended while it parsed the last one.
   */
  lemma {:induction false} EndToEnd(net: Net, b: Backend, w0: World, evs: seq<Event>)
    requires Start(b, w0) && Run(net, b, w0, evs).Some?
    ensures Conserved(net, b, evs, Run(net, b, w0, evs).value)
  {
    hide Step, CanStep, Conserved, Valid;
    if evs == [] {
      NothingSent(net, b, w0);
    } else {
      var before, ev := evs[..|evs| - 1], evs[|evs| - 1];
      EndToEnd(net, b, w0, before);
      if ev.Send? {
        SendConserves(net, b, before, Run(net, b, w0, before).value, ev);
      } else {
        ServeConserves(net, b, before, Run(net, b, w0, before).value, ev);
      }
      assert before + [ev] == evs;
    }
  }

  lemma NothingSent(net: Net, b: Backend, w0: World)
    requires Start(b, w0)
    ensures Conserved(net, b, [], w0)
  {
    assert Pair([], []) == [];
  }

  // ---- the end of the daemon ----

  /** What one turn of the loop reports: a refused prefix, which does not stop it, and a failure, which does. */
  datatype Report = Report(refused: bool, failed: bool)

  /** The reports of a run, by what was sent and what the system does: neither buffers nor slots matter. */
  function Log(net: Net, b: Backend, evs: seq<Event>): seq<Report> {
    if evs == [] then []
    else
      var before, ev := evs[..|evs| - 1], evs[|evs| - 1];
      Log(net, b, before)
      + match ev
        case Send(_, _, _) => []
        case ReceiveFails => [Report(false, true)]
        case Serve(errno, handleOk) =>
          var n := |Rounds(before)|;
          if n < |Sent(b, before)| then [RoundReport(net, Sent(b, before)[n], errno, handleOk)] else []
  }

  function RoundReport(net: Net, text: string, errno: int, handleOk: bool): Report {
    Report(!PrefixAccepted(text, errno), Parse(net, text, errno).addr.None? || !handleOk)
  }

  /** Turn `j` reports an error while the message of the refused prefix of turn `i` is in the slot. */
  predicate Meets(log: seq<Report>, i: nat, j: nat)
    requires i <= j < |log|
  {
    log[i].refused && if i == j then log[j].failed else log[j].refused || log[j].failed
  }

  ghost predicate Overwrites(log: seq<Report>) {
    exists i: nat, j: nat :: i <= j < |log| && Meets(log, i, j)
  }

  ghost predicate SomeRefused(log: seq<Report>) {
    exists i :: 0 <= i < |log| && log[i].refused
  }

  /** The slot as the log explains it. */
  ghost predicate Explains(log: seq<Report>, s: Slot) {
    && (s.Crashed? <==> Overwrites(log))
    && (s.Empty? <==> !SomeRefused(log))
  }

  lemma ExplainsNext(log: seq<Report>, s: Slot, r: Report, s': Slot)
    requires Explains(log, s) && !s.Crashed?
    requires s'.Crashed? <==> (s.Holds? && (r.refused || r.failed)) || (r.refused && r.failed)
    requires s'.Empty? <==> s.Empty? && !r.refused
    ensures Explains(log + [r], s')
  {
    var log', n := log + [r], |log|;
    assert log'[n] == r;
    if i :| 0 <= i < n && log[i].refused {
      assert log'[i].refused;
      assert Meets(log', i, n) <==> r.refused || r.failed;
    }
    assert Meets(log', n, n) <==> r.refused && r.failed;
    if i: nat, j: nat :| i <= j < |log'| && Meets(log', i, j) {
      if j < n {
        assert Meets(log, i, j);
      } else if i < n {
        assert log[i].refused;
      }
    }
    if i :| 0 <= i < |log'| && log'[i].refused && i != n {
      assert log[i].refused;
    }
  }

  lemma TurnExplained(net: Net, b: Backend, evs: seq<Event>, w: World, ev: Event)
    requires Valid(b, w) && CanStep(b, w, ev) && Conserved(net, b, evs, w) && Explains(Log(net, b, evs), w.slot)
    ensures Explains(Log(net, b, evs + [ev]), Step(net, b, w, ev).slot)
  {
    hide Parse, SlotAfter, GoodMessage, Decode, HandledAfter, Accepts, PrefixAccepted, Explains, DecodeAll, Pair;
    assert (evs + [ev])[..|evs|] == evs;
    match ev {
      case Send(_, _, _) =>
        assert Log(net, b, evs) + [] == Log(net, b, evs);
      case ReceiveFails =>
        ExplainsNext(Log(net, b, evs), w.slot, Report(false, true), Step(net, b, w, ev).slot);
      case Serve(errno, handleOk) =>
        hide Step;
        ServedText(net, b, w, ev);
        RoundReceives(b, Sent(b, evs), Rounds(evs), errno, w.inFlight);
        var text := Sent(b, evs)[|Rounds(evs)|];
        RoundSlot(net, w.slot, text, errno, handleOk);
        ExplainsNext(Log(net, b, evs), w.slot, RoundReport(net, text, errno, handleOk), Step(net, b, w, ev).slot);
    }
  }

  /**
   Over every run, the daemon has ended exactly when some round with a refused prefix also failed, or was
   followed by a turn that reported anything; and its slot is empty exactly when no prefix was refused.
   */
  lemma {:induction false} CrashIff(net: Net, b: Backend, w0: World, evs: seq<Event>)
    requires Start(b, w0) && Run(net, b, w0, evs).Some?
    ensures var w := Run(net, b, w0, evs).value;
            && (w.slot.Crashed? <==> Overwrites(Log(net, b, evs)))
            && (w.slot.Empty? <==> !SomeRefused(Log(net, b, evs)))
  {
    hide Step, CanStep, Conserved, Log;
    if evs == [] {
      assert Log(net, b, []) == [] by { EmptyLog(net, b); }
    } else {
      var before, ev := evs[..|evs| - 1], evs[|evs| - 1];
      CrashIff(net, b, w0, before);
      EndToEnd(net, b, w0, before);
      TurnExplained(net, b, before, Run(net, b, w0, before).value, ev);
      assert before + [ev] == evs;
    }
  }

  lemma EmptyLog(net: Net, b: Backend)
    ensures Log(net, b, []) == []
  {
  }

  lemma InFlightCount(net: Net, b: Backend, evs: seq<Event>, w: World)
    requires Valid(b, w) && Conserved(net, b, evs, w)
    ensures |w.inFlight| == |Sent(b, evs)| - |Rounds(evs)|
    ensures DecodeAll(b, w.inFlight) == Sent(b, evs)[|Rounds(evs)|..]
  {
    hide Sent, Rounds, ParseAll, Completed, AllAccepted;
    assert |DecodeAll(b, w.inFlight)| == |w.inFlight|;
  }

  lemma RunNext(net: Net, b: Backend, w0: World, evs: seq<Event>, ev: Event)
    requires Valid(b, w0) && Run(net, b, w0, evs).Some?
    ensures var w := Run(net, b, w0, evs).value;
            Run(net, b, w0, evs + [ev]) == if CanStep(b, w, ev) then Some(Step(net, b, w, ev)) else None
  {
    hide Step, CanStep, Valid;
    assert (evs + [ev])[..|evs|] == evs;
  }

  /** So whether the loop can take another turn is known from what was sent and what has been reported. */
  lemma NextTurnIff(net: Net, b: Backend, w0: World, evs: seq<Event>, ev: Event)
    requires Start(b, w0) && Run(net, b, w0, evs).Some? && !ev.Send?
    ensures Run(net, b, w0, evs + [ev]).Some?
       <==> !Overwrites(Log(net, b, evs)) && (ev.Serve? ==> |Rounds(evs)| < |Sent(b, evs)|)
  {
    hide Run, Step, Log, Overwrites, SomeRefused, Valid, Conserved;
    var w := Run(net, b, w0, evs).value;
    CrashIff(net, b, w0, evs);
    EndToEnd(net, b, w0, evs);
    InFlightCount(net, b, evs, w);
    RunNext(net, b, w0, evs, ev);
  }

  // ---- a refused prefix, and then any error ----

  /** One sender sends these texts. */
  function Sends(ts: seq<string>): (evs: seq<Event>)
    ensures |evs| == |ts|
  {
    seq(|ts|, i requires 0 <= i < |ts| => Send(0, ts[i], true))
  }

  ghost predicate Sendable(b: Backend, ts: seq<string>) {
    forall i :: 0 <= i < |ts| ==> NUL !in ts[i] && Fits(b, ts[i]) && Accepts(b, ts[i], true)
  }

  lemma {:induction false} SendsRun(net: Net, b: Backend, w0: World, ts: seq<string>)
    requires Start(b, w0) && |w0.senders| > 0 && Sendable(b, ts)
    ensures Run(net, b, w0, Sends(ts)).Some? && |Run(net, b, w0, Sends(ts)).value.senders| == |w0.senders|
    ensures Sent(b, Sends(ts)) == ts && Rounds(Sends(ts)) == [] && Log(net, b, Sends(ts)) == []
  {
    hide Valid, Accepts, Fits, Step, Run, Sent, Rounds, Log, Sends;
    if ts == [] {
      NoSends(net, b, w0);
    } else {
      var rest, t := ts[..|ts| - 1], ts[|ts| - 1];
      var ev := Send(0, t, true);
      SendsRun(net, b, w0, rest);
      SendKeepsSenders(net, b, Run(net, b, w0, Sends(rest)).value, ev);
      SendsNext(rest, t);
      RunNext(net, b, w0, Sends(rest), ev);
      NextCounts(net, b, Sends(rest), ev);
      assert rest + [t] == ts;
    }
  }

  lemma NoSends(net: Net, b: Backend, w0: World)
    requires Valid(b, w0)
    ensures Run(net, b, w0, Sends([])) == Some(w0)
    ensures Sent(b, Sends([])) == [] && Rounds(Sends([])) == [] && Log(net, b, Sends([])) == []
  {
  }

  lemma SendsNext(ts: seq<string>, t: string)
    ensures Sends(ts + [t]) == Sends(ts) + [Send(0, t, true)]
  {
  }

  lemma SendKeepsSenders(net: Net, b: Backend, w: World, ev: Event)
    requires Valid(b, w) && CanStep(b, w, ev)
    ensures |Step(net, b, w, ev).senders| == |w.senders|
  {
    hide Parse;
  }

  lemma NextCounts(net: Net, b: Backend, evs: seq<Event>, ev: Event)
    ensures Sent(b, evs + [ev]) == Sent(b, evs) + if ev.Send? && Accepts(b, ev.text, ev.ok) then [ev.text] else []
    ensures Rounds(evs + [ev]) == Rounds(evs) + if ev.Serve? then [ev.errno] else []
    ensures ev.Send? ==> Log(net, b, evs + [ev]) == Log(net, b, evs)
    ensures ev.Serve? && |Rounds(evs)| < |Sent(b, evs)| ==>
              Log(net, b, evs + [ev])
              == Log(net, b, evs) + [RoundReport(net, Sent(b, evs)[|Rounds(evs)|], ev.errno, ev.handleOk)]
  {
    hide RoundReport, Accepts;
    assert (evs + [ev])[..|evs|] == evs;
  }

  lemma TwoReports(r1: Report, r2: Report)
    requires r1.refused && !r1.failed && (r2.refused || r2.failed)
    ensures !Overwrites([]) && !Overwrites([r1]) && Overwrites([r1, r2])
  {
    assert Meets([r1, r2], 0, 1);
  }

  /**
   If the first of the texts has a refused prefix and is banned all the same, and the second makes the loop
   report anything, the daemon ends there: the texts after it stay in the queue, and no turn is possible.
   */
  lemma EndsEarly(net: Net, b: Backend, w0: World, ts: seq<string>, e1: int, e2: int, handleOk: bool, ev: Event)
    requires Start(b, w0) && |w0.senders| > 0 && Sendable(b, ts) && |ts| >= 2 && !ev.Send?
    requires RoundReport(net, ts[0], e1, true) == Report(true, false)
    requires var r := RoundReport(net, ts[1], e2, handleOk); r.refused || r.failed
    ensures var evs := Sends(ts) + [Serve(e1, true)] + [Serve(e2, handleOk)];
            && Run(net, b, w0, evs).Some?
            && Run(net, b, w0, evs).value.slot.Crashed?
            && DecodeAll(b, Run(net, b, w0, evs).value.inFlight) == ts[2..]
            && Run(net, b, w0, evs + [ev]).None?
  {
    hide Run, Log, Sent, Rounds, RoundReport, Valid, SomeRefused, Overwrites, Conserved, Sendable, Sends;
    var evs0 := Sends(ts);
    var evs1 := evs0 + [Serve(e1, true)];
    var evs2 := evs1 + [Serve(e2, handleOk)];
    SendsRun(net, b, w0, ts);
    NextCounts(net, b, evs0, Serve(e1, true));
    NextCounts(net, b, evs1, Serve(e2, handleOk));
    TwoReports(RoundReport(net, ts[0], e1, true), RoundReport(net, ts[1], e2, handleOk));
    assert Log(net, b, evs1) == [RoundReport(net, ts[0], e1, true)];
    assert Log(net, b, evs2) == [RoundReport(net, ts[0], e1, true), RoundReport(net, ts[1], e2, handleOk)];
    NextTurnIff(net, b, w0, evs0, Serve(e1, true));
    NextTurnIff(net, b, w0, evs1, Serve(e2, handleOk));
    CrashIff(net, b, w0, evs2);
    EndToEnd(net, b, w0, evs2);
    InFlightCount(net, b, evs2, Run(net, b, w0, evs2).value);
    NextTurnIff(net, b, w0, evs2, ev);
  }

  /** A prefix that does not begin like a number is refused, and then read as 0. */
  lemma NotANumber(s: string, errno: int)
    requires s != "" && !IsSpace(s[0]) && !IsSign(s[0]) && !IsDigit(s[0])
    ensures Complaint(s, errno).Some? && Strtoul(s, errno).value == 0
  {
    SpanOf(IsSpace, s, 0);
    assert s[0..] == s;
    SpanOf(IsDigit, s, 0);
  }

  /** Such an address is banned as a /0, as in "10.0.0.1/x", and its error stays in the slot. */
  lemma RefusedAndBanned(net: Net, fa: Family, host: string, raw: seq<byte>, prefix: string, errno: int)
    requires '/' !in host && |host| < HUMANREPR_SIZE
    requires net.numericFamily(host) == Some(fa) && Spells(net, fa, host, raw)
    requires prefix != "" && !IsSpace(prefix[0]) && !IsSign(prefix[0]) && !IsDigit(prefix[0])
    ensures RoundReport(net, host + "/" + prefix, errno, true) == Report(true, false)
    ensures Parse(net, host + "/" + prefix, errno).addr.value.netmask == 0
  {
    hide Parse, Strtoul, Complaint;
    var s := host + "/" + prefix;
    SplitAtSlash(host, prefix);
    NotANumber(prefix, errno);
    ParsesIff(net, s, errno, fa);
    ParsedNetwork(net, s, errno);
  }

  /** A text that is no address at all, as "zzz", makes the loop report that. */
  lemma NoAddress(net: Net, text: string, errno: int, handleOk: bool)
    requires '/' !in text && net.pton4(text).None? && net.pton6(text).None?
    ensures RoundReport(net, text, errno, handleOk) == Report(false, true)
  {
  }

  /** Ordinary texts, with the usual answers of `inet_pton` and `getaddrinfo`: the third one is never banned. */
  lemma EndsEarlyWitness(net: Net, b: Backend, w0: World, errno: int, handleOk: bool, ev: Event)
    requires Start(b, w0) && |w0.senders| > 0 && !ev.Send? && Sendable(b, ["10.0.0.1/x", "zzz", "10.0.0.2"])
    requires net.numericFamily("10.0.0.1") == Some(Inet) && Spells(net, Inet, "10.0.0.1", [10, 0, 0, 1])
    requires net.pton4("zzz").None? && net.pton6("zzz").None?
    ensures var evs := Sends(["10.0.0.1/x", "zzz", "10.0.0.2"]) + [Serve(errno, true)] + [Serve(errno, handleOk)];
            && Run(net, b, w0, evs).Some?
            && DecodeAll(b, Run(net, b, w0, evs).value.inFlight) == ["10.0.0.2"]
            && Run(net, b, w0, evs + [ev]).None?
  {
    hide RoundReport, Run, Valid, Sendable, Sends, Spells, Parse;
    var ts := ["10.0.0.1/x", "zzz", "10.0.0.2"];
    assert "10.0.0.1" + "/" + "x" == "10.0.0.1/x";
    RefusedAndBanned(net, Inet, "10.0.0.1", [10, 0, 0, 1], "x", errno);
    NoAddress(net, "zzz", errno, handleOk);
    EndsEarly(net, b, w0, ts, errno, errno, handleOk, ev);
    assert ts[2..] == ["10.0.0.2"];
  }

  // ---- the error slot ----

  /**
   From an empty slot, a round leaves it empty exactly when the prefix of its message was accepted, whatever
   the engine does.
   */
  lemma CleanRoundIff(net: Net, s: Slot, text: string, errno: int, handleOk: bool)
    requires s.Empty?
    ensures SlotAfter(s, Parse(net, text, errno), handleOk).Empty? <==> PrefixAccepted(text, errno)
  {
    RoundSlot(net, s, text, errno, handleOk);
  }

  /** The slot is empty at every head of the loop, and the overwrite branch is never taken. */
  ghost predicate AlwaysClean(net: Net, b: Backend, w0: World, evs: seq<Event>)
    requires Valid(b, w0)
  {
    forall i :: 0 <= i <= |evs| && Run(net, b, w0, evs[..i]).Some? ==> Run(net, b, w0, evs[..i]).value.slot.Empty?
  }

  lemma {:induction false} ReceivedGrows(net: Net, b: Backend, w0: World, evs: seq<Event>, i: nat)
    requires Valid(b, w0) && Run(net, b, w0, evs).Some? && i <= |evs|
    ensures Run(net, b, w0, evs[..i]).Some?
    ensures Run(net, b, w0, evs[..i]).value.received <= Run(net, b, w0, evs).value.received
    decreases |evs|
  {
    hide Valid, CanStep;
    if i == |evs| {
      assert evs[..i] == evs;
    } else {
      var before := evs[..|evs| - 1];
      ReceivedGrows(net, b, w0, before, i);
      assert before[..i] == evs[..i];
      StepReceives(net, b, Run(net, b, w0, before).value, evs[|evs| - 1]);
    }
  }

  lemma StepReceives(net: Net, b: Backend, w: World, ev: Event)
    requires Valid(b, w) && CanStep(b, w, ev)
    ensures w.received <= Step(net, b, w, ev).received
  {
    hide Parse, SlotAfter, HandledAfter;
  }

  lemma CleanPrefix(net: Net, b: Backend, w0: World, evs: seq<Event>, i: nat)
    requires Start(b, w0) && Run(net, b, w0, evs).Some? && i <= |evs|
    ensures Run(net, b, w0, evs[..i]).Some?
    ensures AllAccepted(Run(net, b, w0, evs).value.received) ==> Run(net, b, w0, evs[..i]).value.slot.Empty?
    ensures i == |evs| ==>
              (Run(net, b, w0, evs).value.slot.Empty? <==> AllAccepted(Run(net, b, w0, evs).value.received))
  {
    hide Run, Valid, Accepted, Completed, ParseAll;
    ReceivedGrows(net, b, w0, evs, i);
    EndToEnd(net, b, w0, evs[..i]);
    assert i == |evs| ==> evs[..i] == evs;
  }

  /** Over every run, that is so exactly when the prefix of every message received was accepted. */
  lemma CleanRunIff(net: Net, b: Backend, w0: World, evs: seq<Event>)
    requires Start(b, w0) && Run(net, b, w0, evs).Some?
    ensures AlwaysClean(net, b, w0, evs) <==> AllAccepted(Run(net, b, w0, evs).value.received)
  {
    hide Run, Valid, Conserved, AllAccepted;
    forall i | 0 <= i <= |evs| && Run(net, b, w0, evs[..i]).Some?
      ensures AllAccepted(Run(net, b, w0, evs).value.received) ==> Run(net, b, w0, evs[..i]).value.slot.Empty?
    {
      CleanPrefix(net, b, w0, evs, i);
    }
    assert evs[..|evs|] == evs;
    CleanPrefix(net, b, w0, evs, |evs|);
  }
}
