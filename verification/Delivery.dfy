/**
 How a text travels from `queue_send` to the buffer of the daemon, byte by byte, for both backends
 (queues/posix.c, queues/systemv.c).  Buffers are reused, so they start out with arbitrary stale bytes.
 */
module Delivery {
  import opened CStrings

  /** The backend and the size the kernel gives: `mq_msgsize`, or `msg_qbytes`. */
  datatype Backend = Posix(msgsize: nat) | SystemV(qbytes: nat)

  /** `q->buffer_size`: the number of bytes each System V message has. */
  function MessageSize(qbytes: nat): nat {
    qbytes / 8
  }

  /** The bytes after `mtype` in the allocation of `sizeof(long) + sizeof(char *) * buffer_size`. */
  function TextRoom(qbytes: nat): nat {
    8 * MessageSize(qbytes)
  }

  /** The size of the daemon's buffer: the maximum message size it was told, plus one. */
  function DaemonRoom(b: Backend): nat {
    match b
    case Posix(msgsize) => msgsize + 1
    case SystemV(qbytes) => qbytes + 1
  }

  /** `strcpy` of a text into a buffer. */
  function Filled(m: seq<char>, t: string): seq<char>
    requires |t| < |m|
  {
    t + [NUL] + m[|t| + 1..]
  }

  /** A message copied over the front of a buffer. */
  function Overlaid(m: seq<char>, d: seq<char>): seq<char>
    requires |d| <= |m|
  {
    d + m[|d|..]
  }

  lemma FilledText(m: seq<char>, t: string)
    requires |t| < |m| && NUL !in t
    ensures NUL in Filled(m, t) && CText(Filled(m, t)) == t
  {
    TerminatedText(Filled(m, t), t);
  }

  // ---- one message ----

  /** The caller may send this text: the code does not check it. */
  predicate Fits(b: Backend, t: string) {
    match b
    case Posix(_) => true
    case SystemV(qbytes) => |t| < MessageSize(qbytes)
  }

  /** A message of the library.  For POSIX that is any message that the kernel takes, whoever sent it. */
  predicate GoodMessage(b: Backend, m: seq<char>) {
    match b
    case Posix(msgsize) => |m| <= msgsize
    case SystemV(qbytes) => |m| == MessageSize(qbytes) && NUL in m
  }

  /** The text that it stands for: a terminator inside ends it early. */
  function Decode(b: Backend, m: seq<char>): string
    requires GoodMessage(b, m)
  {
    match b
    case Posix(_) => CText(m + [NUL])
    case SystemV(_) => CText(m)
  }

  /** The bytes transmitted for a text by a sender whose buffer holds `mtext`. */
  function Encode(b: Backend, mtext: seq<char>, t: string): seq<char>
    requires b.SystemV? ==> |t| < |mtext| && |mtext| == TextRoom(b.qbytes)
  {
    match b
    case Posix(_) => t
    case SystemV(qbytes) => Filled(mtext, t)[..MessageSize(qbytes)]
  }

  /**
   Receiving the message stays in bounds.  A System V message, which may come from another program, must fit
   the receiver's own buffer, and that buffer must hold a string afterwards.
   */
  predicate Receivable(b: Backend, rtext: seq<char>, m: seq<char>) {
    match b
    case Posix(msgsize) => |m| <= msgsize
    case SystemV(qbytes) => |m| <= |rtext| == TextRoom(qbytes) && NUL in Overlaid(rtext, m)
  }

  /** The receiver's own buffer after a message. */
  function ReceivedInto(b: Backend, rtext: seq<char>, m: seq<char>): seq<char>
    requires Receivable(b, rtext, m)
  {
    if b.Posix? then rtext else Overlaid(rtext, m)
  }

  /** The text that the caller of `queue_receive` is given. */
  function TextRead(b: Backend, rtext: seq<char>, m: seq<char>): string
    requires Receivable(b, rtext, m)
  {
    match b
    case Posix(_) => CText(m + [NUL])
    case SystemV(_) => CText(Overlaid(rtext, m))
  }

  /** The daemon's buffer after a message. */
  function HandedOver(b: Backend, rtext: seq<char>, out: seq<char>, m: seq<char>): seq<char>
    requires Receivable(b, rtext, m) && |out| == DaemonRoom(b)
  {
    match b
    case Posix(_) => Filled(out, m)
    case SystemV(_) => Filled(out, CText(Overlaid(rtext, m)))
  }

  /** What is transmitted decodes to the text, whatever the sender's buffer held. */
  lemma EncodeDecodes(b: Backend, mtext: seq<char>, t: string)
    requires NUL !in t && Fits(b, t) && (b.Posix? ==> |t| <= b.msgsize)
    requires b.SystemV? ==> |mtext| == TextRoom(b.qbytes)
    ensures GoodMessage(b, Encode(b, mtext, t)) && Decode(b, Encode(b, mtext, t)) == t
  {
    if b.SystemV? {
      var m := Encode(b, mtext, t);
      assert m[..|t|] == t && m[|t|] == NUL;
      TerminatedText(m, t);
    } else {
      TerminatedText(t + [NUL], t);
    }
  }

  /** What reaches the daemon's buffer is the text read, whatever that buffer held. */
  lemma HandsOverText(b: Backend, rtext: seq<char>, out: seq<char>, m: seq<char>)
    requires Receivable(b, rtext, m) && |out| == DaemonRoom(b)
    ensures |HandedOver(b, rtext, out, m)| == |out| && NUL in HandedOver(b, rtext, out, m)
    ensures CText(HandedOver(b, rtext, out, m)) == TextRead(b, rtext, m)
  {
    match b
    case Posix(_) =>
      var t := CText(m + [NUL]);
      assert (m + [NUL])[..|t|] == t && (m + [NUL])[|t|] == NUL;
      assert HandedOver(b, rtext, out, m)[..|m| + 1] == m + [NUL];
      TerminatedText(HandedOver(b, rtext, out, m), t);
    case SystemV(_) => FilledText(out, CText(Overlaid(rtext, m)));
  }

  lemma OverlaidText(rtext: seq<char>, m: seq<char>)
    requires |m| <= |rtext| && NUL in m
    ensures NUL in Overlaid(rtext, m) && CText(Overlaid(rtext, m)) == CText(m)
  {
    TerminatedText(Overlaid(rtext, m), CText(m));
  }

  /** A message of the library can be received, and reads as its text, whatever the receiver's own buffer held. */
  lemma GoodReads(b: Backend, rtext: seq<char>, m: seq<char>)
    requires GoodMessage(b, m) && (b.SystemV? ==> |rtext| == TextRoom(b.qbytes))
    ensures Receivable(b, rtext, m) && TextRead(b, rtext, m) == Decode(b, m)
  {
    if b.SystemV? { OverlaidText(rtext, m); }
  }

  /** What a System V receiver reads, if its buffer holds a string at all after the message. */
  ghost predicate Arrives(qbytes: nat, mtext: seq<char>, rtext: seq<char>, t: string)
    requires |mtext| == |rtext| == TextRoom(qbytes) && |t| < TextRoom(qbytes)
  {
    var r := Overlaid(rtext, Encode(SystemV(qbytes), mtext, t));
    NUL in r && CText(r) == t
  }

  /**
   Texts shorter than the message size are exactly those that arrive whatever the buffers hold: a longer
   one is sent without its terminator, and what is read then depends on the receiver's stale bytes.
   */
  lemma ArrivesIffFits(qbytes: nat, t: string)
    requires |t| < TextRoom(qbytes) && NUL !in t
    ensures (forall mtext: seq<char>, rtext: seq<char> | |mtext| == |rtext| == TextRoom(qbytes) ::
               Arrives(qbytes, mtext, rtext, t))
       <==> 8 * (|t| + 1) <= qbytes
  {
    var n, room := MessageSize(qbytes), TextRoom(qbytes);
    if Fits(SystemV(qbytes), t) {
      forall mtext: seq<char>, rtext: seq<char> | |mtext| == |rtext| == room
        ensures Arrives(qbytes, mtext, rtext, t)
      {
        EncodeDecodes(SystemV(qbytes), mtext, t);
        OverlaidText(rtext, Encode(SystemV(qbytes), mtext, t));
      }
    } else {
      var stale: seq<char> := seq(room, i requires 0 <= i < room => if |t| == n && i == n then 'x' else NUL);
      var r := Overlaid(stale, Encode(SystemV(qbytes), stale, t));
      assert r[n] == stale[n];
      assert !Arrives(qbytes, stale, stale, t);
    }
  }
}
