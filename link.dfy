/**
 * The serial port as the host sees it: a non-blocking byte channel to the target plus the
 * operator's console. The target's side is a script: the results the next polls will find and
 * the results the next writes will have. Everything the host does on the port is recorded, in
 * order, as a trace of events.
 */
module SerialLink {
  import opened Wire

  /** What one non-blocking one-byte `read()` finds: a byte, or nothing available yet. */
  datatype Poll = Arrives(b: byte) | Empty

  /** What one `write()` call does: the link takes the bytes, asks to try again later
      (EAGAIN / EWOULDBLOCK), or refuses them. */
  datatype WriteResult = Accepted | WouldBlock | Rejected

  /** What the host observably does, in order. */
  datatype Event =
    | Recv(b: byte)    // a byte read from the target
    | Sent(b: byte)    // a byte the link accepted for the target
    | Shown(b: byte)   // a byte echoed to the operator's console
    | Reconnected      // the port was closed and opened again

  /** The bytes of the Recv events, in order. */
  function Received(es: seq<Event>): (bs: seq<byte>)
    ensures |bs| <= |es|
  {
    if es == [] then []
    else
      var e := es[|es| - 1];
      Received(es[..|es| - 1]) + (if e.Recv? then [e.b] else [])
  }

  /** The bytes of the Sent events, in order. */
  function Transmitted(es: seq<Event>): (bs: seq<byte>)
    ensures |bs| <= |es|
  {
    if es == [] then []
    else
      var e := es[|es| - 1];
      Transmitted(es[..|es| - 1]) + (if e.Sent? then [e.b] else [])
  }

  /** Every byte of `bs` arriving at once, one per poll. */
  function Deliver(bs: seq<byte>): (polls: seq<Poll>)
    ensures |polls| == |bs|
    ensures forall i :: 0 <= i < |bs| ==> polls[i] == Arrives(bs[i])
  {
    seq(|bs|, i requires 0 <= i < |bs| => Arrives(bs[i]))
  }

  /** Reading the bytes `bs` one after the other. */
  function Recvs(bs: seq<byte>): (es: seq<Event>)
    ensures |es| == |bs|
    ensures forall i :: 0 <= i < |bs| ==> es[i] == Recv(bs[i])
  {
    seq(|bs|, i requires 0 <= i < |bs| => Recv(bs[i]))
  }

  /** Sending the bytes `bs` one after the other. */
  function Sends(bs: seq<byte>): (es: seq<Event>)
    ensures |es| == |bs|
    ensures forall i :: 0 <= i < |bs| ==> es[i] == Sent(bs[i])
  {
    seq(|bs|, i requires 0 <= i < |bs| => Sent(bs[i]))
  }

  /** Reading each byte of `bs` and echoing it to the console before reading the next. */
  function Echoes(bs: seq<byte>): (es: seq<Event>)
    ensures |es| == 2 * |bs|
  {
    if bs == [] then [] else Echoes(bs[..|bs| - 1]) + [Recv(bs[|bs| - 1]), Shown(bs[|bs| - 1])]
  }

  /** What the next poll finds on the script `s`: its first entry, or nothing once it is used up. */
  function NextPoll(s: seq<Poll>): Poll {
    if s == [] then Empty else s[0]
  }

  /** The script after one poll. */
  function Later(s: seq<Poll>): (t: seq<Poll>)
    ensures s != [] ==> |t| < |s|
    ensures s == [] ==> t == []
  {
    if s == [] then [] else s[1..]
  }

  /** What the next write does on the script `outs`: its first entry, or accepted once it is used up. */
  function NextResult(outs: seq<WriteResult>): WriteResult {
    if outs == [] then Accepted else outs[0]
  }

  /** The write script after one write. */
  function Pending(outs: seq<WriteResult>): (t: seq<WriteResult>)
    ensures outs != [] ==> |t| < |outs|
    ensures outs == [] ==> t == []
  {
    if outs == [] then [] else outs[1..]
  }

  /** `rest` is what the writes so far have left of the write script `outs`: a suffix of it. */
  predicate Remains(outs: seq<WriteResult>, rest: seq<WriteResult>) {
    |rest| <= |outs| && rest == outs[|outs| - |rest|..]
  }

  /** One write leaves a suffix of the write script. */
  lemma PendingRemains(outs: seq<WriteResult>)
    ensures Remains(outs, Pending(outs))
  {
  }

  /** What is left of what was left is left of the whole script, and holds no outcome the
      script does not hold. */
  lemma SuffixChain(outs: seq<WriteResult>, mid: seq<WriteResult>, last: seq<WriteResult>)
    requires Remains(outs, mid) && Remains(mid, last)
    ensures Remains(outs, last)
    ensures Rejected !in outs ==> Rejected !in last
  {
  }

  /** Regrouping events appended to a trace. */
  lemma Regroup(t: seq<Event>, a: seq<Event>, b: seq<Event>, c: seq<Event>)
    ensures t + a + b + c == t + (a + b + c)
    ensures t + a + b == t + (a + b)
  {
  }

  /** Sending `a` and then `b` is sending `a + b`. */
  lemma SendsAppend(t: seq<Event>, a: seq<byte>, b: seq<byte>)
    ensures t + Sends(a) + Sends(b) == t + Sends(a + b)
  {
    assert Sends(a) + Sends(b) == Sends(a + b);
  }

  /** Reading `a` and then `b` is reading `a + b`. */
  lemma RecvsAppend(t: seq<Event>, a: seq<byte>, b: seq<byte>)
    ensures t + Recvs(a) + Recvs(b) == t + Recvs(a + b)
  {
    assert Recvs(a) + Recvs(b) == Recvs(a + b);
  }

  /** Echoing one more byte appends its read and its echo. */
  lemma EchoesSnoc(t: seq<Event>, bs: seq<byte>, b: byte)
    ensures t + Echoes(bs) + [Recv(b)] + [Shown(b)] == t + Echoes(bs + [b])
  {
    assert (bs + [b])[..|bs|] == bs;
  }

  lemma {:induction false} ReceivedAppend(a: seq<Event>, b: seq<Event>)
    ensures Received(a + b) == Received(a) + Received(b)
    decreases |b|
  {
    if b != [] {
      var c := b[..|b| - 1];
      assert (a + b)[..|a + b| - 1] == a + c;
      ReceivedAppend(a, c);
    } else {
      assert a + b == a;
    }
  }

  lemma {:induction false} TransmittedAppend(a: seq<Event>, b: seq<Event>)
    ensures Transmitted(a + b) == Transmitted(a) + Transmitted(b)
    decreases |b|
  {
    if b != [] {
      var c := b[..|b| - 1];
      assert (a + b)[..|a + b| - 1] == a + c;
      TransmittedAppend(a, c);
    } else {
      assert a + b == a;
    }
  }

  /** Reading `bs` receives `bs` and sends nothing. */
  lemma {:induction false} RecvsProjection(bs: seq<byte>)
    ensures Received(Recvs(bs)) == bs
    ensures Transmitted(Recvs(bs)) == []
    decreases |bs|
  {
    if bs != [] {
      var c := bs[..|bs| - 1];
      assert Recvs(bs)[..|bs| - 1] == Recvs(c);
      RecvsProjection(c);
    }
  }

  /** Sending `bs` transmits `bs` and receives nothing. */
  lemma {:induction false} SendsProjection(bs: seq<byte>)
    ensures Received(Sends(bs)) == []
    ensures Transmitted(Sends(bs)) == bs
    decreases |bs|
  {
    if bs != [] {
      var c := bs[..|bs| - 1];
      assert Sends(bs)[..|bs| - 1] == Sends(c);
      SendsProjection(c);
    }
  }

  /** Echoing `bs` receives `bs` and sends nothing to the target. */
  lemma {:induction false} EchoesProjection(bs: seq<byte>)
    ensures Received(Echoes(bs)) == bs
    ensures Transmitted(Echoes(bs)) == []
    decreases |bs|
  {
    if bs != [] {
      var c := bs[..|bs| - 1];
      var x := bs[|bs| - 1];
      EchoesProjection(c);
      ReceivedAppend(Echoes(c), [Recv(x), Shown(x)]);
      TransmittedAppend(Echoes(c), [Recv(x), Shown(x)]);
      assert [Recv(x), Shown(x)][..1] == [Recv(x)];
      assert c + [x] == bs;
    }
  }

  /**
   * The file descriptor of the serial port, together with the target's scripted behaviour.
   * `incoming` is what the next polls will find; once it is used up every poll finds nothing.
   * `outcomes` is what the next writes will do; once it is used up every write is accepted.
   */
  class Link {
    var incoming: seq<Poll>
    var outcomes: seq<WriteResult>
    var trace: seq<Event>
    var idlePolls: nat    // polls that found nothing

    constructor (incoming: seq<Poll>, outcomes: seq<WriteResult>)
      ensures this.incoming == incoming && this.outcomes == outcomes
      ensures trace == [] && idlePolls == 0
    {
      this.incoming := incoming;
      this.outcomes := outcomes;
      trace := [];
      idlePolls := 0;
    }

    /** One non-blocking `read(fd, &c, 1)`. */
    method Read() returns (p: Poll)
      modifies this
      ensures p == NextPoll(old(incoming)) && incoming == Later(old(incoming))
      ensures trace == old(trace) + (if p.Arrives? then [Recv(p.b)] else [])
      ensures idlePolls == old(idlePolls) + (if p.Empty? then 1 else 0)
      ensures outcomes == old(outcomes)
    {
      if incoming == [] {
        p := Empty;
      } else {
        p := incoming[0];
        incoming := incoming[1..];
      }
      if p.Arrives? {
        trace := trace + [Recv(p.b)];
      } else {
        idlePolls := idlePolls + 1;
      }
    }

    /** One `write(fd, bs, |bs|)`: the link takes all of `bs` or none of it. */
    method Write(bs: seq<byte>) returns (w: WriteResult)
      modifies this
      ensures w == NextResult(old(outcomes)) && outcomes == Pending(old(outcomes))
      ensures trace == old(trace) + (if w == Accepted then Sends(bs) else [])
      ensures incoming == old(incoming) && idlePolls == old(idlePolls)
    {
      if outcomes == [] {
        w := Accepted;
      } else {
        w := outcomes[0];
        outcomes := outcomes[1..];
      }
      if w == Accepted {
        trace := trace + Sends(bs);
      }
    }

    /** `putc(b, stdout)`: show one byte on the operator's console. */
    method Show(b: byte)
      modifies this
      ensures trace == old(trace) + [Shown(b)]
      ensures incoming == old(incoming) && outcomes == old(outcomes) && idlePolls == old(idlePolls)
    {
      trace := trace + [Shown(b)];
    }

    /** Reopening the port: an opaque event. */
    method Reopen()
      modifies this
      ensures trace == old(trace) + [Reconnected]
      ensures incoming == old(incoming) && outcomes == old(outcomes) && idlePolls == old(idlePolls)
    {
      trace := trace + [Reconnected];
    }
  }
}
