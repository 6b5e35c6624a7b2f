/**
 * The byte-stream reader: one byte at a time from the non-blocking port, with a budget of
 * polling ticks (about 10 ms each; 0 means wait for ever).
 */
module ByteReader {
  import opened Wire
  import opened SerialLink

  /** The per-byte budget the protocol routines pass down. */
  const READ_TICKS: nat := 20

  /** What `read_target` ends with: one byte (it returns 1), a timeout (it returns 0), or, for an
      unlimited budget on a link that will never deliver another byte, no return at all. */
  datatype Reading = Got(b: byte) | TimedOut | Forever

  /** Why a protocol routine gave up, one kind per diagnostic the host prints. */
  datatype Fault =
    | NoHeaderAck   // no '!' after the header retries
    | BadChunkAck   // a group acknowledgement that is missing or is not '#'
    | ReadTimeout   // a byte of a result frame did not arrive in time
    | WriteError    // the port refused a byte
    | SyncError     // the handshake never saw ACK

  /** The outcome of a protocol routine: it returns 0, it returns -1 after printing why, or (only
      when waiting with an unlimited budget on a silent target) it never returns. */
  datatype Status = Ok | Failed(fault: Fault) | WaitsForever

  /** What `read_target` ends with on the script `s`, and what is left of the script. */
  datatype Polled = Polled(r: Reading, rest: seq<Poll>)

  /**
   * The reference reading of `read_target` with `timeout` ticks left: a poll that finds a byte
   * returns it; a poll that finds nothing spends a tick of a positive budget and gives up on the
   * last one, or, with no budget, waits for ever once nothing more will arrive.
   */
  function ReadOf(s: seq<Poll>, timeout: nat): (p: Polled)
    ensures |p.rest| <= |s|
    ensures p.r.Got? ==> |p.rest| < |s|
    ensures timeout > 0 ==> !p.r.Forever?
    ensures timeout == 0 ==> !p.r.TimedOut?
    ensures p.r.Forever? ==> p.rest == []
    decreases timeout, |s|
  {
    var q, later := NextPoll(s), Later(s);
    if q.Arrives? then Polled(Got(q.b), later)
    else if timeout == 1 then Polled(TimedOut, later)
    else if timeout > 1 then ReadOf(later, timeout - 1)
    else if later == [] then Polled(Forever, [])
    else ReadOf(later, 0)
  }

  /** A byte waiting at the first poll is read at once. */
  lemma ReadArrives(b: byte, s: seq<Poll>, timeout: nat)
    ensures ReadOf([Arrives(b)] + s, timeout) == Polled(Got(b), s)
  {
    assert Later([Arrives(b)] + s) == s;
  }

  /** On a silent target a positive budget times out and a zero budget waits for ever. */
  lemma {:induction false} ReadSilent(timeout: nat)
    ensures ReadOf([], timeout) == Polled(if timeout == 0 then Forever else TimedOut, [])
    decreases timeout
  {
    if timeout > 1 {
      ReadSilent(timeout - 1);
    }
  }

  /** `t` polls that find nothing, then a byte: a budget of more than `t` ticks reads the byte, a
      budget of at most `t` ticks times out before it. */
  lemma {:induction false} ReadAfterGap(t: nat, b: byte, s: seq<Poll>, timeout: nat)
    requires timeout > 0
    ensures var gap := seq(t, _ => Empty) + [Arrives(b)] + s;
      ReadOf(gap, timeout) == if t < timeout then Polled(Got(b), s) else Polled(TimedOut, gap[timeout..])
    decreases t
  {
    var gap := seq(t, _ => Empty) + [Arrives(b)] + s;
    if t > 0 {
      var shorter := seq(t - 1, _ => Empty) + [Arrives(b)] + s;
      assert Later(gap) == shorter;
      if timeout > 1 {
        ReadAfterGap(t - 1, b, s, timeout - 1);
        if t >= timeout {
          assert gap[timeout..] == shorter[timeout - 1..];
        }
      }
    } else {
      ReadArrives(b, s, timeout);
    }
  }

  /** `k` polls that find nothing spend `k` ticks of a positive budget, or the whole budget when
      it has at most `k` ticks; they spend nothing of a zero budget. */
  lemma {:induction false} ReadGap(k: nat, tail: seq<Poll>, t: nat)
    ensures ReadOf(seq(k, _ => Empty) + tail, t) ==
              if t > 0 && k >= t then Polled(TimedOut, seq(k - t, _ => Empty) + tail)
              else ReadOf(tail, if t == 0 then 0 else t - k)
    decreases k
  {
    if k > 0 {
      var later := seq(k - 1, _ => Empty) + tail;
      assert Later(seq(k, _ => Empty) + tail) == later;
      if t > 1 || (t == 0 && later != []) {
        ReadGap(k - 1, tail, if t == 0 then 0 else t - 1);
      } else if t == 0 {
        ReadSilent(0);
      }
    } else {
      assert seq(k, _ => Empty) + tail == tail;
    }
  }

  /** A script whose first `n` entries are empty polls is `n` empty polls and the rest. */
  lemma GapPrefix(s: seq<Poll>, n: nat)
    requires n <= |s| && forall i :: 0 <= i < n ==> s[i] == Empty
    ensures s == seq(n, _ => Empty) + s[n..]
  {
  }

  /**
   * `read_target`: poll until a byte arrives. Each failed poll spends one tick of a positive
   * budget, and the read gives up when the budget is spent; a zero budget never gives up.
   * `used` is how many entries of the script the polls consumed, `waited` how many polls
   * found nothing.
   */
  method ReadTarget(link: Link, budget: nat) returns (r: Reading, ghost used: nat, ghost waited: nat)
    modifies link
    ensures used <= |old(link.incoming)| && link.incoming == old(link.incoming)[used..]
    ensures link.outcomes == old(link.outcomes)
    ensures link.idlePolls == old(link.idlePolls) + waited
    ensures link.trace == old(link.trace) + (if r.Got? then [Recv(r.b)] else [])
    ensures budget > 0 ==> !r.Forever?
    ensures r.Got? ==>
      used == waited + 1 && old(link.incoming)[waited] == Arrives(r.b) &&
      (forall i :: 0 <= i < waited ==> old(link.incoming)[i] == Empty) &&
      (budget == 0 || waited < budget)
    ensures r.TimedOut? ==>
      budget > 0 && waited == budget && (used == budget || link.incoming == []) &&
      (forall i :: 0 <= i < used ==> old(link.incoming)[i] == Empty)
    ensures r.Forever? ==>
      budget == 0 && link.incoming == [] &&
      (forall i :: 0 <= i < used ==> old(link.incoming)[i] == Empty)
    ensures old(link.incoming) != [] && old(link.incoming)[0].Arrives? ==>
      r == Got(old(link.incoming)[0].b) && used == 1
    ensures ReadOf(old(link.incoming), budget) == Polled(r, link.incoming)
  {
    ghost var script := link.incoming;
    var timeout := budget;
    used, waited := 0, 0;
    while true
      invariant used <= |script| && link.incoming == script[used..]
      invariant link.outcomes == old(link.outcomes) && link.trace == old(link.trace)
      invariant link.idlePolls == old(link.idlePolls) + waited
      invariant forall i :: 0 <= i < used ==> script[i] == Empty
      invariant used == waited || (used < waited && link.incoming == [])
      invariant budget == 0 ==> timeout == 0
      invariant budget > 0 ==> waited < budget && timeout == budget - waited
      decreases timeout, |link.incoming|
    {
      var p := link.Read();
      if p.Arrives? {
        GapPrefix(script, used);
        ReadGap(used, script[used..], budget);
        ReadArrives(p.b, link.incoming, if budget == 0 then 0 else budget - used);
        used := used + 1;
        r := Got(p.b);
        return;
      }
      if used < |script| {
        used := used + 1;
      }
      waited := waited + 1;
      if timeout != 0 {
        timeout := timeout - 1;
        if timeout == 0 {
          GapPrefix(script, used);
          ReadGap(used, link.incoming, budget);
          if used < budget {
            ReadSilent(budget - used);
          }
          r := TimedOut;
          return;
        }
      } else if link.incoming == [] {
        // nothing will ever arrive: the source keeps polling for ever here
        GapPrefix(script, used);
        ReadGap(used, [], 0);
        ReadSilent(0);
        r := Forever;
        return;
      }
    }
  }

  /** What `read_flush` discards from the script `s`, and what is left of it. */
  datatype Flushed = Flushed(drained: seq<byte>, rest: seq<Poll>)

  /** The reference flush: every byte up to the first poll that finds nothing. */
  function FlushOf(s: seq<Poll>): (f: Flushed)
    ensures |f.rest| <= |s|
    decreases |s|
  {
    if s == [] then Flushed([], [])
    else if s[0].Empty? then Flushed([], s[1..])
    else var f := FlushOf(s[1..]); Flushed([s[0].b] + f.drained, f.rest)
  }

  /** A flush that has already drained `drained`, then does `f`. */
  function Resumed(drained: seq<byte>, f: Flushed): Flushed {
    if drained == [] then f else Flushed(drained + f.drained, f.rest)
  }

  /** A byte drained from the front of `s` joins the bytes already drained. */
  lemma FlushStep(drained: seq<byte>, s: seq<Poll>)
    requires s != [] && s[0].Arrives?
    ensures Resumed(drained, FlushOf(s)) == Resumed(drained + [s[0].b], FlushOf(s[1..]))
  {
    var f := FlushOf(s[1..]);
    assert drained + ([s[0].b] + f.drained) == drained + [s[0].b] + f.drained;
  }

  /** Flushing input that starts with a poll that finds nothing discards nothing. */
  lemma FlushQuiet(s: seq<Poll>)
    ensures FlushOf([Empty] + s) == Flushed([], s)
  {
    assert ([Empty] + s)[1..] == s;
  }

  /** `read_flush`: discard input until a poll finds nothing. */
  method ReadFlush(link: Link) returns (ghost drained: seq<byte>)
    modifies link
    ensures old(link.incoming) == Deliver(drained) + [Empty] + link.incoming ||
            (old(link.incoming) == Deliver(drained) && link.incoming == [])
    ensures link.trace == old(link.trace) + Recvs(drained)
    ensures link.outcomes == old(link.outcomes) && link.idlePolls == old(link.idlePolls) + 1
    ensures FlushOf(old(link.incoming)) == Flushed(drained, link.incoming)
  {
    ghost var script := link.incoming;
    drained := [];
    while true
      invariant |drained| <= |script| && link.incoming == script[|drained|..]
      invariant FlushOf(script) == Resumed(drained, FlushOf(link.incoming))
      invariant forall i :: 0 <= i < |drained| ==> script[i] == Arrives(drained[i])
      invariant link.trace == old(link.trace) + Recvs(drained)
      invariant link.outcomes == old(link.outcomes) && link.idlePolls == old(link.idlePolls)
      decreases |link.incoming|
    {
      ghost var before := link.incoming;
      var p := link.Read();
      if p.Empty? {
        assert FlushOf(before) == Flushed([], link.incoming);
        assert drained + [] == drained;
        assert script[..|drained|] == Deliver(drained);
        if |drained| < |script| {
          assert script == Deliver(drained) + [Empty] + link.incoming;
        } else {
          assert script == Deliver(drained);
        }
        return;
      }
      assert Recvs(drained + [p.b]) == Recvs(drained) + [Recv(p.b)];
      FlushStep(drained, before);
      drained := drained + [p.b];
    }
  }
}
