/**
 * The bytecode transmitter: a 3-byte header acknowledged by '!', retried a few times, then the
 * payload in lockstep groups of at most 100 bytes, each acknowledged by '#'.
 */
module Transmitter {
  import opened Wire
  import opened SerialLink
  import opened ByteReader
  import opened Chunking

  /** Header sends before the transmitter gives up. */
  const HEADER_RETRIES: nat := 5

  /** One header round: the stale input flushed first, the result of writing the header (which
      the transmitter does not look at), and the read of the acknowledgement. */
  datatype HeaderAttempt = HeaderAttempt(flushed: seq<byte>, write: WriteResult, reply: Reading)

  /** The event a read leaves: the byte, if one came. */
  function ReplyEvents(r: Reading): seq<Event> {
    if r.Got? then [Recv(r.b)] else []
  }

  function HeaderAttemptEvents(h: seq<byte>, a: HeaderAttempt): seq<Event> {
    Recvs(a.flushed) + (if a.write == Accepted then Sends(h) else []) + ReplyEvents(a.reply)
  }

  /** The events of a sequence of header rounds, in order. */
  function HeaderEvents(h: seq<byte>, atts: seq<HeaderAttempt>): seq<Event> {
    if atts == [] then []
    else HeaderEvents(h, atts[..|atts| - 1]) + HeaderAttemptEvents(h, atts[|atts| - 1])
  }

  /** A header the port takes and the target answers at once: the header goes out and the '!'
      comes in. */
  lemma HeaderAtOnce(h: seq<byte>)
    ensures HeaderEvents(h, [HeaderAttempt([], Accepted, Got(HEADER_ACK))]) == Sends(h) + [Recv(HEADER_ACK)]
  {
    var atts := [HeaderAttempt([], Accepted, Got(HEADER_ACK))];
    assert atts[..0] == [];
    assert Recvs([]) == [];
  }

  lemma HeaderEventsSnoc(t: seq<Event>, h: seq<byte>, atts: seq<HeaderAttempt>, a: HeaderAttempt)
    ensures t + HeaderEvents(h, atts) + HeaderAttemptEvents(h, a) == t + HeaderEvents(h, atts + [a])
  {
    assert (atts + [a])[..|atts|] == atts;
  }

  /** The number of header rounds whose write the port took. */
  function Writes(atts: seq<HeaderAttempt>): (n: nat)
    ensures n <= |atts|
  {
    if atts == [] then 0
    else Writes(atts[..|atts| - 1]) + if atts[|atts| - 1].write == Accepted then 1 else 0
  }

  /** `n` copies of the header, back to back. */
  function Copies(h: seq<byte>, n: nat): seq<byte> {
    if n == 0 then [] else Copies(h, n - 1) + h
  }

  /** A header round sends the header if the port takes it, and nothing else. */
  lemma AttemptTransmits(h: seq<byte>, a: HeaderAttempt)
    ensures Transmitted(HeaderAttemptEvents(h, a)) == if a.write == Accepted then h else []
  {
    var flushed, sent, reply := Recvs(a.flushed), if a.write == Accepted then Sends(h) else [], ReplyEvents(a.reply);
    RecvsProjection(a.flushed);
    SendsProjection(h);
    assert Transmitted(reply) == [] by {
      if a.reply.Got? {
        assert reply[..0] == [];
      }
    }
    TransmittedAppend(flushed, sent);
    TransmittedAppend(flushed + sent, reply);
  }

  /** The header phase transmits nothing but whole copies of the header, one per write the port
      took. */
  lemma {:induction false} HeaderTransmits(h: seq<byte>, atts: seq<HeaderAttempt>)
    ensures Transmitted(HeaderEvents(h, atts)) == Copies(h, Writes(atts))
    decreases |atts|
  {
    if atts != [] {
      var init, a := atts[..|atts| - 1], atts[|atts| - 1];
      var before := HeaderEvents(h, init);
      assert HeaderEvents(h, atts) == before + HeaderAttemptEvents(h, a);
      HeaderTransmits(h, init);
      AttemptTransmits(h, a);
      TransmittedAppend(before, HeaderAttemptEvents(h, a));
      if a.write == Accepted {
        assert Copies(h, Writes(atts)) == Copies(h, Writes(init)) + h;
      } else {
        assert Writes(atts) == Writes(init);
        assert Copies(h, Writes(init)) + [] == Copies(h, Writes(init));
      }
    }
  }

  /**
   * What the payload phase left on the link, `rest`, for each way it can end: the whole lockstep
   * transfer; the transfer cut short inside group `g` by a refused write at offset `d`; or the
   * transfer cut short after group `g` was sent in full, by an acknowledgement `reply` that was
   * missing or was not '#'.
   */
  predicate UploadTrace(p: seq<byte>, st: Status, g: nat, d: nat, reply: Reading, rest: seq<Event>) {
    if st == Ok then
      rest == Lockstep(p, Upload)
    else if st == Failed(WriteError) then
      g % GROUP == 0 && g < |p| && g <= d < g + GroupSize(|p| - g) &&
      rest == Partial(p, g, d, Upload)
    else
      st == Failed(BadChunkAck) &&
      g % GROUP == 0 && g < |p| && d == g + GroupSize(|p| - g) &&
      !reply.Forever? && reply != Got(CHUNK_ACK) &&
      rest == Partial(p, g, d, Upload) + ReplyEvents(reply)
  }

  /** A group cut short by a refused write leaves a transfer cut short. */
  lemma UploadRefused(t: seq<Event>, p: seq<byte>, g: nat, e: nat) returns (rest: seq<Event>)
    requires g % GROUP == 0 && g < |p| && g <= e < g + GroupSize(|p| - g)
    ensures t + Lockstep(p[..g], Upload) + Sends(p[g..e]) == t + rest
    ensures UploadTrace(p, Failed(WriteError), g, e, TimedOut, rest)
  {
    rest := Partial(p, g, e, Upload);
  }

  /** A group sent in full but answered by something other than '#' leaves a transfer cut short
      and that answer. */
  lemma UploadUnacked(t: seq<Event>, p: seq<byte>, g: nat, e: nat, r: Reading) returns (rest: seq<Event>)
    requires g % GROUP == 0 && g < |p| && e == g + GroupSize(|p| - g)
    requires !r.Forever? && r != Got(CHUNK_ACK)
    ensures t + Lockstep(p[..g], Upload) + Sends(p[g..e]) + (if r.Got? then [Recv(r.b)] else []) == t + rest
    ensures UploadTrace(p, Failed(BadChunkAck), g, e, r, rest)
  {
    rest := Partial(p, g, e, Upload) + ReplyEvents(r);
    Regroup(t, Lockstep(p[..g], Upload), Sends(p[g..e]), ReplyEvents(r));
  }

  /** Sending one whole group and reading its '#' extends the lockstep transfer by that group,
      up to the next group boundary, with one group fewer left. */
  lemma UploadStep(t: seq<Event>, p: seq<byte>, g: nat, e: nat)
    requires g % GROUP == 0 && g < |p| && e == g + GroupSize(|p| - g)
    ensures t + Lockstep(p[..g], Upload) + Sends(p[g..e]) + [Recv(CHUNK_ACK)] == t + Lockstep(p[..e], Upload)
    ensures e % GROUP == 0 || e == |p|
    ensures ChunkCount(|p| - g) == 1 + ChunkCount(|p| - e)
  {
    NextBoundary(g, |p|);
    var done, c := Lockstep(p[..g], Upload), p[g..e];
    LockstepExtend(p, g, Upload);
    assert Lockstep(p[..e], Upload) == done + Carry(c, Upload) + [ChunkAck(Upload)];
    assert Carry(c, Upload) == Sends(c) && ChunkAck(Upload) == Recv(CHUNK_ACK);
    Regroup(t, done, Sends(c), [Recv(CHUNK_ACK)]);
  }

  /**
   * Whatever way an upload ends, the target has been sent a prefix of the payload, each byte
   * once and in order: all of it when the upload succeeded.
   */
  lemma UploadTransmits(p: seq<byte>, st: Status, g: nat, d: nat, reply: Reading, rest: seq<Event>)
    requires UploadTrace(p, st, g, d, reply, rest)
    ensures st == Ok ==> Transmitted(rest) == p && Received(rest) == Repeat(CHUNK_ACK, ChunkCount(|p|))
    ensures st != Ok ==> d <= |p| && Transmitted(rest) == p[..d]
  {
    if st == Ok {
      LockstepProjection(p, Upload);
    } else {
      PartialProjection(p, g, d, Upload);
      if st == Failed(BadChunkAck) {
        TransmittedAppend(Partial(p, g, d, Upload), ReplyEvents(reply));
        assert Transmitted(ReplyEvents(reply)) == [] by {
          if reply.Got? {
            assert ReplyEvents(reply)[..0] == [];
          }
        }
      }
    }
  }

  /** Whatever way an upload ends, what it left on the link agrees with the complete transfer
      up to the point where it stopped. */
  lemma UploadPrefix(p: seq<byte>, st: Status, g: nat, d: nat, reply: Reading, rest: seq<Event>)
    requires UploadTrace(p, st, g, d, reply, rest)
    requires st != Failed(BadChunkAck)
    ensures rest <= Lockstep(p, Upload)
  {
    if st == Failed(WriteError) {
      PartialIsPrefix(p, g, d, Upload);
    }
  }

  /** A header round, with what it leaves of the scripts. */
  datatype HeaderStep = HeaderStep(a: HeaderAttempt, incoming: seq<Poll>, outcomes: seq<WriteResult>)

  /** The reference header round on the input script `s` and the write outcomes `outs`. */
  function HeaderRoundOf(s: seq<Poll>, outs: seq<WriteResult>): (h: HeaderStep)
    ensures |h.incoming| <= |s|
  {
    var f := FlushOf(s);
    var r := ReadOf(f.rest, READ_TICKS);
    HeaderStep(HeaderAttempt(f.drained, NextResult(outs), r.r), r.rest, Pending(outs))
  }

  /** The header phase: the last byte read, its rounds, and what it leaves of the scripts. */
  datatype HeaderPhase = HeaderPhase(ack: byte, atts: seq<HeaderAttempt>, incoming: seq<Poll>, outcomes: seq<WriteResult>)

  /**
   * The reference header phase with `ack` read last and `retry` rounds left: no round once '!'
   * has been read or no retry is left; a round that reads nothing leaves `ack` as it was.
   */
  function HeaderLoop(s: seq<Poll>, outs: seq<WriteResult>, ack: byte, retry: nat): (h: HeaderPhase)
    ensures |h.atts| <= retry
    ensures ack == HEADER_ACK ==> h.atts == [] && h.ack == ack
    decreases retry
  {
    if ack == HEADER_ACK || retry == 0 then HeaderPhase(ack, [], s, outs)
    else
      var r := HeaderRoundOf(s, outs);
      var h := HeaderLoop(r.incoming, r.outcomes, if r.a.reply.Got? then r.a.reply.b else ack, retry - 1);
      HeaderPhase(h.ack, [r.a] + h.atts, h.incoming, h.outcomes)
  }

  /** The rest of a header phase, after the rounds `atts`. */
  function HeaderPrefixed(atts: seq<HeaderAttempt>, h: HeaderPhase): HeaderPhase {
    if atts == [] then h else HeaderPhase(h.ack, atts + h.atts, h.incoming, h.outcomes)
  }

  /** One round of the header phase, unfolded. */
  lemma HeaderUnfold(s: seq<Poll>, outs: seq<WriteResult>, ack: byte, retry: nat, r: HeaderStep)
    requires ack != HEADER_ACK && retry > 0 && r == HeaderRoundOf(s, outs)
    ensures var h := HeaderLoop(r.incoming, r.outcomes, if r.a.reply.Got? then r.a.reply.b else ack, retry - 1);
      HeaderLoop(s, outs, ack, retry) == HeaderPhase(h.ack, [r.a] + h.atts, h.incoming, h.outcomes)
  {
  }

  lemma HeaderLoopStep(s: seq<Poll>, outs: seq<WriteResult>, ack: byte, retry: nat, atts: seq<HeaderAttempt>, r: HeaderStep)
    requires ack != HEADER_ACK && retry > 0 && r == HeaderRoundOf(s, outs)
    ensures HeaderPrefixed(atts, HeaderLoop(s, outs, ack, retry)) ==
              HeaderPrefixed(atts + [r.a], HeaderLoop(r.incoming, r.outcomes, if r.a.reply.Got? then r.a.reply.b else ack, retry - 1))
  {
    var h := HeaderLoop(r.incoming, r.outcomes, if r.a.reply.Got? then r.a.reply.b else ack, retry - 1);
    PrefixedCons(atts, r.a, h);
    HeaderUnfold(s, outs, ack, retry, r);
  }

  /** Moving the round `a` from the rest of a phase to the rounds before it. */
  lemma PrefixedCons(atts: seq<HeaderAttempt>, a: HeaderAttempt, h: HeaderPhase)
    ensures HeaderPrefixed(atts, HeaderPhase(h.ack, [a] + h.atts, h.incoming, h.outcomes)) == HeaderPrefixed(atts + [a], h)
  {
    if atts == [] {
      assert atts + [a] == [a];
    } else {
      assert atts + ([a] + h.atts) == atts + [a] + h.atts;
    }
  }

  /**
   * The rounds of a header phase that has work to do: at least one; '!' read exactly when the
   * last round read it; every retry used when it never came.
   */
  lemma {:induction false} HeaderRounds(s: seq<Poll>, outs: seq<WriteResult>, ack: byte, retry: nat)
    requires ack != HEADER_ACK && retry > 0
    ensures HeaderLoop(s, outs, ack, retry).atts != []
    ensures var h := HeaderLoop(s, outs, ack, retry);
      h.atts != [] && (h.ack == HEADER_ACK <==> h.atts[|h.atts| - 1].reply == Got(HEADER_ACK))
    ensures var h := HeaderLoop(s, outs, ack, retry); h.ack != HEADER_ACK ==> |h.atts| == retry
    decreases retry
  {
    var r := HeaderRoundOf(s, outs);
    var next := if r.a.reply.Got? then r.a.reply.b else ack;
    var rest := HeaderLoop(r.incoming, r.outcomes, next, retry - 1);
    var h := HeaderPhase(rest.ack, [r.a] + rest.atts, rest.incoming, rest.outcomes);
    assert HeaderLoop(s, outs, ack, retry) == h;
    if next != HEADER_ACK && retry > 1 {
      HeaderRounds(r.incoming, r.outcomes, next, retry - 1);
      assert h.atts[|h.atts| - 1] == rest.atts[|rest.atts| - 1];
    } else {
      assert rest == HeaderPhase(next, [], r.incoming, r.outcomes);
      assert h.atts == [r.a];
    }
  }

  /** Every round but the last went without '!'. */
  predicate EarlierUnanswered(atts: seq<HeaderAttempt>) {
    forall i :: 0 <= i < |atts| - 1 ==> atts[i].reply != Got(HEADER_ACK)
  }

  /** Every round of a header phase but the last went unanswered. */
  lemma {:induction false} HeaderUnansweredBefore(s: seq<Poll>, outs: seq<WriteResult>, ack: byte, retry: nat)
    ensures EarlierUnanswered(HeaderLoop(s, outs, ack, retry).atts)
    decreases retry
  {
    if ack != HEADER_ACK && retry > 0 {
      var r := HeaderRoundOf(s, outs);
      var next := if r.a.reply.Got? then r.a.reply.b else ack;
      var h, rest := HeaderLoop(s, outs, ack, retry), HeaderLoop(r.incoming, r.outcomes, next, retry - 1);
      assert h.atts == [r.a] + rest.atts;
      HeaderUnansweredBefore(r.incoming, r.outcomes, next, retry - 1);
      if rest.atts != [] {
        assert next != HEADER_ACK;
        forall i | 0 <= i < |h.atts| - 1
          ensures h.atts[i].reply != Got(HEADER_ACK)
        {
          if i > 0 {
            assert h.atts[i] == rest.atts[i - 1];
          } else {
            assert h.atts[0] == r.a;
          }
        }
      }
    }
  }

  /** The header phase uses up a prefix of the write outcomes. */
  lemma {:induction false} HeaderOutcomes(s: seq<Poll>, outs: seq<WriteResult>, ack: byte, retry: nat)
    ensures Remains(outs, HeaderLoop(s, outs, ack, retry).outcomes)
    ensures Rejected !in outs ==> Rejected !in HeaderLoop(s, outs, ack, retry).outcomes
    decreases retry
  {
    if ack != HEADER_ACK && retry > 0 {
      var r := HeaderRoundOf(s, outs);
      var next := if r.a.reply.Got? then r.a.reply.b else ack;
      var mid := Pending(outs);
      var last := HeaderLoop(r.incoming, mid, next, retry - 1).outcomes;
      HeaderOutcomes(r.incoming, mid, next, retry - 1);
      PendingRemains(outs);
      SuffixChain(outs, mid, last);
      HeaderUnfold(s, outs, ack, retry, r);
    } else {
      assert outs[0..] == outs;
    }
  }

  /** A target that answers the first header at once with '!' ends the header phase after one
      round, whatever the port did with that header. */
  lemma HeaderAnswered(s: seq<Poll>, outs: seq<WriteResult>, ack: byte, retry: nat)
    requires ack != HEADER_ACK && retry > 0
    ensures HeaderLoop([Empty, Arrives(HEADER_ACK)] + s, outs, ack, retry) ==
              HeaderPhase(HEADER_ACK, [HeaderAttempt([], NextResult(outs), Got(HEADER_ACK))], s, Pending(outs))
  {
    var script := [Empty, Arrives(HEADER_ACK)] + s;
    assert script[1..] == [Arrives(HEADER_ACK)] + s;
    assert FlushOf(script) == Flushed([], [Arrives(HEADER_ACK)] + s);
    ReadArrives(HEADER_ACK, s, READ_TICKS);
  }

  /** The same, for a script that starts with that quiet poll and that '!'. */
  lemma HeaderAnsweredFirst(s: seq<Poll>, outs: seq<WriteResult>, ack: byte, retry: nat)
    requires ack != HEADER_ACK && retry > 0
    requires |s| > 1 && s[0] == Empty && s[1] == Arrives(HEADER_ACK)
    ensures HeaderLoop(s, outs, ack, retry) ==
              HeaderPhase(HEADER_ACK, [HeaderAttempt([], NextResult(outs), Got(HEADER_ACK))], s[2..], Pending(outs))
  {
    assert s == [Empty, Arrives(HEADER_ACK)] + s[2..];
    HeaderAnswered(s[2..], outs, ack, retry);
  }

  /** A silent target lets every header round time out: the phase makes all its rounds and ends
      with the byte it started with. */
  lemma {:induction false} HeaderUnanswered(outs: seq<WriteResult>, ack: byte, retry: nat)
    requires ack != HEADER_ACK
    ensures var h := HeaderLoop([], outs, ack, retry);
      h.ack == ack && |h.atts| == retry && h.incoming == [] &&
      forall i :: 0 <= i < |h.atts| ==> h.atts[i].flushed == [] && h.atts[i].reply == TimedOut
    decreases retry
  {
    if retry > 0 {
      ReadSilent(READ_TICKS);
      HeaderUnanswered(Pending(outs), ack, retry - 1);
    }
  }

  /** One round of the header phase: flush the input, write the header (ignoring the result) and
      wait 20 ticks for the answer. */
  method HeaderRound(link: Link, header: seq<byte>) returns (r: Reading, ghost a: HeaderAttempt)
    modifies link
    ensures link.trace == old(link.trace) + HeaderAttemptEvents(header, a)
    ensures a.reply == r && !r.Forever?
    ensures Rejected !in old(link.outcomes) ==> Rejected !in link.outcomes
    ensures old(link.outcomes) == [] ==> link.outcomes == [] && a.write == Accepted
    ensures |old(link.incoming)| > 1 && old(link.incoming)[0] == Empty && old(link.incoming)[1] == Arrives(HEADER_ACK) ==>
      a.flushed == [] && r == Got(HEADER_ACK) && link.incoming == old(link.incoming)[2..]
    ensures HeaderRoundOf(old(link.incoming), old(link.outcomes)) == HeaderStep(a, link.incoming, link.outcomes)
  {
    var flushed := ReadFlush(link);
    ghost var afterFlush := link.incoming;
    var w := link.Write(header);
    ghost var sent := if w == Accepted then Sends(header) else [];
    assert link.trace == old(link.trace) + Recvs(flushed) + sent;
    ghost var used, waited;
    r, used, waited := ReadTarget(link, READ_TICKS);
    a := HeaderAttempt(flushed, w, r);
    assert link.trace == old(link.trace) + Recvs(flushed) + sent + ReplyEvents(r);
    Regroup(old(link.trace), Recvs(flushed), sent, ReplyEvents(r));
    if |old(link.incoming)| > 1 && old(link.incoming)[0] == Empty {
      assert flushed == [];
      assert afterFlush == old(link.incoming)[1..];
    }
  }

  /** Where a header phase stands: the rounds `atts` made since the trace was `t`, and the rest of
      the phase `whole` still to come from the scripts, the last byte read and the retries left. */
  ghost predicate Heading(whole: HeaderPhase, t: seq<Event>, trace: seq<Event>, h: seq<byte>, atts: seq<HeaderAttempt>,
                          ack: byte, retry: nat, incoming: seq<Poll>, outcomes: seq<WriteResult>)
  {
    trace == t + HeaderEvents(h, atts) && whole == HeaderPrefixed(atts, HeaderLoop(incoming, outcomes, ack, retry))
  }

  /** One pass of the header loop: a round, and `ack` updated when it read a byte. */
  method NextHeader(link: Link, header: seq<byte>, ack: byte, retry: nat, ghost t: seq<Event>,
                    ghost atts: seq<HeaderAttempt>, ghost whole: HeaderPhase)
    returns (nextAck: byte, nextRetry: nat, ghost next: seq<HeaderAttempt>)
    requires ack != HEADER_ACK && retry > 0
    requires Heading(whole, t, link.trace, header, atts, ack, retry, link.incoming, link.outcomes)
    modifies link
    ensures nextRetry == retry - 1
    ensures Heading(whole, t, link.trace, header, next, nextAck, nextRetry, link.incoming, link.outcomes)
  {
    ghost var s, outs := link.incoming, link.outcomes;
    var r;
    ghost var a;
    r, a := HeaderRound(link, header);
    HeaderLoopStep(s, outs, ack, retry, atts, HeaderStep(a, link.incoming, link.outcomes));
    nextAck := if r.Got? then r.b else ack;
    HeaderEventsSnoc(t, header, atts, a);
    next := atts + [a];
    nextRetry := retry - 1;
  }

  /** What a finished header phase, started with `start` read and `budget` retries, has done. */
  lemma HeaderConcluded(s: seq<Poll>, outs: seq<WriteResult>, start: byte, budget: nat, t: seq<Event>, trace: seq<Event>,
                        h: seq<byte>, atts: seq<HeaderAttempt>, ack: byte, retry: nat, incoming: seq<Poll>,
                        outcomes: seq<WriteResult>)
    requires start != HEADER_ACK && budget > 0
    requires Heading(HeaderLoop(s, outs, start, budget), t, trace, h, atts, ack, retry, incoming, outcomes)
    requires ack == HEADER_ACK || retry == 0
    ensures HeaderLoop(s, outs, start, budget) == HeaderPhase(ack, atts, incoming, outcomes)
    ensures 1 <= |atts| <= budget
    ensures forall i :: 0 <= i < |atts| - 1 ==> atts[i].reply != Got(HEADER_ACK)
    ensures ack == HEADER_ACK <==> atts[|atts| - 1].reply == Got(HEADER_ACK)
    ensures ack != HEADER_ACK ==> |atts| == budget
    ensures Rejected !in outs ==> Rejected !in outcomes
    ensures outs == [] ==> outcomes == []
    ensures |s| > 1 && s[0] == Empty && s[1] == Arrives(HEADER_ACK) && outs == [] ==>
      atts == [HeaderAttempt([], Accepted, Got(HEADER_ACK))] && incoming == s[2..]
  {
    assert HeaderLoop(incoming, outcomes, ack, retry) == HeaderPhase(ack, [], incoming, outcomes);
    assert atts + [] == atts;
    HeaderRounds(s, outs, start, budget);
    HeaderUnansweredBefore(s, outs, start, budget);
    HeaderOutcomes(s, outs, start, budget);
    if |s| > 1 && s[0] == Empty && s[1] == Arrives(HEADER_ACK) && outs == [] {
      HeaderAnsweredFirst(s, outs, start, budget);
    }
  }

  /**
   * The header phase of `write_bytecode`: rounds while no '!' has been read and retries remain.
   * `ack` is the last byte read, '?' when none was.
   */
  method SendHeader(link: Link, header: seq<byte>) returns (ack: byte, ghost atts: seq<HeaderAttempt>)
    modifies link
    ensures link.trace == old(link.trace) + HeaderEvents(header, atts)
    ensures 1 <= |atts| <= HEADER_RETRIES
    ensures forall i :: 0 <= i < |atts| - 1 ==> atts[i].reply != Got(HEADER_ACK)
    ensures ack == HEADER_ACK <==> atts[|atts| - 1].reply == Got(HEADER_ACK)
    ensures ack != HEADER_ACK ==> |atts| == HEADER_RETRIES
    ensures Rejected !in old(link.outcomes) ==> Rejected !in link.outcomes
    ensures old(link.outcomes) == [] ==> link.outcomes == []
    ensures |old(link.incoming)| > 1 && old(link.incoming)[0] == Empty && old(link.incoming)[1] == Arrives(HEADER_ACK) &&
            old(link.outcomes) == [] ==>
      atts == [HeaderAttempt([], Accepted, Got(HEADER_ACK))] &&
      link.incoming == old(link.incoming)[2..]
    ensures HeaderLoop(old(link.incoming), old(link.outcomes), NO_ACK, HEADER_RETRIES) ==
              HeaderPhase(ack, atts, link.incoming, link.outcomes)
  {
    ghost var left;
    ack, atts, left := OfferHeader(link, header);
    HeaderConcluded(old(link.incoming), old(link.outcomes), NO_ACK, HEADER_RETRIES, old(link.trace), link.trace, header,
                    atts, ack, left,
                    link.incoming, link.outcomes);
  }

  /** The loop of the header phase: rounds while no '!' has been read and retries remain. */
  method OfferHeader(link: Link, header: seq<byte>) returns (ack: byte, ghost atts: seq<HeaderAttempt>, ghost left: nat)
    modifies link
    ensures Heading(HeaderLoop(old(link.incoming), old(link.outcomes), NO_ACK, HEADER_RETRIES), old(link.trace), link.trace,
                    header, atts, ack, left, link.incoming, link.outcomes)
    ensures ack == HEADER_ACK || left == 0
  {
    ack := NO_ACK;
    var retry := HEADER_RETRIES;
    atts := [];
    ghost var whole := HeaderLoop(link.incoming, link.outcomes, ack, retry);
    while ack != HEADER_ACK && 0 < retry
      invariant Heading(whole, old(link.trace), link.trace, header, atts, ack, retry, link.incoming, link.outcomes)
      decreases retry
    {
      ack, retry, atts := NextHeader(link, header, ack, retry, old(link.trace), atts, whole);
    }
    left := retry;
  }

  /** How the writes of one group end: whether every byte went, how many did, and the outcomes
      the port has not yet used. */
  datatype Written = Written(ok: bool, count: nat, outcomes: seq<WriteResult>)

  /**
   * The reference writes of a group of `room` bytes: a write the port asks to try again is
   * repeated without counting, a refused one ends the group, an accepted one counts.
   */
  function GroupWrites(outs: seq<WriteResult>, room: nat): (w: Written)
    ensures w.ok ==> w.count == room
    ensures !w.ok ==> w.count < room
    ensures |w.outcomes| <= |outs|
    decreases room, |outs|
  {
    if room == 0 then Written(true, 0, outs)
    else
      var r := NextResult(outs);
      if r == WouldBlock then GroupWrites(Pending(outs), room)
      else if r == Rejected then Written(false, 0, Pending(outs))
      else var w := GroupWrites(Pending(outs), room - 1); Written(w.ok, w.count + 1, w.outcomes)
  }

  /** The writes of a group after `n` bytes have gone. */
  function Counted(n: nat, w: Written): Written {
    Written(w.ok, n + w.count, w.outcomes)
  }

  /** A group's writes use up a prefix of the outcomes, and fail exactly when it holds a refusal. */
  lemma GroupWritesUse(outs: seq<WriteResult>, room: nat)
    ensures var w := GroupWrites(outs, room);
      Remains(outs, w.outcomes) && (!w.ok <==> Rejected in outs[..|outs| - |w.outcomes|])
  {
    GroupWritesRemain(outs, room);
    GroupWritesRefusal(outs, room);
  }

  /** The suffix half: what a group's writes leave of the outcomes. */
  lemma {:induction false} GroupWritesRemain(outs: seq<WriteResult>, room: nat)
    ensures Remains(outs, GroupWrites(outs, room).outcomes)
    decreases room, |outs|
  {
    if room > 0 && outs != [] {
      var rest := outs[1..];
      if outs[0] != Rejected {
        var left := if outs[0] == WouldBlock then room else room - 1;
        GroupWritesRemain(rest, left);
        PendingRemains(outs);
        SuffixChain(outs, rest, GroupWrites(rest, left).outcomes);
        assert GroupWrites(outs, room).outcomes == GroupWrites(rest, left).outcomes;
      }
    } else if room > 0 {
      GroupWritesAccepted(room);
    } else {
      assert outs[0..] == outs;
    }
  }

  /** The refusal half: a group's writes fail exactly when the outcomes they use hold a refusal. */
  lemma {:induction false} GroupWritesRefusal(outs: seq<WriteResult>, room: nat)
    ensures var w := GroupWrites(outs, room); !w.ok <==> Rejected in outs[..|outs| - |w.outcomes|]
    decreases room, |outs|
  {
    var w := GroupWrites(outs, room);
    if room > 0 && outs != [] {
      var r, rest := outs[0], outs[1..];
      if r != Rejected {
        var left := if r == WouldBlock then room else room - 1;
        var v := GroupWrites(rest, left);
        GroupWritesRefusal(rest, left);
        assert w.outcomes == v.outcomes && w.ok == v.ok;
        var m := |rest| - |v.outcomes|;
        assert outs[..m + 1] == [r] + rest[..m];
      } else {
        assert outs[..1] == [Rejected];
      }
    } else if room > 0 {
      GroupWritesAccepted(room);
    }
  }

  /** A group whose port never refuses a write sends all its bytes and leaves no refusal behind;
      once the outcomes are used up they stay so. */
  lemma GroupWritesClean(outs: seq<WriteResult>, room: nat)
    ensures var w := GroupWrites(outs, room); Rejected !in outs ==> w.ok && Rejected !in w.outcomes
    ensures outs == [] ==> GroupWrites(outs, room).outcomes == []
  {
    GroupWritesUse(outs, room);
    var w := GroupWrites(outs, room);
    var n := |outs| - |w.outcomes|;
    assert outs == outs[..n] + w.outcomes;
  }

  /** One write of a group, after `n` bytes have gone. */
  lemma GroupWritesStep(n: nat, outs: seq<WriteResult>, room: nat)
    requires room > 0
    ensures NextResult(outs) == WouldBlock ==> Counted(n, GroupWrites(outs, room)) == Counted(n, GroupWrites(Pending(outs), room))
    ensures NextResult(outs) == Rejected ==> Counted(n, GroupWrites(outs, room)) == Written(false, n, Pending(outs))
    ensures NextResult(outs) == Accepted ==>
              Counted(n, GroupWrites(outs, room)) == Counted(n + 1, GroupWrites(Pending(outs), room - 1))
  {
  }

  /** Once the outcomes are used up every write is taken: a group then sends all its bytes. */
  lemma {:induction false} GroupWritesAccepted(room: nat)
    ensures GroupWrites([], room) == Written(true, room, [])
    decreases room
  {
    if room > 0 {
      GroupWritesAccepted(room - 1);
    }
  }

  /** Where the writes of a group of `room` bytes from offset `g` stand: `i` of its bytes have
      gone since the trace was `t`, and the rest of its writes are still to come from `outcomes`. */
  ghost predicate GroupSending(t: seq<Event>, outs: seq<WriteResult>, p: seq<byte>, g: nat, room: nat, i: nat,
                               trace: seq<Event>, outcomes: seq<WriteResult>)
  {
    i <= room && g + room <= |p| && trace == t + Sends(p[g..g + i]) &&
    GroupWrites(outs, room) == Counted(i, GroupWrites(outcomes, room - i))
  }

  /** One `write(fd, &buf[i], 1)` of the payload loop, the byte at offset `g + i`. */
  method WriteByte(link: Link, p: seq<byte>, g: nat, i: nat, ghost room: nat, ghost t: seq<Event>,
                   ghost outs: seq<WriteResult>)
    returns (w: WriteResult)
    requires i < room && GroupSending(t, outs, p, g, room, i, link.trace, link.outcomes)
    modifies link
    ensures link.incoming == old(link.incoming) && link.idlePolls == old(link.idlePolls)
    ensures w == WouldBlock ==>
      |link.outcomes| < |old(link.outcomes)| && GroupSending(t, outs, p, g, room, i, link.trace, link.outcomes)
    ensures w == Accepted ==> GroupSending(t, outs, p, g, room, i + 1, link.trace, link.outcomes)
    ensures w == Rejected ==>
      link.trace == t + Sends(p[g..g + i]) && GroupWrites(outs, room) == Written(false, i, link.outcomes)
  {
    GroupWritesStep(i, link.outcomes, room - i);
    w := link.Write([p[g + i]]);
    if w == Accepted {
      SendsAppend(t, p[g..g + i], [p[g + i]]);
      assert p[g..g + i] + [p[g + i]] == p[g..g + i + 1];
    }
  }

  /**
   * One group of the payload phase, from offset `g`: write one byte at a time, retrying a write
   * the port asks to try again later without counting it, until 100 bytes or the last payload
   * byte have gone. Fails on a write that the port refuses.
   */
  method SendGroup(link: Link, p: seq<byte>, g: nat) returns (ok: bool, d: nat)
    requires g < |p|
    modifies link
    ensures g <= d <= g + GroupSize(|p| - g)
    ensures link.trace == old(link.trace) + Sends(p[g..d])
    ensures ok <==> d == g + GroupSize(|p| - g)
    ensures link.incoming == old(link.incoming) && link.idlePolls == old(link.idlePolls)
    ensures Rejected !in old(link.outcomes) ==> ok && Rejected !in link.outcomes
    ensures old(link.outcomes) == [] ==> link.outcomes == []
    ensures GroupWrites(old(link.outcomes), GroupSize(|p| - g)) == Written(ok, d - g, link.outcomes)
  {
    var i := 0;
    d := g;
    ghost var room, t, outs := GroupSize(|p| - g), link.trace, link.outcomes;
    while i < GROUP
      invariant i <= GROUP && d == g + i && d < |p|
      invariant GroupSending(t, outs, p, g, room, i, link.trace, link.outcomes)
      invariant link.incoming == old(link.incoming) && link.idlePolls == old(link.idlePolls)
      decreases GROUP - i, |link.outcomes|
    {
      var w := WriteByte(link, p, g, i, room, t, outs);
      if w == WouldBlock {
        // EAGAIN: write the same byte again, without counting it
        continue;
      } else if w != Accepted {
        ok := false;
        GroupEnds(t, outs, p, g, room, ok, d, link.trace, link.outcomes);
        return;
      }
      i := i + 1;
      d := d + 1;
      if d == |p| {
        break;
      }
    }
    assert i == room;
    ok := true;
    GroupEnds(t, outs, p, g, room, ok, d, link.trace, link.outcomes);
  }

  /** How a group's writes end: all of its bytes went, or a refusal stopped it at `d`. */
  lemma GroupEnds(t: seq<Event>, outs: seq<WriteResult>, p: seq<byte>, g: nat, room: nat, ok: bool, d: nat,
                  trace: seq<Event>, outcomes: seq<WriteResult>)
    requires g < |p| && room == GroupSize(|p| - g) && g <= d
    requires ok ==> d == g + room && GroupSending(t, outs, p, g, room, room, trace, outcomes)
    requires !ok ==> d < g + room && trace == t + Sends(p[g..d]) && GroupWrites(outs, room) == Written(false, d - g, outcomes)
    ensures g <= d <= g + GroupSize(|p| - g)
    ensures trace == t + Sends(p[g..d])
    ensures ok <==> d == g + GroupSize(|p| - g)
    ensures Rejected !in outs ==> ok && Rejected !in outcomes
    ensures outs == [] ==> outcomes == []
    ensures GroupWrites(outs, GroupSize(|p| - g)) == Written(ok, d - g, outcomes)
  {
    GroupWritesClean(outs, room);
  }

  /** How one group of the payload phase ends: its status, the bytes of it that went, the read of
      its acknowledgement (none when a write was refused), and what it leaves of the scripts. */
  datatype GroupSent = GroupSent(st: Status, count: nat, reply: Reading, incoming: seq<Poll>, outcomes: seq<WriteResult>)

  /**
   * The reference group of `room` bytes: its writes, then, when all went, a read of 20 ticks
   * that must produce '#'.
   */
  function GroupOf(s: seq<Poll>, outs: seq<WriteResult>, room: nat): (u: GroupSent)
    ensures u.count <= room
    ensures u.st == Ok ==> u.count == room && u.reply == Got(CHUNK_ACK)
    ensures u.st == Ok || u.st == Failed(WriteError) || u.st == Failed(BadChunkAck)
    ensures u.st == Failed(WriteError) ==> u.count < room && u.incoming == s
    ensures u.st == Failed(BadChunkAck) ==> u.count == room && !u.reply.Forever? && u.reply != Got(CHUNK_ACK)
  {
    var w := GroupWrites(outs, room);
    if !w.ok then GroupSent(Failed(WriteError), w.count, TimedOut, s, w.outcomes)
    else
      var r := ReadOf(s, READ_TICKS);
      GroupSent(if r.r == Got(CHUNK_ACK) then Ok else Failed(BadChunkAck), w.count, r.r, r.rest, w.outcomes)
  }

  /** A group whose port never refuses a write does not fail on a write and leaves no refusal
      behind; once the outcomes are used up they stay so. */
  lemma GroupOfClean(s: seq<Poll>, outs: seq<WriteResult>, room: nat)
    ensures var u := GroupOf(s, outs, room); Rejected !in outs ==> u.st != Failed(WriteError) && Rejected !in u.outcomes
    ensures outs == [] ==> GroupOf(s, outs, room).outcomes == []
  {
    GroupWritesClean(outs, room);
  }

  /** The polls of a target that answers each group of an `n`-byte payload, from the offset
      `written` on, with '#' at the first poll. */
  function AcksFor(n: nat, written: nat): (s: seq<Poll>)
    requires written <= n
    ensures written < n ==> |s| > 0 && s[0] == Arrives(CHUNK_ACK)
    decreases n - written
  {
    if written == n then [] else [Arrives(CHUNK_ACK)] + AcksFor(n, written + GroupSize(n - written))
  }

  /** That target delivers one '#' for each group left. */
  lemma {:induction false} AcksForDelivers(n: nat, written: nat)
    requires written <= n
    ensures AcksFor(n, written) == Deliver(Repeat(CHUNK_ACK, ChunkCount(n - written)))
    decreases n - written
  {
    if written < n {
      var next := written + GroupSize(n - written);
      AcksForDelivers(n, next);
      var k := ChunkCount(n - written);
      assert k == 1 + ChunkCount(n - next);
      AckScriptStep(k);
      var s := Deliver(Repeat(CHUNK_ACK, k));
      assert s == [s[0]] + s[1..];
    }
  }

  /** On that target and a port that takes every write, a group succeeds: all its bytes go, its
      '#' is read, and the target has the '#' of the later groups left. */
  lemma GroupAcked(n: nat, g: nat)
    requires g < n
    ensures var room := GroupSize(n - g);
      GroupOf(AcksFor(n, g), [], room) == GroupSent(Ok, room, Got(CHUNK_ACK), AcksFor(n, g + room), [])
  {
    var room := GroupSize(n - g);
    GroupWritesAccepted(room);
    ReadArrives(CHUNK_ACK, AcksFor(n, g + room), READ_TICKS);
  }

  /** A refused first write ends a group at once, with nothing sent and nothing read. */
  lemma GroupRefused(s: seq<Poll>, outs: seq<WriteResult>, room: nat)
    requires room > 0
    ensures GroupWrites([Rejected] + outs, room) == Written(false, 0, outs)
    ensures GroupOf(s, [Rejected] + outs, room) == GroupSent(Failed(WriteError), 0, TimedOut, s, outs)
  {
    assert Pending([Rejected] + outs) == outs;
  }

  /** A group whose writes are never refused sends all its bytes and then waits for '#'; a silent
      target lets that wait time out. */
  lemma GroupUnanswered(outs: seq<WriteResult>, room: nat)
    requires Rejected !in outs
    ensures GroupOf([], outs, room).st == Failed(BadChunkAck)
    ensures GroupOf([], outs, room).count == room && GroupOf([], outs, room).reply == TimedOut
  {
    GroupWritesClean(outs, room);
    ReadSilent(READ_TICKS);
  }

  /** How the payload phase ends: its status, the group `g` it stopped in and the offset `d` it
      reached, the last acknowledgement read, and what it leaves of the scripts. */
  datatype PayloadSent = PayloadSent(st: Status, g: nat, d: nat, reply: Reading, incoming: seq<Poll>,
                                     outcomes: seq<WriteResult>)

  /**
   * The reference payload phase for `n` bytes, after `written` of them went: one group after
   * another, from one group boundary to the next, until the first group that fails.
   */
  function PayloadLoop(s: seq<Poll>, outs: seq<WriteResult>, n: nat, written: nat): (q: PayloadSent)
    requires written <= n
    ensures q.d <= n
    ensures q.st == Ok || q.st == Failed(WriteError) || q.st == Failed(BadChunkAck)
    ensures q.st == Ok ==> q.d == n
    ensures q.st != Ok ==> written <= q.g <= q.d && q.g < n
    decreases n - written
  {
    if written == n then PayloadSent(Ok, 0, n, TimedOut, s, outs)
    else
      var u := GroupOf(s, outs, GroupSize(n - written));
      if u.st != Ok then PayloadSent(u.st, written, written + u.count, u.reply, u.incoming, u.outcomes)
      else PayloadLoop(u.incoming, u.outcomes, n, written + u.count)
  }

  /** A group that succeeds hands the payload phase on to the next group boundary. */
  lemma PayloadStep(s: seq<Poll>, outs: seq<WriteResult>, n: nat, written: nat, u: GroupSent)
    requires written < n && u == GroupOf(s, outs, GroupSize(n - written)) && u.st == Ok
    ensures PayloadLoop(s, outs, n, written) == PayloadLoop(u.incoming, u.outcomes, n, written + u.count)
  {
  }

  /** The payload phase against a target with a '#' for every group is the phase from the next
      group boundary on. */
  lemma PayloadAckedStep(n: nat, written: nat, next: nat)
    requires written < n && next == written + GroupSize(n - written)
    ensures PayloadLoop(AcksFor(n, written), [], n, written) == PayloadLoop(AcksFor(n, next), [], n, next)
  {
    var room := GroupSize(n - written);
    GroupAcked(n, written);
    PayloadStep(AcksFor(n, written), [], n, written, GroupSent(Ok, room, Got(CHUNK_ACK), AcksFor(n, written + room), []));
  }

  /** A target with a '#' for every group, on a port that takes every write, lets the payload
      phase succeed. */
  lemma {:induction false} PayloadAcked(n: nat, written: nat)
    requires written <= n
    ensures PayloadLoop(AcksFor(n, written), [], n, written).st == Ok
    decreases n - written
  {
    if written < n {
      var next := written + GroupSize(n - written);
      PayloadAckedStep(n, written, next);
      PayloadAcked(n, next);
    }
  }

  /** A payload phase whose first write is refused fails at once, before any byte went. */
  lemma PayloadRefused(s: seq<Poll>, outs: seq<WriteResult>, n: nat)
    requires n > 0
    ensures PayloadLoop(s, [Rejected] + outs, n, 0) == PayloadSent(Failed(WriteError), 0, 0, TimedOut, s, outs)
  {
    GroupRefused(s, outs, GroupSize(n));
  }

  /** Against a silent target whose port takes every write, the payload phase sends its first
      group, waits in vain for '#' and fails. */
  lemma PayloadUnanswered(outs: seq<WriteResult>, n: nat)
    requires n > 0 && Rejected !in outs
    ensures PayloadLoop([], outs, n, 0).st == Failed(BadChunkAck)
    ensures PayloadLoop([], outs, n, 0).d == GroupSize(n) && PayloadLoop([], outs, n, 0).reply == TimedOut
  {
    GroupUnanswered(outs, GroupSize(n));
  }

  /**
   * One pass of the payload loop of `write_bytecode`, from the group boundary `g`: send the group,
   * then read 20 ticks for its '#'. `e` is the offset reached. `t` is the trace before the payload
   * phase began.
   */
  method UploadGroup(link: Link, p: seq<byte>, g: nat, ghost t: seq<Event>)
    returns (st: Status, e: nat, ghost reply: Reading, ghost rest: seq<Event>)
    requires g % GROUP == 0 && g < |p|
    requires link.trace == t + Lockstep(p[..g], Upload)
    modifies link
    ensures st == Ok ==>
      e == g + GroupSize(|p| - g) && (e % GROUP == 0 || e == |p|) &&
      link.trace == t + Lockstep(p[..e], Upload)
    ensures st != Ok ==> link.trace == t + rest && UploadTrace(p, st, g, e, reply, rest)
    ensures Rejected !in old(link.outcomes) ==> st != Failed(WriteError) && Rejected !in link.outcomes
    ensures g <= e && GroupOf(old(link.incoming), old(link.outcomes), GroupSize(|p| - g)) ==
              GroupSent(st, e - g, reply, link.incoming, link.outcomes)
  {
    reply, rest := TimedOut, [];
    ghost var room := GroupSize(|p| - g);
    GroupOfClean(old(link.incoming), old(link.outcomes), room);
    var ok;
    ok, e := SendGroup(link, p, g);
    if !ok {
      st := Failed(WriteError);
      rest := UploadRefused(t, p, g, e);
      return;
    }
    var r, used, waited := ReadTarget(link, READ_TICKS);
    reply := r;
    if !r.Got? || r.b != CHUNK_ACK {
      st := Failed(BadChunkAck);
      rest := UploadUnacked(t, p, g, e, r);
      return;
    }
    UploadStep(t, p, g, e);
    st := Ok;
  }

  /**
   * The payload phase of `write_bytecode`: groups of at most 100 bytes, each followed by a
   * read of 20 ticks that must produce '#'.
   */
  method SendPayload(link: Link, p: seq<byte>)
    returns (st: Status, ghost g: nat, ghost d: nat, ghost reply: Reading, ghost rest: seq<Event>)
    requires |p| <= MAX_FRAME
    modifies link
    ensures link.trace == old(link.trace) + rest && UploadTrace(p, st, g, d, reply, rest)
    ensures Rejected !in old(link.outcomes) ==> st != Failed(WriteError)
    ensures old(link.incoming) == Deliver(Repeat(CHUNK_ACK, ChunkCount(|p|))) && old(link.outcomes) == [] ==>
      st == Ok
    ensures PayloadLoop(old(link.incoming), old(link.outcomes), |p|, 0) ==
              PayloadSent(st, g, d, reply, link.incoming, link.outcomes)
  {
    if old(link.incoming) == Deliver(Repeat(CHUNK_ACK, ChunkCount(|p|))) && old(link.outcomes) == [] {
      AcksForDelivers(|p|, 0);
      PayloadAcked(|p|, 0);
    }
    var written := 0;
    while written < |p|
      invariant written <= |p| && (written % GROUP == 0 || written == |p|)
      invariant link.trace == old(link.trace) + Lockstep(p[..written], Upload)
      invariant Rejected !in old(link.outcomes) ==> Rejected !in link.outcomes
      invariant PayloadLoop(old(link.incoming), old(link.outcomes), |p|, 0) ==
                  PayloadLoop(link.incoming, link.outcomes, |p|, written)
      decreases |p| - written
    {
      var r, e;
      r, e, reply, rest := UploadGroup(link, p, written, old(link.trace));
      if r != Ok {
        g, d, st := written, e, r;
        return;
      }
      written := e;
    }
    assert p[..written] == p;
    g, d, reply, rest := 0, written, TimedOut, Lockstep(p, Upload);
    st := Ok;
  }

  /** How `write_bytecode` ends: its status, the header rounds, where the payload phase stopped,
      and what it leaves of the scripts. */
  datatype Transmission = Transmission(st: Status, atts: seq<HeaderAttempt>, g: nat, d: nat, reply: Reading,
                                       incoming: seq<Poll>, outcomes: seq<WriteResult>)

  /** The reference `write_bytecode` for an `n`-byte payload: the header phase, and the payload
      phase only when it ended with '!'. */
  function WriteBytecodeOf(s: seq<Poll>, outs: seq<WriteResult>, n: nat): (x: Transmission)
    ensures x.d <= n
    ensures x.st == Failed(NoHeaderAck) ==> x.d == 0
  {
    var h := HeaderLoop(s, outs, NO_ACK, HEADER_RETRIES);
    if h.ack != HEADER_ACK then Transmission(Failed(NoHeaderAck), h.atts, 0, 0, TimedOut, h.incoming, h.outcomes)
    else
      var q := PayloadLoop(h.incoming, h.outcomes, n, 0);
      Transmission(q.st, h.atts, q.g, q.d, q.reply, q.incoming, q.outcomes)
  }

  /** A silent target never answers the header: all five rounds time out and no payload byte is
      sent. */
  lemma BytecodeUnanswered(outs: seq<WriteResult>, n: nat)
    ensures var x := WriteBytecodeOf([], outs, n);
      x.st == Failed(NoHeaderAck) && |x.atts| == HEADER_RETRIES &&
      forall i :: 0 <= i < |x.atts| ==> x.atts[i].reply == TimedOut
  {
    HeaderUnanswered(outs, NO_ACK, HEADER_RETRIES);
  }

  /** A target that answers the header with '!' and then falls silent fails the transfer of a
      non-empty payload on its first '#'. */
  lemma SilentAfterHeader(n: nat)
    requires n > 0
    ensures var x := WriteBytecodeOf([Empty, Arrives(HEADER_ACK)], [], n);
      x.st == Failed(BadChunkAck) && x.g == 0 && x.d == GroupSize(n) && x.reply == TimedOut
  {
    HeaderAnswered([], [], NO_ACK, HEADER_RETRIES);
    assert [Empty, Arrives(HEADER_ACK)] + [] == [Empty, Arrives(HEADER_ACK)];
    PayloadUnanswered([], n);
  }

  /** A port that refuses the first payload byte fails the transfer with nothing of the payload
      sent. */
  lemma RefusedAfterHeader(s: seq<Poll>, outs: seq<WriteResult>, n: nat)
    requires n > 0
    ensures var x := WriteBytecodeOf([Empty, Arrives(HEADER_ACK)] + s, [Accepted, Rejected] + outs, n);
      x.st == Failed(WriteError) && x.d == 0 && x.incoming == s && x.outcomes == outs
  {
    HeaderAnswered(s, [Accepted, Rejected] + outs, NO_ACK, HEADER_RETRIES);
    assert Pending([Accepted, Rejected] + outs) == [Rejected] + outs;
    PayloadRefused(s, outs, n);
  }

  /**
   * `write_bytecode`: send the header until the target answers '!' (at most five times), then
   * the payload in acknowledged groups. `payload` is the dumped bytecode.
   */
  method WriteBytecode(link: Link, payload: seq<byte>, verbose: bool)
    returns (st: Status, ghost atts: seq<HeaderAttempt>, ghost g: nat, ghost d: nat, ghost reply: Reading,
             ghost rest: seq<Event>)
    requires |payload| <= MAX_FRAME
    modifies link
    ensures link.trace == old(link.trace) + HeaderEvents(EncodeHeader(verbose, |payload|), atts) + rest
    ensures 1 <= |atts| <= HEADER_RETRIES
    ensures forall i :: 0 <= i < |atts| - 1 ==> atts[i].reply != Got(HEADER_ACK)
    ensures st == Failed(NoHeaderAck) <==> atts[|atts| - 1].reply != Got(HEADER_ACK)
    ensures st == Failed(NoHeaderAck) ==> |atts| == HEADER_RETRIES && rest == []
    ensures st != Failed(NoHeaderAck) ==> UploadTrace(payload, st, g, d, reply, rest)
    ensures Rejected !in old(link.outcomes) ==> st != Failed(WriteError)
    ensures old(link.incoming) == [Empty, Arrives(HEADER_ACK)] + Deliver(Repeat(CHUNK_ACK, ChunkCount(|payload|))) &&
            old(link.outcomes) == [] ==>
      st == Ok &&
      HeaderEvents(EncodeHeader(verbose, |payload|), atts) == Sends(EncodeHeader(verbose, |payload|)) + [Recv(HEADER_ACK)]
    ensures WriteBytecodeOf(old(link.incoming), old(link.outcomes), |payload|) ==
              Transmission(st, atts, g, d, reply, link.incoming, link.outcomes)
  {
    var header := EncodeHeader(verbose, |payload|);
    var ack;
    ack, atts := SendHeader(link, header);
    if ack != HEADER_ACK {
      st := Failed(NoHeaderAck);
      g, d, reply, rest := 0, 0, TimedOut, [];
      return;
    }
    ghost var coop := old(link.incoming) == [Empty, Arrives(HEADER_ACK)] + Deliver(Repeat(CHUNK_ACK, ChunkCount(|payload|))) &&
      old(link.outcomes) == [];
    if coop {
      assert old(link.incoming)[2..] == Deliver(Repeat(CHUNK_ACK, ChunkCount(|payload|)));
      HeaderAtOnce(header);
    }
    st, g, d, reply, rest := SendPayload(link, payload);
  }
}
