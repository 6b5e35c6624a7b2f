/**
 * The link synchronizer: inquiry/acknowledge polling until the target answers. A target whose
 * port refuses the inquiry byte is taken to be one that resets on any received byte: the port is
 * reopened and no inquiry is sent again.
 */
module Handshake {
  import opened Wire
  import opened SerialLink
  import opened ByteReader

  /** Rounds of inquiry before the handshake gives up. */
  const HELLO_ATTEMPTS: nat := 100

  /** What one round did about the inquiry byte: nothing, or one write with its result. */
  datatype Inquiry = Skipped | Enq(result: WriteResult)

  /** One round: the inquiry, the target chatter echoed while waiting, and whether ACK came. */
  datatype HelloAttempt = HelloAttempt(inquiry: Inquiry, chatter: seq<byte>, acked: bool)

  /** The port did not take the inquiry byte. */
  predicate Refused(q: Inquiry) {
    q.Enq? && q.result != Accepted
  }

  function InquiryEvents(q: Inquiry): seq<Event> {
    match q
    case Skipped => []
    case Enq(w) => if w == Accepted then [Sent(ENQ)] else [Reconnected]
  }

  function AttemptEvents(a: HelloAttempt): seq<Event> {
    InquiryEvents(a.inquiry) + Echoes(a.chatter) + (if a.acked then [Recv(ACK)] else [])
  }

  lemma AttemptTrace(t: seq<Event>, a: HelloAttempt)
    ensures t + AttemptEvents(a) ==
      t + InquiryEvents(a.inquiry) + Echoes(a.chatter) + (if a.acked then [Recv(ACK)] else [])
  {
  }

  /** The events of a sequence of rounds, in order. */
  function HelloEvents(atts: seq<HelloAttempt>): seq<Event> {
    if atts == [] then [] else HelloEvents(atts[..|atts| - 1]) + AttemptEvents(atts[|atts| - 1])
  }

  /** Recording one more round appends its events. */
  lemma HelloEventsSnoc(atts: seq<HelloAttempt>, a: HelloAttempt, t: seq<Event>)
    ensures t + HelloEvents(atts) + AttemptEvents(a) == t + HelloEvents(atts + [a])
  {
    assert (atts + [a])[..|atts|] == atts;
  }

  /** The number of rounds whose inquiry byte the port took. */
  function Enquiries(atts: seq<HelloAttempt>): (n: nat)
    ensures n <= |atts|
  {
    if atts == [] then 0
    else Enquiries(atts[..|atts| - 1]) + if atts[|atts| - 1].inquiry == Enq(Accepted) then 1 else 0
  }

  /** A round sends ENQ if the port takes it, and nothing else. */
  lemma AttemptTransmits(a: HelloAttempt)
    ensures Transmitted(AttemptEvents(a)) == if a.inquiry == Enq(Accepted) then [ENQ] else []
  {
    var q, echoes, ack := InquiryEvents(a.inquiry), Echoes(a.chatter), if a.acked then [Recv(ACK)] else [];
    assert Transmitted(q) == if a.inquiry == Enq(Accepted) then [ENQ] else [] by {
      if q != [] {
        assert q[..0] == [];
      }
    }
    EchoesProjection(a.chatter);
    assert Transmitted(ack) == [] by {
      if a.acked {
        assert ack[..0] == [];
      }
    }
    TransmittedAppend(q, echoes);
    TransmittedAppend(q + echoes, ack);
  }

  /** The handshake transmits nothing but ENQ bytes, one per inquiry the port took. */
  lemma {:induction false} HelloTransmits(atts: seq<HelloAttempt>)
    ensures |Transmitted(HelloEvents(atts))| == Enquiries(atts)
    ensures forall i :: 0 <= i < |Transmitted(HelloEvents(atts))| ==> Transmitted(HelloEvents(atts))[i] == ENQ
    decreases |atts|
  {
    if atts != [] {
      var init, a := atts[..|atts| - 1], atts[|atts| - 1];
      var before := HelloEvents(init);
      assert HelloEvents(atts) == before + AttemptEvents(a);
      HelloTransmits(init);
      AttemptTransmits(a);
      TransmittedAppend(before, AttemptEvents(a));
    }
  }

  /** Some round before round `i` had its inquiry refused. */
  predicate StoppedBefore(atts: seq<HelloAttempt>, i: nat)
    requires i <= |atts|
  {
    exists j :: 0 <= j < i && Refused(atts[j].inquiry)
  }

  /** A round that writes ENQ exactly when no earlier round was refused keeps the discipline. */
  lemma DisciplineSnoc(atts: seq<HelloAttempt>, a: HelloAttempt)
    requires InquiryDiscipline(atts)
    requires a.inquiry.Skipped? <==> StoppedBefore(atts, |atts|)
    ensures InquiryDiscipline(atts + [a])
    ensures StoppedBefore(atts + [a], |atts| + 1) <==> StoppedBefore(atts, |atts|) || Refused(a.inquiry)
  {
    var b := atts + [a];
    forall i | 0 <= i <= |atts|
      ensures StoppedBefore(b, i) <==> StoppedBefore(atts, i)
    {
      if StoppedBefore(b, i) {
        var j :| 0 <= j < i && Refused(b[j].inquiry);
        assert atts[j] == b[j];
      }
      if StoppedBefore(atts, i) {
        var j :| 0 <= j < i && Refused(atts[j].inquiry);
        assert atts[j] == b[j];
      }
    }
    if Refused(a.inquiry) {
      assert b[|atts|] == a;
    }
  }

  /** The `send_enq` flag: every round writes the inquiry until one write is refused, and no
      round after that writes it. */
  predicate InquiryDiscipline(atts: seq<HelloAttempt>) {
    forall i :: 0 <= i < |atts| ==> (atts[i].inquiry.Skipped? <==> StoppedBefore(atts, i))
  }

  /** Once the port has refused an inquiry, no later round writes one. */
  lemma QuietAfterRefusal(atts: seq<HelloAttempt>, j: nat, i: nat)
    requires InquiryDiscipline(atts)
    requires j < i < |atts| && Refused(atts[j].inquiry)
    ensures atts[i].inquiry == Skipped
  {
    assert StoppedBefore(atts, i);
  }

  /** What the listening half of a round takes from the script: the bytes echoed, whether ACK
      came, and what is left. */
  datatype Heard = Heard(chatter: seq<byte>, acked: bool, rest: seq<Poll>)

  /** The reference listening loop: read with the per-byte budget, echo every byte but ACK, and
      stop at ACK or at the first read that times out. */
  function Listen(s: seq<Poll>): (h: Heard)
    ensures |h.rest| <= |s|
    ensures ACK !in h.chatter
    decreases |s|
  {
    var p := ReadOf(s, READ_TICKS);
    if !p.r.Got? then Heard([], false, p.rest)
    else if p.r.b == ACK then Heard([], true, p.rest)
    else var h := Listen(p.rest); Heard([p.r.b] + h.chatter, h.acked, h.rest)
  }

  /** The rest of a round's listening, after the bytes `chatter` were echoed. */
  function Continued(chatter: seq<byte>, h: Heard): Heard {
    if chatter == [] then h else Heard(chatter + h.chatter, h.acked, h.rest)
  }

  /** What one round takes from both scripts, and the round it records. */
  datatype Round = Round(stillSend: bool, a: HelloAttempt, incoming: seq<Poll>, outcomes: seq<WriteResult>)

  /** The reference round: the inquiry takes the next write result when inquiries are still sent;
      the listening takes the polls. */
  function RoundOf(s: seq<Poll>, outs: seq<WriteResult>, sendEnq: bool): Round {
    var q := if sendEnq then Enq(NextResult(outs)) else Skipped;
    var h := Listen(s);
    Round(sendEnq && !Refused(q), HelloAttempt(q, h.chatter, h.acked), h.rest,
          if sendEnq then Pending(outs) else outs)
  }

  /** What the whole handshake takes from both scripts, and its rounds. */
  datatype Hello = Hello(atts: seq<HelloAttempt>, incoming: seq<Poll>, outcomes: seq<WriteResult>)

  /** The reference handshake with `retry` rounds left: rounds until one reads ACK. */
  function HelloLoop(s: seq<Poll>, outs: seq<WriteResult>, sendEnq: bool, retry: nat): (h: Hello)
    ensures |h.atts| <= retry
    ensures retry > 0 ==> h.atts != []
    decreases retry
  {
    if retry == 0 then Hello([], s, outs)
    else
      var r := RoundOf(s, outs, sendEnq);
      if r.a.acked then Hello([r.a], r.incoming, r.outcomes)
      else var n := HelloLoop(r.incoming, r.outcomes, r.stillSend, retry - 1); Hello([r.a] + n.atts, n.incoming, n.outcomes)
  }

  /** The handshake stops at the first round that reads ACK, makes every round when none does,
      and never echoes ACK. */
  lemma {:induction false} HelloRounds(s: seq<Poll>, outs: seq<WriteResult>, sendEnq: bool, retry: nat, atts: seq<HelloAttempt>)
    requires retry > 0 && HelloLoop(s, outs, sendEnq, retry).atts == atts
    ensures atts != [] && (!atts[|atts| - 1].acked ==> |atts| == retry)
    ensures forall i :: 0 <= i < |atts| - 1 ==> !atts[i].acked
    ensures forall i :: 0 <= i < |atts| ==> ACK !in atts[i].chatter
    decreases retry
  {
    var r := RoundOf(s, outs, sendEnq);
    if !r.a.acked && retry > 1 {
      var n := HelloLoop(r.incoming, r.outcomes, r.stillSend, retry - 1);
      HelloRounds(r.incoming, r.outcomes, r.stillSend, retry - 1, n.atts);
      assert atts == [r.a] + n.atts;
    }
  }

  /** The rest of a handshake, after the rounds `atts`. */
  function Prefixed(atts: seq<HelloAttempt>, h: Hello): Hello {
    if atts == [] then h else Hello(atts + h.atts, h.incoming, h.outcomes)
  }

  lemma HelloLoopStep(s: seq<Poll>, outs: seq<WriteResult>, sendEnq: bool, retry: nat, atts: seq<HelloAttempt>, r: Round)
    requires retry > 0 && r == RoundOf(s, outs, sendEnq)
    ensures Prefixed(atts, HelloLoop(s, outs, sendEnq, retry)) ==
              Prefixed(atts + [r.a], HelloLoop(r.incoming, r.outcomes, r.stillSend, if r.a.acked then 0 else retry - 1))
  {
    var n := HelloLoop(r.incoming, r.outcomes, r.stillSend, if r.a.acked then 0 else retry - 1);
    assert r.a.acked ==> n.atts == [];
    assert atts + ([r.a] + n.atts) == atts + [r.a] + n.atts;
  }

  /** Output echoed and then ACK: the round reads ACK, having echoed exactly that output. */
  lemma {:induction false} ListenReadsAck(chatter: seq<byte>, rest: seq<Poll>)
    requires ACK !in chatter
    ensures Listen(Deliver(chatter) + [Arrives(ACK)] + rest) == Heard(chatter, true, rest)
    decreases |chatter|
  {
    if chatter == [] {
      assert Deliver(chatter) + [Arrives(ACK)] + rest == [Arrives(ACK)] + rest;
      ReadArrives(ACK, rest, READ_TICKS);
    } else {
      var tail := Deliver(chatter[1..]) + [Arrives(ACK)] + rest;
      assert Deliver(chatter) + [Arrives(ACK)] + rest == [Arrives(chatter[0])] + tail;
      ReadArrives(chatter[0], tail, READ_TICKS);
      ListenReadsAck(chatter[1..], rest);
      assert [chatter[0]] + chatter[1..] == chatter;
    }
  }

  /** The per-byte budget: ACK after fewer than 20 polls that find nothing is read; after 20 the
      round ends without it. */
  lemma ListenAfterGap(t: nat, rest: seq<Poll>)
    ensures var gap := seq(t, _ => Empty) + [Arrives(ACK)] + rest;
      Listen(gap) == if t < READ_TICKS then Heard([], true, rest) else Heard([], false, gap[READ_TICKS..])
  {
    ReadAfterGap(t, ACK, rest, READ_TICKS);
  }

  /** A silent target: the round ends without ACK, having echoed nothing. */
  lemma ListenSilent()
    ensures Listen([]) == Heard([], false, [])
  {
    ReadSilent(READ_TICKS);
  }

  /** A target that answers the first inquiry, after some output: the handshake takes one round. */
  lemma HelloAnswered(chatter: seq<byte>, rest: seq<Poll>, outs: seq<WriteResult>, retry: nat)
    requires ACK !in chatter && retry > 0
    ensures HelloLoop(Deliver(chatter) + [Arrives(ACK)] + rest, outs, true, retry) ==
      Hello([HelloAttempt(Enq(NextResult(outs)), chatter, true)], rest, Pending(outs))
  {
    ListenReadsAck(chatter, rest);
  }

  /** A silent target: every round is made, none reads ACK, and nothing is echoed. */
  lemma {:induction false} HelloSilent(outs: seq<WriteResult>, sendEnq: bool, retry: nat)
    ensures var h := HelloLoop([], outs, sendEnq, retry);
      |h.atts| == retry && h.incoming == [] &&
      forall i :: 0 <= i < retry ==> !h.atts[i].acked && h.atts[i].chatter == []
    decreases retry
  {
    if retry > 0 {
      ListenSilent();
      var r := RoundOf([], outs, sendEnq);
      HelloSilent(r.outcomes, r.stillSend, retry - 1);
    }
  }

  /** A byte other than ACK read at the start of `s` joins the chatter already echoed. */
  lemma ListenStep(chatter: seq<byte>, s: seq<Poll>, c: byte, rest: seq<Poll>)
    requires ReadOf(s, READ_TICKS) == Polled(Got(c), rest) && c != ACK
    ensures Continued(chatter, Listen(s)) == Continued(chatter + [c], Listen(rest))
  {
    var h := Listen(rest);
    assert chatter + ([c] + h.chatter) == chatter + [c] + h.chatter;
  }

  /**
   * The listening half of a round: echo target bytes until ACK arrives or a read of 20 ticks
   * times out. `c` is the last byte read, ENQ (what the round set it to) when none was.
   */
  method ListenForAck(link: Link) returns (c: byte, ghost chatter: seq<byte>, ghost acked: bool)
    modifies link
    ensures link.trace == old(link.trace) + Echoes(chatter) + (if acked then [Recv(ACK)] else [])
    ensures acked <==> c == ACK
    ensures ACK !in chatter
    ensures link.outcomes == old(link.outcomes)
    ensures Listen(old(link.incoming)) == Heard(chatter, acked, link.incoming)
  {
    c := ENQ;
    chatter, acked := [], false;
    while true
      invariant link.trace == old(link.trace) + Echoes(chatter)
      invariant ACK !in chatter && c != ACK
      invariant link.outcomes == old(link.outcomes)
      invariant Listen(old(link.incoming)) == Continued(chatter, Listen(link.incoming))
      decreases |link.incoming|
    {
      ghost var before := link.incoming;
      var r, used, waited := ReadTarget(link, READ_TICKS);
      if !r.Got? {
        assert Listen(before) == Heard([], false, link.incoming);
        assert chatter + [] == chatter;
        return;
      }
      c := r.b;
      if c == ACK {
        assert Listen(before) == Heard([], true, link.incoming);
        assert chatter + [] == chatter;
        acked := true;
        return;
      }
      link.Show(c);
      EchoesSnoc(old(link.trace), chatter, c);
      ListenStep(chatter, before, c, link.incoming);
      chatter := chatter + [c];
    }
  }

  /**
   * One round of `wait_hello`: write ENQ if that is still done (reopening the port and giving up
   * on ENQ for good when the write is refused), then listen for ACK.
   */
  method HelloRound(link: Link, sendEnq: bool) returns (stillSend: bool, c: byte, ghost a: HelloAttempt)
    modifies link
    ensures link.trace == old(link.trace) + AttemptEvents(a)
    ensures a.acked <==> c == ACK
    ensures ACK !in a.chatter
    ensures a.inquiry.Skipped? <==> !sendEnq
    ensures stillSend <==> sendEnq && !Refused(a.inquiry)
    ensures RoundOf(old(link.incoming), old(link.outcomes), sendEnq) == Round(stillSend, a, link.incoming, link.outcomes)
  {
    stillSend := sendEnq;
    var inquiry := Skipped;
    if sendEnq {
      var w := link.Write([ENQ]);
      inquiry := Enq(w);
      if w != Accepted {
        // the port refused the byte: reopen it and never send ENQ again
        link.Reopen();
        stillSend := false;
      }
    }
    assert link.trace == old(link.trace) + InquiryEvents(inquiry);
    assert link.incoming == old(link.incoming);
    ghost var chatter, acked;
    c, chatter, acked := ListenForAck(link);
    a := HelloAttempt(inquiry, chatter, acked);
    AttemptTrace(old(link.trace), a);
  }

  /**
   * The state of the `wait_hello` loop after the rounds `atts`, with `retry` rounds left: the
   * trace since `t` is theirs, `answered` says the last one read ACK, ENQ is still sent exactly
   * when no inquiry was refused, and the reference handshake `whole` is these rounds followed by
   * what the loop still does on the remaining scripts.
   */
  ghost predicate Inquiring(whole: Hello, t: seq<Event>, trace: seq<Event>, atts: seq<HelloAttempt>,
                            incoming: seq<Poll>, outcomes: seq<WriteResult>, sendEnq: bool, answered: bool, retry: nat)
  {
    && |atts| + retry == HELLO_ATTEMPTS
    && trace == t + HelloEvents(atts)
    && (answered <==> atts != [] && atts[|atts| - 1].acked)
    && InquiryDiscipline(atts)
    && (sendEnq <==> !StoppedBefore(atts, |atts|))
    && whole == Prefixed(atts, HelloLoop(incoming, outcomes, sendEnq, if answered then 0 else retry))
  }

  /** One pass of the `wait_hello` loop: a round, recorded after the rounds `atts`. */
  method NextRound(link: Link, sendEnq: bool, ghost t: seq<Event>, ghost atts: seq<HelloAttempt>,
                   ghost whole: Hello, ghost retry: nat)
    returns (stillSend: bool, c: byte, ghost next: seq<HelloAttempt>)
    modifies link
    requires retry > 0
    requires Inquiring(whole, t, link.trace, atts, link.incoming, link.outcomes, sendEnq, false, retry)
    ensures Inquiring(whole, t, link.trace, next, link.incoming, link.outcomes, stillSend, c == ACK, retry - 1)
  {
    ghost var s0, o0 := link.incoming, link.outcomes;
    ghost var a;
    stillSend, c, a := HelloRound(link, sendEnq);
    HelloEventsSnoc(atts, a, t);
    DisciplineSnoc(atts, a);
    HelloLoopStep(s0, o0, sendEnq, retry, atts, Round(stillSend, a, link.incoming, link.outcomes));
    next := atts + [a];
  }

  /**
   * Where the `wait_hello` loop stops, at ACK or with no round left, its rounds are the whole
   * reference handshake, and they stop at the first ACK.
   */
  lemma {:induction false} Concluded(s: seq<Poll>, outs: seq<WriteResult>, t: seq<Event>, trace: seq<Event>,
                                     atts: seq<HelloAttempt>, incoming: seq<Poll>, outcomes: seq<WriteResult>,
                                     sendEnq: bool, answered: bool, retry: nat)
    requires Inquiring(HelloLoop(s, outs, true, HELLO_ATTEMPTS), t, trace, atts, incoming, outcomes, sendEnq, answered, retry)
    requires answered || retry == 0
    ensures trace == t + HelloEvents(atts)
    ensures 1 <= |atts| <= HELLO_ATTEMPTS
    ensures answered <==> atts[|atts| - 1].acked
    ensures forall i :: 0 <= i < |atts| - 1 ==> !atts[i].acked
    ensures !answered ==> |atts| == HELLO_ATTEMPTS
    ensures forall i :: 0 <= i < |atts| ==> ACK !in atts[i].chatter
    ensures InquiryDiscipline(atts)
    ensures HelloLoop(s, outs, true, HELLO_ATTEMPTS) == Hello(atts, incoming, outcomes)
  {
    assert atts + [] == atts;
    HelloRounds(s, outs, true, HELLO_ATTEMPTS, atts);
  }

  /**
   * The loop of `wait_hello`: rounds until one reads ACK or none is left; `c` is the last byte
   * read and `left` the rounds not made.
   */
  method Inquire(link: Link) returns (c: byte, ghost atts: seq<HelloAttempt>, ghost sendEnq: bool, ghost left: nat)
    modifies link
    ensures Inquiring(HelloLoop(old(link.incoming), old(link.outcomes), true, HELLO_ATTEMPTS), old(link.trace), link.trace,
                      atts, link.incoming, link.outcomes, sendEnq, c == ACK, left)
    ensures c == ACK || left == 0
  {
    c := 0;
    var retry := HELLO_ATTEMPTS;
    var stillSend := true;
    atts := [];
    ghost var whole := HelloLoop(link.incoming, link.outcomes, stillSend, retry);
    // the `break` on ACK is the first half of the loop condition
    while c != ACK && 0 < retry
      invariant Inquiring(whole, old(link.trace), link.trace, atts, link.incoming, link.outcomes, stillSend, c == ACK, retry)
      decreases retry
    {
      stillSend, c, atts := NextRound(link, stillSend, old(link.trace), atts, whole, retry);
      retry := retry - 1;
    }
    sendEnq, left := stillSend, retry;
  }

  /**
   * `wait_hello`: up to 100 rounds of inquiry. Succeeds exactly when some round reads ACK, and
   * then stops at that round.
   */
  method WaitHello(link: Link) returns (st: Status, ghost atts: seq<HelloAttempt>)
    modifies link
    ensures st == Ok || st == Failed(SyncError)
    ensures link.trace == old(link.trace) + HelloEvents(atts)
    ensures 1 <= |atts| <= HELLO_ATTEMPTS
    ensures st == Ok <==> atts[|atts| - 1].acked
    ensures forall i :: 0 <= i < |atts| - 1 ==> !atts[i].acked
    ensures st != Ok ==> |atts| == HELLO_ATTEMPTS
    ensures forall i :: 0 <= i < |atts| ==> ACK !in atts[i].chatter
    ensures InquiryDiscipline(atts)
    ensures HelloLoop(old(link.incoming), old(link.outcomes), true, HELLO_ATTEMPTS) == Hello(atts, link.incoming, link.outcomes)
  {
    var c;
    ghost var sendEnq, left;
    c, atts, sendEnq, left := Inquire(link);
    Concluded(old(link.incoming), old(link.outcomes), old(link.trace), link.trace, atts, link.incoming, link.outcomes,
              sendEnq, c == ACK, left);
    st := if c == ACK then Ok else Failed(SyncError);
  }
}
