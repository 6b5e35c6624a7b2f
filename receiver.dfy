/**
 * The result receiver: target output is echoed until a frame marker arrives, then the 16-bit
 * length, a '!' back to the target, and the payload in groups of at most 100 bytes, each answered
 * with '#'. The payload lands in a fresh buffer one byte longer than the length, NUL-terminated.
 */
module Receiver {
  import opened Wire
  import opened SerialLink
  import opened ByteReader
  import opened Chunking

  /** What the payload phase left on the link, `rest`, for each way it can end, where `got` is
      what was read into the buffer: the whole lockstep transfer; or the transfer cut short in the
      group that starts at `g`, by a read that timed out or by a refused '#'. */
  predicate DownloadTrace(len: nat, got: seq<byte>, st: Status, g: nat, rest: seq<Event>) {
    if st == Ok then
      |got| == len && rest == Lockstep(got, Download)
    else
      g % GROUP == 0 && g < len && g <= |got| <= g + GroupSize(len - g) &&
      rest == Partial(got, g, |got|, Download) &&
      ((st == Failed(ReadTimeout) && |got| < g + GroupSize(len - g)) ||
       (st == Failed(WriteError) && |got| == g + GroupSize(len - g)))
  }

  /** Everything `read_result` observed: the target output echoed before the marker, the marker,
      the length bytes read, whether the port took the '!', and the payload phase as in
      `DownloadTrace`. */
  datatype Reception = Reception(chatter: seq<byte>, marker: byte, lenBytes: seq<byte>, answered: bool,
                                 g: nat, got: seq<byte>, rest: seq<Event>)

  /** The events `read_result` leaves on the link: the echoed output, then, unless it waits for
      ever, the marker, the length bytes read, and, once the port took the '!', the payload phase. */
  function ResultEvents(st: Status, rx: Reception): seq<Event> {
    if st == WaitsForever then Echoes(rx.chatter)
    else if !rx.answered then FrameHead(rx)
    else FrameHead(rx) + [Sent(HEADER_ACK)] + rx.rest
  }

  /** The echoed output, the marker and the length bytes read. */
  function FrameHead(rx: Reception): seq<Event> {
    Echoes(rx.chatter) + [Recv(rx.marker)] + Recvs(rx.lenBytes)
  }

  /** How `read_result` ended, for each point where it can stop: waiting for ever before any
      marker; a timeout on a length byte; a refused '!'; or in the payload phase. */
  predicate ResultOutcome(st: Status, rx: Reception) {
    (forall i :: 0 <= i < |rx.chatter| ==> !IsMarker(rx.chatter[i])) &&
    if st == WaitsForever then
      true
    else if |rx.lenBytes| < 2 then
      st == Failed(ReadTimeout) && IsMarker(rx.marker) && !rx.answered
    else if !rx.answered then
      st == Failed(WriteError) && IsMarker(rx.marker) && |rx.lenBytes| == 2
    else
      IsMarker(rx.marker) && |rx.lenBytes| == 2 &&
      DownloadTrace(DecodeLength(rx.lenBytes[0], rx.lenBytes[1]), rx.got, st, rx.g, rx.rest)
  }

  /** Before the '!' the host has only read: the echoed output, the marker, the length bytes. */
  lemma HeadProjection(rx: Reception)
    ensures Received(FrameHead(rx)) == rx.chatter + [rx.marker] + rx.lenBytes
    ensures Transmitted(FrameHead(rx)) == []
  {
    var echoes, marker, lens := Echoes(rx.chatter), [Recv(rx.marker)], Recvs(rx.lenBytes);
    EchoesProjection(rx.chatter);
    RecvsProjection(rx.lenBytes);
    assert marker[..0] == [];
    assert Received(marker) == [rx.marker] && Transmitted(marker) == [];
    ReceivedAppend(echoes, marker);
    TransmittedAppend(echoes, marker);
    ReceivedAppend(echoes + marker, lens);
    TransmittedAppend(echoes + marker, lens);
  }

  /** The payload phase reads exactly the bytes stored; a complete one answers each group. */
  lemma DownloadProjection(len: nat, got: seq<byte>, st: Status, g: nat, rest: seq<Event>)
    requires DownloadTrace(len, got, st, g, rest)
    ensures Received(rest) == got
    ensures st == Ok ==> Transmitted(rest) == Repeat(CHUNK_ACK, ChunkCount(|got|))
  {
    if st == Ok {
      LockstepProjection(got, Download);
    } else {
      PartialProjection(got, g, |got|, Download);
      assert got[..|got|] == got;
    }
  }

  /**
   * Once the port took the '!', the host has read the echoed output, the marker, the two length
   * bytes and the payload bytes it stored, in this order; on success it has sent exactly one '!'
   * and then one '#' per group of the payload.
   */
  lemma ResultProjection(st: Status, rx: Reception)
    requires ResultOutcome(st, rx) && st != WaitsForever && rx.answered
    ensures Received(ResultEvents(st, rx)) == rx.chatter + [rx.marker] + rx.lenBytes + rx.got
    ensures st == Ok ==> Transmitted(ResultEvents(st, rx)) == [HEADER_ACK] + Repeat(CHUNK_ACK, ChunkCount(|rx.got|))
  {
    var head, ack := FrameHead(rx), [Sent(HEADER_ACK)];
    assert ResultEvents(st, rx) == head + ack + rx.rest;
    var len := DecodeLength(rx.lenBytes[0], rx.lenBytes[1]);
    assert DownloadTrace(len, rx.got, st, rx.g, rx.rest);
    HeadProjection(rx);
    DownloadProjection(len, rx.got, st, rx.g, rx.rest);
    assert ack[..0] == [];
    assert Received(ack) == [] && Transmitted(ack) == [HEADER_ACK];
    ReceivedAppend(head, ack);
    TransmittedAppend(head, ack);
    assert Received(head + ack) == rx.chatter + [rx.marker] + rx.lenBytes;
    assert Transmitted(head + ack) == [HEADER_ACK];
    ReceivedAppend(head + ack, rx.rest);
    TransmittedAppend(head + ack, rx.rest);
  }

  /** What the wait for a frame marker takes from the script: how it ends, the marker, the
      target output echoed before it, and what is left. */
  datatype Awaited = Awaited(st: Status, marker: byte, chatter: seq<byte>, rest: seq<Poll>)

  /**
   * The reference wait for a frame marker: read with no time limit, echo every byte that is not
   * a marker, stop at the first marker; on a script with no marker left it waits for ever.
   */
  function AwaitOf(s: seq<Poll>): (a: Awaited)
    ensures a.st == Ok || a.st == WaitsForever
    ensures a.st == Ok ==> IsMarker(a.marker)
    ensures a.st == WaitsForever ==> a.rest == [] && a.marker == NUL
    ensures forall i :: 0 <= i < |a.chatter| ==> !IsMarker(a.chatter[i])
    decreases |s|
  {
    var p := ReadOf(s, 0);
    if !p.r.Got? then Awaited(WaitsForever, NUL, [], p.rest)
    else if IsMarker(p.r.b) then Awaited(Ok, p.r.b, [], p.rest)
    else var a := AwaitOf(p.rest); Awaited(a.st, a.marker, [p.r.b] + a.chatter, a.rest)
  }

  /** The rest of the wait, after the bytes `chatter` were echoed. */
  function AwaitResumed(chatter: seq<byte>, a: Awaited): Awaited {
    if chatter == [] then a else Awaited(a.st, a.marker, chatter + a.chatter, a.rest)
  }

  /** A byte that is not a marker, read at the start of `s`, joins the output already echoed. */
  lemma AwaitStep(chatter: seq<byte>, s: seq<Poll>, c: byte, rest: seq<Poll>)
    requires ReadOf(s, 0) == Polled(Got(c), rest) && !IsMarker(c)
    ensures AwaitResumed(chatter, AwaitOf(s)) == AwaitResumed(chatter + [c], AwaitOf(rest))
  {
    var a := AwaitOf(rest);
    assert chatter + ([c] + a.chatter) == chatter + [c] + a.chatter;
  }

  /** Target output and then a marker: the wait echoes exactly that output and stops at the
      marker. */
  lemma {:induction false} AwaitEchoes(chatter: seq<byte>, m: byte, rest: seq<Poll>)
    requires IsMarker(m) && forall i :: 0 <= i < |chatter| ==> !IsMarker(chatter[i])
    ensures AwaitOf(Deliver(chatter) + [Arrives(m)] + rest) == Awaited(Ok, m, chatter, rest)
    decreases |chatter|
  {
    if chatter == [] {
      assert Deliver(chatter) + [Arrives(m)] + rest == [Arrives(m)] + rest;
      ReadArrives(m, rest, 0);
    } else {
      var tail := Deliver(chatter[1..]) + [Arrives(m)] + rest;
      assert Deliver(chatter) + [Arrives(m)] + rest == [Arrives(chatter[0])] + tail;
      ReadArrives(chatter[0], tail, 0);
      AwaitEchoes(chatter[1..], m, rest);
      assert [chatter[0]] + chatter[1..] == chatter;
    }
  }

  /** A marker at the first poll ends the wait at once. */
  lemma AwaitFirst(s: seq<Poll>)
    requires s != [] && s[0].Arrives? && IsMarker(s[0].b)
    ensures AwaitOf(s) == Awaited(Ok, s[0].b, [], s[1..])
  {
    assert s == [Arrives(s[0].b)] + s[1..];
    ReadArrives(s[0].b, s[1..], 0);
  }

  /** However long the target stays quiet before its marker, the wait does not give up. */
  lemma AwaitPatient(k: nat, m: byte, rest: seq<Poll>)
    requires IsMarker(m)
    ensures AwaitOf(seq(k, _ => Empty) + [Arrives(m)] + rest) == Awaited(Ok, m, [], rest)
  {
    var tail := [Arrives(m)] + rest;
    assert seq(k, _ => Empty) + [Arrives(m)] + rest == seq(k, _ => Empty) + tail;
    ReadGap(k, tail, 0);
    ReadArrives(m, rest, 0);
  }

  /** On a target that has gone silent the wait never ends. */
  lemma AwaitSilent()
    ensures AwaitOf([]) == Awaited(WaitsForever, NUL, [], [])
  {
    ReadSilent(0);
  }

  /**
   * The first loop of `read_result`: read with no time limit and echo each byte to the console
   * until a marker arrives. Nothing but a marker ends it; on a target that has gone silent it
   * waits for ever.
   */
  method AwaitMarker(link: Link) returns (st: Status, m: byte, ghost chatter: seq<byte>)
    modifies link
    ensures st == Ok || st == WaitsForever
    ensures link.trace == old(link.trace) + Echoes(chatter) + (if st == Ok then [Recv(m)] else [])
    ensures forall i :: 0 <= i < |chatter| ==> !IsMarker(chatter[i])
    ensures st == Ok ==> IsMarker(m)
    ensures st == WaitsForever ==> link.incoming == []
    ensures link.outcomes == old(link.outcomes)
    ensures old(link.incoming) != [] && old(link.incoming)[0].Arrives? && IsMarker(old(link.incoming)[0].b) ==>
      st == Ok && m == old(link.incoming)[0].b && chatter == [] && link.incoming == old(link.incoming)[1..]
    ensures AwaitOf(old(link.incoming)) == Awaited(st, m, chatter, link.incoming)
  {
    if old(link.incoming) != [] && old(link.incoming)[0].Arrives? && IsMarker(old(link.incoming)[0].b) {
      AwaitFirst(old(link.incoming));
    }
    ghost var start := link.trace;
    chatter := [];
    while true
      invariant link.trace == start + Echoes(chatter)
      invariant link.outcomes == old(link.outcomes)
      invariant AwaitOf(old(link.incoming)) == AwaitResumed(chatter, AwaitOf(link.incoming))
      decreases |link.incoming|
    {
      ghost var before := link.incoming;
      var r, used, waited := ReadTarget(link, 0);
      if !r.Got? {
        st, m := WaitsForever, NUL;
        assert AwaitOf(before) == Awaited(WaitsForever, NUL, [], link.incoming);
        assert chatter + [] == chatter;
        return;
      }
      if IsMarker(r.b) {
        st, m := Ok, r.b;
        assert AwaitOf(before) == Awaited(Ok, m, [], link.incoming);
        assert chatter + [] == chatter;
        return;
      }
      link.Show(r.b);
      EchoesSnoc(start, chatter, r.b);
      AwaitStep(chatter, before, r.b, link.incoming);
      chatter := chatter + [r.b];
    }
  }

  /** What reading the two length bytes takes from the script: how it ends, the bytes (NUL for
      one not read), the bytes read, and what is left. */
  datatype LengthRead = LengthRead(st: Status, hi: byte, lo: byte, got: seq<byte>, rest: seq<Poll>)

  /** The reference length read: two reads of 20 ticks each; the first that times out ends it. */
  function LengthOf(s: seq<Poll>): (l: LengthRead)
    ensures l.st == Ok || l.st == Failed(ReadTimeout)
    ensures l.st == Ok <==> |l.got| == 2
    ensures l.st == Ok ==> l.got == [l.hi, l.lo]
    ensures |l.got| <= 2
  {
    var a := ReadOf(s, READ_TICKS);
    if !a.r.Got? then LengthRead(Failed(ReadTimeout), NUL, NUL, [], a.rest)
    else
      var b := ReadOf(a.rest, READ_TICKS);
      if !b.r.Got? then LengthRead(Failed(ReadTimeout), a.r.b, NUL, [a.r.b], b.rest)
      else LengthRead(Ok, a.r.b, b.r.b, [a.r.b, b.r.b], b.rest)
  }

  /** Two bytes waiting are the length. */
  lemma LengthArrives(hi: byte, lo: byte, rest: seq<Poll>)
    ensures LengthOf([Arrives(hi), Arrives(lo)] + rest) == LengthRead(Ok, hi, lo, [hi, lo], rest)
  {
    ReadArrives(hi, [Arrives(lo)] + rest, READ_TICKS);
    assert [Arrives(hi), Arrives(lo)] + rest == [Arrives(hi)] + ([Arrives(lo)] + rest);
    ReadArrives(lo, rest, READ_TICKS);
  }

  /** A target that goes silent after the marker fails the read on the first length byte; one
      that goes silent after one length byte fails it on the second. */
  lemma LengthSilent(hi: byte)
    ensures LengthOf([]) == LengthRead(Failed(ReadTimeout), NUL, NUL, [], [])
    ensures LengthOf([Arrives(hi)]) == LengthRead(Failed(ReadTimeout), hi, NUL, [hi], [])
  {
    ReadSilent(READ_TICKS);
    ReadArrives(hi, [], READ_TICKS);
    assert [Arrives(hi)] + [] == [Arrives(hi)];
  }

  /** The per-byte budget: a length byte after fewer than 20 polls that find nothing is read;
      after 20 the read fails. */
  lemma LengthAfterGap(t: nat, hi: byte, lo: byte, rest: seq<Poll>)
    ensures var gap := seq(t, _ => Empty) + [Arrives(hi)] + ([Arrives(lo)] + rest);
      LengthOf(gap).st == if t < READ_TICKS then Ok else Failed(ReadTimeout)
  {
    ReadAfterGap(t, hi, [Arrives(lo)] + rest, READ_TICKS);
    ReadArrives(lo, rest, READ_TICKS);
  }

  /** The two length bytes of a result frame, each read with a budget of 20 ticks. */
  method ReadLength(link: Link) returns (st: Status, hi: byte, lo: byte, ghost got: seq<byte>)
    modifies link
    ensures st == Ok || st == Failed(ReadTimeout)
    ensures link.trace == old(link.trace) + Recvs(got)
    ensures st == Ok ==> got == [hi, lo]
    ensures st != Ok ==> |got| < 2
    ensures link.outcomes == old(link.outcomes)
    ensures |old(link.incoming)| >= 2 && old(link.incoming)[0].Arrives? && old(link.incoming)[1].Arrives? ==>
      st == Ok && hi == old(link.incoming)[0].b && lo == old(link.incoming)[1].b &&
      link.incoming == old(link.incoming)[2..]
    ensures LengthOf(old(link.incoming)) == LengthRead(st, hi, lo, got, link.incoming)
  {
    if |link.incoming| >= 2 && link.incoming[0].Arrives? && link.incoming[1].Arrives? {
      var s := link.incoming;
      assert s == [Arrives(s[0].b), Arrives(s[1].b)] + s[2..];
      LengthArrives(s[0].b, s[1].b, s[2..]);
    }
    hi, lo, got := NUL, NUL, [];
    var r, used, waited := ReadTarget(link, READ_TICKS);
    if !r.Got? {
      st := Failed(ReadTimeout);
      return;
    }
    hi := r.b;
    ghost var mid := link.incoming;
    r, used, waited := ReadTarget(link, READ_TICKS);
    if !r.Got? {
      st, got := Failed(ReadTimeout), [hi];
      return;
    }
    lo := r.b;
    st, got := Ok, [hi, lo];
    assert link.trace == old(link.trace) + [Recv(hi)] + [Recv(lo)];
  }

  /** How the length bytes and the '!' end: the status, the length bytes (NUL for one not read),
      the bytes read, and what is left of the scripts. */
  datatype Answer = Answer(st: Status, hi: byte, lo: byte, lenBytes: seq<byte>, incoming: seq<Poll>,
                           outcomes: seq<WriteResult>)

  /** The reference length read and answer: the two length bytes, then, once both came, the
      write of '!'. */
  function AnswerOf(s: seq<Poll>, outs: seq<WriteResult>): (r: Answer)
    ensures r.st == Ok || r.st == Failed(ReadTimeout) || r.st == Failed(WriteError)
    ensures r.st == Failed(ReadTimeout) <==> |r.lenBytes| < 2
    ensures r.st != Failed(ReadTimeout) ==> r.lenBytes == [r.hi, r.lo] && r.outcomes == Pending(outs)
    ensures r.st == Failed(ReadTimeout) ==> r.outcomes == outs
    ensures r.st == Ok <==> |r.lenBytes| == 2 && NextResult(outs) == Accepted
  {
    var l := LengthOf(s);
    if l.st != Ok then Answer(l.st, l.hi, l.lo, l.got, l.rest, outs)
    else if NextResult(outs) != Accepted then Answer(Failed(WriteError), l.hi, l.lo, l.got, l.rest, Pending(outs))
    else Answer(Ok, l.hi, l.lo, l.got, l.rest, Pending(outs))
  }

  /** The length bytes of a result frame and the '!' that answers them; a refused '!' is a write
      error. */
  method AnswerHeader(link: Link) returns (st: Status, hi: byte, lo: byte, ghost lenBytes: seq<byte>)
    modifies link
    ensures link.trace == old(link.trace) + Recvs(lenBytes) + (if st == Ok then [Sent(HEADER_ACK)] else [])
    ensures AnswerOf(old(link.incoming), old(link.outcomes)) == Answer(st, hi, lo, lenBytes, link.incoming, link.outcomes)
  {
    st, hi, lo, lenBytes := ReadLength(link);
    if st != Ok {
      return;
    }
    var w := link.Write([HEADER_ACK]);
    if w != Accepted {
      st := Failed(WriteError);
      return;
    }
    assert Sends([HEADER_ACK]) == [Sent(HEADER_ACK)];
  }

  /** What reading one group takes from the script: whether every byte came, the bytes read,
      and what is left. */
  datatype Fetched = Fetched(ok: bool, bytes: seq<byte>, rest: seq<Poll>)

  /** The reference group read: `room` reads of 20 ticks each, stopping at the first that times
      out. */
  function FetchOf(s: seq<Poll>, room: nat): (f: Fetched)
    ensures |f.bytes| <= room
    ensures f.ok <==> |f.bytes| == room
    decreases room
  {
    if room == 0 then Fetched(true, [], s)
    else
      var p := ReadOf(s, READ_TICKS);
      if !p.r.Got? then Fetched(false, [], p.rest)
      else var f := FetchOf(p.rest, room - 1); Fetched(f.ok, [p.r.b] + f.bytes, f.rest)
  }

  /** The rest of a group read, after the bytes `bytes` were stored. */
  function FetchResumed(bytes: seq<byte>, f: Fetched): Fetched {
    if bytes == [] then f else Fetched(f.ok, bytes + f.bytes, f.rest)
  }

  /** A byte read at the start of `s` joins the bytes already stored. */
  lemma FetchStep(bytes: seq<byte>, s: seq<Poll>, room: nat, c: byte, rest: seq<Poll>)
    requires room > 0 && ReadOf(s, READ_TICKS) == Polled(Got(c), rest)
    ensures FetchResumed(bytes, FetchOf(s, room)) == FetchResumed(bytes + [c], FetchOf(rest, room - 1))
  {
    var f := FetchOf(rest, room - 1);
    assert bytes + ([c] + f.bytes) == bytes + [c] + f.bytes;
  }

  /** A read that times out ends the group read with the bytes already stored. */
  lemma FetchCut(bytes: seq<byte>, s: seq<Poll>, room: nat, r: Reading, rest: seq<Poll>)
    requires room > 0 && ReadOf(s, READ_TICKS) == Polled(r, rest) && !r.Got?
    ensures FetchResumed(bytes, FetchOf(s, room)) == Fetched(false, bytes, rest)
  {
    assert bytes + [] == bytes;
  }

  /** A target that sends at least a group's worth of bytes at once fills the group. */
  lemma {:induction false} FetchDelivers(q: seq<byte>, s: seq<Poll>, room: nat)
    requires room <= |q|
    ensures FetchOf(Deliver(q) + s, room) == Fetched(true, q[..room], Deliver(q[room..]) + s)
    decreases room
  {
    if room > 0 {
      var tail := Deliver(q[1..]) + s;
      assert Deliver(q) + s == [Arrives(q[0])] + tail;
      ReadArrives(q[0], tail, READ_TICKS);
      FetchDelivers(q[1..], s, room - 1);
      assert q[1..][..room - 1] == q[1..room] && q[1..][room - 1..] == q[room..];
      assert [q[0]] + q[1..room] == q[..room];
    } else {
      assert q[..0] == [] && q[0..] == q;
    }
  }

  /** A target that falls silent fails the group on its first byte. */
  lemma FetchSilent(room: nat)
    requires room > 0
    ensures FetchOf([], room) == Fetched(false, [], [])
  {
    ReadSilent(READ_TICKS);
  }

  /**
   * The state of the inner loop of `read_result` after `i` of the `room` bytes of a group were
   * stored: the trace since `t` reads them, and the reference read `whole` of the group is these
   * bytes followed by what the loop still reads from the remaining script.
   */
  ghost predicate Filling(whole: Fetched, t: seq<Event>, trace: seq<Event>, stored: seq<byte>, room: nat, i: nat,
                          incoming: seq<Poll>)
  {
    && i <= room && |stored| == i
    && trace == t + Recvs(stored)
    && whole == FetchResumed(stored, FetchOf(incoming, room - i))
  }

  /** Storing the byte `c` that the next read brings keeps the inner loop's state. */
  lemma FillingNext(whole: Fetched, t: seq<Event>, trace: seq<Event>, stored: seq<byte>, c: byte, room: nat, i: nat,
                    s: seq<Poll>, rest: seq<Poll>)
    requires i < room && Filling(whole, t, t + Recvs(stored), stored, room, i, s)
    requires ReadOf(s, READ_TICKS) == Polled(Got(c), rest) && trace == t + Recvs(stored) + [Recv(c)]
    ensures Filling(whole, t, trace, stored + [c], room, i + 1, rest)
  {
    FetchStep(stored, s, room - i, c, rest);
    RecvsAppend(t, stored, [c]);
  }

  /** One pass of the inner loop of `read_result`: read one byte with a budget of 20 ticks into
      `buf[d]`, or fail when none comes in time. */
  method StoreByte(link: Link, buf: array<byte>, g: nat, d: nat, ghost room: nat, ghost t: seq<Event>, ghost whole: Fetched)
    returns (ok: bool)
    requires g <= d < buf.Length && d - g < room
    requires Filling(whole, t, link.trace, buf[g..d], room, d - g, link.incoming)
    modifies link, buf
    ensures buf[..g] == old(buf[..g])
    ensures link.outcomes == old(link.outcomes)
    ensures ok ==> Filling(whole, t, link.trace, buf[g..d + 1], room, d - g + 1, link.incoming)
    ensures !ok ==> link.trace == t + Recvs(buf[g..d]) && whole == Fetched(false, buf[g..d], link.incoming)
  {
    ghost var before, script := buf[g..d], link.incoming;
    var r, used, waited := ReadTarget(link, READ_TICKS);
    if !r.Got? {
      ok := false;
      FetchCut(before, script, room - (d - g), r, link.incoming);
      return;
    }
    FillingNext(whole, t, link.trace, before, r.b, room, d - g, script, link.incoming);
    buf[d] := r.b;
    assert buf[g..d + 1] == before + [r.b];
    ok := true;
  }

  /**
   * The inner loop of `read_result`: read the bytes of the group that starts at offset `g` into
   * the buffer, one byte and 20 ticks at a time, until 100 bytes or the last payload byte have
   * come, or a read times out.
   */
  method FillGroup(link: Link, buf: array<byte>, len: nat, g: nat, ghost room: nat, ghost whole: Fetched)
    returns (ok: bool, d: nat)
    requires g < len < buf.Length && room == GroupSize(len - g)
    requires whole == FetchOf(link.incoming, room)
    modifies link, buf
    ensures g <= d <= g + room && buf[..g] == old(buf[..g])
    ensures link.outcomes == old(link.outcomes)
    ensures ok ==> d == g + room && Filling(whole, old(link.trace), link.trace, buf[g..d], room, room, link.incoming)
    ensures !ok ==> link.trace == old(link.trace) + Recvs(buf[g..d]) && whole == Fetched(false, buf[g..d], link.incoming)
  {
    var i := 0;
    d := g;
    assert buf[g..d] == [];
    while i < GROUP
      invariant 0 <= i <= GROUP && d == g + i && d <= len
      invariant i < GROUP ==> d < len
      invariant buf[..g] == old(buf[..g])
      invariant link.outcomes == old(link.outcomes)
      invariant Filling(whole, old(link.trace), link.trace, buf[g..d], room, i, link.incoming)
      decreases GROUP - i
    {
      ok := StoreByte(link, buf, g, d, room, old(link.trace), whole);
      if !ok {
        return;
      }
      d := d + 1;
      i := i + 1;
      if d == len {
        break;
      }
    }
    assert d == g + room;
    ok := true;
  }

  /**
   * The group read of `read_result`, from the offset `g`: fails on a read that times out. `q` is
   * the payload a cooperating target sends.
   */
  method ReceiveGroup(link: Link, buf: array<byte>, len: nat, g: nat, ghost q: seq<byte>) returns (ok: bool, d: nat)
    requires g < len < buf.Length
    modifies link, buf
    ensures g <= d <= g + GroupSize(len - g)
    ensures ok <==> d == g + GroupSize(len - g)
    ensures buf[..g] == old(buf[..g])
    ensures link.trace == old(link.trace) + Recvs(buf[g..d])
    ensures link.outcomes == old(link.outcomes)
    ensures |q| == len && old(link.incoming) == Deliver(q[g..]) ==>
      ok && buf[g..d] == q[g..d] && link.incoming == Deliver(q[d..])
    ensures FetchOf(old(link.incoming), GroupSize(len - g)) == Fetched(ok, buf[g..d], link.incoming)
  {
    ghost var room := GroupSize(len - g);
    ghost var whole := FetchOf(link.incoming, room);
    if |q| == len && old(link.incoming) == Deliver(q[g..]) {
      FetchDelivers(q[g..], [], room);
      assert Deliver(q[g..]) + [] == Deliver(q[g..]) && q[g..][..room] == q[g..g + room];
      assert Deliver(q[g..][room..]) + [] == Deliver(q[g + room..]);
    }
    ok, d := FillGroup(link, buf, len, g, room, whole);
    if ok {
      assert buf[g..d] + [] == buf[g..d];
    }
  }

  /** How one group of the payload phase ends: its status, the bytes read into the buffer, and
      what it leaves of the scripts. */
  datatype GroupRead = GroupRead(st: Status, bytes: seq<byte>, incoming: seq<Poll>, outcomes: seq<WriteResult>)

  /** The reference group of `room` bytes: its reads, then, when all came, the write of '#'. */
  function DownloadGroupOf(s: seq<Poll>, outs: seq<WriteResult>, room: nat): (u: GroupRead)
    ensures u.st == Ok || u.st == Failed(ReadTimeout) || u.st == Failed(WriteError)
    ensures |u.bytes| <= room
    ensures u.st == Failed(ReadTimeout) <==> |u.bytes| < room
    ensures u.st == Failed(ReadTimeout) ==> u.outcomes == outs
  {
    var f := FetchOf(s, room);
    if !f.ok then GroupRead(Failed(ReadTimeout), f.bytes, f.rest, outs)
    else if NextResult(outs) != Accepted then GroupRead(Failed(WriteError), f.bytes, f.rest, Pending(outs))
    else GroupRead(Ok, f.bytes, f.rest, Pending(outs))
  }

  /** A group whose bytes all come is answered with '#'; when the port does not take it, the
      payload phase fails with the bytes stored. */
  lemma GroupAnswered(q: seq<byte>, s: seq<Poll>, outs: seq<WriteResult>)
    ensures DownloadGroupOf(Deliver(q) + s, outs, |q|) ==
              GroupRead(if NextResult(outs) == Accepted then Ok else Failed(WriteError), q, s, Pending(outs))
  {
    FetchDelivers(q, s, |q|);
    assert q[..|q|] == q && q[|q|..] == [] && Deliver([]) + s == s;
  }

  /** A target that falls silent fails the group with a read timeout, before any '#'. */
  lemma GroupCut(outs: seq<WriteResult>, room: nat)
    requires room > 0
    ensures DownloadGroupOf([], outs, room) == GroupRead(Failed(ReadTimeout), [], [], outs)
  {
    FetchSilent(room);
  }

  /** How one group of the payload phase, from the boundary `g` to the offset `e`, leaves the
      trace since `t`: the lockstep transfer extended by the group, up to the next boundary; or,
      when it fails, the transfer cut short, `rest`, as in `DownloadTrace`. */
  ghost predicate GroupEnded(t: seq<Event>, trace: seq<Event>, stored: seq<byte>, len: nat, g: nat, e: nat, st: Status,
                             rest: seq<Event>)
  {
    if st == Ok then
      g < len && e == g + GroupSize(len - g) && (e % GROUP == 0 || e == len) && trace == t + Lockstep(stored, Download)
    else
      trace == t + rest && DownloadTrace(len, stored, st, g, rest)
  }

  /** A group cut short, inside its reads or at its '#', leaves a transfer cut short. */
  lemma DownloadCut(t: seq<Event>, trace: seq<Event>, b: seq<byte>, len: nat, g: nat, e: nat, st: Status)
    returns (rest: seq<Event>)
    requires g % GROUP == 0 && g < len && g <= e <= g + GroupSize(len - g) && e <= |b|
    requires (st == Failed(ReadTimeout) && e < g + GroupSize(len - g)) ||
             (st == Failed(WriteError) && e == g + GroupSize(len - g))
    requires trace == t + Lockstep(b[..g], Download) + Recvs(b[g..e])
    ensures GroupEnded(t, trace, b[..e], len, g, e, st, rest)
  {
    assert b[..e][..g] == b[..g] && b[..e][g..e] == b[g..e];
    rest := Partial(b[..e], g, e, Download);
  }

  /** Reading one whole group and sending its '#' extends the lockstep transfer by that group,
      up to the next group boundary. */
  lemma DownloadStep(t: seq<Event>, trace: seq<Event>, b: seq<byte>, len: nat, g: nat, e: nat)
    requires g % GROUP == 0 && g < len <= |b| && e == g + GroupSize(len - g)
    requires trace == t + Lockstep(b[..g], Download) + Recvs(b[g..e]) + [Sent(CHUNK_ACK)]
    ensures GroupEnded(t, trace, b[..e], len, g, e, Ok, [])
  {
    NextBoundary(g, len);
    var p := b[..len];
    assert p[..g] == b[..g] && p[g..e] == b[g..e] && p[..e] == b[..e];
    var done, c := Lockstep(p[..g], Download), p[g..e];
    LockstepExtend(p, g, Download);
    assert Lockstep(p[..e], Download) == done + Carry(c, Download) + [ChunkAck(Download)];
    assert Carry(c, Download) == Recvs(c) && ChunkAck(Download) == Sent(CHUNK_ACK);
    Regroup(t, done, Recvs(c), [Sent(CHUNK_ACK)]);
  }

  /** The '#' that answers a group read in full; a refused one is a write error. */
  method AckGroup(link: Link, buf: array<byte>, len: nat, g: nat, e: nat, ghost t: seq<Event>)
    returns (st: Status, ghost rest: seq<Event>)
    requires g % GROUP == 0 && g < len < buf.Length && e == g + GroupSize(len - g)
    requires link.trace == t + Lockstep(buf[..g], Download) + Recvs(buf[g..e])
    modifies link
    ensures st == (if NextResult(old(link.outcomes)) == Accepted then Ok else Failed(WriteError))
    ensures link.incoming == old(link.incoming) && link.outcomes == Pending(old(link.outcomes))
    ensures GroupEnded(t, link.trace, buf[..e], len, g, e, st, rest)
  {
    var w := link.Write([CHUNK_ACK]);
    if w != Accepted {
      st := Failed(WriteError);
      rest := DownloadCut(t, link.trace, buf[..], len, g, e, st);
      return;
    }
    assert Sends([CHUNK_ACK]) == [Sent(CHUNK_ACK)];
    DownloadStep(t, link.trace, buf[..], len, g, e);
    st, rest := Ok, [];
  }

  /**
   * One pass of the payload loop of `read_result`, from the group boundary `g`: read the group,
   * then write its '#'. `e` is the offset reached, `t` the trace before the payload phase.
   */
  method DownloadGroup(link: Link, buf: array<byte>, len: nat, g: nat, ghost t: seq<Event>, ghost q: seq<byte>)
    returns (st: Status, e: nat, ghost rest: seq<Event>)
    requires g % GROUP == 0 && g < len < buf.Length
    requires link.trace == t + Lockstep(buf[..g], Download)
    modifies link, buf
    ensures buf[..g] == old(buf[..g]) && g <= e <= len
    ensures GroupEnded(t, link.trace, buf[..e], len, g, e, st, rest)
    ensures |q| == len && old(link.incoming) == Deliver(q[g..]) && old(link.outcomes) == [] ==>
      st == Ok && buf[g..e] == q[g..e] && link.incoming == Deliver(q[e..]) && link.outcomes == []
    ensures DownloadGroupOf(old(link.incoming), old(link.outcomes), GroupSize(len - g)) ==
              GroupRead(st, buf[g..e], link.incoming, link.outcomes)
  {
    if |q| == len && link.incoming == Deliver(q[g..]) && link.outcomes == [] {
      GroupDelivers(q, g);
    }
    var ok;
    ok, e := ReceiveGroup(link, buf, len, g, q);
    if !ok {
      // a payload byte did not come in time
      st := Failed(ReadTimeout);
      rest := DownloadCut(t, link.trace, buf[..], len, g, e, st);
      return;
    }
    st, rest := AckGroup(link, buf, len, g, e, t);
  }

  /** How the payload phase ends: its status, the group `g` it stopped in, the bytes in the
      buffer, and what it leaves of the scripts. */
  datatype Downloaded = Downloaded(st: Status, g: nat, got: seq<byte>, incoming: seq<Poll>, outcomes: seq<WriteResult>)

  /**
   * The reference payload phase for `len` bytes, after `received` of them, `got`, were stored:
   * one group after another, until the first group that fails.
   */
  function DownloadLoop(s: seq<Poll>, outs: seq<WriteResult>, len: nat, received: nat, got: seq<byte>): (x: Downloaded)
    requires received <= len
    ensures x.st == Ok || x.st == Failed(ReadTimeout) || x.st == Failed(WriteError)
    ensures |got| <= |x.got| <= |got| + (len - received)
    ensures x.st == Ok ==> |x.got| == |got| + (len - received)
    ensures x.st != Ok ==> received <= x.g < len
    decreases len - received
  {
    if received == len then Downloaded(Ok, 0, got, s, outs)
    else
      var u := DownloadGroupOf(s, outs, GroupSize(len - received));
      if u.st != Ok then Downloaded(u.st, received, got + u.bytes, u.incoming, u.outcomes)
      else DownloadLoop(u.incoming, u.outcomes, len, received + |u.bytes|, got + u.bytes)
  }

  /** A silent target fails the payload phase on its first byte. */
  lemma DownloadSilent(outs: seq<WriteResult>, len: nat)
    requires len > 0
    ensures DownloadLoop([], outs, len, 0, []) == Downloaded(Failed(ReadTimeout), 0, [], [], outs)
  {
    GroupCut(outs, GroupSize(len));
  }

  /** A port that does not take the '#' of the first group fails the payload phase with that
      group stored. */
  lemma DownloadRefused(q: seq<byte>, s: seq<Poll>, w: WriteResult, outs: seq<WriteResult>, len: nat)
    requires len > 0 && |q| == GroupSize(len) && w != Accepted
    ensures DownloadLoop(Deliver(q) + s, [w] + outs, len, 0, []) == Downloaded(Failed(WriteError), 0, q, s, outs)
  {
    GroupAnswered(q, s, [w] + outs);
    assert Pending([w] + outs) == outs;
    assert [] + q == q;
  }

  /** A group that succeeds hands the payload phase on to the next group boundary. */
  lemma DownloadLoopStep(s: seq<Poll>, outs: seq<WriteResult>, len: nat, received: nat, got: seq<byte>, u: GroupRead)
    requires received < len && u == DownloadGroupOf(s, outs, GroupSize(len - received)) && u.st == Ok
    ensures DownloadLoop(s, outs, len, received, got) ==
              DownloadLoop(u.incoming, u.outcomes, len, received + |u.bytes|, got + u.bytes)
  {
  }

  /** Against a target that sends the payload `q` at once, on a port that takes every '#', the
      group at `received` reads the next group of `q` and leaves the rest of it. */
  lemma GroupDelivers(q: seq<byte>, received: nat)
    requires received < |q|
    ensures var e := received + GroupSize(|q| - received);
      DownloadGroupOf(Deliver(q[received..]), [], GroupSize(|q| - received)) == GroupRead(Ok, q[received..e], Deliver(q[e..]), [])
  {
    var e := received + GroupSize(|q| - received);
    var c, later := q[received..e], Deliver(q[e..]);
    assert Deliver(q[received..]) == Deliver(c) + later;
    assert NextResult([]) == Accepted && Pending([]) == [];
    GroupAnswered(c, later, []);
  }

  /** The status and the bytes of the payload phase against a target that sends the payload `q`
      at once are those of the phase from the next group boundary on. */
  lemma DownloadDeliversStep(q: seq<byte>, received: nat)
    requires received < |q|
    ensures var e := received + GroupSize(|q| - received);
      DownloadLoop(Deliver(q[received..]), [], |q|, received, q[..received]) == DownloadLoop(Deliver(q[e..]), [], |q|, e, q[..e])
  {
    var e := received + GroupSize(|q| - received);
    var c := q[received..e];
    assert |c| == e - received;
    StoredSplit(q, received, e);
    GroupDelivers(q, received);
    DownloadLoopStep(Deliver(q[received..]), [], |q|, received, q[..received], GroupRead(Ok, c, Deliver(q[e..]), []));
  }

  /** A target that sends the whole payload at once, on a port that takes every '#', lets the
      payload phase store exactly that payload. */
  lemma {:induction false} DownloadDelivers(q: seq<byte>, received: nat)
    requires received <= |q|
    ensures var x := DownloadLoop(Deliver(q[received..]), [], |q|, received, q[..received]);
      x.st == Ok && x.got == q
    decreases |q| - received
  {
    if received < |q| {
      DownloadDeliversStep(q, received);
      DownloadDelivers(q, received + GroupSize(|q| - received));
    } else {
      assert q[..received] == q;
    }
  }

  /**
   * The state of the payload loop of `read_result` at the offset `received`: a group boundary
   * or the end, the trace since `t` is the lockstep transfer of the bytes `stored`, and the
   * reference payload phase `whole` is what the loop still does on the remaining scripts.
   */
  ghost predicate Receiving(whole: Downloaded, t: seq<Event>, trace: seq<Event>, stored: seq<byte>, len: nat, received: nat,
                            incoming: seq<Poll>, outcomes: seq<WriteResult>)
  {
    && received <= len && (received % GROUP == 0 || received == len) && |stored| == received
    && trace == t + Lockstep(stored, Download)
    && whole == DownloadLoop(incoming, outcomes, len, received, stored)
  }

  /** The bytes stored up to `e` are those up to `received` followed by the group after them. */
  lemma StoredSplit(b: seq<byte>, received: nat, e: nat)
    requires received <= e <= |b|
    ensures b[..e] == b[..received] + b[received..e]
  {
  }

  /** One pass of the payload loop of `read_result`: one group, from the offset `received`. */
  method NextGroup(link: Link, buf: array<byte>, len: nat, received: nat, ghost t: seq<Event>, ghost whole: Downloaded,
                   ghost q: seq<byte>)
    returns (st: Status, e: nat, ghost rest: seq<Event>)
    requires received < len < buf.Length
    requires Receiving(whole, t, link.trace, buf[..received], len, received, link.incoming, link.outcomes)
    modifies link, buf
    ensures st == Ok ==> received < e <= len && Receiving(whole, t, link.trace, buf[..e], len, e, link.incoming, link.outcomes)
    ensures st != Ok ==>
      e <= len && link.trace == t + rest && DownloadTrace(len, buf[..e], st, received, rest) &&
      whole == Downloaded(st, received, buf[..e], link.incoming, link.outcomes)
  {
    ghost var s0, o0, stored := link.incoming, link.outcomes, buf[..received];
    st, e, rest := DownloadGroup(link, buf, len, received, t, q);
    StoredSplit(buf[..], received, e);
    if st == Ok {
      DownloadLoopStep(s0, o0, len, received, stored, GroupRead(st, buf[received..e], link.incoming, link.outcomes));
    }
  }

  /**
   * The payload loop of `read_result`: groups of at most 100 bytes read into the buffer, each
   * answered with '#'. `got` is what the buffer received, from its start.
   */
  method ReceivePayload(link: Link, buf: array<byte>, len: nat, ghost q: seq<byte>)
    returns (st: Status, ghost g: nat, ghost got: seq<byte>, ghost rest: seq<Event>)
    requires len < buf.Length
    modifies link, buf
    ensures link.trace == old(link.trace) + rest && DownloadTrace(len, got, st, g, rest)
    ensures |got| <= len && got == buf[..|got|]
    ensures |q| == len && old(link.incoming) == Deliver(q) && old(link.outcomes) == [] ==> st == Ok && got == q
    ensures DownloadLoop(old(link.incoming), old(link.outcomes), len, 0, []) ==
              Downloaded(st, g, got, link.incoming, link.outcomes)
  {
    if |q| == len && old(link.incoming) == Deliver(q) && old(link.outcomes) == [] {
      DownloadDelivers(q, 0);
      assert q[0..] == q && q[..0] == [];
    }
    ghost var whole := DownloadLoop(link.incoming, link.outcomes, len, 0, []);
    var received := 0;
    assert buf[..0] == [];
    while received < len
      invariant received <= len
      invariant Receiving(whole, old(link.trace), link.trace, buf[..received], len, received, link.incoming, link.outcomes)
      decreases len - received
    {
      var r, e;
      r, e, rest := NextGroup(link, buf, len, received, old(link.trace), whole, q);
      if r != Ok {
        st, g, got := r, received, buf[..e];
        return;
      }
      received := e;
    }
    st, g, got, rest := Ok, 0, buf[..len], Lockstep(buf[..len], Download);
  }

  /** How the first half of `read_result` ends: its status, the exception flag, the announced
      length (0 unless it got that far), the output echoed, the marker, the length bytes read,
      whether the port took the '!', and what is left of the scripts. */
  datatype Announced = Announced(st: Status, isException: bool, len: nat, chatter: seq<byte>, marker: byte,
                                 lenBytes: seq<byte>, answered: bool, incoming: seq<Poll>, outcomes: seq<WriteResult>)

  /**
   * The reference first half of `read_result`: wait for a marker, read the two length bytes,
   * write '!'. The exception flag is set as soon as the marker is read.
   */
  function FrameHeaderOf(s: seq<Poll>, outs: seq<WriteResult>): (h: Announced)
    ensures h.st == Ok || h.st == WaitsForever || h.st == Failed(ReadTimeout) || h.st == Failed(WriteError)
    ensures h.st == Ok <==> h.answered
    ensures h.st != WaitsForever ==> IsMarker(h.marker) && (h.isException <==> h.marker == SOH_EXCEPTION)
    ensures h.st == Failed(ReadTimeout) <==> h.st != WaitsForever && |h.lenBytes| < 2
    ensures h.st == Ok ==> |h.lenBytes| == 2 && h.len == DecodeLength(h.lenBytes[0], h.lenBytes[1])
    ensures h.st == Failed(WriteError) ==> |h.lenBytes| == 2 && h.outcomes == Pending(outs)
    ensures forall i :: 0 <= i < |h.chatter| ==> !IsMarker(h.chatter[i])
  {
    var a := AwaitOf(s);
    if a.st != Ok then Announced(a.st, false, 0, a.chatter, a.marker, [], false, a.rest, outs)
    else
      var r := AnswerOf(a.rest, outs);
      Announced(r.st, a.marker != SOH, if r.st == Ok then DecodeLength(r.hi, r.lo) else 0, a.chatter, a.marker,
                r.lenBytes, r.st == Ok, r.incoming, r.outcomes)
  }

  /**
   * Target output holding no marker, then an encoded header: the output is echoed, the header's
   * length and flag are read back, and the answer is the port's next write outcome.
   */
  lemma HeaderAnswered(chatter: seq<byte>, exception: bool, n: nat, s: seq<Poll>, outs: seq<WriteResult>)
    requires n <= MAX_FRAME && forall i :: 0 <= i < |chatter| ==> !IsMarker(chatter[i])
    ensures var h := EncodeHeader(exception, n); var taken := NextResult(outs) == Accepted;
      FrameHeaderOf(Deliver(chatter + h) + s, outs) ==
        Announced(if taken then Ok else Failed(WriteError), exception, if taken then n else 0, chatter, h[0], h[1..],
                  taken, s, Pending(outs))
  {
    var h := EncodeHeader(exception, n);
    var lens := [Arrives(h[1]), Arrives(h[2])] + s;
    assert Deliver(chatter + h) + s == Deliver(chatter) + [Arrives(h[0])] + lens;
    AwaitEchoes(chatter, h[0], lens);
    LengthArrives(h[1], h[2], s);
    assert [h[1], h[2]] == h[1..];
    HeaderRoundTrip(exception, n);
  }

  /** How `read_result` ends: the first half as in `Announced`, then, once the port took the
      '!', the group `g` the payload phase stopped in and the bytes it stored. */
  datatype ResultRead = ResultRead(st: Status, isException: bool, chatter: seq<byte>, marker: byte, lenBytes: seq<byte>,
                                   answered: bool, g: nat, got: seq<byte>, incoming: seq<Poll>, outcomes: seq<WriteResult>)

  /** The reference `read_result`: the first half, then the payload phase for the announced
      length. */
  function ReadResultOf(s: seq<Poll>, outs: seq<WriteResult>): (r: ResultRead)
    ensures r.st == Ok || r.st == WaitsForever || r.st == Failed(ReadTimeout) || r.st == Failed(WriteError)
    ensures r.st == Ok ==> r.answered && |r.lenBytes| == 2 && |r.got| == DecodeLength(r.lenBytes[0], r.lenBytes[1])
    ensures !r.answered ==> r.got == []
  {
    var h := FrameHeaderOf(s, outs);
    if h.st != Ok then ResultRead(h.st, h.isException, h.chatter, h.marker, h.lenBytes, false, 0, [], h.incoming, h.outcomes)
    else
      var x := DownloadLoop(h.incoming, h.outcomes, h.len, 0, []);
      ResultRead(x.st, h.isException, h.chatter, h.marker, h.lenBytes, true, x.g, x.got, x.incoming, x.outcomes)
  }

  /** On a target that has gone silent `read_result` waits for ever, having read nothing. */
  lemma ResultSilent(outs: seq<WriteResult>)
    ensures ReadResultOf([], outs) == ResultRead(WaitsForever, false, [], NUL, [], false, 0, [], [], outs)
  {
    AwaitSilent();
  }

  /** A target that falls silent after its marker, or after one length byte, fails the read
      with a timeout, before any '!'. */
  lemma ResultLengthCut(chatter: seq<byte>, m: byte, hi: byte, outs: seq<WriteResult>)
    requires IsMarker(m) && forall i :: 0 <= i < |chatter| ==> !IsMarker(chatter[i])
    ensures ReadResultOf(Deliver(chatter) + [Arrives(m)], outs) ==
              ResultRead(Failed(ReadTimeout), m == SOH_EXCEPTION, chatter, m, [], false, 0, [], [], outs)
    ensures ReadResultOf(Deliver(chatter) + [Arrives(m), Arrives(hi)], outs) ==
              ResultRead(Failed(ReadTimeout), m == SOH_EXCEPTION, chatter, m, [hi], false, 0, [], [], outs)
  {
    AwaitEchoes(chatter, m, []);
    assert Deliver(chatter) + [Arrives(m)] + [] == Deliver(chatter) + [Arrives(m)];
    AwaitEchoes(chatter, m, [Arrives(hi)]);
    assert Deliver(chatter) + [Arrives(m)] + [Arrives(hi)] == Deliver(chatter) + [Arrives(m), Arrives(hi)];
    LengthSilent(hi);
  }

  /** A port that does not take the '!' fails the read with a write error, and nothing of the
      payload is read. */
  lemma ResultRefused(chatter: seq<byte>, exception: bool, n: nat, s: seq<Poll>, w: WriteResult, outs: seq<WriteResult>)
    requires n <= MAX_FRAME && w != Accepted && forall i :: 0 <= i < |chatter| ==> !IsMarker(chatter[i])
    ensures var h := EncodeHeader(exception, n);
      ReadResultOf(Deliver(chatter + h) + s, [w] + outs) ==
        ResultRead(Failed(WriteError), exception, chatter, h[0], h[1..], false, 0, [], s, outs)
  {
    HeaderAnswered(chatter, exception, n, s, [w] + outs);
    assert Pending([w] + outs) == outs;
  }

  /** A target that falls silent after a header announcing a payload fails the read with a
      timeout on the first payload byte, after the '!'. */
  lemma ResultPayloadCut(chatter: seq<byte>, exception: bool, n: nat)
    requires 0 < n <= MAX_FRAME && forall i :: 0 <= i < |chatter| ==> !IsMarker(chatter[i])
    ensures var h := EncodeHeader(exception, n);
      ReadResultOf(Deliver(chatter + h), []) ==
        ResultRead(Failed(ReadTimeout), exception, chatter, h[0], h[1..], true, 0, [], [], [])
  {
    var h := EncodeHeader(exception, n);
    HeaderAnswered(chatter, exception, n, [], []);
    assert Deliver(chatter + h) + [] == Deliver(chatter + h);
    assert NextResult([]) == Accepted && Pending([]) == [];
    DownloadSilent([], n);
  }

  /** A target that sends output holding no marker and then a well-formed frame, on a port that
      takes every write, yields that output echoed, the frame's exception flag and its payload. */
  lemma ResultDelivers(chatter: seq<byte>, exception: bool, payload: seq<byte>)
    requires |payload| <= MAX_FRAME && forall i :: 0 <= i < |chatter| ==> !IsMarker(chatter[i])
    ensures var r := ReadResultOf(Deliver(chatter + EncodeHeader(exception, |payload|) + payload), []);
      r.st == Ok && r.isException == exception && r.chatter == chatter && r.got == payload
  {
    var h := EncodeHeader(exception, |payload|);
    assert Deliver(chatter + h + payload) == Deliver(chatter + h) + Deliver(payload);
    assert NextResult([]) == Accepted && Pending([]) == [];
    HeaderAnswered(chatter, exception, |payload|, Deliver(payload), []);
    DownloadDelivers(payload, 0);
    assert payload[0..] == payload && payload[..0] == [];
  }

  /**
   * The first half of `read_result`: wait for a marker, echoing the target's output, read the
   * length and answer '!'. On success `len` is the length the frame announces.
   */
  method ReadFrameHeader(link: Link, ghost exception: bool, ghost payload: seq<byte>)
    returns (st: Status, isException: bool, len: nat, ghost rx: Reception)
    modifies link
    ensures st != Ok ==> link.trace == old(link.trace) + ResultEvents(st, rx) && ResultOutcome(st, rx)
    ensures st == Ok ==>
      link.trace == old(link.trace) + FrameHead(rx) + [Sent(HEADER_ACK)] &&
      (forall i :: 0 <= i < |rx.chatter| ==> !IsMarker(rx.chatter[i])) &&
      IsMarker(rx.marker) && rx.answered && |rx.lenBytes| == 2 && len == DecodeLength(rx.lenBytes[0], rx.lenBytes[1])
    ensures st == WaitsForever ==> link.incoming == []
    ensures st != WaitsForever ==> (isException <==> rx.marker == SOH_EXCEPTION)
    ensures |payload| <= MAX_FRAME && old(link.incoming) == Deliver(EncodeHeader(exception, |payload|) + payload) &&
            old(link.outcomes) == [] ==>
      st == Ok && isException == exception && rx.chatter == [] && len == |payload| &&
      link.incoming == Deliver(payload) && link.outcomes == []
    ensures FrameHeaderOf(old(link.incoming), old(link.outcomes)) ==
              Announced(st, isException, len, rx.chatter, rx.marker, rx.lenBytes, rx.answered, link.incoming, link.outcomes)
  {
    isException, len := false, 0;
    rx := Reception([], NUL, [], false, 0, [], []);
    if |payload| <= MAX_FRAME && link.incoming == Deliver(EncodeHeader(exception, |payload|) + payload) && link.outcomes == [] {
      var h := EncodeHeader(exception, |payload|);
      assert Deliver(h + payload) == Deliver([] + h) + Deliver(payload);
      assert NextResult([]) == Accepted && Pending([]) == [];
      HeaderAnswered([], exception, |payload|, Deliver(payload), []);
    }
    var m;
    ghost var chatter;
    st, m, chatter := AwaitMarker(link);
    rx := rx.(chatter := chatter, marker := m);
    if st != Ok {
      return;
    }
    isException := m != SOH;
    var hi, lo;
    ghost var lenBytes;
    st, hi, lo, lenBytes := AnswerHeader(link);
    rx := rx.(lenBytes := lenBytes, answered := st == Ok);
    ghost var ack := if st == Ok then [Sent(HEADER_ACK)] else [];
    Regroup(old(link.trace), Echoes(chatter), [Recv(m)], Recvs(lenBytes));
    assert link.trace == old(link.trace) + FrameHead(rx) + ack;
    if st == Ok {
      len := DecodeLength(hi, lo);
    }
  }

  /**
   * `read_result`: wait for a result frame, echoing the target's output, and read it. Returns
   * whether the frame is an exception and the buffer the payload was read into. `exception` and
   * `payload` describe the frame a cooperating target sends.
   */
  method ReadResult(link: Link, ghost exception: bool, ghost payload: seq<byte>)
    returns (st: Status, isException: bool, buf: array?<byte>, ghost rx: Reception)
    modifies link
    ensures st == Ok || st == WaitsForever || st == Failed(ReadTimeout) || st == Failed(WriteError)
    ensures link.trace == old(link.trace) + ResultEvents(st, rx) && ResultOutcome(st, rx)
    ensures st == WaitsForever ==> link.incoming == []
    ensures st != WaitsForever ==> (isException <==> rx.marker == SOH_EXCEPTION)
    ensures st == Ok ==>
      buf != null && fresh(buf) && buf.Length == |rx.got| + 1 && buf[..|rx.got|] == rx.got && buf[|rx.got|] == NUL
    ensures |payload| <= MAX_FRAME && old(link.incoming) == Deliver(EncodeHeader(exception, |payload|) + payload) &&
            old(link.outcomes) == [] ==>
      st == Ok && isException == exception && rx.chatter == [] && rx.got == payload
    ensures ReadResultOf(old(link.incoming), old(link.outcomes)) ==
              ResultRead(st, isException, rx.chatter, rx.marker, rx.lenBytes, rx.answered, rx.g, rx.got,
                         link.incoming, link.outcomes)
  {
    buf := null;
    var len;
    st, isException, len, rx := ReadFrameHeader(link, exception, payload);
    if st != Ok {
      rx := rx.(g := 0, got := [], rest := []);
      return;
    }
    buf := new byte[len + 1];
    ghost var g, got, rest;
    st, g, got, rest := ReceivePayload(link, buf, len, payload);
    ghost var head := FrameHead(rx);
    assert link.trace == old(link.trace) + head + [Sent(HEADER_ACK)] + rest;
    rx := rx.(g := g, got := got, rest := rest);
    assert FrameHead(rx) == head;
    assert ResultEvents(st, rx) == head + [Sent(HEADER_ACK)] + rest;
    Regroup(old(link.trace), head, [Sent(HEADER_ACK)], rest);
    assert ResultOutcome(st, rx);
    if st != Ok {
      return;
    }
    buf[len] := NUL;
  }
}
