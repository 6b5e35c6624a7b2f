/**
 * Flow control of a payload: the bytes cross the link in groups of at most 100, and every group
 * is answered with one '#'. Both the transmitter and the receiver use the same group size, so
 * the two sides stay in lockstep without negotiating a window.
 */
module Chunking {
  import opened Wire
  import opened SerialLink

  /** Bytes per acknowledged group. */
  const GROUP: nat := 100

  /** Which way the payload travels: host to target (upload) or target to host (download). */
  datatype Direction = Upload | Download

  /** `n` copies of `b`. */
  function Repeat(b: byte, n: nat): (s: seq<byte>)
    ensures |s| == n
    ensures forall i :: 0 <= i < n ==> s[i] == b
  {
    seq(n, _ => b)
  }

  /** Number of groups, hence of '#' acknowledgements, for an `n`-byte payload: the payload is
      cut into groups from its start, so every group but the last is full. */
  function ChunkCount(n: nat): (k: nat)
    ensures k * GROUP >= n
    ensures k == 0 || (k - 1) * GROUP < n
    decreases n
  {
    if n == 0 then 0 else 1 + ChunkCount(n - GroupSize(n))
  }

  /** The size of the group that starts a payload of `n` bytes. */
  function GroupSize(n: nat): (m: nat)
    ensures m <= n && m <= GROUP
    ensures n > 0 ==> m > 0
    ensures m < GROUP ==> m == n
  {
    if n < GROUP then n else GROUP
  }

  /** The payload bytes `bs` crossing the link in direction `dir`. */
  function Carry(bs: seq<byte>, dir: Direction): seq<Event> {
    if dir == Upload then Sends(bs) else Recvs(bs)
  }

  /** The acknowledgement of one group: received from the target on upload, sent to it on
      download. */
  function ChunkAck(dir: Direction): Event {
    if dir == Upload then Recv(CHUNK_ACK) else Sent(CHUNK_ACK)
  }

  /** The complete lockstep transfer of payload `p`: each group, then its acknowledgement. */
  function Lockstep(p: seq<byte>, dir: Direction): seq<Event>
    decreases |p|
  {
    if p == [] then []
    else
      var m := GroupSize(|p|);
      Carry(p[..m], dir) + [ChunkAck(dir)] + Lockstep(p[m..], dir)
  }

  /** A transfer cut short: the groups before offset `g` are complete and acknowledged, and the
      bytes from `g` up to `d` of the next group have crossed the link. */
  function Partial(p: seq<byte>, g: nat, d: nat, dir: Direction): seq<Event>
    requires g <= d <= |p|
  {
    Lockstep(p[..g], dir) + Carry(p[g..d], dir)
  }

  /** A payload of at least one full group transfers that group, its acknowledgement, and the
      rest. */
  lemma LockstepFirst(p: seq<byte>, dir: Direction)
    requires |p| >= GROUP
    ensures Lockstep(p, dir) == Carry(p[..GROUP], dir) + [ChunkAck(dir)] + Lockstep(p[GROUP..], dir)
  {
  }

  /** Cutting `p + q` inside `p`. */
  lemma SplitAppend(p: seq<byte>, q: seq<byte>, k: nat)
    requires k <= |p|
    ensures (p + q)[..k] == p[..k] && (p + q)[k..] == p[k..] + q
  {
  }

  /** A non-empty whole number of groups starts with a full group and leaves a whole number. */
  lemma WholeGroups(n: nat)
    requires n % GROUP == 0 && n > 0
    ensures n >= GROUP && (n - GROUP) % GROUP == 0
  {
  }

  /** Transferring a whole number of groups and then the rest is the transfer of the whole. */
  lemma {:induction false} LockstepAppend(p: seq<byte>, q: seq<byte>, dir: Direction)
    requires |p| % GROUP == 0
    ensures Lockstep(p + q, dir) == Lockstep(p, dir) + Lockstep(q, dir)
    decreases |p|
  {
    if p == [] {
      assert p + q == q;
    } else {
      WholeGroups(|p|);
      var tail := p[GROUP..];
      var step := Carry(p[..GROUP], dir) + [ChunkAck(dir)];
      SplitAppend(p, q, GROUP);
      calc {
        Lockstep(p + q, dir);
        { LockstepFirst(p + q, dir); }
        step + Lockstep(tail + q, dir);
        { LockstepAppend(tail, q, dir); }
        step + (Lockstep(tail, dir) + Lockstep(q, dir));
        { LockstepFirst(p, dir); }
        Lockstep(p, dir) + Lockstep(q, dir);
      }
    }
  }

  /** Completing the group that starts at offset `g` extends the transfer by that group's bytes
      and one acknowledgement. */
  lemma LockstepExtend(p: seq<byte>, g: nat, dir: Direction)
    requires g % GROUP == 0 && g < |p|
    ensures g + GroupSize(|p| - g) <= |p|
    ensures var e := g + GroupSize(|p| - g);
      Lockstep(p[..e], dir) == Lockstep(p[..g], dir) + Carry(p[g..e], dir) + [ChunkAck(dir)]
  {
    var e := g + GroupSize(|p| - g);
    var c := p[g..e];
    assert p[..g] + c == p[..e];
    LockstepAppend(p[..g], c, dir);
    assert GroupSize(|c|) == |c|;
    assert c[..|c|] == c && c[|c|..] == [];
  }

  /** Where the group that starts at a group boundary `g` ends: at the next boundary or at the end
      of the payload. */
  lemma NextBoundary(g: nat, n: nat)
    requires g % GROUP == 0 && g < n
    ensures var e := g + GroupSize(n - g); e % GROUP == 0 || e == n
  {
    if n - g >= GROUP {
      assert (g + GROUP) % GROUP == 0;
    }
  }

  /** A target answering `k` acknowledgements in a row: the first poll finds one, and the
      rest of the polls are the other `k - 1`. */
  lemma AckScriptStep(k: nat)
    requires k > 0
    ensures Deliver(Repeat(CHUNK_ACK, k))[0] == Arrives(CHUNK_ACK)
    ensures Deliver(Repeat(CHUNK_ACK, k))[1..] == Deliver(Repeat(CHUNK_ACK, k - 1))
  {
  }

  lemma RepeatCons(b: byte, n: nat)
    ensures Repeat(b, n + 1) == [b] + Repeat(b, n)
  {
  }

  /** The bytes a transfer carries in its own direction. */
  function Carried(es: seq<Event>, dir: Direction): seq<byte> {
    if dir == Upload then Transmitted(es) else Received(es)
  }

  /** The bytes a transfer carries against its direction: the acknowledgements. */
  function Acks(es: seq<Event>, dir: Direction): seq<byte> {
    if dir == Upload then Received(es) else Transmitted(es)
  }

  lemma ProjectionAppend(a: seq<Event>, b: seq<Event>, dir: Direction)
    ensures Carried(a + b, dir) == Carried(a, dir) + Carried(b, dir)
    ensures Acks(a + b, dir) == Acks(a, dir) + Acks(b, dir)
  {
    ReceivedAppend(a, b);
    TransmittedAppend(a, b);
  }

  lemma CarryProjection(bs: seq<byte>, dir: Direction)
    ensures Carried(Carry(bs, dir), dir) == bs && Acks(Carry(bs, dir), dir) == []
  {
    SendsProjection(bs);
    RecvsProjection(bs);
  }

  /** One group and its acknowledgement carry the group's bytes one way and one '#' the other. */
  lemma GroupProjection(c: seq<byte>, dir: Direction)
    ensures Carried(Carry(c, dir) + [ChunkAck(dir)], dir) == c
    ensures Acks(Carry(c, dir) + [ChunkAck(dir)], dir) == [CHUNK_ACK]
  {
    CarryProjection(c, dir);
    assert [ChunkAck(dir)][..0] == [];
    assert Carried([ChunkAck(dir)], dir) == [] && Acks([ChunkAck(dir)], dir) == [CHUNK_ACK];
    ProjectionAppend(Carry(c, dir), [ChunkAck(dir)], dir);
  }

  /**
   * An upload transmits exactly the payload and receives one '#' per group; a download
   * receives exactly the payload and sends one '#' per group.
   */
  lemma LockstepProjection(p: seq<byte>, dir: Direction)
    ensures Carried(Lockstep(p, dir), dir) == p
    ensures Acks(Lockstep(p, dir), dir) == Repeat(CHUNK_ACK, ChunkCount(|p|))
  {
    LockstepCarried(p, dir);
    LockstepAcks(p, dir);
  }

  /** The payload half of the projection, one group at a time. */
  lemma {:induction false} LockstepCarried(p: seq<byte>, dir: Direction)
    ensures Carried(Lockstep(p, dir), dir) == p
    decreases |p|
  {
    if p != [] {
      var m := GroupSize(|p|);
      var head := Carry(p[..m], dir) + [ChunkAck(dir)];
      var rest := Lockstep(p[m..], dir);
      calc {
        Carried(Lockstep(p, dir), dir);
        Carried(head + rest, dir);
        { ProjectionAppend(head, rest, dir); }
        Carried(head, dir) + Carried(rest, dir);
        { GroupProjection(p[..m], dir); LockstepCarried(p[m..], dir); }
        p[..m] + p[m..];
        { assert p[..m] + p[m..] == p; }
        p;
      }
    }
  }

  /** The acknowledgement half of the projection: one '#' per group. */
  lemma {:induction false} LockstepAcks(p: seq<byte>, dir: Direction)
    ensures Acks(Lockstep(p, dir), dir) == Repeat(CHUNK_ACK, ChunkCount(|p|))
    decreases |p|
  {
    if p != [] {
      var m := GroupSize(|p|);
      var head := Carry(p[..m], dir) + [ChunkAck(dir)];
      var rest := Lockstep(p[m..], dir);
      var k := ChunkCount(|p| - m);
      calc {
        Acks(Lockstep(p, dir), dir);
        Acks(head + rest, dir);
        { ProjectionAppend(head, rest, dir); }
        Acks(head, dir) + Acks(rest, dir);
        { GroupProjection(p[..m], dir); LockstepAcks(p[m..], dir); }
        [CHUNK_ACK] + Repeat(CHUNK_ACK, k);
        { RepeatCons(CHUNK_ACK, k); }
        Repeat(CHUNK_ACK, k + 1);
      }
    }
  }

  /** The first `k` bytes of the first group start the transfer; once the whole first group
      has crossed, its acknowledgement comes next. */
  lemma FirstGroupPrefix(q: seq<byte>, k: nat, dir: Direction)
    requires k <= GroupSize(|q|)
    ensures Carry(q[..k], dir) <= Lockstep(q, dir)
    ensures q != [] && k == GroupSize(|q|) ==> |Lockstep(q, dir)| > k && Lockstep(q, dir)[k] == ChunkAck(dir)
  {
    if q != [] {
      var m := GroupSize(|q|);
      assert Lockstep(q, dir) == Carry(q[..m], dir) + [ChunkAck(dir)] + Lockstep(q[m..], dir);
      assert Carry(q[..k], dir) == Carry(q[..m], dir)[..k];
    }
  }

  /** A cut-short transfer is a prefix of the complete one; when it has carried a whole group
      (or the payload's last byte) the complete transfer's next event is that group's
      acknowledgement. */
  lemma PartialIsPrefix(p: seq<byte>, g: nat, d: nat, dir: Direction)
    requires g % GROUP == 0 && g <= d <= |p| && d <= g + GROUP
    ensures Partial(p, g, d, dir) <= Lockstep(p, dir)
    ensures g < |p| && d == g + GroupSize(|p| - g) ==>
      |Partial(p, g, d, dir)| < |Lockstep(p, dir)| &&
      Lockstep(p, dir)[|Partial(p, g, d, dir)|] == ChunkAck(dir)
  {
    var done, q := p[..g], p[g..];
    var k := d - g;
    assert p[g..d] == q[..k];
    assert Lockstep(p, dir) == Lockstep(done, dir) + Lockstep(q, dir) by {
      assert done + q == p;
      LockstepAppend(done, q, dir);
    }
    FirstGroupPrefix(q, k, dir);
    PrefixExtend(Lockstep(done, dir), Carry(q[..k], dir), Lockstep(q, dir));
  }

  /** Putting the same events in front keeps a prefix a prefix, and shifts indices. */
  lemma PrefixExtend(c: seq<Event>, a: seq<Event>, b: seq<Event>)
    requires a <= b
    ensures c + a <= c + b
    ensures forall i :: |a| <= i < |b| ==> (c + b)[|c| + i] == b[i]
  {
  }

  /** What a cut-short transfer has carried so far: the first `d` payload bytes, each once,
      in order. */
  lemma PartialProjection(p: seq<byte>, g: nat, d: nat, dir: Direction)
    requires g <= d <= |p|
    ensures Carried(Partial(p, g, d, dir), dir) == p[..d]
  {
    var done, next := p[..g], p[g..d];
    calc {
      Carried(Partial(p, g, d, dir), dir);
      { ProjectionAppend(Lockstep(done, dir), Carry(next, dir), dir); }
      Carried(Lockstep(done, dir), dir) + Carried(Carry(next, dir), dir);
      { LockstepProjection(done, dir); CarryProjection(next, dir); }
      done + next;
      { assert done + next == p[..d]; }
      p[..d];
    }
  }

  /** The group boundaries the protocol relies on: 99 and 100 bytes take one acknowledgement,
      101 take two, an empty payload none. */
  lemma GroupBoundaries()
    ensures ChunkCount(0) == 0 && ChunkCount(99) == 1 && ChunkCount(100) == 1 && ChunkCount(101) == 2
  {
  }
}
