/** The packet queues without a clock: infinite, drop-tail and drop-head. */
module PacketQueues {
  import opened Text

  /** The largest packet a link carries at once. */
  const PACKET_SIZE: nat := 1504

  /** `QueuedPacket`. */
  datatype Packet = Packet(contents: string, arrival: nat)

  /** Which of the classes a queue is, with its limits; a limit of 0 is no limit. */
  datatype Discipline = Infinite | DropTail(packetLimit: nat, byteLimit: nat) | DropHead(packetLimit: nat, byteLimit: nat)

  function Bytes(q: seq<Packet>): nat {
    if q == [] then 0 else |q[0].contents| + Bytes(q[1..])
  }

  lemma {:induction false} BytesAppend(a: seq<Packet>, b: seq<Packet>)
    ensures Bytes(a + b) == Bytes(a) + Bytes(b)
  {
    if a == [] {
      assert a + b == b;
    } else {
      BytesAppend(a[1..], b);
      assert (a + b)[1..] == a[1..] + b;
    }
  }

  lemma BytesSnoc(q: seq<Packet>, p: Packet)
    ensures Bytes(q + [p]) == Bytes(q) + |p.contents|
  {
    BytesAppend(q, [p]);
  }

  /** `good_with`. */
  predicate GoodWith(d: Discipline, bytes: nat, packets: nat) {
    d.Infinite? || ((d.byteLimit != 0 ==> bytes <= d.byteLimit) && (d.packetLimit != 0 ==> packets <= d.packetLimit))
  }

  predicate Good(d: Discipline, q: seq<Packet>) {
    GoodWith(d, Bytes(q), |q|)
  }

  /** `enqueue`; `None` is a failed assert. In the drop-head loop every `dequeue` asserts that the
      limits hold after one pop. */
  function Enqueue(d: Discipline, q: seq<Packet>, p: Packet): Option<seq<Packet>> {
    match d
    case Infinite => Some(q + [p])
    case DropTail(_, _) =>
      var r := if GoodWith(d, Bytes(q) + |p.contents|, |q| + 1) then q + [p] else q;
      if Good(d, r) then Some(r) else None
    case DropHead(_, _) =>
      if Good(d, q + [p]) then Some(q + [p])
      else if Good(d, (q + [p])[1..]) then Some((q + [p])[1..])
      else None
  }

  /** What LinkQueue asserts after every `enqueue`, and what is kept: the queue is within its limits, the
      packet or the oldest packets are the only losses. */
  lemma EnqueueKeeps(d: Discipline, q: seq<Packet>, p: Packet)
    requires Good(d, q) && Enqueue(d, q, p).Some?
    ensures var r := Enqueue(d, q, p).value;
            && Good(d, r)
            && |r| <= |q| + 1 && Bytes(r) <= Bytes(q) + |p.contents|
            && (r == q + [p] || (d.DropTail? && r == q) || (d.DropHead? && r == (q + [p])[1..]))
  {
    BytesSnoc(q, p);
  }

  /** What `enqueue` does, by the numbers: an infinite queue takes everything, a drop-tail queue what there is room for, and a drop-head
      queue takes the packet too and lets the head go exactly if there is no room. */
  lemma EnqueueExactly(d: Discipline, q: seq<Packet>, p: Packet)
    requires Good(d, q)
    ensures d.Infinite? ==> Enqueue(d, q, p) == Some(q + [p])
    ensures !d.Infinite? ==>
              var room := (d.byteLimit == 0 || Bytes(q) + |p.contents| <= d.byteLimit) && (d.packetLimit == 0 || |q| < d.packetLimit);
              && (d.DropTail? ==> Enqueue(d, q, p) == Some(if room then q + [p] else q))
              && (d.DropHead? ==> Enqueue(d, q, p) in {None, Some(if room then q + [p] else (q + [p])[1..])})
              && (room ==> Enqueue(d, q, p) == Some(q + [p]))
  {
    BytesSnoc(q, p);
  }

  /** A drop-tail queue never fails: it takes the packet exactly when the limits leave room for it. */
  lemma DropTailTakes(d: Discipline, q: seq<Packet>, p: Packet)
    requires d.DropTail? && Good(d, q)
    ensures Enqueue(d, q, p) == Some(if Good(d, q + [p]) then q + [p] else q)
  {
    BytesSnoc(q, p);
  }

  /** The head of the queue once the packet is in it: the packet that would be dropped first. */
  function HeadSize(q: seq<Packet>, p: Packet): nat {
    |(q + [p])[0].contents|
  }

  /** Exactly when the assert inside the drop-head loop holds: the head is as large as the excess
      over the byte limit. */
  lemma DropHeadSurvives(d: Discipline, q: seq<Packet>, p: Packet)
    requires d.DropHead? && Good(d, q)
    ensures Enqueue(d, q, p).Some? <==> (d.byteLimit != 0 ==> Bytes(q) + |p.contents| <= d.byteLimit + HeadSize(q, p))
  {
    BytesSnoc(q, p);
    assert q + [p] == [(q + [p])[0]] + (q + [p])[1..];
  }

  /** With a packet limit only, one pop always restores the limits. */
  lemma PacketLimitSurvives(d: Discipline, q: seq<Packet>, p: Packet)
    requires d.DropHead? && d.byteLimit == 0 && Good(d, q)
    ensures Enqueue(d, q, p).Some?
  {
    DropHeadSurvives(d, q, p);
  }

  /** With a byte limit it need not: two small packets make way for a large one. */
  lemma ByteLimitAborts()
    ensures var d, q := DropHead(0, 10), [Packet("aaaa", 0), Packet("bbbb", 1)];
            Good(d, q) && Enqueue(d, q, Packet("0123456789", 2)).None?
  {
    var d, q := DropHead(0, 10), [Packet("aaaa", 0), Packet("bbbb", 1)];
    BytesSnoc([], Packet("aaaa", 0));
    BytesSnoc([Packet("aaaa", 0)], Packet("bbbb", 1));
    assert [] + [Packet("aaaa", 0)] == [Packet("aaaa", 0)];
    assert [Packet("aaaa", 0)] + [Packet("bbbb", 1)] == q;
    DropHeadSurvives(d, q, Packet("0123456789", 2));
  }

  /** `InfinitePacketQueue` and `DroppingPacketQueue` with its two simple subclasses. */
  class PacketQueue {
    const discipline: Discipline
    var internalQueue: seq<Packet>
    var queueSizeInBytes: int
    var queueSizeInPackets: int

    predicate Valid()
      reads this
    {
      queueSizeInBytes == Bytes(internalQueue) && queueSizeInPackets == |internalQueue| && Good(discipline, internalQueue)
    }

    constructor (discipline: Discipline)
      ensures Valid() && internalQueue == [] && this.discipline == discipline
    {
      this.discipline := discipline;
      internalQueue, queueSizeInBytes, queueSizeInPackets := [], 0, 0;
    }

    predicate IsGood()
      requires queueSizeInBytes >= 0 && queueSizeInPackets >= 0
      reads this
    {
      GoodWith(discipline, queueSizeInBytes, queueSizeInPackets)
    }

    /** `accept`. */
    method Accept(p: Packet)
      requires queueSizeInBytes == Bytes(internalQueue) && queueSizeInPackets == |internalQueue|
      modifies this
      ensures internalQueue == old(internalQueue) + [p]
      ensures queueSizeInBytes == Bytes(internalQueue) && queueSizeInPackets == |internalQueue|
    {
      BytesSnoc(internalQueue, p);
      queueSizeInBytes := queueSizeInBytes + |p.contents|;
      queueSizeInPackets := queueSizeInPackets + 1;
      internalQueue := internalQueue + [p];
    }

    /** `dequeue`; `ok` is false if the assert at its end fails. */
    method Dequeue() returns (ok: bool, p: Packet)
      requires internalQueue != []
      requires queueSizeInBytes == Bytes(internalQueue) && queueSizeInPackets == |internalQueue|
      modifies this
      ensures p == old(internalQueue)[0] && internalQueue == old(internalQueue)[1..]
      ensures queueSizeInBytes == Bytes(internalQueue) && queueSizeInPackets == |internalQueue|
      ensures ok <==> Good(discipline, internalQueue)
      ensures old(Valid()) ==> ok && Valid()
    {
      p := internalQueue[0];
      internalQueue := internalQueue[1..];
      queueSizeInBytes := queueSizeInBytes - |p.contents|;
      queueSizeInPackets := queueSizeInPackets - 1;
      ok := IsGood();
    }

    /** `enqueue`; `ok` is false if an assert fails. */
    method EnqueuePacket(p: Packet) returns (ok: bool)
      requires Valid()
      modifies this
      ensures ok <==> Enqueue(discipline, old(internalQueue), p).Some?
      ensures ok ==> Valid() && internalQueue == Enqueue(discipline, old(internalQueue), p).value
    {
      match discipline {
        case Infinite =>
          Accept(p);
          return true;
        case DropTail(_, _) =>
          BytesSnoc(internalQueue, p);
          if GoodWith(discipline, queueSizeInBytes + |p.contents|, queueSizeInPackets + 1) {
            Accept(p);
          }
          return IsGood();
        case DropHead(_, _) =>
          Accept(p);
          ok := true;
          while ok && !IsGood()
            invariant queueSizeInBytes == Bytes(internalQueue) && queueSizeInPackets == |internalQueue|
            invariant if internalQueue == old(internalQueue) + [p] then ok
                      else && internalQueue == (old(internalQueue) + [p])[1..]
                           && !Good(discipline, old(internalQueue) + [p])
                           && (ok <==> Good(discipline, internalQueue))
            decreases ok, |internalQueue|
          {
            var dropped;
            ok, dropped := Dequeue();
          }
      }
    }
  }
}
