/** The class `LinkQueue`, method by method against the model. */
module LinkEmulator {
  import opened Text
  import opened PacketQueues
  import opened LinkModel
  import opened LinkRuns
  import opened Widths

  class LinkQueue {
    const schedule: seq<nat>
    const repeat: bool
    const packetQueue: PacketQueue
    var nextDelivery: nat
    var baseTimestamp: nat
    var finished: bool
    var packetInTransit: Packet
    var packetInTransitBytesLeft: nat
    var outputQueue: seq<Packet>
    ghost var departed: seq<Departure>
    ghost var written: seq<Packet>
    ghost var droppedPackets: nat
    ghost var droppedBytes: nat

    ghost function View(): Link
      reads this, packetQueue
    {
      Link(schedule, repeat, packetQueue.discipline, nextDelivery, baseTimestamp, finished, packetQueue.internalQueue,
           packetInTransit, packetInTransitBytesLeft, departed, droppedPackets, droppedBytes)
    }

    ghost predicate Ok()
      reads this, packetQueue
    {
      packetQueue.Valid() && Valid(View()) && PacketsOf(departed) == written + outputQueue
    }

    constructor (entries: seq<nat>, repeat: bool, discipline: Discipline, base: nat)
      requires ValidSchedule(entries)
      ensures Ok() && View() == New(entries, repeat, discipline, base) && fresh(packetQueue)
      ensures written == outputQueue == []
    {
      schedule, this.repeat := entries, repeat;
      nextDelivery, baseTimestamp, finished := 0, base, false;
      packetInTransit, packetInTransitBytesLeft, outputQueue := Packet("", 0), 0, [];
      departed, written, droppedPackets, droppedBytes := [], [], 0, 0;
      packetQueue := new PacketQueue(discipline);
    }

    /** The constructor's reading of the trace: the numbers of the file, checked one by one. */
    static method LoadSchedule(entries: seq<nat>) returns (r: Option<seq<nat>>)
      ensures r == if ValidSchedule(entries) then Some(entries) else None
    {
      var schedule: seq<nat> := [];
      for i := 0 to |entries|
        invariant schedule == entries[..i]
        invariant forall j, k | 0 <= j <= k < i :: entries[j] <= entries[k]
      {
        if schedule != [] && entries[i] < schedule[|schedule| - 1] {
          return None;
        }
        schedule := schedule + [entries[i]];
      }
      if schedule == [] || schedule[|schedule| - 1] == 0 {
        return None;
      }
      assert entries[..|entries|] == entries;
      return Some(schedule);
    }

    function NextDeliveryTime(): Option<nat>
      requires nextDelivery < |schedule|
      reads this
    {
      if finished then None else Some(schedule[nextDelivery] + baseTimestamp)
    }

    method UseADeliveryOpportunity()
      requires Located(View())
      modifies this`nextDelivery, this`baseTimestamp, this`finished
      ensures View() == UseOpportunity(old(View()))
    {
      nextDelivery := (nextDelivery + 1) % |schedule|;
      if nextDelivery == 0 {
        if repeat {
          baseTimestamp := baseTimestamp + schedule[|schedule| - 1];
        } else {
          finished := true;
        }
      }
    }

    /** The next packet of the queue goes into transit. */
    method TakeNextPacket(ghost time: nat)
      requires packetQueue.Valid() && Servable(View(), time) && packetInTransitBytesLeft == 0 && packetQueue.internalQueue != []
      modifies this`packetInTransit, this`packetInTransitBytesLeft, packetQueue
      ensures packetQueue.Valid() && View() == TakeHead(old(View())) && Servable(View(), time)
      ensures packetInTransitBytesLeft > 0
    {
      TakeHeadKeeps(View(), time);
      var ok;
      ok, packetInTransit := packetQueue.Dequeue();
      packetInTransitBytesLeft := |packetInTransit.contents|;
    }

    /** As many bytes of the packet in transit as the opportunity still carries, after the four asserts. */
    method SendBytes(bytesLeftInThisDelivery: nat, thisDeliveryTime: nat) returns (amountToSend: nat)
      requires Servable(View(), thisDeliveryTime) && packetInTransitBytesLeft > 0 && bytesLeftInThisDelivery > 0
      requires PacketsOf(departed) == written + outputQueue
      modifies this`packetInTransitBytesLeft, this`outputQueue, this`departed
      ensures amountToSend == if bytesLeftInThisDelivery < old(packetInTransitBytesLeft) then bytesLeftInThisDelivery else old(packetInTransitBytesLeft)
      ensures View() == Send(old(View()), amountToSend, thisDeliveryTime) && Servable(View(), thisDeliveryTime)
      ensures PacketsOf(departed) == written + outputQueue
    {
      hide Backlog, Good;
      assert packetInTransit in Inside(View());
      assert packetInTransit.arrival <= thisDeliveryTime;
      assert packetInTransitBytesLeft <= PACKET_SIZE;
      assert packetInTransitBytesLeft > 0;
      assert packetInTransitBytesLeft <= |packetInTransit.contents|;

      amountToSend := if bytesLeftInThisDelivery < packetInTransitBytesLeft then bytesLeftInThisDelivery else packetInTransitBytesLeft;
      SendKeeps(View(), amountToSend, thisDeliveryTime);
      SendOutput(View(), amountToSend, thisDeliveryTime);
      packetInTransitBytesLeft := packetInTransitBytesLeft - amountToSend;
      if packetInTransitBytesLeft == 0 {
        departed := departed + [Departure(packetInTransit, thisDeliveryTime)];
        outputQueue := outputQueue + [packetInTransit];
      }
    }

    /** The inner loop of `rationalize`. */
    method SendInOneDelivery(thisDeliveryTime: nat)
      requires packetQueue.Valid() && Servable(View(), thisDeliveryTime)
      requires PacketsOf(departed) == written + outputQueue
      modifies this`packetInTransit, this`packetInTransitBytesLeft, this`outputQueue, this`departed, packetQueue
      ensures packetQueue.Valid() && View() == Serve(old(View()), PACKET_SIZE, thisDeliveryTime)
      ensures PacketsOf(departed) == written + outputQueue
    {
      hide Serve, Servable, Send, TakeHead, PacketsOf;
      var bytesLeftInThisDelivery: nat := PACKET_SIZE;
      ghost var target := Serve(View(), PACKET_SIZE, thisDeliveryTime);
      while bytesLeftInThisDelivery > 0
        invariant packetQueue.Valid() && Servable(View(), thisDeliveryTime)
        invariant Serve(View(), bytesLeftInThisDelivery, thisDeliveryTime) == target
        invariant PacketsOf(departed) == written + outputQueue
      {
        ServeStep(View(), bytesLeftInThisDelivery, thisDeliveryTime);
        if packetInTransitBytesLeft == 0 {
          if packetQueue.internalQueue == [] {
            break;
          }
          TakeNextPacket(thisDeliveryTime);
        }
        var amountToSend := SendBytes(bytesLeftInThisDelivery, thisDeliveryTime);
        bytesLeftInThisDelivery := bytesLeftInThisDelivery - amountToSend;
      }
      ServeStep(View(), bytesLeftInThisDelivery, thisDeliveryTime);
    }

    /** `rationalize`. */
    method RationalizeTo(now: nat)
      requires Ok()
      modifies this`nextDelivery, this`baseTimestamp, this`finished, this`packetInTransit, this`packetInTransitBytesLeft,
               this`outputQueue, this`departed, packetQueue
      ensures Ok() && View() == Rationalize(old(View()), now)
    {
      hide Rationalize, Serve, Slot, PacketsOf, Opportunity;
      ghost var target := Rationalize(View(), now);
      while !finished && NextDeliveryTime().value <= now
        invariant Ok() && Rationalize(View(), now) == target
        decreases TimeLeft(View(), now), |schedule| - nextDelivery
      {
        RationalizeStep(View(), now);
        OpportunityProgress(View(), now);
        UseOneOpportunity();
      }
      NotDue(View(), now);
    }

    /** One turn of the outer loop of `rationalize`. */
    method UseOneOpportunity()
      requires Ok() && !finished
      modifies this`nextDelivery, this`baseTimestamp, this`finished, this`packetInTransit, this`packetInTransitBytesLeft,
               this`outputQueue, this`departed, packetQueue
      ensures Ok() && View() == Opportunity(old(View()))
    {
      hide Serve, Slot, PacketsOf;
      ghost var before := View();
      OpportunityKeeps(before);
      var thisDeliveryTime := NextDeliveryTime().value;
      UseADeliveryOpportunity();
      assert Inside(View()) == Inside(before);
      SendInOneDelivery(thisDeliveryTime);
    }

    /** `read_packet`: `ok` is false for the exception and for a failed assert. An empty packet is taken too, but breaks the
        invariant: it fails the assert on the bytes left to send as soon as it is in transit. */
    method ReadPacketAt(now: nat, contents: string) returns (ok: bool)
      requires Ok()
      modifies this, packetQueue
      ensures ok <==> ReadPacket(old(View()), now, contents).Some?
      ensures ok ==> View() == ReadPacket(old(View()), now, contents).value && (contents != "" ==> Ok())
      ensures written == old(written)
    {
      hide Rationalize, Valid, Joined;
      if |contents| > PACKET_SIZE {
        return false;
      }
      assert Located(View()) by { ValidParts(View()); }
      RationalizeKeeps(View(), now);
      RationalizeTo(now);
      ghost var t := View();
      ok := EnqueueAndRecord(now, contents);
      if ok && contents != "" {
        JoinedValid(t, Packet(contents, now));
      }
    }

    /** The rest of `read_packet`, once the link is up to date: the packet is enqueued and what is missing recorded. */
    method EnqueueAndRecord(now: nat, contents: string) returns (ok: bool)
      requires packetQueue.Valid()
      modifies this`droppedPackets, this`droppedBytes, packetQueue
      ensures ok <==> Joined(old(View()), Packet(contents, now)).Some?
      ensures ok ==> packetQueue.Valid() && View() == Joined(old(View()), Packet(contents, now)).value
    {
      hide Enqueue, Good, Bytes;
      var bytesBefore := packetQueue.queueSizeInBytes;
      var packetsBefore := packetQueue.queueSizeInPackets;
      JoinedIs(View(), Packet(contents, now));
      ok := packetQueue.EnqueuePacket(Packet(contents, now));
      if !ok {
        return;
      }
      assert packetQueue.queueSizeInPackets <= packetsBefore + 1;
      assert packetQueue.queueSizeInBytes <= bytesBefore + |contents|;
      var missingPackets := packetsBefore + 1 - packetQueue.queueSizeInPackets;
      var missingBytes := bytesBefore + |contents| - packetQueue.queueSizeInBytes;
      if missingPackets > 0 || missingBytes > 0 {
        droppedPackets := droppedPackets + missingPackets;
        droppedBytes := droppedBytes + missingBytes;
      }
    }

    /** `write_packets`: everything in the output queue goes out, in order. */
    method WritePackets() returns (out: seq<Packet>)
      requires Ok()
      modifies this`outputQueue, this`written
      ensures Ok() && View() == old(View()) && outputQueue == [] && written == old(written) + out && out == old(outputQueue)
    {
      out := [];
      while outputQueue != []
        invariant Ok() && View() == old(View())
        invariant written == old(written) + out && out + outputQueue == old(outputQueue)
      {
        out := out + [outputQueue[0]];
        written := written + [outputQueue[0]];
        outputQueue := outputQueue[1..];
      }
    }

    /** `wait_time`: the 64-bit distance from now to the next opportunity, -1 as a time if there is none, cut to 32 bits. It is
        the true distance, and so never zero, exactly if there is a next opportunity less than 2^32 away. */
    method WaitTime(now: nat) returns (wait: nat)
      requires Ok()
      modifies this, packetQueue
      ensures Ok() && View() == Rationalize(old(View()), now)
      ensures var next := NextTime(View());
              && (next.None? ==> wait == (UINT64 - 1 - now) % UINT32)
              && (next.Some? ==> next.value > now && wait == (next.value - now) % UINT32)
              && (next.Some? && now + wait == next.value <==> next.Some? && next.value - now < UINT32)
      ensures written == old(written)
    {
      hide Rationalize;
      RationalizeTo(now);
      RationalizeKeeps(old(View()), now);
      var next := NextDeliveryTime();
      if next.None? {
        return (UINT64 - 1 - now) % UINT32;
      } else {
        return (next.value - now) % UINT32;
      }
    }
  }

  lemma JoinedIs(r: Link, p: Packet)
    requires Good(r.discipline, r.queue)
    ensures Joined(r, p).None? <==> Enqueue(r.discipline, r.queue, p).None?
    ensures Joined(r, p).Some? ==>
              var q := Enqueue(r.discipline, r.queue, p).value; |q| <= |r.queue| + 1 && Bytes(q) <= Bytes(r.queue) + |p.contents|
  {
    if Enqueue(r.discipline, r.queue, p).Some? {
      EnqueueKeeps(r.discipline, r.queue, p);
    }
  }

  lemma JoinedValid(t: Link, p: Packet)
    requires Valid(t) && !Due(t, p.arrival) && Sized(p) && Joined(t, p).Some?
    ensures Valid(Joined(t, p).value)
  {
    EnqueueKeeps(t.discipline, t.queue, p);
    EnqueuedValid(t, Joined(t, p).value, p);
  }

  lemma ValidParts(l: Link)
    requires Valid(l)
    ensures Located(l) && Good(l.discipline, l.queue)
  {}

  lemma NotDue(l: Link, now: nat)
    requires Located(l) && !Due(l, now)
    ensures Rationalize(l, now) == l
  {}

  lemma SendOutput(l: Link, amount: nat, time: nat)
    requires amount <= l.left
    ensures PacketsOf(Send(l, amount, time).departed) == PacketsOf(l.departed) + if amount == l.left then [l.transit] else []
  {}
}
