/** The trace-driven link emulator of link_queue.cc over the queues without a clock. */
module LinkModel {
  import opened Text
  import opened PacketQueues
  import opened Arithmetic

  /** `record_departure`: the packet and the time of the delivery opportunity that completed it. */
  datatype Departure = Departure(packet: Packet, time: nat)

  /** The fields of `LinkQueue`. `departed` lists everything that ever entered `output_queue_`;
      `droppedPackets` and `droppedBytes` add up the calls of `record_drop`. */
  datatype Link = Link(schedule: seq<nat>, repeat: bool, discipline: Discipline,
                       next: nat, base: nat, finished: bool,
                       queue: seq<Packet>, transit: Packet, left: nat, departed: seq<Departure>,
                       droppedPackets: nat, droppedBytes: nat)

  /** What the constructor checks of the trace. */
  predicate ValidSchedule(schedule: seq<nat>) {
    schedule != [] && schedule[|schedule| - 1] != 0 && forall i, j | 0 <= i <= j < |schedule| :: schedule[i] <= schedule[j]
  }

  function Last(schedule: seq<nat>): nat
    requires schedule != []
  {
    schedule[|schedule| - 1]
  }

  function New(schedule: seq<nat>, repeat: bool, discipline: Discipline, base: nat): Link {
    Link(schedule, repeat, discipline, 0, base, false, [], Packet("", 0), 0, [], 0, 0)
  }

  predicate Located(l: Link) {
    ValidSchedule(l.schedule) && l.next < |l.schedule|
  }

  /** `next_delivery_time`; `None` is the end of time, once a trace without repetition is used up. */
  function NextTime(l: Link): Option<nat>
    requires Located(l)
  {
    if l.finished then None else Some(l.schedule[l.next] + l.base)
  }

  predicate Due(l: Link, now: nat)
    requires Located(l)
  {
    NextTime(l).Some? && NextTime(l).value <= now
  }

  predicate Sized(p: Packet) {
    1 <= |p.contents| <= PACKET_SIZE
  }

  /** The packet, if there is one, of which some bytes are still to be sent. */
  function InTransit(l: Link): seq<Packet> {
    if l.left > 0 then [l.transit] else []
  }

  /** The packets inside the link, oldest first. */
  function Inside(l: Link): seq<Packet> {
    InTransit(l) + l.queue
  }

  /** A packet is in transit only once some of its bytes have been sent: between opportunities a whole packet is in the queue. */
  predicate Partial(l: Link) {
    l.left > 0 ==> l.left < |l.transit.contents|
  }

  /** What every method keeps. */
  predicate Valid(l: Link) {
    && Located(l)
    && Good(l.discipline, l.queue)
    && l.left <= |l.transit.contents| <= PACKET_SIZE
    && Partial(l)
    && (forall p | p in l.queue :: Sized(p))
    && (NextTime(l).Some? ==> forall p | p in Inside(l) :: p.arrival <= NextTime(l).value)
    && (forall d | d in l.departed :: d.packet.arrival <= d.time)
  }

  /** Position in the trace, and number of times it was repeated, after `k` opportunities. */
  function Slot(k: nat, n: nat): (r: nat)
    requires n > 0
    ensures r < n
  {
    k % n
  }

  function Round(k: nat, n: nat): nat
    requires n > 0
  {
    k / n
  }

  /** `use_a_delivery_opportunity`. */
  function UseOpportunity(l: Link): (r: Link)
    requires Located(l)
    ensures Located(r)
  {
    var next := Slot(l.next + 1, |l.schedule|);
    if next != 0 then l.(next := next)
    else if l.repeat then l.(next := 0, base := l.base + Last(l.schedule))
    else l.(next := 0, finished := true)
  }

  /** The inner loop of `rationalize`: at time `time` the link can still carry `budget` bytes. */
  function Serve(l: Link, budget: nat, time: nat): Link
    decreases budget, |l.queue|
  {
    if budget == 0 || (l.left == 0 && l.queue == []) then l
    else
      var t := if l.left == 0 then l.(transit := l.queue[0], left := |l.queue[0].contents|, queue := l.queue[1..]) else l;
      var amount := if budget < t.left then budget else t.left;
      var left := t.left - amount;
      Serve(t.(left := left, departed := if left == 0 then t.departed + [Departure(t.transit, time)] else t.departed),
            budget - amount, time)
  }

  /** One delivery opportunity: one turn of the outer loop of `rationalize`. */
  function Opportunity(l: Link): Link
    requires Located(l) && NextTime(l).Some?
  {
    Serve(UseOpportunity(l), PACKET_SIZE, NextTime(l).value)
  }

  lemma {:induction false} ServeFrame(l: Link, budget: nat, time: nat)
    ensures var r := Serve(l, budget, time);
            r.(queue := l.queue, transit := l.transit, left := l.left, departed := l.departed) == l
    decreases budget, |l.queue|
  {
    if budget > 0 && (l.left > 0 || l.queue != []) {
      var t := if l.left == 0 then l.(transit := l.queue[0], left := |l.queue[0].contents|, queue := l.queue[1..]) else l;
      var amount := if budget < t.left then budget else t.left;
      var left := t.left - amount;
      ServeFrame(t.(left := left, departed := if left == 0 then t.departed + [Departure(t.transit, time)] else t.departed), budget - amount, time);
    }
  }

  /** Time until the trace is past `now`: the measure that makes `rationalize` terminate. */
  function TimeLeft(l: Link, now: nat): nat {
    if l.finished || l.base > now then 0 else now - l.base + 1
  }

  lemma OpportunityProgress(l: Link, now: nat)
    requires Located(l) && Due(l, now)
    ensures var r := Opportunity(l);
            && Located(r)
            && (TimeLeft(r, now) < TimeLeft(l, now) ||
                (TimeLeft(r, now) == TimeLeft(l, now) && |r.schedule| - r.next < |l.schedule| - l.next))
  {
    ServeFrame(UseOpportunity(l), PACKET_SIZE, NextTime(l).value);
    hide Serve, Slot;
    FirstRound(l.next, |l.schedule|);
  }

  /** `rationalize`: all opportunities up to `now`. */
  function Rationalize(l: Link, now: nat): Link
    requires Located(l)
    decreases TimeLeft(l, now), |l.schedule| - l.next
  {
    if !Due(l, now) then l
    else
      OpportunityProgress(l, now);
      Rationalize(Opportunity(l), now)
  }

  // One opportunity

  /** The bytes inside the link. */
  function Backlog(l: Link): nat {
    Bytes(l.queue) + l.left
  }

  function PacketsOf(departed: seq<Departure>): seq<Packet> {
    seq(|departed|, i requires 0 <= i < |departed| => departed[i].packet)
  }

  /** Everything the link ever took and did not drop, in the order it leaves. */
  function Line(l: Link): seq<Packet> {
    PacketsOf(l.departed) + Inside(l)
  }

  /** What serving needs of a link and keeps. */
  predicate Servable(l: Link, time: nat) {
    && Good(l.discipline, l.queue)
    && l.left <= |l.transit.contents| <= PACKET_SIZE
    && (forall p | p in l.queue :: Sized(p))
    && (forall p | p in Inside(l) :: p.arrival <= time)
    && (forall d | d in l.departed :: d.packet.arrival <= d.time)
  }

  /** The link with the packet at the head of its queue moved into transit. */
  function TakeHead(l: Link): Link
    requires l.left == 0 && l.queue != []
  {
    l.(transit := l.queue[0], left := |l.queue[0].contents|, queue := l.queue[1..])
  }

  /** The link after `amount` bytes of the packet in transit have been sent. */
  function Send(l: Link, amount: nat, time: nat): Link
    requires amount <= l.left
  {
    var left := l.left - amount;
    l.(left := left, departed := if left == 0 then l.departed + [Departure(l.transit, time)] else l.departed)
  }

  lemma TakeHeadKeeps(l: Link, time: nat)
    requires l.left == 0 && l.queue != [] && Servable(l, time)
    ensures var t := TakeHead(l); Servable(t, time) && t.left > 0 && Inside(t) == Inside(l) && Backlog(t) == Backlog(l)
  {
    assert l.queue == [l.queue[0]] + l.queue[1..];
    assert Sized(l.queue[0]);
    assert Inside(TakeHead(l)) == Inside(l);
  }

  lemma SendKeeps(l: Link, amount: nat, time: nat)
    requires 0 < amount <= l.left && Servable(l, time)
    ensures var t := Send(l, amount, time); Servable(t, time) && Line(t) == Line(l) && Backlog(t) == Backlog(l) - amount
  {
    var t := Send(l, amount, time);
    if t.left == 0 {
      assert PacketsOf(t.departed) == PacketsOf(l.departed) + [l.transit];
      assert Inside(l) == [l.transit] + l.queue;
      assert Inside(t) == l.queue;
    } else {
      assert Inside(t) == Inside(l);
    }
  }

  lemma ServeStep(l: Link, budget: nat, time: nat)
    requires Servable(l, time)
    ensures Serve(l, budget, time) ==
            if budget == 0 || (l.left == 0 && l.queue == []) then l
            else
              var t := if l.left == 0 then TakeHead(l) else l;
              var amount := if budget < t.left then budget else t.left;
              Serve(Send(t, amount, time), budget - amount, time)
  {}

  /** Serving never reorders, loses or invents a packet, and moves exactly as many bytes as there are, up to the budget. */
  lemma {:induction false} ServeKeeps(l: Link, budget: nat, time: nat)
    requires Servable(l, time)
    ensures var r := Serve(l, budget, time);
            Servable(r, time) && Line(r) == Line(l) && Backlog(r) == if Backlog(l) <= budget then 0 else Backlog(l) - budget
    decreases budget, |l.queue|
  {
    hide Serve, Servable, Line, Backlog;
    ServeStep(l, budget, time);
    if budget > 0 && (l.left > 0 || l.queue != []) {
      var t := if l.left == 0 then TakeHead(l) else l;
      if l.left == 0 {
        TakeHeadKeeps(l, time);
        assert Line(t) == Line(l) by { SameLine(l, t); }
      }
      var amount := if budget < t.left then budget else t.left;
      SendKeeps(t, amount, time);
      ServeKeeps(Send(t, amount, time), budget - amount, time);
      BacklogBounds(t);
    } else {
      BacklogBounds(l);
    }
  }

  /** Departures are added at the end, all at the time of the opportunity, and a packet is never left in transit whole. */
  predicate Served(l: Link, r: Link, time: nat) {
    && l.departed <= r.departed && (forall i | |l.departed| <= i < |r.departed| :: r.departed[i].time == time)
    && (Partial(l) ==> Partial(r))
  }

  /** One turn of the inner loop. */
  function ServeTurn(l: Link, budget: nat, time: nat): Link
    requires l.left > 0 || l.queue != []
  {
    var t := if l.left == 0 then TakeHead(l) else l;
    Send(t, if budget < t.left then budget else t.left, time)
  }

  lemma TurnServes(l: Link, budget: nat, time: nat)
    requires Servable(l, time) && budget > 0 && (l.left > 0 || l.queue != [])
    ensures var t := ServeTurn(l, budget, time);
            && Servable(t, time) && Partial(t) && |t.queue| <= |l.queue|
            && l.departed <= t.departed && (forall i | |l.departed| <= i < |t.departed| :: t.departed[i].time == time)
  {
    hide Servable, Send, Partial;
    var t := if l.left == 0 then TakeHead(l) else l;
    if l.left == 0 {
      TakeHeadKeeps(l, time);
    }
    var amount := if budget < t.left then budget else t.left;
    SendKeeps(t, amount, time);
    SendServes(t, amount, time);
  }

  lemma {:induction false} ServeServes(l: Link, budget: nat, time: nat)
    requires Servable(l, time)
    ensures Served(l, Serve(l, budget, time), time)
    decreases budget, |l.queue|
  {
    hide Servable;
    if budget > 0 && (l.left > 0 || l.queue != []) {
      TurnServes(l, budget, time);
      ServeUnfolds(l, budget, time);
      hide Serve, ServeTurn;
      var left := if l.left == 0 then |l.queue[0].contents| else l.left;
      ServeServes(ServeTurn(l, budget, time), budget - if budget < left then budget else left, time);
    }
  }

  lemma ServeUnfolds(l: Link, budget: nat, time: nat)
    requires Servable(l, time) && budget > 0 && (l.left > 0 || l.queue != [])
    ensures var left := if l.left == 0 then |l.queue[0].contents| else l.left;
            var amount := if budget < left then budget else left;
            && 0 < amount <= budget
            && Serve(l, budget, time) == Serve(ServeTurn(l, budget, time), budget - amount, time)
  {
    ServeStep(l, budget, time);
    if l.left == 0 {
      assert l.queue[0] in l.queue;
    }
    hide Serve, Bytes;
  }

  lemma SendServes(l: Link, amount: nat, time: nat)
    requires 0 < amount <= l.left && Servable(l, time)
    ensures var t := Send(l, amount, time);
            && t.queue == l.queue && l.departed <= t.departed && (forall i | |l.departed| <= i < |t.departed| :: t.departed[i].time == time) && Partial(t)
  {}

  lemma SameLine(l: Link, t: Link)
    requires l.departed == t.departed && Inside(l) == Inside(t)
    ensures Line(l) == Line(t)
  {}

  lemma BacklogBounds(l: Link)
    ensures Backlog(l) >= l.left
    ensures l.left == 0 && l.queue == [] ==> Backlog(l) == 0
  {}

  // The schedule

  /** When the `k`-th opportunity happens: the trace repeats with period S, its last entry. */
  function OpportunityTime(schedule: seq<nat>, base: nat, k: nat): nat
    requires schedule != []
  {
    base + Round(k, |schedule|) * Last(schedule) + schedule[Slot(k, |schedule|)]
  }

  /** `l` has used up exactly the opportunities before the `k`-th, counted from time base `base`. */
  predicate UsedUp(l: Link, base: nat, k: nat)
    requires Located(l)
  {
    var n := |l.schedule|;
    if l.repeat then !l.finished && l.next == Slot(k, n) && l.base == base + Round(k, n) * Last(l.schedule)
    else l.base == base && if l.finished then k == n else k == l.next
  }

  lemma DivStep(k: nat, n: nat)
    requires n > 0
    ensures if Slot(k, n) == n - 1 then Slot(k + 1, n) == 0 && Round(k + 1, n) == Round(k, n) + 1
            else Slot(k + 1, n) == Slot(k, n) + 1 && Round(k + 1, n) == Round(k, n)
  {
    var q, r := k / n, k % n;
    assert k == q * n + r;
    if r == n - 1 {
      assert k + 1 == (q + 1) * n + 0;
      DivUnique(k + 1, n, q + 1, 0);
    } else {
      DivUnique(k + 1, n, q, r + 1);
    }
  }

  /** Opportunities are in time order, also across the wraparound. */
  lemma {:induction false} TimesNondecreasing(schedule: seq<nat>, base: nat, j: nat, k: nat)
    requires ValidSchedule(schedule) && j <= k
    ensures OpportunityTime(schedule, base, j) <= OpportunityTime(schedule, base, k)
    decreases k
  {
    if j < k {
      hide Round, Slot;
      TimesNondecreasing(schedule, base, j, k - 1);
      DivStep(k - 1, |schedule|);
      OneMore(Round(k - 1, |schedule|), Last(schedule));
    }
  }

  /** The position after `k` opportunities of a repeating trace. */
  lemma NextOfPeriod(k: nat, n: nat)
    requires n > 0
    ensures Slot(k + 1, n) == Slot(Slot(k, n) + 1, n)
    ensures Round(k + 1, n) == Round(k, n) + if Slot(Slot(k, n) + 1, n) == 0 then 1 else 0
  {
    hide Round, Slot;
    DivStep(k, n);
    FirstRound(Slot(k, n), n);
  }

  /** The next opportunity is the `k`-th, and using it moves on to the one after. */
  lemma UseNext(l: Link, base: nat, k: nat)
    requires Located(l) && UsedUp(l, base, k) && !l.finished
    ensures NextTime(l).value == OpportunityTime(l.schedule, base, k)
    ensures UsedUp(UseOpportunity(l), base, k + 1)
  {
    hide Round, Slot;
    var n := |l.schedule|;
    if l.repeat {
      NextOfPeriod(k, n);
      OneMore(Round(k, n), Last(l.schedule));
    } else {
      FirstRound(l.next, n);
    }
  }

  lemma TimeOrder(l: Link)
    requires Located(l) && NextTime(l).Some? && NextTime(UseOpportunity(l)).Some?
    ensures NextTime(l).value <= NextTime(UseOpportunity(l)).value
  {
    hide Slot;
    FirstRound(l.next, |l.schedule|);
  }

  lemma FirstRound(k: nat, n: nat)
    requires k < n
    ensures Round(k, n) == 0 && Slot(k, n) == k
    ensures Slot(k + 1, n) == if k + 1 == n then 0 else k + 1
  {
    DivUnique(k, n, 0, k);
    DivStep(k, n);
  }

  // rationalize

  /** Serving changes only the packets. */
  lemma ServedSchedule(l: Link, budget: nat, time: nat)
    requires Located(l)
    ensures var r := Serve(l, budget, time);
            && Located(r) && NextTime(r) == NextTime(l) && r.schedule == l.schedule && r.repeat == l.repeat
            && r.finished == l.finished && r.next == l.next && r.base == l.base && r.discipline == l.discipline
            && r.droppedPackets == l.droppedPackets && r.droppedBytes == l.droppedBytes
  {
    ServeFrame(l, budget, time);
    hide Serve;
  }

  /** The parts of a link that opportunities never touch. */
  predicate SameSetting(l: Link, r: Link) {
    && r.schedule == l.schedule && r.repeat == l.repeat && r.discipline == l.discipline
    && r.droppedPackets == l.droppedPackets && r.droppedBytes == l.droppedBytes
  }

  /** One opportunity turns the backlog b into max(0, b - 1504), keeps the line, and never lets a packet
      leave before it arrived. */
  lemma OpportunityKeeps(l: Link)
    requires Valid(l) && NextTime(l).Some?
    ensures var r := Opportunity(l);
            && Valid(r) && SameSetting(l, r) && Line(r) == Line(l)
            && Backlog(r) == if Backlog(l) <= PACKET_SIZE then 0 else Backlog(l) - PACKET_SIZE
  {
    hide Serve, Slot, Line;
    var time := NextTime(l).value;
    var u := UseOpportunity(l);
    assert Inside(u) == Inside(l);
    assert Line(u) == Line(l) by { SameLine(u, l); }
    ServeKeeps(u, PACKET_SIZE, time);
    ServeServes(u, PACKET_SIZE, time);
    ServedSchedule(u, PACKET_SIZE, time);
    if NextTime(u).Some? {
      TimeOrder(l);
    }
  }

  // Where the packets are after an opportunity

  /** `q` is the longest end of `all` with at most `bytes` bytes. */
  predicate LongestEnd(q: seq<Packet>, all: seq<Packet>, bytes: nat) {
    && |q| <= |all| && q == all[|all| - |q|..] && Bytes(q) <= bytes
    && forall i | 0 <= i < |all| - |q| :: Bytes(all[i..]) > bytes
  }

  lemma {:induction false} EndsGrow(all: seq<Packet>, i: nat, j: nat)
    requires i <= j <= |all|
    ensures Bytes(all[j..]) <= Bytes(all[i..])
    decreases j - i
  {
    if i < j {
      EndsGrow(all, i + 1, j);
      assert all[i..][1..] == all[i + 1..];
    }
  }

  /** In terms of the packets inside and of bytes alone: an opportunity leaves in the queue the longest end of what was inside that
      fits the backlog it leaves; of the packet before that, if it has not departed, the rest of the backlog is still to be sent. */
  lemma QueueAfterOpportunity(l: Link)
    requires Valid(l) && NextTime(l).Some?
    ensures var r, backlog := Opportunity(l), if Backlog(l) <= PACKET_SIZE then 0 else Backlog(l) - PACKET_SIZE;
            && LongestEnd(r.queue, Inside(l), backlog)
            && r.left == backlog - Bytes(r.queue)
            && |r.departed| - |l.departed| == |Inside(l)| - |r.queue| - (if r.left > 0 then 1 else 0)
            && forall i | |l.departed| <= i < |r.departed| :: r.departed[i].time == NextTime(l).value
  {
    hide Serve, Slot, Line, LongestEnd, Servable, Bytes;
    var u, time := UseOpportunity(l), NextTime(l).value;
    var r := Opportunity(l);
    OpportunityKeeps(l);
    AfterUse(l);
    ServeServes(u, PACKET_SIZE, time);
    InsideSplits(l, r);
    RestIsLongest(l, r);
  }

  lemma AfterUse(l: Link)
    requires Valid(l) && NextTime(l).Some?
    ensures var u := UseOpportunity(l); Servable(u, NextTime(l).value) && u.departed == l.departed
  {
    hide Slot;
    assert Inside(UseOpportunity(l)) == Inside(l);
  }

  /** The line does not change, so what was inside is what departed and what is inside now. */
  lemma InsideSplits(l: Link, r: Link)
    requires Line(r) == Line(l) && l.departed <= r.departed
    ensures var n := |r.departed| - |l.departed|;
            n <= |Inside(l)| && Inside(r) == Inside(l)[n..]
  {
    var n := |r.departed| - |l.departed|;
    assert PacketsOf(r.departed)[..|l.departed|] == PacketsOf(l.departed);
    assert Inside(l) == Line(l)[|l.departed|..];
    assert Inside(r) == Line(r)[|r.departed|..];
  }

  lemma RestIsLongest(l: Link, r: Link)
    requires Valid(l) && Partial(r) && l.departed <= r.departed
    requires |r.departed| - |l.departed| <= |Inside(l)| && Inside(r) == Inside(l)[|r.departed| - |l.departed|..]
    ensures LongestEnd(r.queue, Inside(l), Backlog(r))
    ensures |r.departed| - |l.departed| == |Inside(l)| - |r.queue| - if r.left > 0 then 1 else 0
  {
    hide Bytes, Valid, Partial;
    var all, q := Inside(l), r.queue;
    var from := |all| - |q|;
    assert q == all[from..];
    forall i | 0 <= i < from ensures Bytes(all[i..]) > Backlog(r) {
      EndsGrow(all, i, from - 1);
      assert all[from - 1 + 1..] == q;
      OneMoreInside(l, r, from - 1);
    }
  }

  lemma OneMoreInside(l: Link, r: Link, at: nat)
    requires Valid(l) && Partial(r) && at < |Inside(l)| && r.queue == Inside(l)[at + 1..]
    requires r.left > 0 ==> Inside(l)[at] == r.transit
    ensures Bytes(Inside(l)[at..]) > Backlog(r)
  {
    var all := Inside(l);
    assert all[at..][1..] == all[at + 1..] && all[at..][0] == all[at];
    assert all[at] in l.queue || (l.left > 0 && all[at] == l.transit);
  }

  lemma RationalizeStep(l: Link, now: nat)
    requires Located(l) && Due(l, now)
    ensures Located(Opportunity(l)) && Rationalize(l, now) == Rationalize(Opportunity(l), now)
  {
    hide Opportunity;
    OpportunityProgress(l, now);
  }

  lemma {:induction false} RationalizeKeeps(l: Link, now: nat)
    requires Valid(l)
    ensures var r := Rationalize(l, now);
            Valid(r) && SameSetting(l, r) && Line(r) == Line(l) && !Due(r, now)
    decreases TimeLeft(l, now), |l.schedule| - l.next
  {
    if Due(l, now) {
      hide Rationalize, Line;
      OpportunityProgress(l, now);
      OpportunityKeeps(l);
      RationalizeStep(l, now);
      RationalizeKeeps(Opportunity(l), now);
    }
  }

  lemma {:induction false} RationalizeLocated(l: Link, now: nat)
    requires Located(l)
    ensures Located(Rationalize(l, now)) && !Due(Rationalize(l, now), now)
    decreases TimeLeft(l, now), |l.schedule| - l.next
  {
    if Due(l, now) {
      hide Opportunity;
      OpportunityProgress(l, now);
      RationalizeLocated(Opportunity(l), now);
    }
  }

  /** Lazy equals eager: emulating up to `t1` and then up to `t2` is emulating up to `t2`. */
  lemma {:induction false} LazyIsEager(l: Link, t1: nat, t2: nat)
    requires Located(l) && t1 <= t2
    ensures Located(Rationalize(l, t1)) && Rationalize(Rationalize(l, t1), t2) == Rationalize(l, t2)
    decreases TimeLeft(l, t1), |l.schedule| - l.next
  {
    if Due(l, t1) {
      hide Opportunity, Rationalize;
      OpportunityProgress(l, t1);
      RationalizeStep(l, t1);
      RationalizeStep(l, t2);
      LazyIsEager(Opportunity(l), t1, t2);
    }
  }

  lemma OpportunityUses(l: Link, base: nat, k: nat)
    requires Located(l) && UsedUp(l, base, k) && !l.finished
    ensures Located(Opportunity(l)) && UsedUp(Opportunity(l), base, k + 1) && Opportunity(l).schedule == l.schedule && Opportunity(l).repeat == l.repeat
  {
    hide Serve, Slot, Round;
    UseNext(l, base, k);
    ServedSchedule(UseOpportunity(l), PACKET_SIZE, NextTime(l).value);
  }

  /** Schedule exactness: starting before the `k`-th opportunity, `rationalize` uses exactly the
      opportunities whose time has come, and the backlog shrinks by 1504 bytes for each. */
  lemma {:induction false} RationalizeExact(l: Link, base: nat, k: nat, now: nat) returns (m: nat)
    requires Valid(l) && UsedUp(l, base, k)
    ensures var r := Rationalize(l, now);
            && k <= m && Located(r) && UsedUp(r, base, m)
            && (forall j | k <= j < m :: OpportunityTime(l.schedule, base, j) <= now)
            && (r.finished || forall j | m <= j :: OpportunityTime(l.schedule, base, j) > now)
            && Backlog(r) == if Backlog(l) <= (m - k) * PACKET_SIZE then 0 else Backlog(l) - (m - k) * PACKET_SIZE
    decreases TimeLeft(l, now), |l.schedule| - l.next
  {
    hide OpportunityTime, Opportunity, Backlog, UsedUp;
    if !l.finished {
      assert NextTime(l).value == OpportunityTime(l.schedule, base, k) by { UseNext(l, base, k); }
    }
    if Due(l, now) {
      OpportunityProgress(l, now);
      OpportunityKeeps(l);
      OpportunityUses(l, base, k);
      m := RationalizeExact(Opportunity(l), base, k + 1, now);
    } else {
      m := k;
      if !l.finished {
        forall j: nat | m <= j ensures OpportunityTime(l.schedule, base, j) > now {
          TimesNondecreasing(l.schedule, base, m, j);
        }
      }
    }
  }
}
