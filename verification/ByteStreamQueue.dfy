/** The ring buffer of bytestream_queue.cc. */
module ByteStreamQueue {
  import opened Widths

  /** The buffer and the two positions. */
  datatype Ring = Ring(buffer: string, toPush: nat, toPop: nat)

  predicate Valid(r: Ring) {
    1 < |r.buffer| < UINT64 && r.toPush < |r.buffer| && r.toPop < |r.buffer|
  }

  /** `available_to_pop` and `available_to_push`, in 64-bit unsigned arithmetic. */
  function AvailableToPop(r: Ring): nat {
    ((r.toPush - r.toPop) % UINT64 + if r.toPop > r.toPush then |r.buffer| else 0) % UINT64
  }

  function AvailableToPush(r: Ring): nat {
    (((r.toPop - r.toPush) % UINT64 - 1) % UINT64 + if r.toPop > r.toPush then 0 else |r.buffer|) % UINT64
  }

  /** The bytes held, oldest first. */
  function Contents(r: Ring): string
    requires Valid(r)
  {
    if r.toPop <= r.toPush then r.buffer[r.toPop..r.toPush] else r.buffer[r.toPop..] + r.buffer[..r.toPush]
  }

  /** The unsigned sums come out right: one counts the bytes held, and one slot always stays free. */
  lemma AvailableCounts(r: Ring)
    requires Valid(r)
    ensures AvailableToPop(r) == |Contents(r)|
    ensures AvailableToPush(r) == |r.buffer| - 1 - |Contents(r)|
  {
    var d := r.toPush - r.toPop;
    if d >= 0 {
      assert d % UINT64 == d;
      if d == 0 {
        assert (0 - 1) % UINT64 == UINT64 - 1;
      } else {
        assert (-d) % UINT64 == UINT64 - d;
      }
    } else {
      assert d % UINT64 == UINT64 + d;
    }
  }

  /** The stretch up to the end of the buffer that a push or a pop can use. */
  function ContiguousToPush(r: Ring): nat
    requires Valid(r)
  {
    if r.toPush + AvailableToPush(r) >= |r.buffer| then |r.buffer| - r.toPush else AvailableToPush(r)
  }

  function ContiguousToPop(r: Ring): nat
    requires Valid(r)
  {
    if r.toPop + AvailableToPop(r) >= |r.buffer| then |r.buffer| - r.toPop else AvailableToPop(r)
  }

  function Wrap(i: nat, size: nat): nat {
    if i == size then 0 else i
  }

  /** `push`: the bytes read from the descriptor are copied in; none means the end of the file. */
  function Pushed(r: Ring, chunk: string): Ring
    requires Valid(r) && |chunk| <= |r.buffer| - r.toPush
  {
    Ring(r.buffer[..r.toPush] + chunk + r.buffer[r.toPush + |chunk|..], Wrap(r.toPush + |chunk|, |r.buffer|), r.toPop)
  }

  /** `pop`: the descriptor took `n` bytes. */
  function Popped(r: Ring, n: nat): Ring
    requires Valid(r) && n <= |r.buffer| - r.toPop
  {
    r.(toPop := Wrap(r.toPop + n, |r.buffer|))
  }

  /** The free stretch ends at the end of the buffer or just before the oldest byte. */
  lemma FreeStretch(r: Ring)
    requires Valid(r)
    ensures r.toPush + ContiguousToPush(r) <= |r.buffer|
    ensures r.toPop <= r.toPush ==> r.toPush + ContiguousToPush(r) == |r.buffer| - if r.toPop == 0 then 1 else 0
    ensures r.toPop > r.toPush ==> r.toPush + ContiguousToPush(r) == r.toPop - 1
  {
    AvailableCounts(r);
    hide AvailableToPush, AvailableToPop;
  }

  /** The used stretch ends at the end of the buffer or at the newest byte. */
  lemma UsedStretch(r: Ring)
    requires Valid(r)
    ensures r.toPop + ContiguousToPop(r) == if r.toPop <= r.toPush then r.toPush else |r.buffer|
  {
    AvailableCounts(r);
    hide AvailableToPush, AvailableToPop;
  }

  lemma PushAppends(r: Ring, chunk: string)
    requires Valid(r) && |chunk| <= ContiguousToPush(r)
    ensures |chunk| <= |r.buffer| - r.toPush
    ensures Valid(Pushed(r, chunk)) && Contents(Pushed(r, chunk)) == Contents(r) + chunk
  {
    FreeStretch(r);
    hide ContiguousToPush;
    var t := Pushed(r, chunk);
    if r.toPop <= r.toPush && r.toPush + |chunk| == |r.buffer| {
      assert t.buffer == r.buffer[..r.toPush] + chunk;
      assert t.buffer[r.toPop..] == r.buffer[r.toPop..r.toPush] + chunk;
    } else if r.toPop <= r.toPush {
      assert t.buffer[r.toPop..t.toPush] == r.buffer[r.toPop..r.toPush] + chunk;
    } else {
      assert t.buffer[r.toPop..] == r.buffer[r.toPop..];
      assert t.buffer[..t.toPush] == r.buffer[..r.toPush] + chunk;
      assert r.buffer[r.toPop..] + (r.buffer[..r.toPush] + chunk) == r.buffer[r.toPop..] + r.buffer[..r.toPush] + chunk;
    }
  }

  lemma PopTakes(r: Ring, n: nat)
    requires Valid(r) && n <= ContiguousToPop(r)
    ensures n <= |r.buffer| - r.toPop && n <= |Contents(r)|
    ensures Valid(Popped(r, n))
    ensures r.buffer[r.toPop..r.toPop + n] == Contents(r)[..n] && Contents(Popped(r, n)) == Contents(r)[n..]
  {
    UsedStretch(r);
    hide ContiguousToPop;
    if r.toPop > r.toPush {
      PrefixOfSum(r.buffer[r.toPop..], r.buffer[..r.toPush], n);
    }
  }

  lemma PrefixOfSum(a: string, b: string, n: nat)
    requires n <= |a|
    ensures (a + b)[..n] == a[..n] && (a + b)[n..] == a[n..] + b
  {}

  datatype Event = Push(chunk: string) | Pop(n: nat)

  predicate Enabled(r: Ring, e: Event)
    requires Valid(r)
  {
    match e
    case Push(chunk) => |chunk| <= ContiguousToPush(r)
    case Pop(n) => n <= ContiguousToPop(r)
  }

  function Happen(r: Ring, e: Event): (t: Ring)
    requires Valid(r) && Enabled(r, e)
    ensures Valid(t)
  {
    match e
    case Push(chunk) => PushAppends(r, chunk); Pushed(r, chunk)
    case Pop(n) => PopTakes(r, n); Popped(r, n)
  }

  predicate Possible(r: Ring, es: seq<Event>)
    requires Valid(r)
    decreases |es|
  {
    es == [] || (Enabled(r, es[0]) && Possible(Happen(r, es[0]), es[1..]))
  }

  function Run(r: Ring, es: seq<Event>): (t: Ring)
    requires Valid(r) && Possible(r, es)
    ensures Valid(t)
    decreases |es|
  {
    if es == [] then r else Run(Happen(r, es[0]), es[1..])
  }

  function Input(es: seq<Event>): string {
    if es == [] then "" else (if es[0].Push? then es[0].chunk else "") + Input(es[1..])
  }

  function Out(r: Ring, e: Event): string
    requires Valid(r) && Enabled(r, e)
  {
    match e
    case Push(_) => ""
    case Pop(n) => PopTakes(r, n); r.buffer[r.toPop..r.toPop + n]
  }

  /** The bytes the pops of a run hand to the descriptor. */
  function Output(r: Ring, es: seq<Event>): string
    requires Valid(r) && Possible(r, es)
    decreases |es|
  {
    if es == [] then ""
    else
      Out(r, es[0]) + Output(Happen(r, es[0]), es[1..])
  }

  /** A first-in first-out byte stream: over any run of partial reads and writes, what was popped followed by what is
      held is what was held followed by what was pushed. */
  lemma {:induction false} RunIsFifo(r: Ring, es: seq<Event>)
    requires Valid(r) && Possible(r, es)
    ensures Output(r, es) + Contents(Run(r, es)) == Contents(r) + Input(es)
    decreases |es|
  {
    if es == [] {
      assert "" + Contents(r) == Contents(r) + "";
    } else {
      var t := Happen(r, es[0]);
      RunIsFifo(t, es[1..]);
      HappenBalances(r, es[0]);
      hide Contents, Enabled, Happen;
      Chain(Out(r, es[0]), Output(t, es[1..]), Contents(Run(r, es)), Contents(t), Contents(r), if es[0].Push? then es[0].chunk else "", Input(es[1..]));
    }
  }

  lemma Chain(o: string, os: string, end: string, mid: string, start: string, i: string, rest: string)
    requires os + end == mid + rest && o + mid == start + i
    ensures (o + os) + end == start + (i + rest)
  {
    assert (o + os) + end == o + (os + end);
    assert o + (mid + rest) == (o + mid) + rest;
    assert (start + i) + rest == start + (i + rest);
  }

  lemma HappenBalances(r: Ring, e: Event)
    requires Valid(r) && Enabled(r, e)
    ensures match e
            case Push(chunk) => Out(r, e) + Contents(Happen(r, e)) == Contents(r) + chunk
            case Pop(n) => Out(r, e) + Contents(Happen(r, e)) == Contents(r)
  {
    match e
    case Push(chunk) => PushAppends(r, chunk);
    case Pop(n) => PopTakes(r, n);
  }

  datatype Result = Success | EndOfFile

  class ByteStreamQueue {
    const buffer: array<char>
    var nextByteToPush: nat
    var nextByteToPop: nat

    function View(): Ring
      reads this, buffer
    {
      Ring(buffer[..], nextByteToPush, nextByteToPop)
    }

    constructor (size: nat)
      requires 1 < size < UINT64
      ensures Valid(View()) && Contents(View()) == "" && |View().buffer| == size && fresh(buffer)
    {
      buffer := new char[size](_ => '\0');
      nextByteToPush, nextByteToPop := 0, 0;
    }

    /** `push`: `chunk` is what the descriptor returned when asked for at most the contiguous space. */
    method PushChunk(chunk: string) returns (r: Result)
      requires Valid(View()) && AvailableToPush(View()) > 0 && |chunk| <= ContiguousToPush(View())
      modifies this`nextByteToPush, buffer
      ensures Valid(View()) && View() == Pushed(old(View()), chunk)
      ensures Contents(View()) == old(Contents(View())) + chunk
      ensures r == if chunk == "" then EndOfFile else Success
      ensures r == Success ==> AvailableToPop(View()) > 0
      ensures 0 < old(ContiguousToPush(View())) <= buffer.Length - old(nextByteToPush)
    {
      ghost var before := View();
      PushAppends(before, chunk);
      FreeStretch(before);
      var contiguousSpaceToPush := AvailableToPush(View());
      if nextByteToPush + contiguousSpaceToPush >= buffer.Length {
        contiguousSpaceToPush := buffer.Length - nextByteToPush;
      }
      assert contiguousSpaceToPush == ContiguousToPush(before);
      assert contiguousSpaceToPush > 0;
      AvailableCounts(Pushed(before, chunk));
      hide AvailableToPush, AvailableToPop, Contents;
      assert |chunk| <= buffer.Length - nextByteToPush;
      if chunk == "" {
        assert View() == Pushed(before, "");
        return EndOfFile;
      }
      CopyIn(chunk);
      nextByteToPush := nextByteToPush + |chunk|;
      assert nextByteToPush <= buffer.Length;
      if nextByteToPush == buffer.Length {
        nextByteToPush := 0;
      }
      return Success;
    }

    /** The `memcpy`. */
    method CopyIn(chunk: string)
      requires nextByteToPush + |chunk| <= buffer.Length
      modifies buffer
      ensures buffer[..] == old(buffer[..nextByteToPush]) + chunk + old(buffer[nextByteToPush + |chunk|..])
    {
      for i := 0 to |chunk|
        invariant buffer[..nextByteToPush + i] == old(buffer[..nextByteToPush]) + chunk[..i]
        invariant buffer[nextByteToPush + i..] == old(buffer[nextByteToPush + i..])
      {
        buffer[nextByteToPush + i] := chunk[i];
      }
      assert buffer[..] == buffer[..nextByteToPush + |chunk|] + buffer[nextByteToPush + |chunk|..];
    }

    /** `pop`: the descriptor is offered the contiguous bytes and takes `taken` of them. */
    method PopBytes(taken: nat) returns (out: string)
      requires Valid(View()) && AvailableToPop(View()) > 0 && 0 < taken <= ContiguousToPop(View())
      modifies this`nextByteToPop
      ensures Valid(View()) && View() == Popped(old(View()), taken)
      ensures out == old(Contents(View()))[..taken] && Contents(View()) == old(Contents(View()))[taken..]
      ensures 0 < old(ContiguousToPop(View())) <= buffer.Length - old(nextByteToPop)
    {
      PopTakes(View(), taken);
      UsedStretch(View());
      var contiguousSpaceToPop := AvailableToPop(View());
      if nextByteToPop + contiguousSpaceToPop >= buffer.Length {
        contiguousSpaceToPop := buffer.Length - nextByteToPop;
      }
      assert contiguousSpaceToPop == ContiguousToPop(View());
      var endOfPop := nextByteToPop + contiguousSpaceToPop;
      assert nextByteToPop <= endOfPop <= buffer.Length;
      hide AvailableToPush, AvailableToPop, Contents;
      out := buffer[nextByteToPop..nextByteToPop + taken];
      nextByteToPop := nextByteToPop + taken;
      assert nextByteToPop <= buffer.Length;
      if nextByteToPop == buffer.Length {
        nextByteToPop := 0;
      }
    }
  }
}
