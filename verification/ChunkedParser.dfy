/** The incremental parser for chunked bodies (RFC 2616, section 3.6.1) of chunked_parser.cc. */
module ChunkedParser {
  import opened Sequences
  import opened Text
  import opened Widths

  datatype State = ChunkHdr | Chunk | Trailer

  /** Chunk sizes from here on make the 32-bit sum `current_chunk_size_ + 2` wrap around. */
  const WRAPPING_SIZE: nat := UINT32 - 2

  /** The fields of `ChunkedBodyParser` that its loop works on. */
  datatype Scanner = Scanner(trailers: bool, state: State, size: nat, buffer: string, parsed: nat)

  /** All fields of `ChunkedBodyParser`. */
  datatype Parser = Parser(scanner: Scanner, acked: nat)

  function Start(trailers: bool): Scanner {
    Scanner(trailers, ChunkHdr, 0, "", 0)
  }

  function Init(trailers: bool): Parser {
    Parser(Start(trailers), 0)
  }

  /** The text before `;`, a space or the CRLF. */
  function HexString(hdr: string): string
    requires Find(hdr, CRLF).Some?
  {
    var semi := Find(hdr, ";");
    var pos := if semi.Some? then semi.value else Find(hdr, CRLF).value;
    var space := Find(hdr[..pos], " ");
    if space.Some? then hdr[..space.value] else hdr[..pos]
  }

  /** `get_chunk_size`: its value as a hexadecimal number, cut to 32 bits. */
  function GetChunkSize(hdr: string): (r: Option<nat>)
    requires Find(hdr, CRLF).Some?
    ensures r.Some? ==> r.value < UINT32
  {
    var number := MyAtoi(HexString(hdr), 16);
    if number.None? then None else Some(number.value % UINT32)
  }

  /** What ends the trailer section: a blank line, or any line end if no trailers were announced. */
  function Needle(trailers: bool): string {
    if trailers then CRLF + CRLF else CRLF
  }

  /** One turn of the loop in `read`. `Fail` stands for a failed assert or an exception. */
  datatype Turn = Fail | Wait | Next(p: Scanner) | End(total: nat)

  function TakeTurn(p: Scanner): Turn
    requires p.buffer != ""
  {
    match p.state
    case ChunkHdr =>
      var it := Find(p.buffer, CRLF);
      if it.None? then Wait
      else
        assert p.buffer[..it.value + 2][it.value..it.value + 2] == CRLF;
        assert At(p.buffer[..it.value + 2], CRLF, it.value);
        var size := GetChunkSize(p.buffer[..it.value + 2]);
        if size.None? then Fail
        else Next(p.(state := if size.value == 0 then Trailer else Chunk, size := size.value,
                     parsed := p.parsed + it.value + 2, buffer := p.buffer[it.value + 2..]))
    case Chunk =>
      var n := (p.size + 2) % UINT32;
      if |p.buffer| < n then Wait
      else if !At(p.buffer, CRLF, p.size) then Fail
      else Next(p.(state := ChunkHdr, parsed := p.parsed + n, buffer := p.buffer[n..]))
    case Trailer =>
      var loc := Find(p.buffer, Needle(p.trailers));
      if loc.None? then Wait else End(p.parsed + loc.value + |Needle(p.trailers)|)
  }

  function Rank(s: State): nat {
    if s == Chunk then 1 else 0
  }

  datatype ScanResult = Broken | Stalled(p: Scanner) | Ended(total: nat)

  /** The whole loop of `read`: turns until the buffer is empty or nothing more can be done. */
  function Scan(p: Scanner): ScanResult
    decreases |p.buffer|, Rank(p.state)
  {
    if p.buffer == "" then Stalled(p)
    else
      match TakeTurn(p)
      case Fail => Broken
      case Wait => Stalled(p)
      case Next(q) => Scan(q)
      case End(total) => Ended(total)
  }

  datatype Outcome = Failed | Pending(p: Parser) | Finished(count: nat)

  /** More bytes are appended to what the scanner holds. */
  function Feed(p: Scanner, more: string): Scanner {
    p.(buffer := p.buffer + more)
  }

  /** `read`. `Pending` is the return value `npos` (all of `input` belongs to the body). */
  function ReadInput(p: Parser, input: string): Outcome {
    match Scan(Feed(p.scanner, input))
    case Broken => Failed
    case Stalled(q) => Pending(Parser(q, p.acked + |input|))
    case Ended(total) => if total > p.acked then Finished(total - p.acked) else Failed
  }

  /** What holds between calls: everything acknowledged is either parsed or still held,
      and no further turn is possible on what is held. */
  predicate Valid(p: Parser) {
    p.acked == p.scanner.parsed + |p.scanner.buffer| && Scan(p.scanner) == Stalled(p.scanner)
  }

  lemma {:induction false} ScanKeeps(p: Scanner)
    ensures Scan(p).Stalled? ==> var q := Scan(p).p;
              q.parsed + |q.buffer| == p.parsed + |p.buffer| && q.trailers == p.trailers &&
              |q.buffer| <= |p.buffer| && Scan(q) == Stalled(q)
    ensures Scan(p).Stalled? ==> var q := Scan(p).p;
              |q.buffer| < |p.buffer| || (|q.buffer| == |p.buffer| && Rank(q.state) <= Rank(p.state))
    ensures Scan(p).Ended? ==> p.parsed < Scan(p).total <= p.parsed + |p.buffer|
    decreases |p.buffer|, Rank(p.state)
  {
    if p.buffer != "" && TakeTurn(p).Next? {
      ScanKeeps(TakeTurn(p).p);
    }
  }

  /** A turn that was not possible before uses some of the new bytes. */
  lemma TurnUsesNewBytes(p: Scanner, more: string)
    requires p.buffer != "" && TakeTurn(p).Wait?
    ensures var turn := TakeTurn(Feed(p, more));
            && (turn.Next? ==> turn.p.parsed > p.parsed + |p.buffer|)
            && (turn.End? ==> turn.total > p.parsed + |p.buffer|)
  {
    hide GetChunkSize, Find;
    if p.state == ChunkHdr && Find(p.buffer + more, CRLF).Some? {
      FindLater(p.buffer, CRLF, more);
    } else if p.state == Trailer && Find(p.buffer + more, Needle(p.trailers)).Some? {
      FindLater(p.buffer, Needle(p.trailers), more);
    }
  }

  /** A stalled scanner waits for more bytes. */
  lemma StalledWaits(p: Scanner)
    requires Scan(p) == Stalled(p)
    ensures p.buffer == "" || TakeTurn(p).Wait?
  {
    hide TakeTurn;
    if p.buffer != "" && TakeTurn(p).Next? {
      ScanKeeps(TakeTurn(p).p);
      TurnShrinks(p);
    }
  }

  /** What completes the body of a stalled scanner lies beyond the bytes it held. */
  lemma NewBytesUsed(p: Scanner, more: string)
    requires Scan(p) == Stalled(p)
    ensures Scan(Feed(p, more)).Ended? ==> Scan(Feed(p, more)).total > p.parsed + |p.buffer|
  {
    hide TakeTurn;
    var f := Feed(p, more);
    ScanKeeps(f);
    if p.buffer != "" {
      StalledWaits(p);
      TurnUsesNewBytes(p, more);
      if TakeTurn(f).Next? {
        ScanKeeps(TakeTurn(f).p);
      }
    }
  }

  lemma TurnShrinks(p: Scanner)
    requires p.buffer != "" && TakeTurn(p).Next?
    ensures var q := TakeTurn(p).p; |q.buffer| < |p.buffer| || (|q.buffer| == |p.buffer| && Rank(q.state) < Rank(p.state))
  {
    hide GetChunkSize, Find;
  }

  /** The size of the chunk being read makes the 32-bit sum wrap. */
  predicate Wrapping(p: Scanner) {
    p.state == Chunk && p.size >= WRAPPING_SIZE
  }

  /** Some turn of the scan takes a chunk of such a size. All its bytes must be there at once for that: the length test passes
      with two bytes or none, and a chunk that is cut short fails. */
  predicate Wraps(p: Scanner)
    decreases |p.buffer|, Rank(p.state)
  {
    p.buffer != "" && TakeTurn(p).Next? && (Wrapping(p) || Wraps(TakeTurn(p).p))
  }

  lemma WrapsStep(p: Scanner)
    ensures Wraps(p) <==> p.buffer != "" && TakeTurn(p).Next? && (Wrapping(p) || Wraps(TakeTurn(p).p))
  {
    hide TakeTurn;
  }

  lemma StalledNeverWraps(p: Scanner)
    requires Scan(p) == Stalled(p)
    ensures !Wraps(p)
  {
    hide TakeTurn;
    StalledWaits(p);
  }

  /** Fed byte by byte a parser never takes such a chunk. */
  lemma OneByteNeverWraps(p: Scanner, c: char)
    requires Scan(p) == Stalled(p)
    ensures !Wraps(Feed(p, [c]))
  {
    hide TakeTurn, Wraps;
    var f := Feed(p, [c]);
    StalledWaits(p);
    WrapsStep(f);
    if TakeTurn(f).Next? {
      OneByteTurn(p, c);
      WrapsStep(TakeTurn(f).p);
    }
  }

  lemma OneByteTurn(p: Scanner, c: char)
    requires (p.buffer == "" || TakeTurn(p).Wait?) && TakeTurn(Feed(p, [c])).Next?
    ensures !Wrapping(p) && TakeTurn(Feed(p, [c])).p.buffer == ""
  {
    hide GetChunkSize, Find;
    if p.buffer != "" {
      TurnUsesNewBytes(p, [c]);
    }
  }

  /** Too few bytes to fill a chunk of wrapping size; before its size line, four more do not matter. */
  predicate Room(p: Scanner) {
    |p.buffer| < UINT32 + if Wrapping(p) then 0 else 4
  }

  lemma LineEnds(s: string, k: nat)
    requires At(s, CRLF, k)
    ensures Find(s[..k + 2], CRLF).Some?
  {
    assert s[..k + 2][k..k + 2] == s[k..k + 2];
    assert At(s[..k + 2], CRLF, k);
  }

  lemma HexStringInLine(hdr: string, k: nat)
    requires Find(hdr, CRLF) == Some(k) && |hdr| == k + 2
    ensures |HexString(hdr)| <= k
  {
    hide Find;
    assert hdr[k..k + 2] == CRLF;
    assert hdr[k] == '\r' && hdr[k + 1] == '\n';
    if Find(hdr, ";").Some? {
      var j := Find(hdr, ";").value;
      assert hdr[j] == hdr[j..j + 1][0] == ';';
    }
  }

  /** A size line of one character or none means less than 16. */
  lemma ShortLine(hdr: string, k: nat)
    requires Find(hdr, CRLF) == Some(k) && |hdr| == k + 2 && k < 2
    ensures GetChunkSize(hdr).Some? ==> GetChunkSize(hdr).value < 16
  {
    hide Find, HexString, MyAtoi;
    HexStringInLine(hdr, k);
    ShortNumber(HexString(hdr));
  }

  lemma ShortNumber(hex: string)
    requires |hex| < 2
    ensures MyAtoi(hex, 16).Some? ==> 0 <= MyAtoi(hex, 16).value < 16
  {
    if MyAtoi(hex, 16).Some? {
      assert SkipSpace(hex) == hex || SkipSpace(hex) == "";
      assert hex[..0] == "";
      assert Numeral(hex, 16) == DigitValue(hex[0]);
    }
  }

  /** A turn that goes on leaves room. */
  lemma TurnRoom(p: Scanner)
    requires p.buffer != "" && Room(p) && TakeTurn(p).Next?
    ensures Room(TakeTurn(p).p) && !Wrapping(p)
  {
    hide GetChunkSize, Find;
    if p.state == ChunkHdr {
      var k := Find(p.buffer, CRLF).value;
      if k < 2 {
        LineEnds(p.buffer, k);
        FindAppend(p.buffer[..k + 2], CRLF, p.buffer[k + 2..]);
        assert p.buffer[..k + 2] + p.buffer[k + 2..] == p.buffer;
        ShortLine(p.buffer[..k + 2], k);
      }
    }
  }

  lemma {:induction false} RoomNeverWraps(p: Scanner)
    requires Room(p)
    ensures !Wraps(p)
    decreases |p.buffer|, Rank(p.state)
  {
    hide TakeTurn, Wraps, Room, Wrapping;
    WrapsStep(p);
    if p.buffer != "" && TakeTurn(p).Next? {
      TurnRoom(p);
      TurnShrinks(p);
      RoomNeverWraps(TakeTurn(p).p);
    }
  }

  lemma HeaderTurnAppend(p: Scanner, more: string)
    requires p.buffer != "" && p.state == ChunkHdr && !TakeTurn(p).Wait?
    ensures TakeTurn(Feed(p, more)) == if TakeTurn(p).Fail? then Fail else Next(Feed(TakeTurn(p).p, more))
  {
    hide GetChunkSize;
    var f := Feed(p, more);
    var k := Find(p.buffer, CRLF).value;
    assert Find(f.buffer, CRLF) == Some(k) by {
      FindAppend(p.buffer, CRLF, more);
    }
    assert f.buffer[..k + 2] == p.buffer[..k + 2];
    assert f.buffer[k + 2..] == p.buffer[k + 2..] + more;
  }

  lemma ChunkTurnAppend(p: Scanner, more: string)
    requires p.buffer != "" && p.state == Chunk
    ensures TakeTurn(p).Next? ==> TakeTurn(Feed(p, more)) == Next(Feed(TakeTurn(p).p, more))
    ensures TakeTurn(p).Fail? ==> TakeTurn(Feed(p, more)).Fail? || (Wrapping(p) && TakeTurn(Feed(p, more)).Next?)
  {
    var n := (p.size + 2) % UINT32;
    if p.size + 2 <= |p.buffer| {
      AtAppend(p.buffer, CRLF, more, p.size);
      assert n <= |p.buffer|;
      assert (p.buffer + more)[n..] == p.buffer[n..] + more;
    }
  }

  /** One turn with more bytes already there. */
  lemma TurnAppend(p: Scanner, more: string)
    requires p.buffer != ""
    ensures TakeTurn(p).Next? ==> TakeTurn(Feed(p, more)) == Next(Feed(TakeTurn(p).p, more))
    ensures TakeTurn(p).End? ==> TakeTurn(Feed(p, more)) == TakeTurn(p)
    ensures TakeTurn(p).Fail? ==> TakeTurn(Feed(p, more)).Fail? || (Wrapping(p) && TakeTurn(Feed(p, more)).Next?)
  {
    hide GetChunkSize, Find, At;
    match p.state
    case ChunkHdr => if !TakeTurn(p).Wait? { HeaderTurnAppend(p, more); }
    case Chunk => ChunkTurnAppend(p, more);
    case Trailer => if !TakeTurn(p).Wait? { FindAppend(p.buffer, Needle(p.trailers), more); }
  }

  /** Scanning can stop and resume: what was found is found again, what stalled goes on from where it stalled, and what
      failed fails again unless the new bytes fill a chunk of wrapping size. */
  lemma {:induction false} ScanAppend(p: Scanner, more: string)
    ensures Wraps(p) ==> Wraps(Feed(p, more))
    ensures match Scan(p)
            case Broken => Scan(Feed(p, more)).Broken? || Wraps(Feed(p, more))
            case Ended(total) => Scan(Feed(p, more)) == Ended(total) && (Wraps(Feed(p, more)) <==> Wraps(p))
            case Stalled(q) =>
              Scan(Feed(p, more)) == Scan(Feed(q, more)) && (Wraps(Feed(p, more)) <==> Wraps(p) || Wraps(Feed(q, more)))
    decreases |p.buffer|, Rank(p.state)
  {
    hide TakeTurn, Scan, Wraps;
    var f := Feed(p, more);
    ScanStep(p);
    WrapsStep(p);
    if p.buffer != "" && !TakeTurn(p).Wait? {
      TurnAppend(p, more);
      ScanStep(f);
      WrapsStep(f);
      if TakeTurn(p).Next? {
        TurnShrinks(p);
        ScanAppend(TakeTurn(p).p, more);
      }
    }
  }

  /** The bookkeeping invariant: `read` keeps it, so its assert `parsed_so_far_ > acked_so_far_`
      never fails, and the count it returns lies in 1..|input|. */
  lemma ReadBookkeeping(p: Parser, input: string)
    requires Valid(p)
    ensures ReadInput(p, input).Failed? <==> Scan(Feed(p.scanner, input)).Broken?
    ensures ReadInput(p, input).Pending? ==> Valid(ReadInput(p, input).p) && ReadInput(p, input).p.acked == p.acked + |input|
    ensures ReadInput(p, input).Finished? ==> 1 <= ReadInput(p, input).count <= |input|
    ensures ReadInput(p, input).Finished? ==> Scan(Feed(p.scanner, input)) == Ended(p.acked + ReadInput(p, input).count)
  {
    ScanKeeps(Feed(p.scanner, input));
    NewBytesUsed(p.scanner, input);
  }

  /** Reading `input` takes a chunk of wrapping size. */
  predicate ReadWraps(p: Parser, input: string) {
    Wraps(Feed(p.scanner, input))
  }

  /** Reading two pieces one after the other is reading them at once, except that the first may fail on a chunk of wrapping
      size that the second would complete. */
  lemma ReadSplit(p: Parser, a: string, b: string)
    requires Valid(p)
    ensures ReadWraps(p, a) ==> ReadWraps(p, a + b)
    ensures match ReadInput(p, a)
            case Failed => ReadInput(p, a + b).Failed? || ReadWraps(p, a + b)
            case Finished(n) => ReadInput(p, a + b) == Finished(n) && (ReadWraps(p, a + b) <==> ReadWraps(p, a))
            case Pending(q) =>
              && (ReadWraps(p, a + b) <==> ReadWraps(p, a) || ReadWraps(q, b))
              && match ReadInput(q, b)
                 case Failed => ReadInput(p, a + b).Failed?
                 case Finished(n) => ReadInput(p, a + b) == Finished(|a| + n)
                 case Pending(r) => ReadInput(p, a + b) == Pending(r)
  {
    hide Scan, Wraps, Valid;
    var f := Feed(p.scanner, a);
    Assoc(p.scanner.buffer, a, b);
    assert Feed(f, b) == Feed(p.scanner, a + b);
    ScanAppend(f, b);
    ReadBookkeeping(p, a);
    ReadBookkeeping(p, a + b);
    if Scan(f).Stalled? {
      ReadBookkeeping(ReadInput(p, a).p, b);
    }
  }

  // Any number of pieces.

  function Concat(pieces: seq<string>): string {
    if pieces == [] then "" else pieces[0] + Concat(pieces[1..])
  }

  /** `read` on piece after piece until one of them completes the body or fails; the count is
      the total number of bytes acknowledged. */
  function ReadPieces(p: Parser, pieces: seq<string>): Outcome
    decreases |pieces|
  {
    if pieces == [] then Pending(p)
    else
      match ReadInput(p, pieces[0])
      case Failed => Failed
      case Finished(n) => Finished(n)
      case Pending(q) =>
        match ReadPieces(q, pieces[1..])
        case Failed => Failed
        case Finished(n) => Finished(|pieces[0]| + n)
        case Pending(r) => Pending(r)
  }

  /** However the stream is cut into pieces, the outcome, the total acknowledged and the state left behind are those of one
      call with the whole stream; only a failure may be due to the cut, and only if the stream holds a chunk of wrapping size. */
  lemma {:induction false} PiecesReadAsWhole(p: Parser, pieces: seq<string>)
    requires Valid(p)
    ensures ReadPieces(p, pieces) == ReadInput(p, Concat(pieces)) || (ReadPieces(p, pieces).Failed? && ReadWraps(p, Concat(pieces)))
    decreases |pieces|
  {
    hide ReadInput, ReadWraps, Valid;
    if pieces == [] {
      ReadNothing(p);
    } else {
      ReadSplit(p, pieces[0], Concat(pieces[1..]));
      if ReadInput(p, pieces[0]).Pending? {
        ReadBookkeeping(p, pieces[0]);
        PiecesReadAsWhole(ReadInput(p, pieces[0]).p, pieces[1..]);
      }
    }
  }

  lemma ReadNothing(p: Parser)
    requires Valid(p)
    ensures ReadInput(p, "") == Pending(p)
  {
    assert p.scanner.buffer + "" == p.scanner.buffer;
  }

  lemma InitValid(trailers: bool)
    ensures Valid(Init(trailers))
  {
    assert Start(trailers).buffer == "";
  }

  lemma ScanStep(p: Scanner)
    ensures Scan(p) ==
            if p.buffer == "" then Stalled(p)
            else match TakeTurn(p) case Fail => Broken case Wait => Stalled(p) case Next(q) => Scan(q) case End(total) => Ended(total)
  {
    hide TakeTurn;
  }

  /** The class of chunked_parser.hh. */
  datatype ReadResult = Refused | AllOfIt | Part(count: nat)

  class ChunkedBodyParser {
    var parserBuffer: string
    var currentChunkSize: nat
    var ackedSoFar: nat
    var parsedSoFar: nat
    var state: State
    const trailersEnabled: bool

    constructor (trailers: bool)
      ensures View() == Init(trailers)
    {
      parserBuffer, currentChunkSize, ackedSoFar, parsedSoFar, state := "", 0, 0, 0, ChunkHdr;
      trailersEnabled := trailers;
    }

    function View(): Parser
      reads this
    {
      Parser(Scanner(trailersEnabled, state, currentChunkSize, parserBuffer, parsedSoFar), ackedSoFar)
    }

    /** `compute_ack_size`. */
    method ComputeAckSize(needle: string, inputSize: nat) returns (r: ReadResult)
      modifies this
      ensures var loc := Find(old(parserBuffer), needle);
              if loc.None? then r == AllOfIt && View() == old(View()).(acked := old(ackedSoFar) + inputSize)
              else if old(parsedSoFar) + loc.value + |needle| > old(ackedSoFar)
                then r == Part(old(parsedSoFar) + loc.value + |needle| - old(ackedSoFar))
                else r == Refused
    {
      var loc := Find(parserBuffer, needle);
      if loc.Some? {
        parsedSoFar := parsedSoFar + loc.value + |needle|;
        if parsedSoFar <= ackedSoFar {
          return Refused;
        }
        return Part(parsedSoFar - ackedSoFar);
      } else {
        ackedSoFar := ackedSoFar + inputSize;
        return AllOfIt;
      }
    }

    /** `read`. */
    method Read(inputBuffer: string) returns (r: ReadResult)
      modifies this
      ensures match ReadInput(old(View()), inputBuffer)
              case Failed => r == Refused
              case Pending(q) => r == AllOfIt && View() == q
              case Finished(n) => r == Part(n)
    {
      hide TakeTurn, Scan;
      ghost var outcome := Scan(Feed(View().scanner, inputBuffer));
      parserBuffer := parserBuffer + inputBuffer;
      while parserBuffer != ""
        invariant ackedSoFar == old(ackedSoFar)
        invariant Scan(View().scanner) == outcome
        decreases |parserBuffer|, Rank(state)
      {
        ghost var before := View().scanner;
        ScanStep(before);
        if state == Trailer {
          TrailerTurn(before);
          r := ComputeAckSize(if trailersEnabled then CRLF + CRLF else CRLF, |inputBuffer|);
          return;
        }
        if TakeTurn(before).Next? {
          TurnShrinks(before);
        }
        var progress: Progress;
        if state == ChunkHdr {
          progress := ReadHeader();
        } else {
          progress := ReadChunk();
        }
        if progress == Throws {
          return Refused;
        } else if progress == Waits {
          ackedSoFar := ackedSoFar + |inputBuffer|;
          return AllOfIt;
        }
      }
      ScanStep(View().scanner);
      ackedSoFar := ackedSoFar + |inputBuffer|;
      return AllOfIt;
    }

    /** The case `CHUNK_HDR`. */
    method ReadHeader() returns (progress: Progress)
      requires parserBuffer != "" && state == ChunkHdr
      modifies this`currentChunkSize, this`state, this`parsedSoFar, this`parserBuffer
      ensures IsProgress(progress, old(View().scanner), View().scanner)
    {
      hide GetChunkSize, Find;
      var it := Find(parserBuffer, CRLF);
      if it.None? {
        return Waits;
      }
      LineEnds(parserBuffer, it.value);
      var size := GetChunkSize(parserBuffer[..it.value + 2]);
      if size.None? {
        return Throws;
      }
      currentChunkSize := size.value;
      state := if currentChunkSize == 0 then Trailer else Chunk;
      parsedSoFar := parsedSoFar + it.value + 2;
      parserBuffer := parserBuffer[it.value + 2..];
      return Goes;
    }

    /** The case `CHUNK`. */
    method ReadChunk() returns (progress: Progress)
      requires parserBuffer != "" && state == Chunk
      modifies this`state, this`parsedSoFar, this`parserBuffer
      ensures IsProgress(progress, old(View().scanner), View().scanner)
    {
      var n := (currentChunkSize + 2) % UINT32;
      if |parserBuffer| < n {
        return Waits;
      }
      if !At(parserBuffer, CRLF, currentChunkSize) {
        return Throws;
      }
      state := ChunkHdr;
      parsedSoFar := parsedSoFar + n;
      parserBuffer := parserBuffer[n..];
      return Goes;
    }
  }

  /** What a case of the loop does: throw, return, or leave the state for the next turn. */
  datatype Progress = Throws | Waits | Goes

  ghost predicate IsProgress(progress: Progress, before: Scanner, after: Scanner)
    requires before.buffer != ""
  {
    match progress
    case Throws => TakeTurn(before) == Fail
    case Waits => TakeTurn(before) == Wait && after == before
    case Goes => TakeTurn(before) == Next(after)
  }

  lemma TrailerTurn(p: Scanner)
    requires p.buffer != "" && p.state == Trailer
    ensures TakeTurn(p) == var loc := Find(p.buffer, Needle(p.trailers));
                           if loc.None? then Wait else End(p.parsed + loc.value + |Needle(p.trailers)|)
  {
    hide Find;
  }
}
