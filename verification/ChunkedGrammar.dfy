/** The grammar of a chunked body, independent of the parser, and the parser against it. */
module ChunkedGrammar {
  import opened Text
  import opened Widths
  import opened ChunkedParser

  datatype ChunkText = ChunkText(line: string, data: string)

  function LineSize(line: string): (r: Option<nat>)
    requires IsLine(line)
    ensures r.Some? ==> r.value < UINT32
  {
    FindLine(line, "");
    assert line + CRLF + "" == line + CRLF;
    GetChunkSize(line + CRLF)
  }

  /** A chunk: a size line and as many bytes as it says, at least one. */
  predicate IsChunk(c: ChunkText) {
    IsLine(c.line) && LineSize(c.line) == Some(|c.data|) && 0 < |c.data| < WRAPPING_SIZE
  }

  // Trailer sections

  /** Lines, each with its line end. */
  function LinesText(lines: seq<string>): string {
    if lines == [] then "" else lines[0] + CRLF + LinesText(lines[1..])
  }

  /** The trailer section of RFC 2616, section 3.6.1, with the blank line that ends the body. */
  function TrailerText(lines: seq<string>): string {
    LinesText(lines) + CRLF
  }

  /** Trailer headers are lines, none of them blank. */
  predicate AreTrailers(lines: seq<string>) {
    forall i | 0 <= i < |lines| :: IsLine(lines[i]) && lines[i] != ""
  }

  /** The trailer sections that the code reads if trailers were announced: at least one line, none after the first blank. */
  predicate AreLongTrailers(lines: seq<string>) {
    lines != [] && IsLine(lines[0]) && AreTrailers(lines[1..])
  }

  /** What the code takes for the end of a body. Without announced trailers it is any one line. */
  ghost predicate IsTail(tail: string, trailers: bool) {
    if trailers then exists lines :: AreLongTrailers(lines) && tail == TrailerText(lines)
    else exists line :: IsLine(line) && tail == line + CRLF
  }

  /** The end of a body: a zero size line and one of those tails. */
  ghost predicate IsClosing(last: string, tail: string, trailers: bool) {
    IsLine(last) && LineSize(last) == Some(0) && IsTail(tail, trailers)
  }

  function ChunkWire(c: ChunkText): string {
    c.line + CRLF + c.data + CRLF
  }

  function ChunksWire(chunks: seq<ChunkText>): string {
    if chunks == [] then "" else ChunkWire(chunks[0]) + ChunksWire(chunks[1..])
  }

  function BodyWire(chunks: seq<ChunkText>, last: string, tail: string): string {
    ChunksWire(chunks) + (last + CRLF + tail)
  }

  predicate AreChunks(chunks: seq<ChunkText>) {
    forall i | 0 <= i < |chunks| :: IsChunk(chunks[i])
  }

  ghost predicate IsBody(s: string, trailers: bool) {
    exists chunks: seq<ChunkText>, last, tail ::
      AreChunks(chunks) && IsClosing(last, tail, trailers) && s == BodyWire(chunks, last, tail)
  }

  // The parser looks for a needle; what it finds are those tails.

  /** The needle ends `tail` and occurs nowhere before. */
  predicate EndsAtNeedle(tail: string, trailers: bool) {
    |tail| >= |Needle(trailers)| && Find(tail, Needle(trailers)) == Some(|tail| - |Needle(trailers)|)
  }

  lemma AtBehind(a: string, t: string, needle: string, j: nat)
    ensures At(a + t, needle, |a| + j) == At(t, needle, j)
  {
    if j + |needle| <= |t| {
      assert (a + t)[|a| + j..|a| + j + |needle|] == t[j..j + |needle|];
    }
  }

  /** The part `a` in front does not count if nothing is found that begins in it. */
  lemma FindBehind(a: string, t: string, needle: string, k: nat)
    requires Find(t, needle) == Some(k)
    requires forall j: nat | j < |a| :: !At(a + t, needle, j)
    ensures Find(a + t, needle) == Some(|a| + k)
  {
    hide Find;
    var s := a + t;
    forall j: nat ensures At(s, needle, |a| + j) == At(t, needle, j) { AtBehind(a, t, needle, j); }
    forall i: nat | i < |a| + k ensures !At(s, needle, i) {
      if i >= |a| { assert !At(t, needle, i - |a|) && At(s, needle, |a| + (i - |a|)) == At(t, needle, i - |a|); }
    }
    FindUnique(s, needle, |a| + k);
  }

  lemma BlankHoldsEnd(s: string, j: nat)
    ensures At(s, CRLF + CRLF, j) <==> At(s, CRLF, j) && At(s, CRLF, j + 2)
  {
    if j + 4 <= |s| {
      assert s[j..j + 4] == s[j..j + 2] + s[j + 2..j + 4];
      assert s[j..j + 4][..2] == s[j..j + 2] && s[j..j + 4][2..] == s[j + 2..j + 4];
      assert (CRLF + CRLF)[..2] == CRLF && (CRLF + CRLF)[2..] == CRLF;
    }
  }

  /** Where the line ends do not follow each other no blank line begins. */
  lemma NoBlankInLine(line: string, t: string)
    requires IsLine(line) && !At(t, CRLF, 0)
    ensures forall j: nat | j < |line + CRLF| :: !At(line + CRLF + t, CRLF + CRLF, j)
  {
    hide Find;
    var s := line + CRLF + t;
    FindLine(line, t);
    forall j: nat | j < |line + CRLF| ensures !At(s, CRLF + CRLF, j) {
      BlankHoldsEnd(s, j);
      if j == |line| {
        AtBehind(line + CRLF, t, CRLF, 0);
      } else if j == |line| + 1 {
        assert s[j] == '\n';
      }
    }
  }

  lemma StartsWithLine(lines: seq<string>, rest: string)
    requires lines != [] && IsLine(lines[0])
    ensures At(TrailerText(lines) + rest, CRLF, 0) <==> lines[0] == ""
  {
    hide Find;
    var s := TrailerText(lines) + rest;
    var more := LinesText(lines[1..]) + CRLF + rest;
    assert s == lines[0] + CRLF + more;
    FindLine(lines[0], more);
    if lines[0] == "" { assert s[0..2] == CRLF; }
  }

  /** The blank line after announced trailers is the first in the stream. */
  lemma {:induction false} BlankAfterTrailers(lines: seq<string>, rest: string)
    requires AreLongTrailers(lines)
    ensures |TrailerText(lines)| >= 4 && Find(TrailerText(lines) + rest, CRLF + CRLF) == Some(|TrailerText(lines)| - 4)
    decreases |lines|
  {
    hide Find;
    var line, s := lines[0], TrailerText(lines) + rest;
    if |lines| == 1 {
      assert LinesText(lines[1..]) == "";
      assert s == line + CRLF + (CRLF + rest);
      FindLine(line, CRLF + rest);
      assert s[|line|..|line| + 4] == CRLF + CRLF;
      forall j: nat | j < |line| ensures !At(s, CRLF + CRLF, j) { BlankHoldsEnd(s, j); }
      FindUnique(s, CRLF + CRLF, |line|);
    } else {
      var t := TrailerText(lines[1..]) + rest;
      assert s == line + CRLF + t;
      StartsWithLine(lines[1..], rest);
      NoBlankInLine(line, t);
      assert AreLongTrailers(lines[1..]);
      BlankAfterTrailers(lines[1..], rest);
      FindBehind(line + CRLF, t, CRLF + CRLF, |TrailerText(lines[1..])| - 4);
    }
  }

  /** Conversely, a text that ends with its only blank line consists of such lines. */
  lemma {:induction false} TrailersBeforeBlank(tail: string) returns (lines: seq<string>)
    requires EndsAtNeedle(tail, true)
    ensures AreLongTrailers(lines) && tail == TrailerText(lines)
    decreases |tail|
  {
    hide EndsAtNeedle, IsLine, AreLongTrailers, TrailerText;
    var line, rest := LineOfTail(tail);
    if rest == CRLF {
      lines := [line];
      OnlyTrailer(line);
    } else {
      var more := TrailersBeforeBlank(rest);
      MoreTrailers(line, more);
      lines := [line] + more;
    }
  }

  lemma OnlyTrailer(line: string)
    requires IsLine(line)
    ensures AreLongTrailers([line]) && TrailerText([line]) == line + CRLF + CRLF
  {
    assert [line][1..] == [];
    assert LinesText([]) == "" && LinesText([line]) == line + CRLF;
  }

  /** Line ends do not overlap. */
  lemma EndsApart(s: string, j: nat, k: nat)
    requires At(s, CRLF, j) && At(s, CRLF, k) && j < k
    ensures j + 2 <= k
  {
    assert s[j + 1] == s[j..j + 2][1] == '\n';
    assert s[k] == s[k..k + 2][0] == '\r';
  }

  lemma EndsWith(s: string, k: nat)
    requires At(s, CRLF, k) && |s| == k + 2
    ensures s[k..] == CRLF
  {}

  /** The first line of such a text, and what follows it. */
  lemma LineOfTail(tail: string) returns (line: string, rest: string)
    requires EndsAtNeedle(tail, true)
    ensures IsLine(line) && tail == line + CRLF + rest
    ensures rest == CRLF || (EndsAtNeedle(rest, true) && !At(rest, CRLF, 0))
  {
    hide Find;
    var last := |tail| - 4;
    BlankHoldsEnd(tail, last);
    var k := Find(tail, CRLF).value;
    line, rest := tail[..k], tail[k + 2..];
    FindPrefixFree(tail, CRLF);
    assert tail == line + CRLF + rest;
    if k < last {
      EndsApart(tail, k, last);
      BlankBehind(tail, k + 2);
      BlankHoldsEnd(tail, k);
      AtBehind(line + CRLF, rest, CRLF, 0);
    } else {
      EndsWith(tail, last + 2);
    }
  }

  lemma MoreTrailers(line: string, more: seq<string>)
    requires IsLine(line) && AreLongTrailers(more) && !At(TrailerText(more), CRLF, 0)
    ensures AreLongTrailers([line] + more) && TrailerText([line] + more) == line + CRLF + TrailerText(more)
  {
    hide IsLine, At;
    StartsWithLine(more, "");
    assert TrailerText(more) + "" == TrailerText(more);
    assert ([line] + more)[1..] == more;
    forall i | 0 <= i < |more| ensures IsLine(more[i]) && more[i] != "" {
      if i > 0 { assert more[i] == more[1..][i - 1]; }
    }
  }

  /** What is left after a first part of a text that ends with its only blank line ends with it too. */
  lemma BlankBehind(tail: string, from: nat)
    requires EndsAtNeedle(tail, true) && from <= |tail| - 4
    ensures EndsAtNeedle(tail[from..], true)
  {
    hide Find;
    var t, needle := tail[from..], CRLF + CRLF;
    forall j: nat | j + 4 <= |t| ensures At(t, needle, j) == At(tail, needle, from + j) {
      assert t[j..j + 4] == tail[from + j..from + j + 4];
    }
    FindUnique(t, needle, |t| - 4);
  }

  /** The search of the code finds exactly the tails of the grammar. */
  lemma TailsAreFound(tail: string, trailers: bool)
    ensures IsTail(tail, trailers) <==> EndsAtNeedle(tail, trailers)
  {
    hide Find, AreLongTrailers, TrailerText;
    if EndsAtNeedle(tail, trailers) {
      if trailers {
        var lines := TrailersBeforeBlank(tail);
      } else {
        OneLineTail(tail);
      }
    }
    if IsTail(tail, trailers) {
      if trailers {
        var lines :| AreLongTrailers(lines) && tail == TrailerText(lines);
        BlankAfterTrailers(lines, "");
        assert tail + "" == tail;
      } else {
        var line :| IsLine(line) && tail == line + CRLF;
        FindLine(line, "");
        assert line + CRLF + "" == tail;
      }
    }
  }

  lemma OneLineTail(tail: string)
    requires EndsAtNeedle(tail, false)
    ensures IsTail(tail, false)
  {
    hide Find;
    var k := |tail| - 2;
    FindPrefixFree(tail, CRLF);
    assert At(tail, CRLF, k);
    assert tail == tail[..k] + CRLF;
  }

  // The parser against the grammar

  /** A header line at the front of the buffer is taken off in one turn. */
  lemma HeaderTurn(p: Scanner, line: string, rest: string)
    requires p.state == ChunkHdr && IsLine(line) && p.buffer == line + CRLF + rest
    ensures LineSize(line).None? ==> TakeTurn(p) == Fail
    ensures LineSize(line).Some? ==>
              TakeTurn(p) == Next(p.(state := if LineSize(line).value == 0 then Trailer else Chunk, size := LineSize(line).value,
                                     parsed := p.parsed + |line| + 2, buffer := rest))
  {
    hide GetChunkSize, Find;
    FindLine(line, rest);
    assert p.buffer[..|line| + 2] == line + CRLF;
  }

  /** So are the bytes of a chunk and the CRLF after them. */
  lemma DataTurn(p: Scanner, data: string, rest: string)
    requires p.state == Chunk && p.size == |data| < WRAPPING_SIZE && p.buffer == data + CRLF + rest
    ensures TakeTurn(p) == Next(p.(state := ChunkHdr, parsed := p.parsed + |data| + 2, buffer := rest))
  {
    assert p.buffer[|data|..|data| + 2] == CRLF;
    assert p.buffer[|data| + 2..] == rest;
  }

  /** The chunks and the zero size line are read whatever follows them. */
  lemma {:induction false} ChunksAreRead(p: Scanner, chunks: seq<ChunkText>, last: string, after: string)
    requires p.state == ChunkHdr && AreChunks(chunks) && IsLine(last) && LineSize(last) == Some(0)
    requires p.buffer == BodyWire(chunks, last, after)
    ensures var q := p.(state := Trailer, size := 0, parsed := p.parsed + |BodyWire(chunks, last, "")|, buffer := after);
            Scan(p) == Scan(q) && !Wraps(p)
    decreases |chunks|
  {
    hide TakeTurn, Find, LineSize, Scan, Wraps;
    ScanStep(p);
    WrapsStep(p);
    if chunks == [] {
      assert p.buffer == last + CRLF + after;
      HeaderTurn(p, last, after);
      TrailerNeverWraps(TakeTurn(p).p);
    } else {
      var c := chunks[0];
      var more := BodyWire(chunks[1..], last, after);
      assert p.buffer == c.line + CRLF + (c.data + CRLF + more);
      assert IsChunk(c);
      HeaderTurn(p, c.line, c.data + CRLF + more);
      var q := TakeTurn(p).p;
      ScanStep(q);
      WrapsStep(q);
      DataTurn(q, c.data, more);
      ChunksAreRead(TakeTurn(q).p, chunks[1..], last, after);
    }
  }

  lemma TrailerNeverWraps(p: Scanner)
    requires p.state == Trailer
    ensures !Wraps(p)
  {}

  /** Every body of the grammar is read to its end and not a byte further. */
  lemma BodyIsRead(p: Scanner, chunks: seq<ChunkText>, last: string, tail: string, rest: string)
    requires p.state == ChunkHdr && AreChunks(chunks) && IsClosing(last, tail, p.trailers)
    requires p.buffer == BodyWire(chunks, last, tail) + rest
    ensures Scan(p) == Ended(p.parsed + |BodyWire(chunks, last, tail)|) && !Wraps(p)
  {
    hide AreChunks, LineSize, Scan, IsTail, Find, Wraps;
    assert p.buffer == BodyWire(chunks, last, tail + rest);
    ChunksAreRead(p, chunks, last, tail + rest);
    TailsAreFound(tail, p.trailers);
    TailIsRead(p.(state := Trailer, size := 0, parsed := p.parsed + |BodyWire(chunks, last, "")|, buffer := tail + rest), tail, rest);
  }

  lemma TailIsRead(p: Scanner, tail: string, rest: string)
    requires p.state == Trailer && EndsAtNeedle(tail, p.trailers)
    requires p.buffer == tail + rest
    ensures Scan(p) == Ended(p.parsed + |tail|)
  {
    hide Find;
    FindAppend(tail, Needle(p.trailers), rest);
  }

  /** Conversely, what the parser accepts is a body of the grammar. */
  lemma {:induction false} ReadIsBody(p: Scanner, n: nat)
    requires p.state == ChunkHdr && !Wraps(p) && n <= |p.buffer| && Scan(p) == Ended(p.parsed + n)
    ensures IsBody(p.buffer[..n], p.trailers)
    decreases |p.buffer|
  {
    hide Find, LineSize, TakeTurn, IsBody, Wraps, IsClosing, IsChunk;
    var line, rest := HeaderOf(p);
    HeaderTurn(p, line, rest);
    WrapsStep(p);
    var q := TakeTurn(p).p;
    ScanKeeps(q);
    if q.state == Trailer {
      var tail := TailOf(q);
      assert p.buffer[..n] == line + CRLF + tail;
      ClosingIsBody(line, tail, p.trailers);
    } else {
      var data, more := DataOf(q);
      DataTurn(q, data, more);
      WrapsStep(q);
      var r := TakeTurn(q).p;
      ScanKeeps(r);
      var m := Scan(r).total - r.parsed;
      ReadIsBody(r, m);
      assert p.buffer[..n] == ChunkWire(ChunkText(line, data)) + more[..m];
      IsChunkOf(line, data);
      ChunkThenBody(ChunkText(line, data), more[..m], p.trailers);
    }
  }

  lemma IsChunkOf(line: string, data: string)
    requires IsLine(line) && LineSize(line) == Some(|data|) && 0 < |data| < WRAPPING_SIZE
    ensures IsChunk(ChunkText(line, data))
  {}

  lemma ClosingIsBody(last: string, tail: string, trailers: bool)
    requires IsLine(last) && LineSize(last) == Some(0) && IsTail(tail, trailers)
    ensures IsBody(last + CRLF + tail, trailers)
  {
    hide IsTail, LineSize, IsLine;
    assert last + CRLF + tail == BodyWire([], last, tail);
  }

  lemma ChunkThenBody(c: ChunkText, s: string, trailers: bool)
    requires IsChunk(c) && IsBody(s, trailers)
    ensures IsBody(ChunkWire(c) + s, trailers)
  {
    hide IsClosing, IsChunk;
    var chunks: seq<ChunkText>, last, tail :|
      AreChunks(chunks) && IsClosing(last, tail, trailers) && s == BodyWire(chunks, last, tail);
    var all := [c] + chunks;
    assert all[1..] == chunks;
    assert ChunkWire(c) + s == BodyWire(all, last, tail);
  }

  lemma HeaderOf(p: Scanner) returns (line: string, rest: string)
    requires p.state == ChunkHdr && Scan(p).Ended?
    ensures IsLine(line) && p.buffer == line + CRLF + rest && LineSize(line).Some? && TakeTurn(p).Next?
  {
    hide GetChunkSize;
    var k := Find(p.buffer, CRLF).value;
    line, rest := p.buffer[..k], p.buffer[k + 2..];
    FindPrefixFree(p.buffer, CRLF);
    assert p.buffer[..k + 2] == line + CRLF;
    assert p.buffer == line + CRLF + rest;
  }

  lemma DataOf(p: Scanner) returns (data: string, rest: string)
    requires p.state == Chunk && 0 < p.size < UINT32 && !Wraps(p) && Scan(p).Ended?
    ensures |data| == p.size < WRAPPING_SIZE && p.buffer == data + CRLF + rest
  {
    hide Find, GetChunkSize;
    WrapsStep(p);
    data, rest := p.buffer[..p.size], p.buffer[p.size + 2..];
    assert p.buffer == data + p.buffer[p.size..p.size + 2] + rest;
  }

  lemma TailOf(p: Scanner) returns (tail: string)
    requires p.state == Trailer && Scan(p).Ended?
    ensures IsTail(tail, p.trailers)
    ensures |tail| == Scan(p).total - p.parsed <= |p.buffer| && tail == p.buffer[..|tail|]
  {
    hide Find, IsTail;
    var needle := Needle(p.trailers);
    var k := Find(p.buffer, needle).value;
    tail := p.buffer[..k + |needle|];
    assert tail[k..k + |needle|] == p.buffer[k..k + |needle|];
    assert p.buffer == tail + p.buffer[|tail|..];
    forall j: nat | j < k ensures !At(tail, needle, j) {
      AtAppend(tail, needle, p.buffer[|tail|..], j);
    }
    FindUnique(tail, needle, k);
    TailsAreFound(tail, p.trailers);
  }

  /** The parser against the grammar, for every stream: reading completes after `n` bytes, without a chunk of wrapping size,
      exactly when the first `n` bytes are a body of the grammar. */
  lemma ReadsExactlyTheBody(s: string, trailers: bool, n: nat)
    ensures ReadInput(Init(trailers), s) == Finished(n) && !ReadWraps(Init(trailers), s) <==> n <= |s| && IsBody(s[..n], trailers)
  {
    hide Find, TakeTurn, IsBody, Wraps;
    var p := Feed(Start(trailers), s);
    assert p.buffer == s;
    ReadBookkeeping(Init(trailers), s);
    if ReadInput(Init(trailers), s) == Finished(n) && !Wraps(p) {
      ReadIsBody(p, n);
    }
    if n <= |s| && IsBody(s[..n], trailers) {
      BodyEndsThere(p, n);
    }
  }

  lemma BodyEndsThere(p: Scanner, n: nat)
    requires p.state == ChunkHdr && p.parsed == 0 && n <= |p.buffer| && IsBody(p.buffer[..n], p.trailers)
    ensures n > 0 && Scan(p) == Ended(n) && !Wraps(p)
  {
    hide TakeTurn, Find, LineSize, Scan, IsClosing, Wraps;
    var chunks: seq<ChunkText>, last, tail :|
      AreChunks(chunks) && IsClosing(last, tail, p.trailers) && p.buffer[..n] == BodyWire(chunks, last, tail);
    assert p.buffer == BodyWire(chunks, last, tail) + p.buffer[n..];
    BodyIsRead(p, chunks, last, tail, p.buffer[n..]);
    ScanKeeps(p);
  }

  // Bodies with any trailers

  predicate IsZero(last: string) {
    IsLine(last) && LineSize(last) == Some(0)
  }

  /** Chunks that the parser takes, a zero size line and any trailers, whatever follows, are read to exactly their end if and only
      if trailers are there exactly when they were announced. */
  lemma ReadToItsEnd(chunks: seq<ChunkText>, last: string, lines: seq<string>, rest: string, trailers: bool)
    requires AreChunks(chunks) && IsZero(last) && AreTrailers(lines)
    ensures var body := BodyWire(chunks, last, TrailerText(lines));
            ReadInput(Init(trailers), body + rest) == Finished(|body|) <==> (lines == [] <==> !trailers)
  {
    hide AreChunks, IsZero, Find, Scan, BodyWire, AreTrailers;
    var body := BodyWire(chunks, last, TrailerText(lines));
    if lines == [] && trailers {
      MissingTrailers(chunks, last, rest);
    } else if lines != [] && !trailers {
      ExtraTrailers(chunks, last, lines, rest);
    } else {
      RfcTail(lines, trailers);
      Complete(chunks, last, TrailerText(lines), rest, trailers);
    }
  }

  lemma RfcTail(lines: seq<string>, trailers: bool)
    requires AreTrailers(lines) && (lines == [] <==> !trailers)
    ensures IsTail(TrailerText(lines), trailers)
  {
    if trailers {
      assert AreLongTrailers(lines);
    } else {
      assert IsLine("") && TrailerText(lines) == "" + CRLF;
    }
  }

  lemma Complete(chunks: seq<ChunkText>, last: string, tail: string, rest: string, trailers: bool)
    requires AreChunks(chunks) && IsZero(last) && IsTail(tail, trailers)
    ensures ReadInput(Init(trailers), BodyWire(chunks, last, tail) + rest) == Finished(|BodyWire(chunks, last, tail)|)
  {
    hide AreChunks, IsLine, LineSize, IsTail, Scan;
    var s := BodyWire(chunks, last, tail) + rest;
    assert "" + s == s;
    BodyIsRead(Feed(Start(trailers), s), chunks, last, tail, rest);
  }

  /** Trailers that were not announced: the body ends with the first of them. */
  lemma ExtraTrailers(chunks: seq<ChunkText>, last: string, lines: seq<string>, rest: string)
    requires AreChunks(chunks) && IsZero(last) && AreTrailers(lines) && lines != []
    ensures var body := BodyWire(chunks, last, TrailerText(lines));
            var n := |BodyWire(chunks, last, lines[0] + CRLF)|;
            n < |body| && ReadInput(Init(false), body + rest) == Finished(n)
  {
    hide AreChunks, IsZero, IsLine;
    var line, more := lines[0], TrailerText(lines[1..]);
    assert IsTail(line + CRLF, false) by { assert IsLine(line); }
    hide IsTail;
    assert TrailerText(lines) == line + CRLF + more;
    assert BodyWire(chunks, last, TrailerText(lines)) + rest == BodyWire(chunks, last, line + CRLF) + (more + rest);
    Complete(chunks, last, line + CRLF, more + rest, false);
  }

  /** Announced trailers that are not there: the parser goes on to the next blank line, wherever that is. */
  lemma MissingTrailers(chunks: seq<ChunkText>, last: string, rest: string)
    requires AreChunks(chunks) && IsZero(last)
    ensures var body := BodyWire(chunks, last, TrailerText([]));
            var blank := Find(CRLF + rest, CRLF + CRLF);
            if blank.None? then ReadInput(Init(true), body + rest).Pending?
            else ReadInput(Init(true), body + rest) == Finished(|body| + blank.value + 2)
  {
    hide AreChunks, IsLine, LineSize, Find;
    var s := BodyWire(chunks, last, TrailerText([])) + rest;
    assert "" + s == s && s == BodyWire(chunks, last, CRLF + rest);
    var p := Feed(Start(true), s);
    ChunksAreRead(p, chunks, last, CRLF + rest);
    var q := p.(state := Trailer, size := 0, parsed := p.parsed + |BodyWire(chunks, last, "")|, buffer := CRLF + rest);
    hide Scan, BodyWire;
    assert |BodyWire(chunks, last, TrailerText([]))| == |BodyWire(chunks, last, "")| + 2 by { WireLength(chunks, last); }
    ScanStep(q);
  }

  lemma WireLength(chunks: seq<ChunkText>, last: string)
    ensures |BodyWire(chunks, last, TrailerText([]))| == |BodyWire(chunks, last, "")| + 2
  {}

  /** With trailers announced and none sent, the body does not end with itself but with the head of the next response. */
  lemma EmptyTrailerStalls()
    ensures ReadInput(Init(true), "0\r\n\r\n").Pending?
    ensures ReadInput(Init(true), "0\r\n\r\nHTTP/1.1 200 OK\r\n\r\n") == Finished(24)
  {
    hide Find, ReadInput, BodyWire, TrailerText, IsLine, LineSize, At;
    ZeroLine();
    var next := "HTTP/1.1 200 OK";
    NoBlankYet();
    BlankAfterHead(next);
    ShortBody("");
    ShortBody(next + CRLF + CRLF);
    MissingTrailers([], "0", "");
    MissingTrailers([], "0", next + CRLF + CRLF);
    assert "0\r\n\r\n" + (next + CRLF + CRLF) == "0\r\n\r\nHTTP/1.1 200 OK\r\n\r\n";
  }

  lemma ShortBody(rest: string)
    ensures BodyWire([], "0", TrailerText([])) == "0\r\n\r\n" && "0\r\n\r\n" + "" == "0\r\n\r\n"
    ensures AreChunks([])
  {
    assert LinesText([]) == "" && ChunksWire([]) == "";
  }

  lemma NoBlankYet()
    ensures Find(CRLF + "", CRLF + CRLF).None?
  {
    hide Find;
    assert forall j: nat :: !At(CRLF + "", CRLF + CRLF, j);
  }

  lemma BlankAfterHead(next: string)
    requires '\r' !in next && next != ""
    ensures Find(CRLF + (next + CRLF + CRLF), CRLF + CRLF) == Some(|next| + 2)
  {
    hide Find, At;
    NoCarriageReturn(next);
    EmptyIsLine();
    var lines := ["", next];
    assert lines[1..] == [next] && [next][1..] == [];
    assert LinesText([]) == "";
    assert LinesText([next]) == next + CRLF;
    assert TrailerText(lines) + "" == CRLF + (next + CRLF + CRLF);
    BlankAfterTrailers(lines, "");
  }

  lemma EmptyIsLine()
    ensures IsLine("")
  {}

  /** Trailers that were not announced are cut after the first line. */
  lemma UnannouncedTrailerCut()
    ensures ReadInput(Init(false), "0\r\nA: b\r\n\r\n") == Finished(9)
  {
    hide Find, ReadInput, IsLine, LineSize, BodyWire, At;
    ZeroLine();
    NoCarriageReturn("A: b");
    OneTrailer("A: b");
    ExtraTrailers([], "0", ["A: b"], "");
    assert "0\r\nA: b\r\n\r\n" + "" == "0" + CRLF + ("A: b" + CRLF + CRLF);
    assert |"0" + CRLF + ("A: b" + CRLF)| == 9;
    assert "0\r\nA: b\r\n\r\n" == "0\r\nA: b\r\n\r\n" + "";
  }

  lemma OneTrailer(line: string)
    ensures BodyWire([], "0", TrailerText([line])) + "" == "0" + CRLF + (line + CRLF + CRLF)
    ensures BodyWire([], "0", line + CRLF) == "0" + CRLF + (line + CRLF)
  {
    assert [line][1..] == [];
    assert LinesText([]) == "";
    assert LinesText([line]) == line + CRLF;
    assert TrailerText([line]) == line + CRLF + CRLF;
    assert ChunksWire([]) == "";
  }

  lemma NoCarriageReturn(line: string)
    requires '\r' !in line
    ensures IsLine(line)
  {
    hide Find;
    forall j: nat ensures !At(line, CRLF, j) {
      if j + 2 <= |line| { assert line[j..j + 2][0] == line[j]; }
    }
  }

  // A body of wrapping chunk size

  /** A trailer line so long that a zero size line, it and the needle are as many bytes as the size line -2, read as
      0xFFFFFFFE, announces, with the CRLF after them. */
  ghost function LongLine(trailers: bool): string {
    seq(WRAPPING_SIZE - 1 - |Needle(trailers)|, _ => ' ')
  }

  ghost function FirstPiece(): string {
    "-2" + CRLF + "0"
  }

  ghost function SecondPiece(trailers: bool): string {
    CRLF + (LongLine(trailers) + Needle(trailers))
  }

  /** Exactly how long streams may be: up to 2^32 + 3 bytes no cut matters. In a stream of 2^32 + 4 bytes a chunk of size
      0xFFFFFFFE can be there all at once: it passes the length test, whose 32-bit sum is 0, and the body ends inside the chunk,
      while the same bytes in two pieces raise an exception in `substr`. */
  lemma CutsMatterExactly(trailers: bool, n: nat)
    ensures n < UINT32 + 4 <==>
            forall pieces: seq<string> | |Concat(pieces)| <= n :: ReadPieces(Init(trailers), pieces) == ReadInput(Init(trailers), Concat(pieces))
  {
    hide ReadInput, ReadPieces, Concat;
    if n < UINT32 + 4 {
      forall pieces: seq<string> | |Concat(pieces)| <= n ensures ReadPieces(Init(trailers), pieces) == ReadInput(Init(trailers), Concat(pieces)) {
        ShortStreams(pieces, trailers);
      }
    } else {
      hide FirstPiece, SecondPiece;
      TwoPieces(FirstPiece(), SecondPiece(trailers));
      WrappedSize(trailers);
      TwoReads(FirstPiece(), SecondPiece(trailers), trailers);
    }
  }

  lemma ShortStreams(pieces: seq<string>, trailers: bool)
    requires |Concat(pieces)| < UINT32 + 4
    ensures ReadPieces(Init(trailers), pieces) == ReadInput(Init(trailers), Concat(pieces))
  {
    hide ReadInput, ReadPieces, Concat, Wraps;
    InitValid(trailers);
    PiecesReadAsWhole(Init(trailers), pieces);
    RoomNeverWraps(Feed(Start(trailers), Concat(pieces)));
  }

  lemma TwoPieces(a: string, b: string)
    ensures Concat([a, b]) == a + b
  {
    assert [a, b][1..] == [b] && [b][1..] == [];
    assert Concat([b]) == b + Concat([]) == b;
  }

  lemma TwoReads(a: string, b: string, trailers: bool)
    requires ReadInput(Init(trailers), a) == Failed
    ensures ReadPieces(Init(trailers), [a, b]) == Failed
  {
    hide ReadInput;
  }

  /** The stream of 2^32 + 4 bytes is a whole body, and its first five bytes fail. */
  lemma WrappedSize(trailers: bool)
    ensures |FirstPiece() + SecondPiece(trailers)| == UINT32 + 4
    ensures ReadInput(Init(trailers), FirstPiece()) == Failed
    ensures ReadInput(Init(trailers), FirstPiece() + SecondPiece(trailers)) == Finished(UINT32 + 4)
  {
    hide TakeTurn, Find, Scan, ReadInput;
    var s := FirstPiece() + SecondPiece(trailers);
    assert s == "-2" + CRLF + LongText(trailers) && |LongText(trailers)| == WRAPPING_SIZE + 2;
    FirstPieceFails(Feed(Start(trailers), FirstPiece()));
    WholeIsRead(Feed(Start(trailers), s));
    FreshRead(FirstPiece(), trailers, 0);
    FreshRead(s, trailers, UINT32 + 4);
  }

  /** What follows the size line. */
  ghost function LongText(trailers: bool): string {
    "0" + CRLF + (LongLine(trailers) + Needle(trailers))
  }

  lemma FreshRead(s: string, trailers: bool, n: nat)
    ensures Scan(Feed(Start(trailers), s)).Broken? ==> ReadInput(Init(trailers), s) == Failed
    ensures n > 0 && Scan(Feed(Start(trailers), s)) == Ended(n) ==> ReadInput(Init(trailers), s) == Finished(n)
  {
    hide Scan;
  }

  lemma FirstPieceFails(p: Scanner)
    requires p.state == ChunkHdr && p.buffer == FirstPiece()
    ensures Scan(p) == Broken
  {
    hide TakeTurn, Find, LineSize, Scan;
    WrappingLine();
    HeaderTurn(p, "-2", "0");
    var q := TakeTurn(p).p;
    StuckChunk(q);
    ScanStep(p);
    ScanStep(q);
  }

  lemma WholeIsRead(p: Scanner)
    requires p.state == ChunkHdr && p.parsed == 0 && p.buffer == "-2" + CRLF + LongText(p.trailers)
    ensures Scan(p) == Ended(UINT32 + 4)
  {
    hide TakeTurn, Find, LineSize, Scan, LongText;
    WrappingLine();
    HeaderTurn(p, "-2", LongText(p.trailers));
    var q := TakeTurn(p).p;
    WholeChunk(q);
    LongTailIsRead(TakeTurn(q).p);
    ScanStep(p);
    ScanStep(q);
  }

  /** A zero size line and the long trailer line end the body. */
  lemma LongTailIsRead(p: Scanner)
    requires p.state == ChunkHdr && p.buffer == LongText(p.trailers)
    ensures Scan(p) == Ended(p.parsed + WRAPPING_SIZE + 2)
  {
    hide TakeTurn, Find, LineSize, Scan, LongLine;
    var line, tail := LongLine(p.trailers), LongLine(p.trailers) + Needle(p.trailers);
    ZeroLine();
    HeaderTurn(p, "0", tail);
    LongLineIsLine(p.trailers);
    NeedleAfterLine(line, p.trailers);
    assert tail + "" == tail;
    TailIsRead(TakeTurn(p).p, tail, "");
    ScanStep(p);
  }

  lemma LongLineIsLine(trailers: bool)
    ensures IsLine(LongLine(trailers)) && |LongLine(trailers)| == WRAPPING_SIZE - 1 - |Needle(trailers)|
  {
    NoCarriageReturn(LongLine(trailers));
  }

  lemma NeedleAfterLine(line: string, trailers: bool)
    requires IsLine(line)
    ensures EndsAtNeedle(line + Needle(trailers), trailers)
  {
    hide Find, IsLine;
    TailsAreFound(line + Needle(trailers), trailers);
    if trailers {
      assert AreLongTrailers([line]) by { assert [line][1..] == []; }
      assert TrailerText([line]) == line + Needle(true) by { assert LinesText([line][1..]) == ""; }
    }
  }

  lemma StuckChunk(p: Scanner)
    requires p.state == Chunk && p.size == WRAPPING_SIZE && |p.buffer| == 1
    ensures TakeTurn(p) == Fail
  {}

  lemma WholeChunk(p: Scanner)
    requires p.state == Chunk && p.size == WRAPPING_SIZE && p.buffer == LongText(p.trailers)
    ensures p.buffer != "" && TakeTurn(p) == Next(p.(state := ChunkHdr))
  {
    LongTextEnds(p.trailers);
    hide LongText;
    assert p.buffer[0..] == p.buffer;
  }

  lemma LongTextEnds(trailers: bool)
    ensures At(LongText(trailers), CRLF, WRAPPING_SIZE)
  {
    var s := LongText(trailers);
    assert |s| == WRAPPING_SIZE + 2;
    assert s[WRAPPING_SIZE] == '\r' && s[WRAPPING_SIZE + 1] == '\n';
    assert s[WRAPPING_SIZE..WRAPPING_SIZE + 2] == CRLF;
  }

  lemma NumberBeforeEnd(hdr: string, k: nat)
    requires Find(hdr, CRLF) == Some(k) && Find(hdr, ";").None? && k <= |hdr| && Find(hdr[..k], " ").None?
    ensures GetChunkSize(hdr) == (var n := MyAtoi(hdr[..k], 16); if n.None? then None else Some(n.value % UINT32))
  {
    hide Find, MyAtoi;
    assert HexString(hdr) == hdr[..k];
  }

  /** A size line without separators is read as its number. */
  lemma PlainSize(line: string)
    requires forall i | 0 <= i < |line| :: line[i] !in {' ', ';', '\r', '\n'}
    ensures IsLine(line)
    ensures LineSize(line) == (var n := MyAtoi(line, 16); if n.None? then None else Some(n.value % UINT32))
  {
    hide Find, MyAtoi, GetChunkSize;
    PlainHeader(line);
    assert (line + CRLF)[..|line|] == line;
    NumberBeforeEnd(line + CRLF, |line|);
  }

  lemma PlainHeader(line: string)
    requires forall i | 0 <= i < |line| :: line[i] !in {' ', ';', '\r', '\n'}
    ensures IsLine(line) && Find(line + CRLF, ";").None? && Find(line, " ").None? && Find(line + CRLF, CRLF) == Some(|line|)
  {
    hide Find;
    forall j: nat ensures !At(line, CRLF, j) && !At(line + CRLF, ";", j) && !At(line, " ", j) {
      NotSeparated(line, j);
    }
    FindLine(line, "");
    assert line + CRLF + "" == line + CRLF;
  }

  lemma NotSeparated(line: string, j: nat)
    requires forall i | 0 <= i < |line| :: line[i] !in {' ', ';', '\r', '\n'}
    ensures !At(line, CRLF, j) && !At(line + CRLF, ";", j) && !At(line, " ", j)
  {
    var hdr := line + CRLF;
    if j < |line| {
      assert line[j..j + 1] == [line[j]] && hdr[j..j + 1] == [line[j]];
      if j + 2 <= |line| { assert line[j..j + 2][0] == line[j]; }
    } else if j < |hdr| {
      assert hdr[j..j + 1] == [hdr[j]];
    }
  }

  lemma OneDigit(c: char)
    requires DigitValue(c) < 16
    ensures AllDigits([c], 16) && Numeral([c], 16) == DigitValue(c)
  {
    assert [c][..0] == "";
  }

  lemma WrappingLine()
    ensures IsLine("-2") && LineSize("-2") == Some(WRAPPING_SIZE)
  {
    hide LineSize, Numeral;
    PlainSize("-2");
    OneDigit('2');
    assert "-2"[1..] == ['2'];
  }

  lemma ZeroLine()
    ensures IsLine("0") && LineSize("0") == Some(0)
  {
    hide LineSize, Numeral;
    PlainSize("0");
    OneDigit('0');
  }
}
