/** The chunked bodies of RFC 2616, section 3.6.1, with sizes of any magnitude, and the parser on them. */
module ChunkedStandard {
  import opened Text
  import opened Widths
  import opened ChunkedParser
  import opened ChunkedGrammar

  // Size lines

  lemma FindChar(s: string, t: string, k: nat)
    requires |t| == 1 && k < |s| && s[k] == t[0] && forall i | 0 <= i < k :: s[i] != t[0]
    ensures Find(s, t) == Some(k)
  {
    hide Find;
    forall j: nat | j <= k ensures At(s, t, j) <==> j == k {
      assert s[j..j + 1] == [s[j]];
    }
    FindUnique(s, t, k);
  }

  lemma NoChar(s: string, t: string)
    requires |t| == 1 && forall i | 0 <= i < |s| :: s[i] != t[0]
    ensures Find(s, t).None?
  {
    hide Find;
    forall j: nat ensures !At(s, t, j) {
      if j < |s| { assert s[j..j + 1] == [s[j]]; }
    }
  }

  /** Nothing, or a chunk extension, or trailing spaces. */
  predicate IsExtension(ext: string) {
    ext == "" || ext[0] == ';' || ext[0] == ' '
  }

  /** Whatever comes after the digits of a size line is not part of the number. */
  lemma HexStringIs(digits: string, ext: string)
    requires Plain(digits, 16) && IsExtension(ext) && IsLine(digits + ext)
    ensures Find(digits + ext + CRLF, CRLF) == Some(|digits + ext|)
    ensures HexString(digits + ext + CRLF) == digits
  {
    hide Find;
    var line := digits + ext;
    var hdr := line + CRLF;
    FindLine(line, "");
    assert line + CRLF + "" == hdr;
    forall i | 0 <= i < |digits| ensures hdr[i] != ' ' && hdr[i] != ';' && digits[i] != ' ' {
      assert DigitValue(digits[i]) < 16;
    }
    NoChar(digits, " ");
    assert hdr[..|digits|] == digits;
    if ext == "" {
      NoChar(hdr, ";");
    } else if ext[0] == ';' {
      FindChar(hdr, ";", |digits|);
    } else {
      var semi := Find(hdr, ";");
      if semi.Some? {
        assert hdr[semi.value] == hdr[semi.value..semi.value + 1][0] == ';';
        FindChar(hdr[..semi.value], " ", |digits|);
      } else {
        FindChar(hdr[..|line|], " ", |digits|);
      }
    }
  }

  /** A size line of the RFC: hexadecimal digits for `n`, in either case and with leading zeros or without, and an extension. */
  predicate IsSizeLine(digits: string, ext: string, n: nat) {
    AllDigits(digits, 16) && Numeral(digits, 16) == n && IsExtension(ext) && IsLine(digits + ext)
  }

  lemma HexIsPlain(digits: string)
    requires AllDigits(digits, 16)
    ensures Plain(digits, 16)
  {
    forall i | 0 <= i < |digits| ensures !IsSpace(digits[i]) && digits[i] !in "-+xX" {
      assert DigitValue(digits[i]) < 16;
    }
  }

  lemma HexNumber(digits: string)
    requires AllDigits(digits, 16)
    ensures MyAtoi(digits, 16) == var n := Numeral(digits, 16); if n < 0x8000_0000_0000_0000 then Some(n) else None
  {
    HexIsPlain(digits);
    hide Numeral, SkipSpace, IsSpace, DigitValue;
  }

  /** How the parser reads it: a size that does not fit a `long` throws, any other is cut to 32 bits. */
  lemma SizeLineIsRead(digits: string, ext: string, n: nat)
    requires IsSizeLine(digits, ext, n)
    ensures LineSize(digits + ext) == if n < 0x8000_0000_0000_0000 then Some(n % UINT32) else None
  {
    hide Find, HexString, MyAtoi, Plain, Numeral, AllDigits, IsExtension;
    HexIsPlain(digits);
    HexStringIs(digits, ext);
    HexNumber(digits);
  }

  // Bodies

  datatype RfcChunk = RfcChunk(digits: string, ext: string, data: string)

  predicate IsRfcChunk(c: RfcChunk) {
    c.data != "" && IsSizeLine(c.digits, c.ext, |c.data|)
  }

  predicate AreRfcChunks(chunks: seq<RfcChunk>) {
    forall i | 0 <= i < |chunks| :: IsRfcChunk(chunks[i])
  }

  function TextOf(c: RfcChunk): ChunkText {
    ChunkText(c.digits + c.ext, c.data)
  }

  function Texts(chunks: seq<RfcChunk>): seq<ChunkText> {
    if chunks == [] then [] else [TextOf(chunks[0])] + Texts(chunks[1..])
  }

  /** The size line of the last chunk, any number of zeros. */
  ghost predicate IsLastLine(last: string) {
    exists digits, ext :: last == digits + ext && IsSizeLine(digits, ext, 0)
  }

  function RfcText(chunks: seq<RfcChunk>, last: string, lines: seq<string>): string {
    BodyWire(Texts(chunks), last, TrailerText(lines))
  }

  /** The parser takes the body and nothing more. */
  predicate IsRead(text: string, rest: string, trailers: bool) {
    ReadInput(Init(trailers), text + rest) == Finished(|text|)
  }

  /** No chunk is so long that its size and the two bytes after it exceed 32 bits. */
  predicate AllShort(chunks: seq<RfcChunk>) {
    forall i | 0 <= i < |chunks| :: |chunks[i].data| < WRAPPING_SIZE
  }

  lemma LastLineIsZero(last: string)
    requires IsLastLine(last)
    ensures IsZero(last)
  {
    hide LineSize, AllDigits, Numeral, IsExtension, IsLine;
    var digits, ext :| last == digits + ext && IsSizeLine(digits, ext, 0);
    SizeLineIsRead(digits, ext, 0);
  }

  lemma ShortChunk(c: RfcChunk)
    requires IsRfcChunk(c) && |c.data| < WRAPPING_SIZE
    ensures IsChunk(TextOf(c))
  {
    hide LineSize, AllDigits, Numeral, IsExtension, IsLine;
    SizeLineIsRead(c.digits, c.ext, |c.data|);
  }

  lemma {:induction false} ShortChunks(chunks: seq<RfcChunk>)
    requires AreRfcChunks(chunks) && AllShort(chunks)
    ensures AreChunks(Texts(chunks))
    decreases |chunks|
  {
    hide IsRfcChunk, IsChunk, TextOf;
    if chunks != [] {
      ShortChunk(chunks[0]);
      ShortChunks(chunks[1..]);
    }
  }

  /** Every body of the RFC with chunks of less than 2^32 - 2 bytes, any trailers and whatever follows it, is read to exactly its end
      if and only if trailers are there exactly when they were announced. */
  lemma RfcBodyIsRead(chunks: seq<RfcChunk>, last: string, lines: seq<string>, rest: string, trailers: bool)
    requires AreRfcChunks(chunks) && IsLastLine(last) && AreTrailers(lines)
    ensures AllShort(chunks) ==> (IsRead(RfcText(chunks, last, lines), rest, trailers) <==> (lines == [] <==> !trailers))
  {
    hide AreRfcChunks, AllShort, AreChunks, IsLastLine, IsZero, AreTrailers, ReadInput, BodyWire, Texts, TrailerText;
    if AllShort(chunks) {
      ShortChunks(chunks);
      LastLineIsZero(last);
      ReadToItsEnd(Texts(chunks), last, lines, rest, trailers);
    }
  }

  // Longer chunks

  /** Other data on the same size lines. */
  predicate SameSizes(a: seq<RfcChunk>, b: seq<RfcChunk>) {
    |a| == |b| && forall i | 0 <= i < |a| :: b[i] == a[i].(data := b[i].data) && |b[i].data| == |a[i].data|
  }

  function Crosses(n: nat): string {
    seq(n, _ => 'x')
  }

  /** Data that the parser does not get over: a blank line if the size is cut to zero, otherwise no line end and no number. */
  function BadData(n: nat): (s: string)
    requires n >= 4
    ensures |s| == n
  {
    if n % UINT32 == 0 then CRLF + CRLF + Crosses(n - 4) else Crosses(n)
  }

  /** The first chunk that is too long has such data. */
  function Spoiled(chunks: seq<RfcChunk>): seq<RfcChunk> {
    if chunks == [] then []
    else if |chunks[0].data| >= WRAPPING_SIZE then [chunks[0].(data := BadData(|chunks[0].data|))] + chunks[1..]
    else [chunks[0]] + Spoiled(chunks[1..])
  }

  lemma {:induction false} SpoiledSame(chunks: seq<RfcChunk>)
    ensures SameSizes(chunks, Spoiled(chunks))
    decreases |chunks|
  {
    hide BadData;
    if chunks != [] && |chunks[0].data| < WRAPPING_SIZE {
      SpoiledSame(chunks[1..]);
    }
  }

  lemma CrossesAreLine(n: nat)
    requires n > 0
    ensures IsLine(Crosses(n)) && LineSize(Crosses(n)).None?
  {
    hide LineSize;
    var line := Crosses(n);
    PlainSize(line);
    assert line[0] == 'x' && DigitValue('x') == 33;
    NotANumber(line);
  }

  lemma NotANumber(s: string)
    requires |s| > 0 && forall i | 0 <= i < |s| :: s[i] == 'x'
    ensures MyAtoi(s, 16).None?
  {
    hide Numeral;
    assert SkipSpace(s) == s;
    assert DigitValue(s[0]) == 33;
  }

  /** Cut to zero: the blank line at the start of the data is taken for the end of the body. */
  lemma CutToZero(p: Scanner, n: nat, after: string)
    requires p.state == Trailer && n >= 4 && n % UINT32 == 0 && p.buffer == BadData(n) + CRLF + after
    ensures Scan(p).Ended? && Scan(p).total < p.parsed + n + 2
  {
    var needle := Needle(p.trailers);
    var s := p.buffer;
    assert s[0] == '\r' && s[1] == '\n' && s[2] == '\r' && s[3] == '\n';
    assert s[0..4] == CRLF + CRLF && s[0..2] == CRLF;
    assert At(s, needle, 0);
    hide Find, BadData, At;
    FindUnique(s, needle, 0);
    ScanStep(p);
  }

  /** Cut to less: where the code expects the line end of the chunk there is none. */
  lemma CutShort(p: Scanner, n: nat, after: string)
    requires p.state == Chunk && p.size == n % UINT32 && 0 < p.size < n && p.buffer == BadData(n) + CRLF + after
    ensures Scan(p) == Broken
  {
    var s, k := p.buffer, p.size;
    assert s[k] == 'x' && s[k..k + 2][0] == s[k];
    assert TakeTurn(p) == Fail;
    hide TakeTurn, BadData;
    ScanStep(p);
  }

  /** Not cut, but the sum wraps: the data is read as a size line. */
  lemma ReadAsLine(p: Scanner, n: nat, after: string)
    requires p.state == Chunk && p.size == n && WRAPPING_SIZE <= n < UINT32 && p.buffer == BadData(n) + CRLF + after
    ensures Scan(p) == Broken
  {
    hide BadData, TakeTurn, Scan, Crosses;
    var k := (n + 2) % UINT32;
    WrapTurn(p, n, after);
    CrossesFrom(n, k, after);
    ScanStep(p);
    CrossesFail(TakeTurn(p).p, n - k, after);
  }

  lemma CrossesFail(q: Scanner, n: nat, after: string)
    requires q.state == ChunkHdr && n > 0 && q.buffer == Crosses(n) + CRLF + after
    ensures Scan(q) == Broken
  {
    hide TakeTurn, LineSize, IsLine, Scan;
    CrossesAreLine(n);
    HeaderTurn(q, Crosses(n), after);
    ScanStep(q);
  }

  lemma CrossesFrom(n: nat, k: nat, after: string)
    requires k <= n
    ensures (Crosses(n) + CRLF + after)[k..] == Crosses(n - k) + CRLF + after
  {}

  lemma WrapTurn(p: Scanner, n: nat, after: string)
    requires p.state == Chunk && p.size == n && WRAPPING_SIZE <= n < UINT32 && p.buffer == BadData(n) + CRLF + after
    ensures var k := (n + 2) % UINT32;
            && k <= 1 && p.buffer != "" && p.buffer == Crosses(n) + CRLF + after
            && TakeTurn(p) == Next(p.(state := ChunkHdr, parsed := p.parsed + k, buffer := p.buffer[k..]))
  {
    assert BadData(n) == Crosses(n) by { assert n % UINT32 == n != 0; }
    hide BadData;
    assert p.buffer[n..n + 2] == CRLF;
  }

  lemma BadChunk(p: Scanner, c: RfcChunk, after: string)
    requires p.state == ChunkHdr && IsRfcChunk(c) && |c.data| >= WRAPPING_SIZE && c.data == BadData(|c.data|)
    requires p.buffer == ChunkWire(TextOf(c)) + after
    ensures Scan(p).Broken? || (Scan(p).Ended? && Scan(p).total < p.parsed + |ChunkWire(TextOf(c))|)
  {
    hide LineSize, IsLine, BadData, TakeTurn, Scan;
    var line, n := c.digits + c.ext, |c.data|;
    SizeLineIsRead(c.digits, c.ext, n);
    assert p.buffer == line + CRLF + (c.data + CRLF + after);
    HeaderTurn(p, line, c.data + CRLF + after);
    ScanStep(p);
    if TakeTurn(p).Next? {
      var q := TakeTurn(p).p;
      if n % UINT32 == 0 {
        CutToZero(q, n, after);
      } else if n % UINT32 < n {
        CutShort(q, n, after);
      } else {
        ReadAsLine(q, n, after);
      }
    }
  }

  lemma {:induction false} Misread(p: Scanner, chunks: seq<RfcChunk>, last: string, lines: seq<string>, rest: string)
    requires AreRfcChunks(chunks) && !AllShort(chunks) && p.state == ChunkHdr
    requires p.buffer == RfcText(Spoiled(chunks), last, lines) + rest
    ensures Scan(p) != Ended(p.parsed + |RfcText(Spoiled(chunks), last, lines)|)
    decreases |chunks|
  {
    hide IsChunk, TakeTurn, Scan, TrailerText, BadData, IsSizeLine, LineSize;
    var bad := Spoiled(chunks);
    var after := RfcText(bad[1..], last, lines);
    TextUnfolds(bad, last, lines);
    assert IsRfcChunk(chunks[0]);
    if |chunks[0].data| >= WRAPPING_SIZE {
      assert p.buffer == ChunkWire(TextOf(bad[0])) + (after + rest);
      BadChunk(p, bad[0], after + rest);
    } else {
      assert bad[1..] == Spoiled(chunks[1..]);
      ShortRest(chunks);
      var q := GoodChunk(p, chunks[0], after + rest);
      Misread(q, chunks[1..], last, lines, rest);
    }
  }

  lemma ShortRest(chunks: seq<RfcChunk>)
    requires chunks != [] && AreRfcChunks(chunks) && !AllShort(chunks) && |chunks[0].data| < WRAPPING_SIZE
    ensures AreRfcChunks(chunks[1..]) && !AllShort(chunks[1..])
  {
    hide IsRfcChunk;
    var i :| 0 <= i < |chunks| && |chunks[i].data| >= WRAPPING_SIZE;
    assert chunks[1..][i - 1] == chunks[i];
  }

  lemma TextUnfolds(chunks: seq<RfcChunk>, last: string, lines: seq<string>)
    requires chunks != []
    ensures RfcText(chunks, last, lines) == ChunkWire(TextOf(chunks[0])) + RfcText(chunks[1..], last, lines)
  {
    hide ChunkWire, TextOf, TrailerText;
    assert Texts(chunks)[1..] == Texts(chunks[1..]);
  }

  lemma GoodChunk(p: Scanner, c: RfcChunk, after: string) returns (q: Scanner)
    requires p.state == ChunkHdr && IsRfcChunk(c) && |c.data| < WRAPPING_SIZE
    requires p.buffer == ChunkWire(TextOf(c)) + after
    ensures q.state == ChunkHdr && q.trailers == p.trailers && q.buffer == after
    ensures q.parsed == p.parsed + |ChunkWire(TextOf(c))| && Scan(p) == Scan(q)
  {
    hide LineSize, IsLine, TakeTurn, Scan;
    ShortChunk(c);
    var line := c.digits + c.ext;
    assert p.buffer == line + CRLF + (c.data + CRLF + after);
    HeaderTurn(p, line, c.data + CRLF + after);
    var q1 := TakeTurn(p).p;
    DataTurn(q1, c.data, after);
    ScanStep(p);
    ScanStep(q1);
    q := TakeTurn(q1).p;
  }

  /** Exactly which bodies of the RFC are read to their end whatever their data is: those with short chunks, and with trailers exactly
      when they were announced. */
  lemma RfcBodiesReadExactly(chunks: seq<RfcChunk>, last: string, lines: seq<string>, rest: string, trailers: bool)
    requires AreRfcChunks(chunks) && IsLastLine(last) && AreTrailers(lines)
    ensures (forall other | SameSizes(chunks, other) :: IsRead(RfcText(other, last, lines), rest, trailers))
            <==> AllShort(chunks) && (lines == [] <==> !trailers)
  {
    hide IsRead, RfcText, IsLastLine, AreTrailers, IsRfcChunk;
    if AllShort(chunks) {
      forall other | SameSizes(chunks, other)
        ensures IsRead(RfcText(other, last, lines), rest, trailers) <==> (lines == [] <==> !trailers)
      {
        SameAreRfc(chunks, other);
        RfcBodyIsRead(other, last, lines, rest, trailers);
      }
      assert SameSizes(chunks, chunks);
    } else {
      SpoiledSame(chunks);
      SpoiledNotRead(chunks, last, lines, rest, trailers);
    }
  }

  lemma SameAreRfc(chunks: seq<RfcChunk>, other: seq<RfcChunk>)
    requires AreRfcChunks(chunks) && SameSizes(chunks, other)
    ensures AreRfcChunks(other) && (AllShort(chunks) <==> AllShort(other))
  {
    hide IsSizeLine;
    forall i | 0 <= i < |other| ensures IsRfcChunk(other[i]) { assert IsRfcChunk(chunks[i]); }
  }

  lemma SpoiledNotRead(chunks: seq<RfcChunk>, last: string, lines: seq<string>, rest: string, trailers: bool)
    requires AreRfcChunks(chunks) && !AllShort(chunks)
    ensures !IsRead(RfcText(Spoiled(chunks), last, lines), rest, trailers)
  {
    hide AreRfcChunks, AllShort, RfcText, Spoiled, Scan;
    var s := RfcText(Spoiled(chunks), last, lines) + rest;
    var p := Feed(Start(trailers), s);
    assert "" + s == s;
    Misread(p, chunks, last, lines, rest);
  }

  /** Whatever is in a chunk of 2^32 bytes, or a multiple of that, its size line is taken for the last one: without announced
      trailers the body ends with the first line end in the data or right behind it. */
  lemma HugeChunkIsLast(c: RfcChunk, last: string, lines: seq<string>, rest: string)
    requires IsRfcChunk(c) && |c.data| % UINT32 == 0 && |c.data| < 0x8000_0000_0000_0000 && IsLastLine(last)
    ensures Find(c.data + CRLF, CRLF).Some?
    ensures var text, n := RfcText([c], last, lines), |c.digits + c.ext| + 2 + Find(c.data + CRLF, CRLF).value + 2;
            n < |text| && ReadInput(Init(false), text + rest) == Finished(n)
  {
    hide Find, LineSize, IsLine, AllDigits, Numeral, IsExtension, TakeTurn, Scan;
    var line, after := c.digits + c.ext, RfcText([], last, lines) + rest;
    SizeLineIsRead(c.digits, c.ext, |c.data|);
    LineEndBehind(c.data, after);
    TextUnfolds([c], last, lines);
    var text := RfcText([c], last, lines);
    assert [c][1..] == [];
    assert "" + (text + rest) == text + rest == line + CRLF + (c.data + CRLF + after);
    var p := Feed(Start(false), text + rest);
    HeaderTurn(p, line, c.data + CRLF + after);
    ScanStep(p);
    var q := TakeTurn(p).p;
    EndsAtFirst(q, c.data, after);
    NotEmptyText(last, lines);
  }

  lemma NotEmptyText(last: string, lines: seq<string>)
    ensures |RfcText([], last, lines)| >= 4
  {}

  lemma LineEndBehind(data: string, after: string)
    ensures Find(data + CRLF, CRLF).Some? && Find(data + CRLF, CRLF).value <= |data|
    ensures Find(data + CRLF + after, CRLF) == Find(data + CRLF, CRLF)
  {
    hide Find;
    assert (data + CRLF)[|data|..|data| + 2] == CRLF;
    assert At(data + CRLF, CRLF, |data|);
    FindAppend(data + CRLF, CRLF, after);
  }

  lemma EndsAtFirst(p: Scanner, data: string, after: string)
    requires p.state == Trailer && !p.trailers && p.buffer == data + CRLF + after
    ensures Find(data + CRLF, CRLF).Some? && Scan(p) == Ended(p.parsed + Find(data + CRLF, CRLF).value + 2)
  {
    hide Find;
    LineEndBehind(data, after);
  }

  // Writing a chunked body

  /** The data of one chunk with the extension to write on its size line. */
  datatype Piece = Piece(data: string, ext: string)

  predicate Writable(p: Piece) {
    p.data != "" && IsExtension(p.ext) && IsLine(Digits(|p.data|, 16) + p.ext)
  }

  function ChunkOf(p: Piece): RfcChunk {
    RfcChunk(Digits(|p.data|, 16), p.ext, p.data)
  }

  function Written(parts: seq<Piece>): seq<RfcChunk> {
    seq(|parts|, i requires 0 <= i < |parts| => ChunkOf(parts[i]))
  }

  /** The body with each size in plain digits and a single zero at the end. */
  function Encode(parts: seq<Piece>, lines: seq<string>): string {
    RfcText(Written(parts), "0", lines)
  }

  lemma WrittenIsRfc(parts: seq<Piece>)
    requires forall i | 0 <= i < |parts| :: Writable(parts[i])
    ensures AreRfcChunks(Written(parts)) && IsLastLine("0")
  {
    hide Digits, Plain, IsExtension, IsLine, Numeral;
    forall i | 0 <= i < |parts| ensures IsRfcChunk(ChunkOf(parts[i])) {
      assert Writable(parts[i]);
      PieceIsRfc(parts[i]);
    }
    ZeroIsLast();
  }

  lemma PieceIsRfc(p: Piece)
    requires Writable(p)
    ensures IsRfcChunk(ChunkOf(p))
  {
    hide Digits, IsExtension, IsLine, Numeral, IsSpace, DigitValue;
    DigitsRead(|p.data|, 16);
  }

  lemma ZeroIsLast()
    ensures IsLastLine("0")
  {
    hide Numeral, IsLine;
    OneDigit('0');
    ZeroLine();
    assert "0" == "0" + "";
    assert IsSizeLine("0", "", 0);
  }

  /** Encoding and reading: whatever data is written as chunks of less than 2^32 - 2 bytes, with any extensions and trailers, the
      parser takes exactly the bytes written if and only if there are trailers exactly when they were announced; and
      with a longer chunk there is data that it does not take. */
  lemma EncodedIsRead(parts: seq<Piece>, lines: seq<string>, rest: string, trailers: bool)
    requires (forall i | 0 <= i < |parts| :: Writable(parts[i])) && AreTrailers(lines)
    ensures AllShort(Written(parts)) ==> (IsRead(Encode(parts, lines), rest, trailers) <==> (lines == [] <==> !trailers))
    ensures !AllShort(Written(parts)) ==>
              exists other :: SameSizes(Written(parts), other) && !IsRead(RfcText(other, "0", lines), rest, trailers)
  {
    hide IsRead, RfcText, Writable, AreTrailers, AllShort, AreRfcChunks, IsLastLine, SameSizes, Written;
    WrittenIsRfc(parts);
    RfcBodyIsRead(Written(parts), "0", lines, rest, trailers);
    RfcBodiesReadExactly(Written(parts), "0", lines, rest, trailers);
  }
}
