/** What header comparison, the rules on the length of a body and the end of a message mean in terms of the text on the wire. */
module HttpRules {
  import opened Text
  import opened Tokenize
  import opened ChunkedParser
  import opened ChunkedGrammar
  import opened ChunkedStandard
  import opened HttpMessage
  import opened HttpSession
  import opened HttpRoundTrip

  // Comparison of names

  /** The same character, or a capital ASCII letter and the small one 32 above it. */
  predicate SameLetter(c: char, d: char) {
    c == d || ('A' <= c <= 'Z' && d as int == c as int + 32) || ('A' <= d <= 'Z' && c as int == d as int + 32)
  }

  lemma LetterExactly(c: char, d: char)
    ensures Lower(c) == Lower(d) <==> SameLetter(c, d)
  {
    LowerCode(c);
    LowerCode(d);
  }

  lemma LowerCode(c: char)
    ensures Lower(c) as int == if 'A' <= c <= 'Z' then c as int + 32 else c as int
  {}

  /** The first `i` characters are the leading spaces. */
  predicate LeadingSpaces(s: string, i: nat) {
    i <= |s| && (forall k | 0 <= k < i :: s[k] == ' ') && (i < |s| ==> s[i] != ' ')
  }

  lemma StrippedIs(s: string, i: nat)
    requires LeadingSpaces(s, i)
    ensures Stripped(s) == s[i..]
  {
    var r := SkipWhile(s, ' ');
    if r.Some? {
      var j := |s| - |r.value|;
      assert s[j..] == r.value && s[j] == r.value[0];
      assert i == j;
    }
  }

  /** The same length and the same letters. */
  predicate Capitalised(key: string, name: string) {
    |key| == |name| && forall k | 0 <= k < |name| :: SameLetter(key[k], name[k])
  }

  /** `equivalent_strings` exactly: after their leading spaces the strings have the same length and the same letters. */
  lemma EquivalentExactly(a: string, i: nat, b: string, j: nat)
    requires LeadingSpaces(a, i) && LeadingSpaces(b, j)
    ensures Equivalent(a, b) <==> Capitalised(a[i..], b[j..])
  {
    StrippedIs(a, i);
    StrippedIs(b, j);
    hide Stripped;
    SameExactly(a[i..], b[j..]);
  }

  lemma SameExactly(x: string, y: string)
    ensures SameIgnoringCase(x, y) <==> Capitalised(x, y)
  {
    hide Lower, SameLetter;
    forall k | 0 <= k < |x| && k < |y| ensures Lower(x[k]) == Lower(y[k]) <==> SameLetter(x[k], y[k]) {
      LetterExactly(x[k], y[k]);
    }
  }

  lemma CapitalisedIsEquivalent(key: string, name: string)
    requires Capitalised(key, name) && name != "" && name[0] != ' '
    ensures Equivalent(key, name)
  {
    assert SameLetter(key[0], name[0]) && key[0] != ' ';
    hide Equivalent, SameLetter;
    assert key[0..] == key && name[0..] == name;
    EquivalentExactly(key, 0, name, 0);
  }

  /** However a header name is capitalised, the first header with that name is found. */
  lemma AnyCapitalisation(headers: seq<Header>, k: nat, name: string, from: nat)
    requires from <= k < |headers| && forall j | from <= j < k :: !Equivalent(headers[j].key, name)
    requires Capitalised(headers[k].key, name) && name != "" && name[0] != ' '
    ensures LookupFrom(headers, name, from) == Some(headers[k].value)
    decreases k - from
  {
    hide Equivalent, Capitalised;
    CapitalisedIsEquivalent(headers[k].key, name);
    if from < k {
      AnyCapitalisation(headers, k, name, from + 1);
    }
  }

  /** A header written in small letters is found, one of another name is not. */
  lemma SmallLetters(value: string)
    ensures Lookup([Header("content-length", value)], "Content-Length") == Some(value)
    ensures Lookup([Header("Content-Type", value)], "Content-Length").None?
  {
    hide Equivalent;
    LengthLetters();
    AnyCapitalisation([Header("content-length", value)], 0, "Content-Length", 0);
    OtherName();
    assert LookupFrom([Header("Content-Type", value)], "Content-Length", 1).None?;
  }

  lemma LengthLetters()
    ensures Capitalised("content-length", "Content-Length")
  {
    assert SameLetter('c', 'C') && SameLetter('l', 'L');
  }

  lemma OtherName()
    ensures !Equivalent("Content-Type", "Content-Length")
  {
    var a, b := "Content-Type", "Content-Length";
    assert a[0..] == a && b[0..] == b;
    EquivalentExactly(a, 0, b, 0);
    hide Equivalent;
  }

  // Tokens

  lemma {:induction false} JoinSnoc(tokens: seq<string>, last: string, c: char)
    requires |tokens| >= 1
    ensures Join(tokens + [last], c) == Join(tokens, c) + [c] + last
    decreases |tokens|
  {
    if |tokens| > 1 {
      assert (tokens + [last])[1..] == tokens[1..] + [last];
      JoinSnoc(tokens[1..], last, c);
    } else {
      assert (tokens + [last])[1..] == [last];
    }
  }

  /** The last token is what follows the last separator. */
  lemma LastToken(front: string, last: string, c: char)
    requires Free(last, c)
    ensures Tokens(front + [c] + last, c) == Tokens(front, c) + [last]
  {
    hide Free, Tokens;
    SplitJoin(front, c);
    JoinSnoc(Tokens(front, c), last, c);
    JoinSplit(Tokens(front, c) + [last], c);
  }

  /** The first token is what precedes the first separator. */
  lemma FirstToken(first: string, rest: string, c: char)
    requires Free(first, c)
    ensures Tokens(first + [c] + rest, c) == [first] + Tokens(rest, c)
  {
    hide Free, Tokens;
    SplitJoin(rest, c);
    var tokens := [first] + Tokens(rest, c);
    assert tokens[1..] == Tokens(rest, c);
    JoinSplit(tokens, c);
  }

  lemma OnlyToken(s: string, c: char)
    requires Free(s, c)
    ensures Tokens(s, c) == [s]
  {
    hide Free, Tokens;
    JoinSplit([s], c);
  }

  // The rules of RFC 2616, section 4.4

  /** A status line: version, code and reason with a space between them. */
  ghost predicate IsStatusLine(line: string, code: string) {
    exists version: string, reason: string :: line == version + " " + code + " " + reason && Free(version, ' ') && Free(code, ' ')
  }

  lemma StatusOf(version: string, code: string, reason: string)
    requires Free(version, ' ') && Free(code, ' ')
    ensures StatusCode(version + " " + code + " " + reason) == Some(code)
  {
    hide Free, Tokens;
    var line := version + " " + (code + " " + reason);
    assert line == version + " " + code + " " + reason;
    FirstToken(version, code + " " + reason, ' ');
    FirstToken(code, reason, ' ');
  }

  lemma StatusOfLine(line: string, code: string)
    requires IsStatusLine(line, code)
    ensures StatusCode(line) == Some(code)
  {
    hide Free, StatusCode;
    var version, reason :| line == version + " " + code + " " + reason && Free(version, ' ') && Free(code, ' ');
    StatusOf(version, code, reason);
  }

  /** A status line with fewer than two spaces throws. */
  lemma ShortStatusLine(version: string, code: string)
    requires Free(version, ' ') && Free(code, ' ')
    ensures StatusCode(version).None? && StatusCode(version + " " + code).None?
  {
    hide Free, Tokens;
    OnlyToken(version, ' ');
    OnlyToken(code, ' ');
    FirstToken(version, code, ' ');
  }

  /** Rule 1 does not apply: the response may have a body. */
  predicate MayHaveBody(code: string, requestLine: string) {
    code != "" && code[0] != '1' && code != "204" && code != "304" && !("HEAD " <= requestLine)
  }

  /** A value whose last part, or only part, is `last`. */
  ghost predicate EndsWithPart(value: string, last: string) {
    Free(last, ',') && (value == last || exists front :: value == front + "," + last)
  }

  lemma LastCoding(value: string, last: string)
    requires EndsWithPart(value, last)
    ensures EndsChunked(value) <==> Equivalent(last, "chunked")
  {
    hide Free, Tokens, Equivalent;
    if value == last {
      OnlyToken(last, ',');
    } else {
      var front :| value == front + "," + last;
      LastToken(front, last, ',');
    }
  }

  /** Rule 1. */
  lemma NoBodyRule(line: string, headers: seq<Header>, requestLine: string, code: string)
    requires IsStatusLine(line, code) && code != "" && !MayHaveBody(code, requestLine)
    ensures ResponseFraming(line, headers, requestLine) == Some(KnownSize(0))
  {
    hide StatusCode, IsStatusLine;
    StatusOfLine(line, code);
    NoBody(line, headers, requestLine, code);
  }

  /** Rule 2: the last coding is chunked. Trailers are expected exactly if they were announced. */
  lemma ChunkedRule(line: string, headers: seq<Header>, requestLine: string, code: string, value: string, last: string)
    requires IsStatusLine(line, code) && MayHaveBody(code, requestLine)
    requires Lookup(headers, "Transfer-Encoding") == Some(value) && EndsWithPart(value, last) && Equivalent(last, "chunked")
    ensures ResponseFraming(line, headers, requestLine) == Some(ChunkedCoding(Lookup(headers, "Trailer").Some?))
  {
    hide StatusCode, IsStatusLine, EndsChunked, EndsWithPart, Lookup, Tokens, Equivalent;
    StatusOfLine(line, code);
    LastCoding(value, last);
  }

  /** Rule 3: the body is as long as Content-Length says. */
  lemma LengthRule(line: string, headers: seq<Header>, requestLine: string, code: string, n: nat)
    requires IsStatusLine(line, code) && MayHaveBody(code, requestLine)
    requires Lookup(headers, "Transfer-Encoding").None? && Lookup(headers, "Content-Length") == Some(Digits(n, 10))
    ensures ResponseFraming(line, headers, requestLine) == if n < 0x8000_0000_0000_0000 then Some(KnownSize(n)) else None
  {
    hide StatusCode, IsStatusLine, EndsChunked, Lookup, Tokens, Equivalent, MyAtoi, Digits;
    StatusOfLine(line, code);
    LengthRead(n);
  }

  lemma LengthRead(n: nat)
    ensures MyAtoi(Digits(n, 10), 10) == if n < 0x8000_0000_0000_0000 then Some(n) else None
    ensures n < 0x8000_0000_0000_0000 ==> n % 0x1_0000_0000_0000_0000 == n
  {
    hide Digits, MyAtoi, Numeral, DigitValue, IsSpace;
    DigitsRead(n, 10);
    var digits := Digits(n, 10);
    assert "" + "" + "" + digits == digits;
    NumberForms("", "", "", digits, 10);
  }

  /** A negative number is stored in a `size_t`. */
  lemma NegativeLength(line: string, headers: seq<Header>, requestLine: string, code: string, n: nat)
    requires IsStatusLine(line, code) && MayHaveBody(code, requestLine) && 0 < n <= 0x8000_0000_0000_0000
    requires Lookup(headers, "Transfer-Encoding").None? && Lookup(headers, "Content-Length") == Some("-" + Digits(n, 10))
    ensures ResponseFraming(line, headers, requestLine) == Some(KnownSize(0x1_0000_0000_0000_0000 - n))
  {
    hide StatusCode, IsStatusLine, EndsChunked, Lookup, Tokens, Equivalent, MyAtoi, Digits;
    StatusOfLine(line, code);
    NegativeRead(n);
  }

  lemma NegativeRead(n: nat)
    requires 0 < n <= 0x8000_0000_0000_0000
    ensures MyAtoi("-" + Digits(n, 10), 10) == Some(-(n as int)) && -(n as int) % 0x1_0000_0000_0000_0000 == 0x1_0000_0000_0000_0000 - n
  {
    hide Digits, MyAtoi, Numeral, DigitValue, IsSpace;
    DigitsRead(n, 10);
    var digits := Digits(n, 10);
    assert "" + "-" + "" + digits == "-" + digits;
    NumberForms("", "-", "", digits, 10);
  }

  /** Neither of the rules before gives a length. */
  ghost predicate NoLength(headers: seq<Header>) {
    if Lookup(headers, "Transfer-Encoding").None? then Lookup(headers, "Content-Length").None?
    else exists last :: EndsWithPart(Lookup(headers, "Transfer-Encoding").value, last) && !Equivalent(last, "chunked")
  }

  /** The media type before its parameters. */
  ghost predicate IsMediaType(value: string, media: string) {
    Free(media, ';') && (value == media || exists parameters :: value == media + ";" + parameters)
  }

  lemma MediaToken(value: string, media: string)
    requires IsMediaType(value, media)
    ensures Tokens(value, ';')[0] == media
  {
    hide Free, Tokens;
    if value == media {
      OnlyToken(media, ';');
    } else {
      var parameters :| value == media + ";" + parameters;
      FirstToken(media, parameters, ';');
    }
  }

  /** Rule 4 is not supported: the code throws, and also if the media type is empty. */
  lemma MultipartRule(line: string, headers: seq<Header>, requestLine: string, code: string, mime: string, media: string)
    requires IsStatusLine(line, code) && MayHaveBody(code, requestLine) && NoLength(headers)
    requires Lookup(headers, "Content-Type") == Some(mime) && IsMediaType(mime, media)
    requires media == "" || Equivalent(media, "multipart/byteranges")
    ensures ResponseFraming(line, headers, requestLine).None?
  {
    hide StatusCode, IsStatusLine, IsMediaType, Lookup, Tokens, Equivalent;
    StatusOfLine(line, code);
    MediaToken(mime, media);
    if Lookup(headers, "Transfer-Encoding").Some? {
      NotChunked(headers);
    }
  }

  lemma NotChunked(headers: seq<Header>)
    requires NoLength(headers) && Lookup(headers, "Transfer-Encoding").Some?
    ensures !EndsChunked(Lookup(headers, "Transfer-Encoding").value)
  {
    hide Lookup, EndsChunked, Equivalent, EndsWithPart;
    var value := Lookup(headers, "Transfer-Encoding").value;
    var last :| EndsWithPart(value, last) && !Equivalent(last, "chunked");
    LastCoding(value, last);
  }

  /** Rule 5: otherwise the body lasts until the connection is closed. */
  lemma ClosingRule(line: string, headers: seq<Header>, requestLine: string, code: string)
    requires IsStatusLine(line, code) && MayHaveBody(code, requestLine) && NoLength(headers)
    requires Lookup(headers, "Content-Type").Some? ==>
               exists media :: IsMediaType(Lookup(headers, "Content-Type").value, media) && media != "" && !Equivalent(media, "multipart/byteranges")
    ensures ResponseFraming(line, headers, requestLine) == Some(ToEof)
  {
    hide StatusCode, IsStatusLine, IsMediaType, Lookup, Tokens, Equivalent;
    StatusOfLine(line, code);
    if Lookup(headers, "Content-Type").Some? {
      var media :| IsMediaType(Lookup(headers, "Content-Type").value, media) && media != "" && !Equivalent(media, "multipart/byteranges");
      MediaToken(Lookup(headers, "Content-Type").value, media);
    }
    if Lookup(headers, "Transfer-Encoding").Some? {
      NotChunked(headers);
    }
  }

  /** Requests: GET and HEAD have no body, POST one of the given length, and nothing else is supported. */
  lemma RequestRules(method': string, rest: string, headers: seq<Header>)
    requires Free(method', ' ')
    ensures var framing := RequestFraming(method' + " " + rest, headers);
            if method' in {"GET", "HEAD"} then framing == Some(KnownSize(0))
            else if method' != "POST" then framing.None?
            else match Lookup(headers, "Content-Length")
                 case None => framing.None?
                 case Some(value) => forall n: nat | value == Digits(n, 10) && n < 0x8000_0000_0000_0000 :: framing == Some(KnownSize(n))
  {
    hide Lookup, ContentLength;
    var line := method' + " " + rest;
    MethodOf(method', rest, "GET");
    MethodOf(method', rest, "HEAD");
    MethodOf(method', rest, "POST");
    if method' == "POST" && Lookup(headers, "Content-Length").Some? {
      forall n: nat | Lookup(headers, "Content-Length").value == Digits(n, 10) && n < 0x8000_0000_0000_0000
        ensures RequestFraming(line, headers) == Some(KnownSize(n))
      {
        PostedLength(line, headers, n);
      }
    }
  }

  lemma MethodOf(method': string, rest: string, name: string)
    requires Free(method', ' ') && Free(name, ' ')
    ensures name + " " <= method' + " " + rest <==> method' == name
  {
    hide Find;
    var line, start := method' + " " + rest, name + " ";
    FindChar(line, " ", |method'|);
    if start <= line {
      assert line[..|start|] == start;
      assert forall i | 0 <= i < |name| :: line[i] == start[i] == name[i];
      assert line[|name|] == start[|name|];
      FindChar(line, " ", |name|);
      assert method' == line[..|name|] == start[..|name|] == name;
    }
  }

  // Where a message ends

  /** A message with its head read. */
  function Headed(kind: Kind, request: string, line: string, headers: seq<Header>, length: Length): Message {
    Message(kind, request, line, headers, "", BodyPending, length)
  }

  /** A session with a head at the front of its buffer. */
  predicate AtHead(s: Session, line: string, headers: seq<Header>, after: string) {
    && s.message == Fresh(s.message.kind) && (s.message.kind == Response ==> s.requests != [])
    && IsLine(line) && (forall h | h in headers :: HeaderShaped(h) && PlainValue(h))
    && s.buffer == line + CRLF + (HeaderBlock(headers) + CRLF + after)
  }

  function RequestOf(s: Session): string {
    if s.message.kind == Response && s.requests != [] then s.requests[0] else ""
  }

  function WaitingAfter(s: Session): seq<string> {
    if s.message.kind == Response && s.requests != [] then s.requests[1..] else s.requests
  }

  lemma FirstLineParsed(s: Session, line: string, headers: seq<Header>, after: string)
    requires AtHead(s, line, headers, after)
    ensures Run(s) == Run(Session(HeaderBlock(headers) + CRLF + after, s.complete,
                                  Message(s.message.kind, RequestOf(s), line, [], "", HeadersPending, Unset), WaitingAfter(s)))
  {
    hide Find, Line, AfterLine, Run, HeaderBlock, HeaderShaped, PlainValue;
    PopLine(line, HeaderBlock(headers) + CRLF + after);
    RunStep(s);
  }

  lemma HeadersParsed(s: Session, headers: seq<Header>, after: string)
    requires s.message.stage == HeadersPending && s.message.headers == [] && s.message.length == Unset && s.message.body == ""
    requires forall h | h in headers :: HeaderShaped(h) && PlainValue(h)
    requires s.buffer == HeaderBlock(headers) + CRLF + after
    ensures Run(s) == Run(s.(buffer := CRLF + after, message := s.message.(headers := headers)))
  {
    hide Run, HeaderBlock, HeaderShaped, PlainValue, Reread;
    HeadersAreRead(s, headers, after);
    RereadAllSame(headers);
    assert [] + headers == headers;
  }

  lemma BlankLineParsed(s: Session, after: string)
    requires s.message.stage == HeadersPending && s.buffer == CRLF + after
    ensures Run(s) == if WithBodyLength(s.message).None? then None else Run(s.(buffer := after, message := WithBodyLength(s.message).value))
  {
    hide Find, Line, AfterLine, Run, FramingOf;
    assert "" + CRLF + after == CRLF + after;
    EmptyLine();
    PopLine("", after);
    RunStep(s);
  }

  /** The head of a message is taken whole; what follows it is the body that the rules give. */
  lemma HeadIsParsed(s: Session, line: string, headers: seq<Header>, after: string)
    requires AtHead(s, line, headers, after)
    ensures var framing := FramingOf(s.message.kind, line, headers, RequestOf(s));
            Run(s) == if framing.None? then None
                      else Run(Session(after, s.complete, Headed(s.message.kind, RequestOf(s), line, headers, LengthOf(framing.value)), WaitingAfter(s)))
  {
    hide Run, HeaderBlock, HeaderShaped, PlainValue, FramingOf;
    FirstLineParsed(s, line, headers, after);
    var t := Session(HeaderBlock(headers) + CRLF + after, s.complete,
                     Message(s.message.kind, RequestOf(s), line, [], "", HeadersPending, Unset), WaitingAfter(s));
    HeadersParsed(t, headers, after);
    BlankLineParsed(t.(buffer := CRLF + after, message := t.message.(headers := headers)), after);
  }

  /** The session after a message has come to its end: the message is complete, and the next one begins with what follows. */
  function Ended(s: Session, m: Message, rest: string): Session {
    Session(rest, s.complete + [m], Fresh(m.kind), s.requests)
  }

  lemma BodyEnds(s: Session, body: string, rest: string, length: Length)
    requires s.message.stage == BodyPending && s.buffer == body + rest
    requires TakeBody(s.message, body + rest) == BodyBytes(s.message.(body := body, stage := Complete, length := length), |body|)
    ensures Run(s) == Run(Ended(s, s.message.(body := body, stage := Complete, length := length), rest))
  {
    hide TakeBody, Run;
    RunStep(s);
    assert (body + rest)[|body|..] == rest;
    var t := s.(buffer := rest, message := s.message.(body := body, stage := Complete, length := length));
    RunStep(t);
  }

  /** A body of known length ends after exactly that many bytes. */
  lemma KnownBodyEnds(s: Session, body: string, rest: string)
    requires s.message.stage == BodyPending && s.message.body == "" && s.message.length == Known(|body|) && s.buffer == body + rest
    ensures Run(s) == Run(Ended(s, s.message.(body := body, stage := Complete), rest))
  {
    assert (body + rest)[..|body|] == body && "" + body == body;
    hide Run;
    BodyEnds(s, body, rest, Known(|body|));
  }

  /** A chunked body ends where its parser says. */
  lemma ChunkedBodyEnds(s: Session, text: string, rest: string, trailers: bool)
    requires s.message.stage == BodyPending && s.message.body == "" && s.message.length == Chunks(Init(trailers)) && s.buffer == text + rest
    requires IsRead(text, rest, trailers)
    ensures Run(s) == Run(Ended(s, s.message.(body := text, stage := Complete, length := Spent), rest))
  {
    hide Run, ReadInput;
    assert (text + rest)[..|text|] == text && "" + text == text;
    BodyEnds(s, text, rest, Spent);
  }

  /** A response whose head has been taken. */
  function Answering(s: Session, line: string, headers: seq<Header>, length: Length, after: string): Session
    requires s.requests != []
  {
    Session(after, s.complete, Headed(Response, s.requests[0], line, headers, length), s.requests[1..])
  }

  lemma ResponseHead(s: Session, line: string, headers: seq<Header>, framing: Framing, after: string)
    requires AtHead(s, line, headers, after) && s.message.kind == Response
    requires ResponseFraming(line, headers, s.requests[0]) == Some(framing)
    ensures Run(s) == Run(Answering(s, line, headers, LengthOf(framing), after))
  {
    assert s.requests != [];
    hide Run, AtHead, ResponseFraming;
    HeadIsParsed(s, line, headers, after);
  }

  /** A response with a Content-Length ends after exactly that many bytes, and the next one begins there. */
  lemma ContentLengthEndsBody(s: Session, line: string, headers: seq<Header>, code: string, body: string, rest: string)
    requires AtHead(s, line, headers, body + rest) && s.message.kind == Response
    requires IsStatusLine(line, code) && MayHaveBody(code, s.requests[0])
    requires Lookup(headers, "Transfer-Encoding").None?
    requires Lookup(headers, "Content-Length") == Some(Digits(|body|, 10)) && |body| < 0x8000_0000_0000_0000
    ensures var t := s.(requests := s.requests[1..]);
            var m := Message(Response, s.requests[0], line, headers, body, Complete, Known(|body|));
            Run(s) == Run(Ended(t, m, rest))
  {
    assert s.requests != [];
    hide Run, AtHead, IsStatusLine, MayHaveBody, Lookup, Digits, ResponseFraming;
    LengthRule(line, headers, s.requests[0], code, |body|);
    ResponseHead(s, line, headers, KnownSize(|body|), body + rest);
    KnownBodyEnds(Answering(s, line, headers, Known(|body|), body + rest), body, rest);
  }

  /** A chunked response ends with its last chunk and its trailers, and the next one begins there. */
  lemma ChunkedEndsBody(s: Session, line: string, headers: seq<Header>, code: string, value: string, coding: string,
                        chunks: seq<RfcChunk>, last: string, lines: seq<string>, rest: string)
    requires AreRfcChunks(chunks) && AllShort(chunks) && IsLastLine(last) && AreTrailers(lines)
    requires AtHead(s, line, headers, RfcText(chunks, last, lines) + rest) && s.message.kind == Response
    requires IsStatusLine(line, code) && MayHaveBody(code, s.requests[0])
    requires Lookup(headers, "Transfer-Encoding") == Some(value) && EndsWithPart(value, coding) && Equivalent(coding, "chunked")
    requires lines == [] <==> Lookup(headers, "Trailer").None?
    ensures var t := s.(requests := s.requests[1..]);
            var m := Message(Response, s.requests[0], line, headers, RfcText(chunks, last, lines), Complete, Spent);
            Run(s) == Run(Ended(t, m, rest))
  {
    assert s.requests != [];
    hide Run, AtHead, IsStatusLine, MayHaveBody, Lookup, ResponseFraming, AreRfcChunks, AllShort, IsLastLine, AreTrailers, RfcText,
         EndsWithPart, Equivalent, IsRead;
    var text, trailers := RfcText(chunks, last, lines), Lookup(headers, "Trailer").Some?;
    ChunkedRule(line, headers, s.requests[0], code, value, coding);
    RfcBodyIsRead(chunks, last, lines, rest, trailers);
    ResponseHead(s, line, headers, ChunkedCoding(trailers), text + rest);
    ChunkedBodyEnds(Answering(s, line, headers, Chunks(Init(trailers)), text + rest), text, rest, trailers);
  }

  /** A response without a body ends with its blank line... */
  lemma BlankLineEndsResponse(s: Session, line: string, headers: seq<Header>, code: string, rest: string)
    requires AtHead(s, line, headers, rest) && s.message.kind == Response
    requires IsStatusLine(line, code) && code != "" && !MayHaveBody(code, s.requests[0])
    ensures var t := s.(requests := s.requests[1..]);
            var m := Message(Response, s.requests[0], line, headers, "", Complete, Known(0));
            Run(s) == Run(Ended(t, m, rest))
  {
    assert s.requests != [];
    hide Run, AtHead, IsStatusLine, MayHaveBody, ResponseFraming;
    NoBodyRule(line, headers, s.requests[0], code);
    ResponseHead(s, line, headers, KnownSize(0), rest);
    assert "" + rest == rest;
    KnownBodyEnds(Answering(s, line, headers, Known(0), rest), "", rest);
  }

  /** ... and so does a GET or HEAD request. */
  lemma BlankLineEndsRequest(s: Session, method': string, target: string, headers: seq<Header>, rest: string)
    requires AtHead(s, method' + " " + target, headers, rest) && s.message.kind == Request && method' in {"GET", "HEAD"}
    ensures Run(s) == Run(Ended(s, Message(Request, "", method' + " " + target, headers, "", Complete, Known(0)), rest))
  {
    hide Run, AtHead, RequestFraming;
    assert Free(method', ' ');
    RequestRules(method', target, headers);
    HeadIsParsed(s, method' + " " + target, headers, rest);
    assert "" + rest == rest;
    KnownBodyEnds(Session(rest, s.complete, Headed(Request, "", method' + " " + target, headers, Known(0)), s.requests), "", rest);
  }

  /** A body without length takes everything, and is complete when the connection is closed. */
  lemma ClosingEndsBody(s: Session, body: string)
    requires s.message.stage == BodyPending && s.message.length == UntilEof && s.message.body == "" && s.buffer == body
    ensures var m := s.message.(body := body);
            && Run(s) == Some(s.(buffer := "", message := m))
            && Parse(s.(buffer := "", message := m), "") ==
               Some(Session("", s.complete + [m.(stage := Complete, length := Spent)], Fresh(m.kind), s.requests))
  {
    hide Run;
    assert "" + body == body && body[|body|..] == "";
    RunStep(s);
    var m := s.message.(body := body);
    ClosedRun(Session("", s.complete, m.(stage := Complete, length := Spent), s.requests));
  }

  lemma ClosedRun(s: Session)
    requires s.buffer == "" && s.message.stage == Complete
    ensures Run(s) == Some(Session("", s.complete + [s.message], Fresh(s.message.kind), s.requests))
  {
    hide Run, Find;
    EmptyLine();
    RunStep(s);
    RunStep(Session("", s.complete + [s.message], Fresh(s.message.kind), s.requests));
  }

  /** Exactly when the end of the connection is an error: in the middle of the headers or of a body of known length. */
  lemma CloseExactly(s: Session)
    requires Between(s)
    ensures Parse(s, "").None? <==> s.message.stage == HeadersPending || (s.message.stage == BodyPending && s.message.length.Known?)
  {
    hide Run, ReadInput, Valid, Find, WithHeader, WithBodyLength;
    if s.message.stage == FirstLinePending {
      RunStep(s);
    } else if s.message.stage == BodyPending && !s.message.length.Known? {
      BodyHoldsNothing(s);
      if s.message.length.UntilEof? || s.message.length.Chunks? {
        ClosedRun(s.(message := s.message.(stage := Complete, length := Spent)));
      }
    }
  }
}
