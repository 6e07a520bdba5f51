/** Serialising a completed message with `str` and parsing the text again. */
module HttpRoundTrip {
  import opened Text
  import opened Tokenize
  import opened ChunkedParser
  import opened ChunkedGrammar
  import opened HttpMessage
  import opened HttpSession

  // Header lines

  /** What `str` needs of a header to write it as one line with one key. */
  predicate HeaderShaped(h: Header) {
    Free(h.key, ':') && IsLine(HeaderText(h))
  }

  /** The value starts with a character other than a space. */
  predicate PlainValue(h: Header) {
    h.value != "" && h.value[0] != ' '
  }

  lemma FreeOfColon(s: string, k: nat, rest: string)
    requires Free(s, ':') && |s| == k
    ensures Find(s + ":" + rest, ":") == Some(k)
  {
    var t := s + ":" + rest;
    assert t[k..k + 1] == ":";
    forall j: nat | j < k ensures !At(t, ":", j) {
      assert t[j..j + 1] == [s[j]];
    }
    FindUnique(t, ":", k);
  }

  function Reread(h: Header): Header {
    Header(h.key, if SkipWhile(h.value, ' ').None? then " " + h.value else SkipWhile(h.value, ' ').value)
  }

  /** Writing a header and reading it back keeps the key, and keeps the value exactly when it is plain. */
  lemma HeaderRoundTrip(h: Header)
    requires Free(h.key, ':')
    ensures ParseHeader(HeaderText(h)) == Some(Reread(h))
    ensures ParseHeader(HeaderText(h)) == Some(h) <==> PlainValue(h)
  {
    var rest := " " + h.value;
    FreeOfColon(h.key, |h.key|, rest);
    var text := h.key + ":" + rest;
    assert text == HeaderText(h);
    assert text[|h.key| + 1..] == rest && text[..|h.key|] == h.key;
    assert rest[1..] == h.value;
  }

  /** A header line without a value is one that does not survive. */
  lemma EmptyValueDoesNotSurvive()
    ensures ParseHeader("A:") == Some(Header("A", ""))
    ensures ParseHeader(HeaderText(Header("A", ""))) == Some(Header("A", " "))
  {
    FreeOfColon("A", 1, "");
    assert "A" + ":" + "" == "A:";
    assert "A:"[..1] == "A" && "A:"[2..] == "";
    assert " " + "" == " ";
    HeaderRoundTrip(Header("A", ""));
  }

  /** No carriage return is followed by a line feed. */
  predicate NoLineEnd(s: string) {
    forall i | 0 <= i < |s| - 1 :: !(s[i] == '\r' && s[i + 1] == '\n')
  }

  lemma LineChars(s: string)
    ensures IsLine(s) <==> NoLineEnd(s)
  {
    hide Find;
    forall j: nat ensures At(s, CRLF, j) <==> j + 1 < |s| && s[j] == '\r' && s[j + 1] == '\n' {
      if j + 2 <= |s| {
        assert s[j..j + 2] == [s[j], s[j + 1]];
      }
    }
    if IsLine(s) {
      forall i | 0 <= i < |s| - 1 ensures !(s[i] == '\r' && s[i + 1] == '\n') {
        assert !At(s, CRLF, i);
      }
    } else {
      var k := Find(s, CRLF).value;
      assert At(s, CRLF, k);
      assert s[k] == '\r' && s[k + 1] == '\n';
    }
  }

  /** Every header the parser makes can be written as one line. */
  lemma ParsedHeaderShaped(line: string)
    requires IsLine(line) && ParseHeader(line).Some?
    ensures HeaderShaped(ParseHeader(line).value)
  {
    hide Find, SkipWhile;
    var h := ParseHeader(line).value;
    var k := Find(line, ":").value;
    var rest := line[k + 1..];
    forall i | 0 <= i < k ensures line[i] != ':' {
      assert !At(line, ":", i);
      assert line[i..i + 1] == [line[i]];
    }
    assert h.value == rest[|rest| - |h.value|..];
    assert h.value == line[|line| - |h.value|..];
    KeyAndValueFitLine(line, h);
  }

  lemma KeyAndValueFitLine(line: string, h: Header)
    requires IsLine(line) && h.key <= line && |h.value| <= |line| && h.value == line[|line| - |h.value|..]
    ensures IsLine(HeaderText(h))
  {
    hide Find;
    LineChars(line);
    var text := HeaderText(h);
    var k, off := |h.key|, |line| - |h.value|;
    forall i | 0 <= i < |text| - 1 ensures !(text[i] == '\r' && text[i + 1] == '\n') {
      if i + 1 < k {
        assert text[i] == line[i] && text[i + 1] == line[i + 1];
      } else if i >= k + 2 {
        assert text[i] == line[off + (i - k - 2)] && text[i + 1] == line[off + (i - k - 1)];
      }
    }
    LineChars(text);
  }

  // Messages

  function Framed(m: Message): Option<Framing> {
    FramingOf(m.kind, m.firstLine, m.headers, m.requestLine)
  }

  /** A completed message as any run of the parser makes it. */
  predicate Shaped(m: Message) {
    && m.stage == Complete
    && IsLine(m.firstLine)
    && (forall h | h in m.headers :: HeaderShaped(h))
    && (m.kind == Request ==> m.requestLine == "")
    && Framed(m).Some?
    && m.length == (if Framed(m).value.KnownSize? then Known(Framed(m).value.size) else Spent)
  }

  /** The body is all there by its own framing, not cut short or delimited by the end of the connection. */
  predicate Whole(m: Message)
    requires Framed(m).Some?
  {
    match Framed(m).value
    case KnownSize(n) => |m.body| == n
    case ChunkedCoding(trailers) => ReadInput(Init(trailers), m.body) == Finished(|m.body|)
    case ToEof => false
  }

  /** A new session that expects `m`. */
  function SessionFor(m: Message): Session {
    Open(m.kind, if m.kind == Response then [m.requestLine] else [])
  }

  /** Parsing the text of `m` gives exactly `m` and leaves nothing over. */
  predicate RoundTrips(m: Message) {
    Parse(SessionFor(m), Str(m)) == Some(Session("", [m], Fresh(m.kind), []))
  }

  function RereadAll(headers: seq<Header>): seq<Header> {
    if headers == [] then [] else [Reread(headers[0])] + RereadAll(headers[1..])
  }

  lemma {:induction false} RereadAllSame(headers: seq<Header>)
    requires forall h | h in headers :: HeaderShaped(h)
    ensures RereadAll(headers) == headers <==> forall h | h in headers :: PlainValue(h)
  {
    hide ParseHeader, HeaderText, PlainValue, IsLine;
    if headers != [] {
      assert headers == [headers[0]] + headers[1..];
      assert headers[0] in headers;
      HeaderRoundTrip(headers[0]);
      RereadAllSame(headers[1..]);
      if RereadAll(headers) == headers {
        assert RereadAll(headers)[1..] == headers[1..];
      }
    }
  }

  /** A line at the front of the buffer is popped whole. */
  lemma PopLine(line: string, rest: string)
    requires IsLine(line)
    ensures Find(line + CRLF + rest, CRLF).Some?
    ensures Line(line + CRLF + rest) == line && AfterLine(line + CRLF + rest) == rest
  {
    hide Find;
    FindLine(line, rest);
  }

  lemma HeaderIsRead(s: Session, h: Header, after: string)
    requires s.message.stage == HeadersPending && HeaderShaped(h) && s.buffer == HeaderText(h) + CRLF + after
    ensures Run(s) == Run(s.(buffer := after, message := s.message.(headers := s.message.headers + [Reread(h)])))
  {
    hide Find, Line, AfterLine, Run, ParseHeader, HeaderText;
    PopLine(HeaderText(h), after);
    HeaderRoundTrip(h);
    assert HeaderText(h) != "" by { TextNotEmpty(h); }
    RunStep(s);
  }

  lemma TextNotEmpty(h: Header)
    ensures HeaderText(h) != ""
  {}

  lemma RereadUnfolds(done: seq<Header>, headers: seq<Header>)
    requires headers != []
    ensures done + [Reread(headers[0])] + RereadAll(headers[1..]) == done + RereadAll(headers)
  {
    hide Reread;
  }

  lemma BlockUnfolds(headers: seq<Header>, rest: string)
    requires headers != []
    ensures HeaderBlock(headers) + CRLF + rest == HeaderText(headers[0]) + CRLF + (HeaderBlock(headers[1..]) + CRLF + rest)
  {
    hide HeaderText;
  }

  lemma {:induction false} HeadersAreRead(s: Session, headers: seq<Header>, rest: string)
    requires s.message.stage == HeadersPending && s.buffer == HeaderBlock(headers) + CRLF + rest
    requires forall h | h in headers :: HeaderShaped(h)
    ensures Run(s) == Run(s.(buffer := CRLF + rest, message := s.message.(headers := s.message.headers + RereadAll(headers))))
    decreases |headers|
  {
    hide Run, HeaderText, HeaderShaped, Reread;
    if headers == [] {
      assert "" + CRLF + rest == CRLF + rest;
      assert s.message.headers + [] == s.message.headers;
    } else {
      var h, after := headers[0], HeaderBlock(headers[1..]) + CRLF + rest;
      BlockUnfolds(headers, rest);
      HeaderIsRead(s, h, after);
      HeadersAreRead(s.(buffer := after, message := s.message.(headers := s.message.headers + [Reread(h)])), headers[1..], rest);
      RereadUnfolds(s.message.headers, headers);
    }
  }

  /** The message in progress once the header lines have been read back. */
  function HeadersBack(m: Message): Message {
    Message(m.kind, m.requestLine, m.firstLine, RereadAll(m.headers), "", HeadersPending, Unset)
  }

  lemma HeadIsRead(m: Message)
    requires Shaped(m)
    ensures Parse(SessionFor(m), Str(m)) ==
            if Framed(HeadersBack(m)).None? then None
            else Run(Session(m.body, [], HeadersBack(m).(stage := BodyPending, length := LengthOf(Framed(HeadersBack(m)).value)), []))
  {
    hide Find, Line, AfterLine, Run, HeaderShaped, FramingOf;
    var block := HeaderBlock(m.headers) + CRLF + m.body;
    var t := Session(block, [], Message(m.kind, m.requestLine, m.firstLine, [], "", HeadersPending, Unset), []);
    FirstLineIsRead(m, block);
    HeadersAreRead(t, m.headers, m.body);
    assert [] + RereadAll(m.headers) == RereadAll(m.headers);
    HeadEnds(m);
  }

  lemma FirstLineIsRead(m: Message, block: string)
    requires IsLine(m.firstLine) && (m.kind == Request ==> m.requestLine == "")
    requires block == HeaderBlock(m.headers) + CRLF + m.body
    ensures Parse(SessionFor(m), Str(m)) ==
            Run(Session(block, [], Message(m.kind, m.requestLine, m.firstLine, [], "", HeadersPending, Unset), []))
  {
    hide Find, Line, AfterLine, Run, Str, HeaderBlock;
    StrStarts(m, block);
    var s := FeedSession(SessionFor(m), Str(m));
    assert "" + Str(m) == Str(m);
    PopLine(m.firstLine, block);
    RunStep(s);
  }

  lemma StrStarts(m: Message, block: string)
    requires block == HeaderBlock(m.headers) + CRLF + m.body
    ensures Str(m) == m.firstLine + CRLF + block && Str(m) != ""
  {
    hide HeaderBlock;
  }

  lemma HeadEnds(m: Message)
    ensures Run(Session(CRLF + m.body, [], HeadersBack(m), [])) ==
            if Framed(HeadersBack(m)).None? then None
            else Run(Session(m.body, [], HeadersBack(m).(stage := BodyPending, length := LengthOf(Framed(HeadersBack(m)).value)), []))
  {
    hide Find, Line, AfterLine, Run, FramingOf;
    var u := Session(CRLF + m.body, [], HeadersBack(m), []);
    assert "" + CRLF + m.body == CRLF + m.body;
    EmptyLine();
    PopLine("", m.body);
    RunStep(u);
  }

  lemma EmptyLine()
    ensures IsLine("")
  {}

  /** A new session waits when there is nothing to read. */
  lemma NothingToRead(kind: Kind, complete: seq<Message>)
    ensures Run(Session("", complete, Fresh(kind), [])) == Some(Session("", complete, Fresh(kind), []))
  {
    EmptyLine();
    RunStep(Session("", complete, Fresh(kind), []));
  }

  lemma {:induction false} CompletedStay(s: Session)
    requires Run(s).Some?
    ensures s.complete <= Run(s).value.complete
    decreases |s.buffer|, StageRank(s.message.stage)
  {
    hide Run, ParsingStep;
    RunStep(s);
    StepDecreases(s);
    StepOnlyAdds(s);
    if ParsingStep(s).Go? {
      CompletedStay(ParsingStep(s).s);
    }
  }

  lemma StepOnlyAdds(s: Session)
    ensures ParsingStep(s).Go? ==> s.complete <= ParsingStep(s).s.complete
    ensures ParsingStep(s).Stop? ==> s.complete == ParsingStep(s).s.complete
  {
    hide Find, Line, AfterLine, TakeBody, WithHeader, WithBodyLength;
  }

  /** A body read as a whole: what the first body step must do for the message to come out as `m`. */
  lemma BodyIsBack(m: Message, b: Message)
    requires b.stage == BodyPending && b.body == "" && m.stage == Complete && b.kind == m.kind
    ensures Run(Session(m.body, [], b, [])) == Some(Session("", [m], Fresh(m.kind), []))
            <==> TakeBody(b, m.body) == BodyBytes(m, |m.body|)
  {
    hide Run, TakeBody;
    var s := Session(m.body, [], b, []);
    RunStep(s);
    if TakeBody(b, m.body).BodyBytes? {
      var BodyBytes(t, n) := TakeBody(b, m.body);
      TakeBodyKeeps(b, m.body);
      if n <= |m.body| && t.stage == Complete {
        FinishedBody(t, m.body[n..]);
        if t == m && n == |m.body| {
          NothingToRead(m.kind, [m]);
          assert m.body[n..] == "";
          assert Run(s) == Some(Session("", [m], Fresh(m.kind), []));
        } else {
          assert Run(s) != Some(Session("", [m], Fresh(m.kind), []));
        }
      } else {
          assert Run(s) != Some(Session("", [m], Fresh(m.kind), []));
      }
    }
  }

  /** A completed message is the first of the completed ones from then on. */
  lemma FinishedBody(t: Message, rest: string)
    requires t.stage == Complete
    ensures Run(Session(rest, [], t, [])) == Run(Session(rest, [t], Fresh(t.kind), []))
    ensures var r := Run(Session(rest, [], t, [])); r.Some? ==> |r.value.complete| > 0 && r.value.complete[0] == t
  {
    hide Run;
    RunStep(Session(rest, [], t, []));
    assert [] + [t] == [t];
    var v := Session(rest, [t], Fresh(t.kind), []);
    if Run(v).Some? {
      CompletedStay(v);
      assert v.complete[0] == t;
    }
  }

  lemma TakeBodyKeeps(b: Message, s: string)
    requires TakeBody(b, s).BodyBytes?
    ensures var t := TakeBody(b, s).m;
            t.kind == b.kind && t.headers == b.headers && t.firstLine == b.firstLine && t.requestLine == b.requestLine
    ensures b.body == "" ==> |TakeBody(b, s).m.body| == Min(TakeBody(b, s).count, |s|)
  {
    hide ReadInput;
  }

  lemma BodyTaken(m: Message)
    requires Shaped(m)
    ensures TakeBody(m.(body := "", stage := BodyPending, length := LengthOf(Framed(m).value)), m.body) == BodyBytes(m, |m.body|)
            <==> Whole(m)
  {
    hide FramingOf, ReadInput, HeaderShaped;
    assert m.body[..|m.body|] == m.body && "" + m.body == m.body;
  }

  /** Exactly when a completed message survives `str` and `parse`: its header values are plain
      and its body ends by its own framing. */
  lemma RoundTripsExactly(m: Message)
    requires Shaped(m)
    ensures RoundTrips(m) <==> Whole(m) && forall h | h in m.headers :: PlainValue(h)
  {
    hide FramingOf, Run, Parse, Str, TakeBody, Whole, PlainValue, HeaderShaped;
    HeadIsRead(m);
    RereadAllSame(m.headers);
    BodyTaken(m);
    if Framed(HeadersBack(m)).Some? {
      var b := HeadersBack(m).(stage := BodyPending, length := LengthOf(Framed(HeadersBack(m)).value));
      BodyIsBack(m, b);
      if TakeBody(b, m.body).BodyBytes? {
        TakeBodyKeeps(b, m.body);
      }
    }
  }

  // What the runs of the parser produce

  /** First line and header lines as the parser stores them. */
  predicate HeadShaped(m: Message) {
    IsLine(m.firstLine) && (forall h | h in m.headers :: HeaderShaped(h)) && (m.kind == Request ==> m.requestLine == "")
  }

  predicate LengthFits(m: Message) {
    Framed(m).Some? && (m.length == LengthOf(Framed(m).value) || (Framed(m).value.ChunkedCoding? && m.length.Chunks?))
  }

  predicate InProgress(m: Message) {
    match m.stage
    case FirstLinePending => m == Fresh(m.kind)
    case HeadersPending => HeadShaped(m) && m.body == "" && m.length == Unset
    case BodyPending => HeadShaped(m) && LengthFits(m)
    case Complete => Shaped(m)
  }

  predicate AllShaped(s: Session) {
    InProgress(s.message) && forall m | m in s.complete :: Shaped(m)
  }

  lemma StepShaped(s: Session)
    requires AllShaped(s)
    ensures ParsingStep(s).Go? ==> AllShaped(ParsingStep(s).s)
    ensures ParsingStep(s).Stop? ==> AllShaped(ParsingStep(s).s)
  {
    hide FirstLineStep, HeaderStep, BodyStep, AllShaped;
    match s.message.stage
    case FirstLinePending =>
      LineStepStops(s);
      if FirstLineStep(s).Go? { FirstLineShaped(s); }
    case HeadersPending =>
      LineStepStops(s);
      if HeaderStep(s).Go? { HeaderLineShaped(s); }
    case BodyPending => if !BodyStep(s).Thrown? { BodyShaped(s); }
    case Complete => MovedShaped(s);
  }

  lemma LineStepStops(s: Session)
    ensures FirstLineStep(s).Stop? ==> FirstLineStep(s).s == s
    ensures HeaderStep(s).Stop? ==> HeaderStep(s).s == s
  {
    hide Find;
  }

  lemma MovedShaped(s: Session)
    requires AllShaped(s) && s.message.stage == Complete
    ensures AllShaped(s.(complete := s.complete + [s.message], message := Fresh(s.message.kind)))
  {
    hide Shaped;
  }

  lemma FirstLineShaped(s: Session)
    requires AllShaped(s) && s.message.stage == FirstLinePending && FirstLineStep(s).Go?
    ensures AllShaped(FirstLineStep(s).s)
  {
    hide Find, Shaped, HeaderShaped, LengthFits;
    FindPrefixFree(s.buffer, CRLF);
  }

  lemma HeaderLineShaped(s: Session)
    requires AllShaped(s) && s.message.stage == HeadersPending && HeaderStep(s).Go?
    ensures AllShaped(HeaderStep(s).s)
  {
    hide Find, Shaped, HeaderShaped, FramingOf, ParseHeader;
    FindPrefixFree(s.buffer, CRLF);
    if Line(s.buffer) != "" {
      ParsedHeaderShaped(Line(s.buffer));
    }
  }

  lemma BodyShaped(s: Session)
    requires AllShaped(s) && s.message.stage == BodyPending && (BodyStep(s).Go? || BodyStep(s).Stop?)
    ensures AllShaped(BodyStep(s).s)
  {
    hide HeaderShaped, IsLine, FramingOf, ReadInput;
  }

  lemma {:induction false} RunShaped(s: Session)
    requires AllShaped(s) && Run(s).Some?
    ensures AllShaped(Run(s).value)
    decreases |s.buffer|, StageRank(s.message.stage)
  {
    hide Run, ParsingStep, AllShaped;
    RunStep(s);
    StepShaped(s);
    StepDecreases(s);
    if ParsingStep(s).Go? {
      RunShaped(ParsingStep(s).s);
    }
  }

  lemma EofShaped(s: Session)
    requires AllShaped(s) && AtEof(s.message).Some?
    ensures AllShaped(s.(message := AtEof(s.message).value))
  {
    hide HeaderShaped, IsLine, FramingOf;
  }

  /** In every run, with requests arriving at any time and the connection closed or not, every completed message is well shaped. */
  lemma {:induction false} CompletedShaped(s: Session, calls: seq<Call>)
    requires AllShaped(s) && RunCalls(s, calls).Some?
    ensures AllShaped(RunCalls(s, calls).value)
    decreases |calls|
  {
    hide Parse, AllShaped;
    if calls != [] {
      match calls[0] {
        case Data(buf) => ParseShaped(s, buf);
        case NewRequest(line) => RequestShaped(s, line);
      }
      CompletedShaped(Answer(s, calls[0]).value, calls[1..]);
    }
  }

  lemma ParseShaped(s: Session, buf: string)
    requires AllShaped(s) && Parse(s, buf).Some?
    ensures AllShaped(Parse(s, buf).value)
  {
    hide Run, AllShaped;
    if buf != "" {
      FeedShaped(s, buf);
      RunShaped(FeedSession(s, buf));
    } else {
      EofShaped(s);
      RunShaped(s.(message := AtEof(s.message).value));
    }
  }

  lemma RequestShaped(s: Session, line: string)
    requires AllShaped(s)
    ensures AllShaped(s.(requests := s.requests + [line]))
  {}

  lemma FeedShaped(s: Session, more: string)
    requires AllShaped(s)
    ensures AllShaped(FeedSession(s, more))
  {}

  /** In one call with all the bytes, every body is read from its beginning. */
  predicate AllWhole(s: Session) {
    && AllShaped(s)
    && (s.message.stage == BodyPending ==> s.message.body == "" && s.message.length == LengthOf(Framed(s.message).value))
    && (s.message.stage == Complete ==> Whole(s.message))
    && forall m | m in s.complete :: Whole(m)
  }

  lemma StepWhole(s: Session)
    requires AllWhole(s) && !StepWraps(s) && ParsingStep(s).Go?
    ensures AllWhole(ParsingStep(s).s)
  {
    StepShaped(s);
    hide AllShaped, FirstLineStep;
    match s.message.stage
    case FirstLinePending => assert ParsingStep(s).s.message.stage == HeadersPending by { FirstLineAdvances(s); }
    case HeadersPending => HeaderWhole(s);
    case BodyPending => BodyWhole(s);
    case Complete =>
  }

  lemma FirstLineAdvances(s: Session)
    requires FirstLineStep(s).Go?
    ensures FirstLineStep(s).s.message.stage == HeadersPending && FirstLineStep(s).s.complete == s.complete
  {
    hide Find;
  }

  lemma HeaderWhole(s: Session)
    requires InProgress(s.message) && s.message.stage == HeadersPending && HeaderStep(s).Go?
    ensures HeaderStep(s).s.complete == s.complete
    ensures var m := HeaderStep(s).s.message;
            || m.stage == HeadersPending
            || (m.stage == BodyPending && m.body == "" && Framed(m).Some? && m.length == LengthOf(Framed(m).value))
  {
    hide Find, FramingOf, ParseHeader, HeadShaped;
  }

  lemma BodyWhole(s: Session)
    requires InProgress(s.message) && s.message.stage == BodyPending && s.message.body == "" && BodyStep(s).Go?
    requires s.message.length == LengthOf(Framed(s.message).value) && !StepWraps(s)
    ensures BodyStep(s).s.complete == s.complete
    ensures var m := BodyStep(s).s.message; m.stage == Complete && Framed(m).Some? && Whole(m)
  {
    hide FramingOf, ReadInput, HeadShaped;
    if Framed(s.message).value.ChunkedCoding? {
      PrefixIsRead(s.buffer, Framed(s.message).value.trailers);
      var n := ReadInput(Init(Framed(s.message).value.trailers), s.buffer).count;
      assert "" + s.buffer[..n] == s.buffer[..n];
    }
  }

  /** A chunked body read from a longer buffer is also read from itself alone. */
  lemma PrefixIsRead(s: string, trailers: bool)
    requires !ReadWraps(Init(trailers), s)
    ensures ReadInput(Init(trailers), s).Finished? ==>
              var n := ReadInput(Init(trailers), s).count; n <= |s| && ReadInput(Init(trailers), s[..n]) == Finished(n)
  {
    hide ReadInput, IsBody, ReadWraps;
    if ReadInput(Init(trailers), s).Finished? {
      FinishedLength(s, trailers);
      var n := ReadInput(Init(trailers), s).count;
      ReadsExactlyTheBody(s, trailers, n);
      ReadsExactlyTheBody(s[..n], trailers, n);
      assert s[..n][..n] == s[..n];
    }
  }

  lemma FinishedLength(s: string, trailers: bool)
    ensures ReadInput(Init(trailers), s).Finished? ==> ReadInput(Init(trailers), s).count <= |s|
  {
    hide ReadInput;
    InitValid(trailers);
    ReadBookkeeping(Init(trailers), s);
  }

  lemma {:induction false} RunWhole(s: Session)
    requires AllWhole(s) && !SessionWraps(s) && Run(s).Some?
    ensures forall m | m in Run(s).value.complete :: Shaped(m) && Whole(m)
    decreases |s.buffer|, StageRank(s.message.stage)
  {
    hide Run, ParsingStep, InProgress, Shaped, Whole, SessionWraps;
    RunStep(s);
    WrapsUnfold(s);
    StepDecreases(s);
    StepOnlyAdds(s);
    if ParsingStep(s).Go? {
      StepWhole(s);
      RunWhole(ParsingStep(s).s);
    }
  }

  /** The round trip: whatever stream of requests or responses is fed to a new parser, and however it is cut, each message
      that comes out parses back to itself from its own text exactly when its header values are plain. For responses
      the stream must not take a chunk of wrapping size. */
  lemma ParsedMessagesRoundTrip(kind: Kind, requests: seq<string>, pieces: seq<string>, stream: string, m: Message)
    requires IsCut(pieces, stream) && (kind == Response ==> !SessionWraps(FeedSession(Open(kind, requests), stream)))
    requires ParseAll(Open(kind, requests), pieces).Some?
    requires m in ParseAll(Open(kind, requests), pieces).value.complete
    ensures RoundTrips(m) <==> forall h | h in m.headers :: PlainValue(h)
  {
    hide RoundTrips, PlainValue, Whole, Shaped, SessionWraps;
    CompletedWhole(kind, requests, pieces, stream);
    RoundTripsExactly(m);
  }

  lemma CompletedWhole(kind: Kind, requests: seq<string>, pieces: seq<string>, stream: string)
    requires IsCut(pieces, stream) && (kind == Response ==> !SessionWraps(FeedSession(Open(kind, requests), stream)))
    requires ParseAll(Open(kind, requests), pieces).Some?
    ensures forall m | m in ParseAll(Open(kind, requests), pieces).value.complete :: Shaped(m) && Whole(m)
  {
    hide Run, Whole, Shaped, SessionWraps, Concat;
    var s := Open(kind, requests);
    FragmentationIndependence(s, pieces, stream);
    assert stream != "" by { CutNotEmpty(pieces, stream); }
    assert "" + stream == stream;
    if kind == Request {
      RequestsNeverWrap(FeedSession(s, stream));
    }
    RunWhole(FeedSession(s, stream));
  }

  lemma CutNotEmpty(pieces: seq<string>, stream: string)
    requires IsCut(pieces, stream)
    ensures stream != ""
  {
    assert pieces[0] != "";
  }

  // A response for which the cut matters

  ghost function ChunkedResponse(body: string): Message {
    Message(Response, "GET / HTTP/1.1", "HTTP/1.1 200 OK", [Header("Transfer-Encoding", "chunked")], body, Complete, Spent)
  }

  lemma OneCoding()
    ensures EndsChunked("chunked")
  {
    hide Equivalent, Tokens;
    assert Join(["chunked"], ',') == "chunked";
    JoinSplit(["chunked"], ',');
    EquivalentSelf("chunked");
  }

  lemma OkStatus()
    ensures StatusCode("HTTP/1.1 200 OK") == Some("200")
  {
    hide Tokens;
    var tokens := ["HTTP/1.1", "200", "OK"];
    assert tokens[1..] == ["200", "OK"] && tokens[1..][1..] == ["OK"];
    assert Join(tokens, ' ') == "HTTP/1.1 200 OK";
    JoinSplit(tokens, ' ');
  }

  lemma OneHeader()
    ensures var headers := [Header("Transfer-Encoding", "chunked")];
            Lookup(headers, "Transfer-Encoding") == Some("chunked") && !Has(headers, "Trailer")
  {
    EquivalentSelf("Transfer-Encoding");
    DifferentNames();
    hide Equivalent;
  }

  lemma DifferentNames()
    ensures !Equivalent("Transfer-Encoding", "Trailer")
  {
    assert Stripped("Transfer-Encoding") == "Transfer-Encoding" && Stripped("Trailer") == "Trailer";
  }

  lemma ChunkedResponseFramed(body: string)
    ensures Framed(ChunkedResponse(body)) == Some(ChunkedCoding(false))
  {
    hide Lookup, StatusCode, EndsChunked, Tokens, Equivalent;
    OneCoding();
    OkStatus();
    OneHeader();
    NotHead();
    assert "200"[0] == '2' && "200" != "204" && "200" != "304";
  }

  lemma NotHead()
    ensures !IsHead("GET / HTTP/1.1")
  {
    assert "GET / HTTP/1.1"[0] == 'G' && "HEAD "[0] == 'H';
  }

  lemma ChunkedResponseShaped(body: string)
    ensures Shaped(ChunkedResponse(body)) && forall h | h in ChunkedResponse(body).headers :: PlainValue(h)
  {
    hide FramingOf, IsLine, HeaderShaped;
    ChunkedResponseFramed(body);
    NoCarriageReturn("HTTP/1.1 200 OK");
    CodingShaped();
  }

  lemma CodingShaped()
    ensures HeaderShaped(Header("Transfer-Encoding", "chunked"))
  {
    hide IsLine;
    NoCarriageReturn(HeaderText(Header("Transfer-Encoding", "chunked")));
  }

  /** Read at once, the response of 2^32 + 4 bytes with a chunk of size 0xFFFFFFFE is one whole message that round-trips; cut after the
      fifth byte of its body, it makes the parser throw. */
  lemma LongResponseDependsOnCut()
    ensures var m := ChunkedResponse(FirstPiece() + SecondPiece(false));
            && RoundTrips(m)
            && IsCut([Str(ChunkedResponse(FirstPiece())), SecondPiece(false)], Str(m))
            && ParseAll(SessionFor(m), [Str(ChunkedResponse(FirstPiece())), SecondPiece(false)]).None?
  {
    hide RoundTrips, Whole, PlainValue, Shaped, Str, FirstPiece, SecondPiece, FramingOf, Parse, ReadInput;
    var m, head := ChunkedResponse(FirstPiece() + SecondPiece(false)), ChunkedResponse(FirstPiece());
    WrappedSize(false);
    ChunkedResponseShaped(m.body);
    ChunkedResponseFramed(m.body);
    WholeIsFinished(m);
    RoundTripsExactly(m);
    HeadFails(head);
    StrSplit(m, FirstPiece(), SecondPiece(false));
    TwoPieces(Str(head), SecondPiece(false));
    assert SecondPiece(false) != "" by { PieceNotEmpty(); }
  }

  lemma PieceNotEmpty()
    ensures SecondPiece(false) != ""
  {}

  lemma WholeIsFinished(m: Message)
    requires Framed(m) == Some(ChunkedCoding(false)) && ReadInput(Init(false), m.body) == Finished(|m.body|)
    ensures Whole(m)
  {
    hide ReadInput, FramingOf;
  }

  lemma StrSplit(m: Message, a: string, b: string)
    requires m.body == a + b
    ensures Str(m) == Str(m.(body := a)) + b && Str(m.(body := a)) != ""
  {
    var head := m.firstLine + CRLF + HeaderBlock(m.headers) + CRLF;
    assert head + (a + b) == (head + a) + b;
  }

  lemma HeadFails(m: Message)
    requires m == ChunkedResponse(m.body) && ReadInput(Init(false), m.body) == Failed
    ensures Parse(SessionFor(m), Str(m)).None?
  {
    hide Parse, Str, FramingOf, Run, ReadInput, Shaped, PlainValue;
    ChunkedResponseShaped(m.body);
    ChunkedResponseFramed(m.body);
    HeadIsRead(m);
    RereadOne(m);
    BodyFails(Session(m.body, [], HeadersBack(m).(stage := BodyPending, length := LengthOf(Framed(HeadersBack(m)).value)), []));
  }

  lemma RereadOne(m: Message)
    requires m == ChunkedResponse(m.body)
    ensures RereadAll(m.headers) == m.headers && Framed(HeadersBack(m)) == Framed(m)
  {
    hide FramingOf, Shaped;
    ChunkedResponseShaped(m.body);
    assert forall h | h in m.headers :: HeaderShaped(h) by { ShapedHeaders(m); }
    RereadAllSame(m.headers);
  }

  lemma ShapedHeaders(m: Message)
    requires Shaped(m)
    ensures forall h | h in m.headers :: HeaderShaped(h)
  {}

  lemma BodyFails(s: Session)
    requires s.message.stage == BodyPending && s.message.length == Chunks(Init(false)) && ReadInput(Init(false), s.buffer) == Failed
    ensures Run(s).None?
  {
    hide Run, ReadInput;
    RunStep(s);
  }
}
