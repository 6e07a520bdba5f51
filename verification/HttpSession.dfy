/** `HTTPMessageSequence` and `HTTPResponseParser`: bytes in, complete messages out. */
module HttpSession {
  import opened Sequences
  import opened Text
  import opened ChunkedParser
  import opened HttpMessage
  import opened Widths

  /** `requests` are the first lines of the requests still to be answered (responses only). */
  datatype Session = Session(buffer: string, complete: seq<Message>, message: Message, requests: seq<string>)

  function Open(kind: Kind, requests: seq<string>): Session {
    Session("", [], Fresh(kind), requests)
  }

  function FeedSession(s: Session, more: string): Session {
    s.(buffer := s.buffer + more)
  }

  /** `Thrown` is absorbing: after it nothing more is said about the session. */
  datatype Step = Thrown | Stop(s: Session) | Go(s: Session)

  /** `get_and_pop_line`, without the CRLF. */
  function Line(buffer: string): string
    requires Find(buffer, CRLF).Some?
  {
    buffer[..Find(buffer, CRLF).value]
  }

  function AfterLine(buffer: string): string
    requires Find(buffer, CRLF).Some?
  {
    buffer[Find(buffer, CRLF).value + 2..]
  }

  function FirstLineStep(s: Session): Step {
    if Find(s.buffer, CRLF).None? then Stop(s)
    else if s.message.kind == Response && s.requests == [] then Thrown
    else
      var m := if s.message.kind == Response then s.message.(requestLine := s.requests[0]) else s.message;
      var requests := if s.message.kind == Response then s.requests[1..] else s.requests;
      Go(s.(buffer := AfterLine(s.buffer), message := WithFirstLine(m, Line(s.buffer)), requests := requests))
  }

  function HeaderStep(s: Session): Step {
    if Find(s.buffer, CRLF).None? then Stop(s)
    else
      var m := if Line(s.buffer) == "" then WithBodyLength(s.message) else WithHeader(s.message, Line(s.buffer));
      if m.None? then Thrown else Go(s.(buffer := AfterLine(s.buffer), message := m.value))
  }

  function BodyStep(s: Session): Step {
    match TakeBody(s.message, s.buffer)
    case BodyError => Thrown
    case BodyBytes(m, n) =>
      if n > |s.buffer| || (n < |s.buffer| && m.stage != Complete) then Thrown
      else
        var t := s.(buffer := s.buffer[n..], message := m);
        if m.stage == Complete then Go(t) else Stop(t)
  }

  /** `parsing_step`. */
  function ParsingStep(s: Session): Step {
    match s.message.stage
    case FirstLinePending => FirstLineStep(s)
    case HeadersPending => HeaderStep(s)
    case BodyPending => BodyStep(s)
    case Complete => Go(s.(complete := s.complete + [s.message], message := Fresh(s.message.kind)))
  }

  function StageRank(stage: Stage): nat {
    match stage case FirstLinePending => 0 case Complete => 1 case BodyPending => 2 case HeadersPending => 3
  }

  lemma StepDecreases(s: Session)
    ensures ParsingStep(s).Go? ==> var t := ParsingStep(s).s;
              |t.buffer| < |s.buffer| || (|t.buffer| == |s.buffer| && StageRank(t.message.stage) < StageRank(s.message.stage))
  {
    hide Find, TakeBody, WithHeader, WithBodyLength;
  }

  /** The loop of `parse`. */
  function Run(s: Session): Option<Session>
    decreases |s.buffer|, StageRank(s.message.stage)
  {
    StepDecreases(s);
    match ParsingStep(s)
    case Thrown => None
    case Stop(t) => Some(t)
    case Go(t) => Run(t)
  }

  /** `parse`: an empty string is the end of the stream. */
  function Parse(s: Session, buf: string): Option<Session> {
    if buf != "" then Run(FeedSession(s, buf))
    else
      var m := AtEof(s.message);
      if m.None? then None else Run(s.(message := m.value))
  }

  // Fragmentation

  /** Bytes a session has been given and may still look at. */
  function Held(s: Session): nat {
    |s.buffer| + if s.message.length.Chunks? then |s.message.length.parser.scanner.buffer| else 0
  }

  /** A chunked body in progress satisfies the bookkeeping invariant of its parser. */
  predicate Sound(s: Session) {
    s.message.length.Chunks? ==> s.message.stage == BodyPending && Valid(s.message.length.parser)
  }

  lemma StepKeeps(s: Session)
    requires Sound(s)
    ensures ParsingStep(s).Go? ==> Sound(ParsingStep(s).s) && Held(ParsingStep(s).s) <= Held(s)
    ensures ParsingStep(s).Stop? ==> Sound(ParsingStep(s).s) && Held(ParsingStep(s).s) <= Held(s)
  {
    hide Find, WithHeader, ReadInput, Valid;
    if s.message.stage == BodyPending && s.message.length.Chunks? {
      var p := s.message.length.parser;
      ReadBookkeeping(p, s.buffer);
      ReadHolds(p, s.buffer);
    } else if s.message.stage == HeadersPending && HeaderStep(s).Go? {
      InitValid(true);
      InitValid(false);
      HeaderStepLength(s);
    }
  }

  lemma ReadHolds(p: Parser, input: string)
    ensures ReadInput(p, input).Pending? ==> |ReadInput(p, input).p.scanner.buffer| <= |p.scanner.buffer| + |input|
  {
    ScanKeeps(Feed(p.scanner, input));
  }

  lemma HeaderStepLength(s: Session)
    requires s.message.stage == HeadersPending && HeaderStep(s).Go?
    ensures var m := HeaderStep(s).s.message; m.length.Chunks? && !s.message.length.Chunks? ==>
              m.stage == BodyPending && (m.length == Chunks(Init(true)) || m.length == Chunks(Init(false)))
    ensures |HeaderStep(s).s.buffer| <= |s.buffer|
  {
    hide Find, FramingOf;
  }

  lemma LineAppend(buffer: string, more: string)
    requires Find(buffer, CRLF).Some?
    ensures Find(buffer + more, CRLF) == Find(buffer, CRLF)
    ensures Line(buffer + more) == Line(buffer) && AfterLine(buffer + more) == AfterLine(buffer) + more
  {
    FindAppend(buffer, CRLF, more);
    var k := Find(buffer, CRLF).value;
    assert (buffer + more)[..k] == buffer[..k];
    assert (buffer + more)[k + 2..] == buffer[k + 2..] + more;
  }

  /** A step that goes on, or fails, does the same when more bytes are already there. */
  ghost predicate SameStep(s: Session, more: string) {
    match ParsingStep(s)
    case Thrown => ParsingStep(FeedSession(s, more)).Thrown?
    case Go(t) => ParsingStep(FeedSession(s, more)) == Go(FeedSession(t, more))
    case Stop(t) => ParsingStep(FeedSession(s, more)) == ParsingStep(FeedSession(t, more))
  }

  lemma LineStepAppend(s: Session, more: string)
    requires s.message.stage == FirstLinePending || s.message.stage == HeadersPending
    ensures SameStep(s, more)
  {
    hide Find, Line, AfterLine, WithHeader, WithBodyLength;
    if Find(s.buffer, CRLF).Some? {
      LineAppend(s.buffer, more);
    }
  }

  /** Reading a body in two pieces, for one that is not finished by the first. */
  ghost predicate SameBody(m: Message, a: string, b: string) {
    match TakeBody(m, a)
    case BodyError => TakeBody(m, a + b).BodyError?
    case BodyBytes(t, n) =>
      if t.stage == Complete then n <= |a| && TakeBody(m, a + b) == BodyBytes(t, n)
      else
        && n == |a|
        && TakeBody(m, a + b) == match TakeBody(t, b)
                                 case BodyError => BodyError
                                 case BodyBytes(u, k) => BodyBytes(u, |a| + k)
  }

  lemma KnownBodyAppend(m: Message, a: string, b: string)
    requires m.stage == BodyPending && m.length.Known?
    ensures SameBody(m, a, b)
  {
    var left := m.length.size - |m.body|;
    if 0 <= left <= |a| {
      assert (a + b)[..left] == a[..left];
    } else if left > |a| {
      var n := Min(left, |a| + |b|);
      assert a[..|a|] == a && (a + b)[..n] == a + b[..n - |a|];
      Assoc(m.body, a, b[..n - |a|]);
    }
  }

  /** The same for a chunked body, except that the first piece may fail on a chunk of wrapping size that the second would complete. */
  lemma ChunkedBodyAppend(m: Message, a: string, b: string)
    requires m.stage == BodyPending && m.length.Chunks? && Valid(m.length.parser)
    ensures var p := m.length.parser;
            && (ReadWraps(p, a) ==> ReadWraps(p, a + b))
            && match TakeBody(m, a)
               case BodyError => TakeBody(m, a + b).BodyError? || ReadWraps(p, a + b)
               case BodyBytes(t, _) =>
                 && SameBody(m, a, b)
                 && if t.stage == Complete then ReadWraps(p, a + b) <==> ReadWraps(p, a)
                    else t.length.Chunks? && (ReadWraps(p, a + b) <==> ReadWraps(p, a) || ReadWraps(t.length.parser, b))
  {
    hide ReadInput, Valid, ReadWraps;
    var p := m.length.parser;
    ReadSplit(p, a, b);
    ReadBookkeeping(p, a);
    if ReadInput(p, a).Pending? {
      ReadBookkeeping(ReadInput(p, a).p, b);
      PendingBodyAppend(m, a, b);
    } else if ReadInput(p, a).Finished? {
      assert (a + b)[..ReadInput(p, a).count] == a[..ReadInput(p, a).count];
    }
  }

  lemma PendingBodyAppend(m: Message, a: string, b: string)
    requires m.stage == BodyPending && m.length.Chunks? && ReadInput(m.length.parser, a).Pending?
    requires var q := ReadInput(m.length.parser, a).p;
             match ReadInput(q, b)
             case Failed => ReadInput(m.length.parser, a + b).Failed?
             case Finished(n) => n <= |b| && ReadInput(m.length.parser, a + b) == Finished(|a| + n)
             case Pending(r) => ReadInput(m.length.parser, a + b) == Pending(r)
    ensures SameBody(m, a, b)
  {
    hide ReadInput;
    var q := ReadInput(m.length.parser, a).p;
    Assoc(m.body, a, b);
    if ReadInput(q, b).Finished? {
      var n := ReadInput(q, b).count;
      assert (a + b)[..|a| + n] == a + b[..n];
      Assoc(m.body, a, b[..n]);
    }
  }

  /** The step reads a chunk of wrapping size. */
  predicate StepWraps(s: Session) {
    s.message.stage == BodyPending && s.message.length.Chunks? && ReadWraps(s.message.length.parser, s.buffer)
  }

  /** Some step of the loop does. */
  predicate SessionWraps(s: Session)
    decreases |s.buffer|, StageRank(s.message.stage)
  {
    StepDecreases(s);
    StepWraps(s) || (ParsingStep(s).Go? && SessionWraps(ParsingStep(s).s))
  }

  /** What more bytes change in a step: nothing, but for a chunk of wrapping size. */
  ghost predicate StepGrows(s: Session, more: string) {
    var f := FeedSession(s, more);
    && (StepWraps(s) ==> StepWraps(f))
    && match ParsingStep(s)
       case Thrown => ParsingStep(f).Thrown? || StepWraps(f)
       case Go(_) => SameStep(s, more) && (StepWraps(f) <==> StepWraps(s))
       case Stop(t) => SameStep(s, more) && (StepWraps(f) <==> StepWraps(s) || StepWraps(FeedSession(t, more)))
  }

  lemma PlainBodyAppend(s: Session, more: string)
    requires s.message.stage == BodyPending && !s.message.length.Chunks?
    ensures StepGrows(s, more)
  {
    hide ReadWraps;
    var m, buf := s.message, s.buffer;
    if m.length.Known? {
      KnownBodyAppend(m, buf, more);
    } else {
      Assoc(m.body, buf, more);
    }
    if TakeBody(m, buf).BodyBytes? {
      KeepsLength(m, buf);
      hide TakeBody;
      BodyStepFollows(s, more);
    }
  }

  lemma KeepsLength(m: Message, buf: string)
    requires m.stage == BodyPending && !m.length.Chunks? && TakeBody(m, buf).BodyBytes?
    ensures TakeBody(m, buf).m.length == m.length && TakeBody(m, buf).m.stage in {BodyPending, Complete}
  {}

  lemma ChunkedStepAppend(s: Session, more: string)
    requires Sound(s) && s.message.stage == BodyPending && s.message.length.Chunks?
    ensures StepGrows(s, more)
  {
    hide Valid, ReadWraps, ReadInput;
    var m, buf := s.message, s.buffer;
    ChunkedBodyAppend(m, buf, more);
    assert TakeBody(m, buf).BodyBytes? ==> TakeBody(m, buf).m.stage in {BodyPending, Complete};
    hide TakeBody;
    if TakeBody(m, buf).BodyBytes? {
      BodyStepFollows(s, more);
      if TakeBody(m, buf).m.stage != Complete {
        assert buf[|buf|..] + more == more;
        assert BodyStep(s) == Stop(s.(buffer := buf[|buf|..], message := TakeBody(m, buf).m));
      }
    }
  }

  lemma BodyStepFollows(s: Session, more: string)
    requires s.message.stage == BodyPending && TakeBody(s.message, s.buffer).BodyBytes?
    requires SameBody(s.message, s.buffer, more)
    requires TakeBody(s.message, s.buffer).m.stage in {BodyPending, Complete}
    ensures SameStep(s, more)
  {
    hide TakeBody;
    var buf := s.buffer;
    var BodyBytes(t, n) := TakeBody(s.message, buf);
    if t.stage == Complete {
      assert (buf + more)[n..] == buf[n..] + more;
    } else {
      assert buf[n..] + more == more;
      if TakeBody(t, more).BodyBytes? {
        var k := TakeBody(t, more).count;
        if k <= |more| {
          assert (buf + more)[|buf| + k..] == more[k..];
        }
      }
    }
  }

  lemma StepAppend(s: Session, more: string)
    requires Sound(s)
    ensures StepGrows(s, more)
  {
    hide FirstLineStep, HeaderStep, BodyStep, ReadWraps;
    match s.message.stage
    case Complete =>
    case BodyPending => if s.message.length.Chunks? { ChunkedStepAppend(s, more); } else { PlainBodyAppend(s, more); }
    case _ =>
      LineStepAppend(s, more);
      LineStops(s);
  }

  lemma LineStops(s: Session)
    requires s.message.stage == FirstLinePending || s.message.stage == HeadersPending
    ensures ParsingStep(s).Stop? ==> ParsingStep(s).s == s && Find(s.buffer, CRLF).None?
    ensures ParsingStep(s).Go? ==> Find(s.buffer, CRLF).Some? && ParsingStep(s).s.buffer == AfterLine(s.buffer)
  {
    hide Find, WithHeader, WithBodyLength;
  }

  lemma RunStep(s: Session)
    ensures Run(s) == match ParsingStep(s) case Thrown => None case Stop(t) => Some(t) case Go(t) => Run(t)
  {
    hide ParsingStep;
  }

  lemma WrapsUnfold(s: Session)
    ensures SessionWraps(s) <==> StepWraps(s) || (ParsingStep(s).Go? && SessionWraps(ParsingStep(s).s))
  {
    hide ParsingStep, StepWraps;
  }

  /** Parsing can stop where the bytes run out and resume when more arrive; only a failure can be due to stopping, on a chunk of
      wrapping size. */
  lemma {:induction false} RunAppend(s: Session, more: string)
    requires Sound(s)
    ensures SessionWraps(s) ==> SessionWraps(FeedSession(s, more))
    ensures match Run(s)
            case None => Run(FeedSession(s, more)).None? || SessionWraps(FeedSession(s, more))
            case Some(t) =>
              && Sound(t) && Run(FeedSession(s, more)) == Run(FeedSession(t, more))
              && (SessionWraps(FeedSession(s, more)) <==> SessionWraps(s) || SessionWraps(FeedSession(t, more)))
    decreases |s.buffer|, StageRank(s.message.stage)
  {
    hide ParsingStep, Run, Sound, StepWraps, SessionWraps;
    var f := FeedSession(s, more);
    StepAppend(s, more);
    StepKeeps(s);
    StepDecreases(s);
    RunStep(s);
    RunStep(f);
    WrapsUnfold(s);
    WrapsUnfold(f);
    match ParsingStep(s)
    case Thrown =>
    case Go(t) => RunAppend(t, more);
    case Stop(t) =>
      RunStep(FeedSession(t, more));
      WrapsUnfold(FeedSession(t, more));
  }

  function ParseAll(s: Session, pieces: seq<string>): Option<Session>
    decreases |pieces|
  {
    if pieces == [] then Some(s)
    else
      var t := Parse(s, pieces[0]);
      if t.None? then None else ParseAll(t.value, pieces[1..])
  }

  /** `pieces` are a way of cutting `stream`. */
  predicate IsCut(pieces: seq<string>, stream: string) {
    pieces != [] && (forall i | 0 <= i < |pieces| :: pieces[i] != "") && Concat(pieces) == stream
  }

  /** Independence from fragmentation, for every stream and every cut: feeding it piece by piece leaves the same completed messages,
      message in progress, leftover bytes and unanswered requests as feeding it at once. Only a failure can be due to
      the cut, and only if the stream as a whole takes a chunk of wrapping size. */
  lemma {:induction false} FragmentationIndependence(s: Session, pieces: seq<string>, stream: string)
    requires Sound(s) && IsCut(pieces, stream)
    ensures ParseAll(s, pieces) == Parse(s, stream) || (ParseAll(s, pieces).None? && SessionWraps(FeedSession(s, stream)))
    decreases |pieces|
  {
    hide Run, Sound, SessionWraps;
    var a, rest := pieces[0], Concat(pieces[1..]);
    assert stream == a + rest;
    var f := FeedSession(s, a);
    FeedKeeps(s, a);
    if |pieces| == 1 {
      assert rest == "" && a + rest == a;
      assert ParseAll(s, pieces) == Parse(s, a);
    } else {
      RunAppend(f, rest);
      Assoc(s.buffer, a, rest);
      assert FeedSession(f, rest) == FeedSession(s, a + rest);
      assert pieces[1] != "" && pieces[1..][0] == pieces[1];
      if Run(f).Some? {
        FragmentationIndependence(Run(f).value, pieces[1..], rest);
      }
    }
  }

  lemma FeedKeeps(s: Session, more: string)
    requires Sound(s)
    ensures Sound(FeedSession(s, more)) && Held(FeedSession(s, more)) == Held(s) + |more|
  {}

  /** Two ways of cutting the same stream cannot be told apart if both survive, or if no chunk of wrapping size is taken. */
  lemma CutsAgree(s: Session, a: seq<string>, b: seq<string>, stream: string)
    requires Sound(s) && IsCut(a, stream) && IsCut(b, stream)
    requires (ParseAll(s, a).Some? && ParseAll(s, b).Some?) || !SessionWraps(FeedSession(s, stream))
    ensures ParseAll(s, a) == ParseAll(s, b)
  {
    hide SessionWraps, Parse;
    FragmentationIndependence(s, a, stream);
    FragmentationIndependence(s, b, stream);
  }

  /** Requests have no chunked bodies, so for them there is no exception. */
  lemma {:induction false} RequestsNeverWrap(s: Session)
    requires s.message.kind == Request && !s.message.length.Chunks?
    ensures !SessionWraps(s)
    decreases |s.buffer|, StageRank(s.message.stage)
  {
    hide ParsingStep, SessionWraps;
    WrapsUnfold(s);
    StepDecreases(s);
    if ParsingStep(s).Go? {
      RequestStep(s);
      RequestsNeverWrap(ParsingStep(s).s);
    }
  }

  lemma RequestStep(s: Session)
    requires s.message.kind == Request && !s.message.length.Chunks? && ParsingStep(s).Go?
    ensures ParsingStep(s).s.message.kind == Request && !ParsingStep(s).s.message.length.Chunks?
  {
    hide Find, ParseHeader, Lookup, MyAtoi;
  }

  lemma RequestCuts(s: Session, pieces: seq<string>, stream: string)
    requires s.message.kind == Request && !s.message.length.Chunks? && IsCut(pieces, stream)
    ensures ParseAll(s, pieces) == Parse(s, stream)
  {
    hide SessionWraps, Parse;
    FragmentationIndependence(s, pieces, stream);
    RequestsNeverWrap(FeedSession(s, stream));
  }

  /** Less than 2^32 bytes cannot fill such a chunk either. */
  lemma {:induction false} ShortNeverWraps(s: Session)
    requires Sound(s) && Held(s) < UINT32
    ensures !SessionWraps(s)
    decreases |s.buffer|, StageRank(s.message.stage)
  {
    hide ParsingStep, SessionWraps, Sound, Held;
    WrapsUnfold(s);
    StepDecreases(s);
    StepKeeps(s);
    ShortStep(s);
    if ParsingStep(s).Go? {
      ShortNeverWraps(ParsingStep(s).s);
    }
  }

  lemma ShortStep(s: Session)
    requires Held(s) < UINT32
    ensures !StepWraps(s)
  {
    if s.message.length.Chunks? {
      RoomNeverWraps(Feed(s.message.length.parser.scanner, s.buffer));
    }
  }

  // Exactly when the cut matters

  /** A session between two calls: nothing more can be done with the bytes it has. */
  predicate Between(s: Session) {
    Sound(s) && ParsingStep(s) == Stop(s)
  }

  lemma BodyStops(s: Session)
    requires Sound(s) && s.message.stage == BodyPending && BodyStep(s).Stop?
    ensures var t := BodyStep(s).s; t.buffer == "" && BodyStep(t) == Stop(t) && t.message.stage == BodyPending
  {
    hide ReadInput, Valid;
    var m := s.message;
    if m.length.Chunks? {
      ReadBookkeeping(m.length.parser, s.buffer);
      if ReadInput(m.length.parser, s.buffer).Pending? {
        ReadNothing(ReadInput(m.length.parser, s.buffer).p);
      }
    }
  }

  lemma StopSettles(s: Session)
    requires Sound(s) && ParsingStep(s).Stop?
    ensures Between(ParsingStep(s).s)
  {
    StepKeeps(s);
    hide Sound, FirstLineStep, HeaderStep, BodyStep;
    if s.message.stage == BodyPending {
      BodyStops(s);
    } else {
      LineStops(s);
    }
  }

  lemma {:induction false} RunSettles(s: Session)
    requires Sound(s) && Run(s).Some?
    ensures Between(Run(s).value)
    decreases |s.buffer|, StageRank(s.message.stage)
  {
    hide ParsingStep, Run, Sound, Between;
    RunStep(s);
    StepKeeps(s);
    StepDecreases(s);
    if ParsingStep(s).Go? {
      RunSettles(ParsingStep(s).s);
    } else {
      StopSettles(s);
    }
  }

  lemma OpenBetween(kind: Kind, requests: seq<string>)
    ensures Between(Open(kind, requests))
  {}

  lemma {:induction false} EmptyNeverWraps(s: Session)
    requires Sound(s) && s.buffer == ""
    ensures !SessionWraps(s)
    decreases StageRank(s.message.stage)
  {
    hide ParsingStep, SessionWraps, Sound;
    WrapsUnfold(s);
    StepDecreases(s);
    StepKeeps(s);
    NothingWraps(s);
    if ParsingStep(s).Go? {
      EmptyNeverWraps(ParsingStep(s).s);
    }
  }

  lemma NothingWraps(s: Session)
    requires Sound(s) && s.buffer == ""
    ensures !StepWraps(s)
  {
    hide Scan, Wraps;
    if s.message.length.Chunks? {
      var p := s.message.length.parser.scanner;
      assert p.buffer + "" == p.buffer;
      StalledNeverWraps(p);
    }
  }

  lemma BodyHoldsNothing(s: Session)
    requires Between(s) && s.message.stage == BodyPending
    ensures s.buffer == ""
  {
    hide FirstLineStep, HeaderStep, BodyStep, Sound;
    BodyStops(s);
  }

  /** One more byte after a call: whatever goes on uses it up. */
  lemma OneByteIsUsed(s: Session, c: char)
    requires Between(s)
    ensures var f := FeedSession(s, [c]); !StepWraps(f) && (ParsingStep(f).Go? ==> ParsingStep(f).s.buffer == "")
  {
    var f := FeedSession(s, [c]);
    if s.message.stage == BodyPending {
      BodyHoldsNothing(s);
      assert f.buffer == [c];
      BodyByte(s, c);
    } else {
      hide FirstLineStep, HeaderStep, Sound;
      LineStops(s);
      LineStops(f);
      if ParsingStep(f).Go? {
        FindLater(s.buffer, CRLF, [c]);
      }
    }
  }

  lemma BodyByte(s: Session, c: char)
    requires Between(s) && s.message.stage == BodyPending && s.buffer == ""
    ensures var f := s.(buffer := [c]); !StepWraps(f) && (BodyStep(f).Go? ==> BodyStep(f).s.buffer == "")
  {
    hide ReadInput, Valid, Wraps;
    var m := s.message;
    if m.length.Chunks? {
      StalledScanner(m.length.parser);
      OneByteNeverWraps(m.length.parser.scanner, c);
      ReadBookkeeping(m.length.parser, [c]);
    }
  }

  lemma StalledScanner(p: Parser)
    requires Valid(p)
    ensures Scan(p.scanner) == Stalled(p.scanner)
  {}

  lemma ByteNeverWraps(s: Session, c: char)
    requires Between(s)
    ensures !SessionWraps(FeedSession(s, [c]))
  {
    hide ParsingStep, SessionWraps, StepWraps;
    var f := FeedSession(s, [c]);
    OneByteIsUsed(s, c);
    FeedKeeps(s, [c]);
    StepKeeps(f);
    WrapsUnfold(f);
    if ParsingStep(f).Go? {
      EmptyNeverWraps(ParsingStep(f).s);
    }
  }

  lemma BetweenNeverWraps(s: Session)
    requires Between(s)
    ensures !SessionWraps(s)
  {
    hide ParsingStep, SessionWraps, Sound;
    WrapsUnfold(s);
    if StepWraps(s) {
      BodyHoldsNothing(s);
      NothingWraps(s);
    }
  }

  /** The finest cut. */
  function Singles(stream: string): seq<string> {
    if stream == "" then [] else [stream[..1]] + Singles(stream[1..])
  }

  lemma {:induction false} SinglesCut(stream: string)
    ensures Concat(Singles(stream)) == stream && forall i | 0 <= i < |Singles(stream)| :: Singles(stream)[i] != ""
  {
    if stream != "" {
      SinglesCut(stream[1..]);
      assert Singles(stream)[1..] == Singles(stream[1..]);
      assert stream == stream[..1] + stream[1..];
    }
  }

  /** A stream that survives byte by byte takes no chunk of wrapping size. */
  lemma {:induction false} SinglesSurvive(s: Session, stream: string)
    requires Between(s) && ParseAll(s, Singles(stream)).Some?
    ensures !SessionWraps(FeedSession(s, stream))
    decreases |stream|
  {
    hide Run, Between, SessionWraps;
    if stream == "" {
      assert FeedSession(s, "") == s;
      BetweenNeverWraps(s);
    } else {
      var a, rest := stream[..1], stream[1..];
      assert a == [stream[0]] && stream == a + rest;
      assert Singles(stream)[0] == a && Singles(stream)[1..] == Singles(rest);
      var f := FeedSession(s, a);
      BetweenSound(s);
      FeedKeeps(s, a);
      ByteNeverWraps(s, stream[0]);
      RunSettles(f);
      SinglesSurvive(Run(f).value, rest);
      RunAppend(f, rest);
      Assoc(s.buffer, a, rest);
      assert FeedSession(f, rest) == FeedSession(s, stream);
    }
  }

  lemma BetweenSound(s: Session)
    requires Between(s)
    ensures Sound(s)
  {}

  /** Exactly when cuts do not matter: every way of cutting a stream gives what one call gives if and only if that call fails or
      takes no chunk of wrapping size. */
  lemma CutsMatterExactly(s: Session, stream: string)
    requires Between(s) && stream != ""
    ensures (forall pieces | IsCut(pieces, stream) :: ParseAll(s, pieces) == Parse(s, stream))
            <==> Parse(s, stream).None? || !SessionWraps(FeedSession(s, stream))
  {
    hide Parse, Between, SessionWraps, ParseAll, Singles;
    BetweenSound(s);
    forall pieces | IsCut(pieces, stream)
      ensures ParseAll(s, pieces) == Parse(s, stream) || (ParseAll(s, pieces).None? && SessionWraps(FeedSession(s, stream)))
    {
      FragmentationIndependence(s, pieces, stream);
    }
    if Parse(s, stream).Some? && SessionWraps(FeedSession(s, stream)) {
      SinglesCut(stream);
      assert Singles(stream) != [] by { assert Concat([]) == ""; }
      assert IsCut(Singles(stream), stream);
      if ParseAll(s, Singles(stream)).Some? {
        SinglesSurvive(s, stream);
      }
    }
  }

  // Calls of all kinds

  /** `parse`, with an empty string at the end of the stream, or `new_request_arrived`. */
  datatype Call = Data(buf: string) | NewRequest(firstLine: string)

  function Answer(s: Session, c: Call): Option<Session> {
    match c
    case Data(buf) => Parse(s, buf)
    case NewRequest(line) => Some(s.(requests := s.requests + [line]))
  }

  function RunCalls(s: Session, calls: seq<Call>): Option<Session>
    decreases |calls|
  {
    if calls == [] then Some(s)
    else
      var t := Answer(s, calls[0]);
      if t.None? then None else RunCalls(t.value, calls[1..])
  }

  /** The requests that arrive during the calls. */
  function Arrived(calls: seq<Call>): seq<string> {
    if calls == [] then [] else (if calls[0].NewRequest? then [calls[0].firstLine] else []) + Arrived(calls[1..])
  }

  /** Every state a connection is in between calls satisfies the premise of those theorems. */
  lemma {:induction false} ReachableBetween(s: Session, calls: seq<Call>)
    requires Between(s) && RunCalls(s, calls).Some?
    ensures Between(RunCalls(s, calls).value)
    decreases |calls|
  {
    hide Parse, Between;
    if calls != [] {
      match calls[0] {
        case Data(buf) => ParseBetween(s, buf);
        case NewRequest(line) => RequestBetween(s, line);
      }
      ReachableBetween(Answer(s, calls[0]).value, calls[1..]);
    }
  }

  lemma RequestBetween(s: Session, line: string)
    requires Between(s)
    ensures Between(s.(requests := s.requests + [line]))
  {
    hide Find, TakeBody, WithHeader, WithBodyLength, Valid;
  }

  lemma ParseBetween(s: Session, buf: string)
    requires Between(s) && Parse(s, buf).Some?
    ensures Between(Parse(s, buf).value)
  {
    hide Run, Between;
    BetweenSound(s);
    if buf != "" {
      FeedKeeps(s, buf);
      RunSettles(FeedSession(s, buf));
    } else {
      RunSettles(s.(message := AtEof(s.message).value));
    }
  }

  lemma ReachableFromOpen(kind: Kind, calls: seq<Call>)
    requires RunCalls(Open(kind, []), calls).Some?
    ensures Between(RunCalls(Open(kind, []), calls).value)
  {
    OpenBetween(kind, []);
    ReachableBetween(Open(kind, []), calls);
  }

  // Requests that arrive between the pieces of the responses

  /** Further requests at the end of the queue. */
  function WithMore(s: Session, lines: seq<string>): Session {
    s.(requests := s.requests + lines)
  }

  /** A response begins while no request is waiting. */
  predicate Starved(s: Session) {
    s.message.stage == FirstLinePending && s.message.kind == Response && s.requests == [] && Find(s.buffer, CRLF).Some?
  }

  /** That happens in some step of the loop of `parse`. */
  predicate Starves(s: Session)
    decreases |s.buffer|, StageRank(s.message.stage)
  {
    StepDecreases(s);
    Starved(s) || (ParsingStep(s).Go? && Starves(ParsingStep(s).s))
  }

  lemma StarvesUnfold(s: Session)
    ensures Starves(s) <==> Starved(s) || (ParsingStep(s).Go? && Starves(ParsingStep(s).s))
  {
    hide ParsingStep, Starved;
  }

  lemma StepWithMore(s: Session, lines: seq<string>)
    ensures match ParsingStep(s)
            case Thrown => ParsingStep(WithMore(s, lines)).Thrown? || Starved(s)
            case Stop(t) => ParsingStep(WithMore(s, lines)) == Stop(WithMore(t, lines))
            case Go(t) => ParsingStep(WithMore(s, lines)) == Go(WithMore(t, lines))
  {
    hide Find, Line, AfterLine, TakeBody, WithHeader, WithBodyLength;
    if s.message.stage == FirstLinePending && s.requests != [] {
      assert (s.requests + lines)[1..] == s.requests[1..] + lines;
    }
  }

  /** Requests that were there earlier change nothing, unless a response would have begun without them. */
  lemma {:induction false} RunWithMore(s: Session, lines: seq<string>)
    ensures match Run(s)
            case None => Run(WithMore(s, lines)).None? || Starves(s)
            case Some(t) => Run(WithMore(s, lines)) == Some(WithMore(t, lines))
    decreases |s.buffer|, StageRank(s.message.stage)
  {
    hide ParsingStep, Run, Starved, Starves;
    StepWithMore(s, lines);
    StepDecreases(s);
    RunStep(s);
    RunStep(WithMore(s, lines));
    StarvesUnfold(s);
    if ParsingStep(s).Go? {
      RunWithMore(ParsingStep(s).s, lines);
    }
  }

  /** The bytes of the pieces. */
  function Received(calls: seq<Call>): string {
    if calls == [] then "" else (if calls[0].Data? then calls[0].buf else "") + Received(calls[1..])
  }

  /** All requests queued first, then all bytes at once. */
  function Delivered(s: Session, calls: seq<Call>): Session {
    FeedSession(WithMore(s, Arrived(calls)), Received(calls))
  }

  /** During some call a response begins while no request is waiting. */
  predicate CallsStarve(s: Session, calls: seq<Call>)
    decreases |calls|
  {
    calls != [] &&
    ((calls[0].Data? && Starves(FeedSession(s, calls[0].buf))) ||
     (Answer(s, calls[0]).Some? && CallsStarve(Answer(s, calls[0]).value, calls[1..])))
  }

  /** However requests and pieces of their responses alternate, the session ends as if all requests had been there first and all
      bytes had come at once. Only a failure can be due to the order of the calls: a response began before its request
      arrived, or the stream takes a chunk of wrapping size. */
  lemma {:induction false} OrderDoesNotMatter(s: Session, calls: seq<Call>)
    requires Between(s) && forall i | 0 <= i < |calls| :: calls[i] != Data("")
    ensures || RunCalls(s, calls) == Run(Delivered(s, calls))
            || (RunCalls(s, calls).None? && (CallsStarve(s, calls) || SessionWraps(Delivered(s, calls))))
    decreases |calls|
  {
    hide Run, Between, SessionWraps, Starves, Delivered;
    if calls == [] {
      NothingDelivered(s);
    } else {
      match calls[0] {
        case NewRequest(line) =>
          RequestBetween(s, line);
          RequestDelivered(s, line, calls);
          OrderDoesNotMatter(WithMore(s, [line]), calls[1..]);
        case Data(buf) =>
          ParsePiece(s, buf, calls);
          if Parse(s, buf).Some? {
            ParseBetween(s, buf);
            OrderDoesNotMatter(Parse(s, buf).value, calls[1..]);
          }
      }
    }
  }

  lemma NothingDelivered(s: Session)
    requires Between(s)
    ensures Run(Delivered(s, [])) == Some(s)
  {
    hide ParsingStep, Run;
    NothingMore(s.requests);
    NothingMore(s.buffer);
    assert Delivered(s, []) == s;
    RunStep(s);
  }

  lemma RequestDelivered(s: Session, line: string, calls: seq<Call>)
    requires calls != [] && calls[0] == NewRequest(line)
    ensures Delivered(s, calls) == Delivered(WithMore(s, [line]), calls[1..])
  {
    var rest := calls[1..];
    assert Arrived(calls) == [line] + Arrived(rest) && Received(calls) == "" + Received(rest) == Received(rest);
    hide Arrived, Received;
    Assoc(s.requests, [line], Arrived(rest));
  }

  lemma ParsePiece(s: Session, buf: string, calls: seq<Call>)
    requires Between(s) && calls != [] && calls[0] == Data(buf) && buf != ""
    ensures match Parse(s, buf)
            case None => Run(Delivered(s, calls)).None? || Starves(FeedSession(s, buf)) || SessionWraps(Delivered(s, calls))
            case Some(t) =>
              && Run(Delivered(s, calls)) == Run(Delivered(t, calls[1..]))
              && (SessionWraps(Delivered(t, calls[1..])) ==> SessionWraps(Delivered(s, calls)))
  {
    hide Run, SessionWraps, Starves, ParsingStep;
    var f, lines, rest := FeedSession(s, buf), Arrived(calls[1..]), Received(calls[1..]);
    BetweenSound(s);
    FeedKeeps(s, buf);
    RunWithMore(f, lines);
    RunAppend(WithMore(f, lines), rest);
    Assoc(s.buffer, buf, rest);
    assert Arrived(calls) == lines;
    assert FeedSession(WithMore(f, lines), rest) == Delivered(s, calls);
  }

  // Responses and their requests

  function RequestLines(messages: seq<Message>): seq<string> {
    seq(|messages|, i requires 0 <= i < |messages| => messages[i].requestLine)
  }

  /** The requests answered, the one being answered and those still to be answered, in that order. */
  function Requests(s: Session): seq<string> {
    RequestLines(s.complete) + (if s.message.stage == FirstLinePending then [] else [s.message.requestLine]) + s.requests
  }

  lemma StepPairs(s: Session)
    requires s.message.kind == Response
    ensures ParsingStep(s).Go? ==> var t := ParsingStep(s).s; Requests(t) == Requests(s) && t.message.kind == Response
    ensures ParsingStep(s).Stop? ==> var t := ParsingStep(s).s; Requests(t) == Requests(s) && t.message.kind == Response
  {
    hide Find, Line, AfterLine, ParseHeader, FramingOf, ReadInput;
    if s.message.stage == Complete {
      assert RequestLines(s.complete + [s.message]) == RequestLines(s.complete) + [s.message.requestLine];
    } else if s.message.stage == FirstLinePending && s.requests != [] {
      assert [s.requests[0]] + s.requests[1..] == s.requests;
      assert RequestLines(s.complete) + [] + s.requests == RequestLines(s.complete) + [s.requests[0]] + s.requests[1..];
    }
  }

  lemma {:induction false} RunPairs(s: Session)
    requires s.message.kind == Response && Run(s).Some?
    ensures Requests(Run(s).value) == Requests(s) && Run(s).value.message.kind == Response
    decreases |s.buffer|, StageRank(s.message.stage)
  {
    hide ParsingStep, Run, Requests;
    RunStep(s);
    StepPairs(s);
    StepDecreases(s);
    if ParsingStep(s).Go? {
      RunPairs(ParsingStep(s).s);
    }
  }

  /** Over every sequence of calls, arrivals of requests and the end of the stream included: the k-th response answers the k-th
      request, none is skipped and none answered twice. */
  lemma {:induction false} ResponsesPair(s: Session, calls: seq<Call>)
    requires s.message.kind == Response && RunCalls(s, calls).Some?
    ensures Requests(RunCalls(s, calls).value) == Requests(s) + Arrived(calls)
    decreases |calls|
  {
    hide Parse, Requests;
    if calls == [] {
      assert Requests(s) + [] == Requests(s);
    } else {
      var t := Answer(s, calls[0]).value;
      match calls[0] {
        case Data(buf) => ParsePairs(s, buf);
        case NewRequest(line) => RequestJoins(s, line);
      }
      ResponsesPair(t, calls[1..]);
      NothingMore(Requests(s));
      Assoc(Requests(s), if calls[0].NewRequest? then [calls[0].firstLine] else [], Arrived(calls[1..]));
    }
  }

  lemma RequestJoins(s: Session, line: string)
    ensures Requests(s.(requests := s.requests + [line])) == Requests(s) + [line]
  {}

  lemma ParsePairs(s: Session, buf: string)
    requires s.message.kind == Response && Parse(s, buf).Some?
    ensures Requests(Parse(s, buf).value) == Requests(s) && Parse(s, buf).value.message.kind == Response
  {
    hide Run;
    if buf != "" {
      RunPairs(FeedSession(s, buf));
    } else {
      RunPairs(s.(message := AtEof(s.message).value));
    }
  }

  // The imperative form.

  class HTTPMessageSequence {
    const kind: Kind
    var buffer: string
    var completeMessages: seq<Message>
    var messageInProgress: HTTPMessage
    var requests: seq<string>

    ghost predicate Ready()
      reads this, messageInProgress
    {
      messageInProgress.kind == kind &&
      (messageInProgress.state == FirstLinePending || messageInProgress.state == HeadersPending ==>
         messageInProgress.expectedBodySize.None? && messageInProgress.chunked == null && !messageInProgress.rule5)
    }

    function View(): Session
      reads this, messageInProgress, messageInProgress.chunked
    {
      Session(buffer, completeMessages, messageInProgress.View(), requests)
    }

    ghost function Footprint(): set<object>
      reads this, messageInProgress
    {
      {this, messageInProgress} + if messageInProgress.chunked == null then {} else {messageInProgress.chunked}
    }

    constructor (kind: Kind)
      ensures Ready() && View() == Open(kind, []) && fresh(Footprint())
    {
      this.kind := kind;
      buffer, completeMessages, requests := "", [], [];
      messageInProgress := new HTTPMessage(kind);
    }

    /** `new_request_arrived`. */
    method NewRequestArrived(firstLine: string)
      requires Ready()
      modifies this`requests
      ensures Ready() && View() == old(View()).(requests := old(requests) + [firstLine])
    {
      requests := requests + [firstLine];
    }

    /** `get_and_pop_line`. */
    method GetAndPopLine() returns (line: string)
      requires Find(buffer, CRLF).Some?
      modifies this`buffer
      ensures line == Line(old(buffer)) && buffer == AfterLine(old(buffer))
    {
      var ending := Find(buffer, CRLF).value;
      line := buffer[..ending];
      buffer := buffer[ending + 2..];
    }

    /** `parsing_step`: `more` says whether to continue, `ok` is false for an exception. */
    method ParsingStepInPlace() returns (ok: bool, more: bool)
      requires Ready()
      modifies Footprint()
      ensures ok <==> !ParsingStep(old(View())).Thrown?
      ensures ok ==> Ready() && ParsingStep(old(View())) == if more then Go(View()) else Stop(View())
      ensures fresh(Footprint() - old(Footprint()))
    {
      match messageInProgress.state {
        case FirstLinePending =>
          ok, more := FirstLineInPlace();
        case HeadersPending =>
          ok, more := HeaderInPlace();
        case BodyPending =>
          ok, more := BodyInPlace();
        case Complete =>
          completeMessages := completeMessages + [messageInProgress.View()];
          messageInProgress := new HTTPMessage(kind);
          return true, true;
      }
    }

    method FirstLineInPlace() returns (ok: bool, more: bool)
      requires Ready() && messageInProgress.state == FirstLinePending
      modifies Footprint()
      ensures ok <==> !FirstLineStep(old(View())).Thrown?
      ensures ok ==> Ready() && FirstLineStep(old(View())) == if more then Go(View()) else Stop(View())
      ensures Footprint() == old(Footprint())
    {
      hide Find, Line, AfterLine;
      if Find(buffer, CRLF).None? {
        return true, false;
      }
      if kind == Response {
        if requests == [] {
          return false, false;
        }
        messageInProgress.requestLine := requests[0];
        requests := requests[1..];
      }
      var line := GetAndPopLine();
      messageInProgress.SetFirstLine(line);
      return true, true;
    }

    method HeaderInPlace() returns (ok: bool, more: bool)
      requires Ready() && messageInProgress.state == HeadersPending
      modifies Footprint()
      ensures ok <==> !HeaderStep(old(View())).Thrown?
      ensures ok ==> Ready() && HeaderStep(old(View())) == if more then Go(View()) else Stop(View())
      ensures fresh(Footprint() - old(Footprint()))
    {
      hide Find, Line, AfterLine, WithHeader, WithBodyLength;
      if Find(buffer, CRLF).None? {
        return true, false;
      }
      var line := GetAndPopLine();
      if line == "" {
        ok := messageInProgress.DoneWithHeaders();
      } else {
        ok := messageInProgress.AddHeader(line);
      }
      more := true;
    }

    method BodyInPlace() returns (ok: bool, more: bool)
      requires Ready() && messageInProgress.state == BodyPending
      modifies Footprint()
      ensures ok <==> !BodyStep(old(View())).Thrown?
      ensures ok ==> Ready() && BodyStep(old(View())) == if more then Go(View()) else Stop(View())
      ensures Footprint() == old(Footprint())
    {
      hide TakeBody;
      var n;
      ok, n := messageInProgress.ReadInBody(buffer);
      if !ok || n > |buffer| || (n < |buffer| && messageInProgress.state != Complete) {
        return false, false;
      }
      buffer := buffer[n..];
      more := messageInProgress.state == Complete;
    }

    /** `parse`. */
    method ParseInPlace(buf: string) returns (ok: bool)
      requires Ready()
      modifies Footprint()
      ensures ok <==> Parse(old(View()), buf).Some?
      ensures ok ==> Ready() && View() == Parse(old(View()), buf).value
    {
      hide ParsingStep, Run;
      ghost var start := View();
      if buf == "" {
        ok := messageInProgress.Eof();
        if !ok {
          return;
        }
      }
      buffer := buffer + buf;
      assert buf == "" ==> buffer == start.buffer;
      ghost var outcome := Run(View());
      ok := true;
      var more := true;
      while more
        invariant ok && Ready()
        invariant fresh(Footprint() - old(Footprint()))
        invariant if more then Run(View()) == outcome else outcome == Some(View())
        decreases more, |buffer|, StageRank(messageInProgress.state)
      {
        RunStep(View());
        StepDecreases(View());
        ok, more := ParsingStepInPlace();
        if !ok {
          return;
        }
      }
    }
  }
}
