/** HTTP requests and responses: header lines, header lookup, the length of the body
    (RFC 2616, section 4.4) and the state machine of a message in progress. */
module HttpMessage {
  import opened Text
  import opened Tokenize
  import opened ChunkedParser
  import opened Widths

  // http_header.cc

  datatype Header = Header(key: string, value: string)

  /** The constructor of `HTTPHeader`; `None` if the line has no colon. */
  function ParseHeader(line: string): Option<Header> {
    var colon := Find(line, ":");
    if colon.None? then None
    else
      var rest := line[colon.value + 1..];
      var stripped := SkipWhile(rest, ' ');
      Some(Header(line[..colon.value], if stripped.None? then rest else stripped.value))
  }

  function HeaderText(h: Header): string {
    h.key + ": " + h.value
  }

  // Comparison and lookup, http_message.cc

  function Lower(c: char): char {
    if 'A' <= c <= 'Z' then c - 'A' + 'a' else c
  }

  function Stripped(s: string): string {
    var r := SkipWhile(s, ' ');
    if r.None? then "" else r.value
  }

  predicate SameIgnoringCase(a: string, b: string) {
    |a| == |b| && forall i | 0 <= i < |a| :: Lower(a[i]) == Lower(b[i])
  }

  /** `equivalent_strings`: equal up to leading spaces and ASCII case. */
  predicate Equivalent(a: string, b: string) {
    SameIgnoringCase(Stripped(a), Stripped(b))
  }

  /** The value of the first header, from index `i` on, whose name is equivalent to `name`. */
  function LookupFrom(headers: seq<Header>, name: string, i: nat): Option<string>
    requires i <= |headers|
    decreases |headers| - i
  {
    if i == |headers| then None
    else if Equivalent(headers[i].key, name) then Some(headers[i].value)
    else LookupFrom(headers, name, i + 1)
  }

  function Lookup(headers: seq<Header>, name: string): Option<string> {
    LookupFrom(headers, name, 0)
  }

  predicate Has(headers: seq<Header>, name: string) {
    Lookup(headers, name).Some?
  }

  /** `equivalent_strings` is an equivalence. */
  lemma EquivalentChain(a: string, b: string, c: string)
    requires Equivalent(a, b) && Equivalent(b, c)
    ensures Equivalent(a, c) && Equivalent(b, a)
  {
    var x, y, z := Stripped(a), Stripped(b), Stripped(c);
    hide Stripped, Lower;
    assert forall i | 0 <= i < |x| :: Lower(x[i]) == Lower(y[i]) && Lower(y[i]) == Lower(z[i]);
  }

  /** Header names matter only up to case and leading spaces. */
  lemma {:induction false} LookupUpToCase(headers: seq<Header>, a: string, b: string, i: nat)
    requires i <= |headers| && Equivalent(a, b)
    ensures LookupFrom(headers, a, i) == LookupFrom(headers, b, i)
    decreases |headers| - i
  {
    hide Equivalent;
    if i < |headers| {
      EquivalentSides(headers[i].key, a, b);
      LookupUpToCase(headers, a, b, i + 1);
    }
  }

  lemma EquivalentSides(k: string, a: string, b: string)
    requires Equivalent(a, b)
    ensures Equivalent(k, a) <==> Equivalent(k, b)
  {
    hide Equivalent;
    EquivalentSelf(b);
    EquivalentChain(a, b, b);
    if Equivalent(k, a) { EquivalentChain(k, a, b); }
    if Equivalent(k, b) { EquivalentChain(k, b, a); }
  }

  lemma EquivalentSelf(a: string)
    ensures Equivalent(a, a)
  {}

  /** The first match wins: headers after it do not matter, and headers before it do not match. */
  lemma {:induction false} LookupFirst(headers: seq<Header>, name: string, i: nat)
    requires i <= |headers|
    ensures match LookupFrom(headers, name, i)
            case None => forall j | i <= j < |headers| :: !Equivalent(headers[j].key, name)
            case Some(value) => exists k | i <= k < |headers| :: IsFirst(headers, name, i, k) && headers[k].value == value
    decreases |headers| - i
  {
    hide Equivalent;
    if i < |headers| {
      if Equivalent(headers[i].key, name) {
        assert IsFirst(headers, name, i, i);
      } else {
        LookupFirst(headers, name, i + 1);
        if LookupFrom(headers, name, i + 1).Some? {
          var k :| i + 1 <= k < |headers| && IsFirst(headers, name, i + 1, k) && headers[k].value == LookupFrom(headers, name, i + 1).value;
          assert IsFirst(headers, name, i, k);
        }
      }
    }
  }

  predicate IsFirst(headers: seq<Header>, name: string, from: nat, k: nat) {
    from <= k < |headers| && Equivalent(headers[k].key, name) && forall j | from <= j < k :: !Equivalent(headers[j].key, name)
  }

  // Length of the body

  datatype Kind = Request | Response

  datatype Framing = KnownSize(size: nat) | ChunkedCoding(trailers: bool) | ToEof

  predicate IsHead(requestLine: string) {
    "HEAD " <= requestLine
  }

  /** A signed number stored in a `size_t`. */
  function ContentLength(value: string): Option<Framing> {
    var n := MyAtoi(value, 10);
    if n.None? then None else Some(KnownSize(n.value % UINT64))
  }

  function RequestFraming(firstLine: string, headers: seq<Header>): Option<Framing> {
    if "GET " <= firstLine || "HEAD " <= firstLine then Some(KnownSize(0))
    else if "POST " <= firstLine then
      var length := Lookup(headers, "Content-Length");
      if length.None? then None else ContentLength(length.value)
    else None
  }

  /** `status_code`, with the exception for a status line of fewer than three tokens. */
  function StatusCode(firstLine: string): Option<string> {
    var tokens := Tokens(firstLine, ' ');
    if |tokens| < 3 then None else Some(tokens[1])
  }

  predicate EndsChunked(transferEncoding: string) {
    var codings := Tokens(transferEncoding, ',');
    Equivalent(codings[|codings| - 1], "chunked")
  }

  /** The rules of RFC 2616, section 4.4, as `HTTPResponse` applies them; `None` where it throws. */
  function ResponseFraming(firstLine: string, headers: seq<Header>, requestLine: string): Option<Framing> {
    var code := StatusCode(firstLine);
    if code.None? || code.value == "" then None
    else if code.value[0] == '1' || code.value == "204" || code.value == "304" || IsHead(requestLine) then Some(KnownSize(0))
    else
      var coding := Lookup(headers, "Transfer-Encoding");
      var length := Lookup(headers, "Content-Length");
      var mime := Lookup(headers, "Content-Type");
      if coding.Some? && EndsChunked(coding.value) then Some(ChunkedCoding(Has(headers, "Trailer")))
      else if coding.None? && length.Some? then ContentLength(length.value)
      else if mime.Some? && (Tokens(mime.value, ';')[0] == "" || Equivalent(Tokens(mime.value, ';')[0], "multipart/byteranges"))
      then None
      else Some(ToEof)
  }

  /** RFC 2616, section 4.4, rule 3: where there is a Transfer-Encoding, Content-Length headers make no difference. */
  lemma ContentLengthIgnored(firstLine: string, a: seq<Header>, b: seq<Header>, requestLine: string)
    requires Lookup(a, "Transfer-Encoding") == Lookup(b, "Transfer-Encoding") && Has(a, "Transfer-Encoding")
    requires Has(a, "Trailer") == Has(b, "Trailer") && Lookup(a, "Content-Type") == Lookup(b, "Content-Type")
    ensures ResponseFraming(firstLine, a, requestLine) == ResponseFraming(firstLine, b, requestLine)
  {
    hide Lookup, StatusCode, EndsChunked, Tokens, Equivalent;
  }

  /** Rule 1: a status of the 1xx class, 204 or 304, or the answer to a HEAD request, has no body, whatever the headers say. */
  lemma NoBody(firstLine: string, headers: seq<Header>, requestLine: string, code: string)
    requires StatusCode(firstLine) == Some(code) && code != ""
    requires code[0] == '1' || code == "204" || code == "304" || "HEAD " <= requestLine
    ensures ResponseFraming(firstLine, headers, requestLine) == Some(KnownSize(0))
  {
    hide Lookup, StatusCode, Tokens, Equivalent;
  }

  /** A Content-Length in plain digits is the size of the body of a POST request. */
  lemma PostedLength(firstLine: string, headers: seq<Header>, n: nat)
    requires "POST " <= firstLine && n < 0x8000_0000_0000_0000 && Lookup(headers, "Content-Length") == Some(Digits(n, 10))
    ensures RequestFraming(firstLine, headers) == Some(KnownSize(n))
  {
    hide Lookup, Digits, MyAtoi;
    NumberRoundTrip(n, 10);
    assert firstLine[0] == 'P';
  }

  function FramingOf(kind: Kind, firstLine: string, headers: seq<Header>, requestLine: string): Option<Framing> {
    if kind == Request then RequestFraming(firstLine, headers) else ResponseFraming(firstLine, headers, requestLine)
  }

  // A message in progress

  datatype Stage = FirstLinePending | HeadersPending | BodyPending | Complete

  /** `expected_body_size_` and `body_parser_` together. The parser of a finished body is not kept:
      nothing looks at it again. */
  datatype Length = Unset | Known(size: nat) | UntilEof | Chunks(parser: Parser) | Spent

  /** `requestLine` is the first line of the request that a response answers. */
  datatype Message = Message(kind: Kind, requestLine: string, firstLine: string, headers: seq<Header>,
                             body: string, stage: Stage, length: Length)

  function Fresh(kind: Kind): Message {
    Message(kind, "", "", [], "", FirstLinePending, Unset)
  }

  function LengthOf(f: Framing): Length {
    match f
    case KnownSize(n) => Known(n)
    case ChunkedCoding(trailers) => Chunks(Init(trailers))
    case ToEof => UntilEof
  }

  function WithFirstLine(m: Message, line: string): Message {
    m.(firstLine := line, stage := HeadersPending)
  }

  function WithHeader(m: Message, line: string): Option<Message> {
    var h := ParseHeader(line);
    if h.None? then None else Some(m.(headers := m.headers + [h.value]))
  }

  function WithBodyLength(m: Message): Option<Message> {
    var f := FramingOf(m.kind, m.firstLine, m.headers, m.requestLine);
    if f.None? then None else Some(m.(stage := BodyPending, length := LengthOf(f.value)))
  }

  function Min(a: int, b: int): int {
    if a < b then a else b
  }

  datatype BodyRead = BodyError | BodyBytes(m: Message, count: nat)

  /** `read_in_body` and `read_in_complex_body`. */
  function TakeBody(m: Message, s: string): BodyRead {
    match m.length
    case Known(size) =>
      if |m.body| > size then BodyError
      else
        var n := Min(size - |m.body|, |s|);
        BodyBytes(m.(body := m.body + s[..n], stage := if |m.body| + n == size then Complete else m.stage), n)
    case UntilEof => BodyBytes(m.(body := m.body + s), |s|)
    case Chunks(p) =>
      (match ReadInput(p, s)
       case Failed => BodyError
       case Pending(q) => BodyBytes(m.(body := m.body + s, length := Chunks(q)), |s|)
       case Finished(n) => BodyBytes(m.(body := m.body + s[..Min(n, |s|)], stage := Complete, length := Spent), n))
    case _ => BodyError
  }

  /** `eof`: the connection was closed. */
  function AtEof(m: Message): Option<Message> {
    match m.stage
    case FirstLinePending => Some(m)
    case BodyPending => if m.length.UntilEof? || m.length.Chunks? then Some(m.(stage := Complete, length := Spent)) else None
    case _ => None
  }

  /** `str`. */
  function HeaderBlock(headers: seq<Header>): string {
    if headers == [] then "" else HeaderText(headers[0]) + CRLF + HeaderBlock(headers[1..])
  }

  function Str(m: Message): string {
    m.firstLine + CRLF + HeaderBlock(m.headers) + CRLF + m.body
  }

  // The imperative form.

  /** `HTTPMessage`, with the two subclasses told apart by `kind`. `false` results are exceptions or failed asserts. */
  class HTTPMessage {
    const kind: Kind
    var requestLine: string
    var firstLine: string
    var headers: seq<Header>
    var body: string
    var state: Stage
    var expectedBodySize: Option<nat>
    var chunked: ChunkedBodyParser?
    var rule5: bool

    constructor (kind: Kind)
      ensures View() == Fresh(kind) && chunked == null
    {
      this.kind := kind;
      requestLine, firstLine, headers, body, state := "", "", [], "", FirstLinePending;
      expectedBodySize, chunked, rule5 := None, null, false;
    }

    function View(): Message
      reads this, chunked
    {
      Message(kind, requestLine, firstLine, headers, body, state,
              if expectedBodySize.Some? then Known(expectedBodySize.value)
              else if state == Complete then Spent
              else if chunked != null then Chunks(chunked.View())
              else if rule5 then UntilEof else Unset)
    }

    method SetFirstLine(line: string)
      requires state == FirstLinePending
      modifies this`firstLine, this`state
      ensures View() == WithFirstLine(old(View()), line)
    {
      firstLine := line;
      state := HeadersPending;
    }

    method AddHeader(line: string) returns (ok: bool)
      requires state == HeadersPending
      modifies this`headers
      ensures ok <==> WithHeader(old(View()), line).Some?
      ensures ok ==> View() == WithHeader(old(View()), line).value
    {
      hide ParseHeader;
      var h := ParseHeader(line);
      if h.None? {
        return false;
      }
      headers := headers + [h.value];
      return true;
    }

    /** `has_header`: the loop stops at the first match. */
    method HasHeader(name: string) returns (r: bool)
      ensures r == Has(headers, name)
    {
      hide Equivalent;
      for i := 0 to |headers|
        invariant Lookup(headers, name) == LookupFrom(headers, name, i)
      {
        if Equivalent(headers[i].key, name) {
          return true;
        }
      }
      return false;
    }

    /** `get_header_value`; `None` is the exception. */
    method GetHeaderValue(name: string) returns (r: Option<string>)
      ensures r == Lookup(headers, name)
    {
      hide Equivalent;
      for i := 0 to |headers|
        invariant Lookup(headers, name) == LookupFrom(headers, name, i)
      {
        if Equivalent(headers[i].key, name) {
          return Some(headers[i].value);
        }
      }
      return None;
    }

    /** `HTTPRequest::calculate_expected_body_size`. */
    method RequestBodySize() returns (framing: Option<Framing>)
      ensures framing == RequestFraming(firstLine, headers)
    {
      if "GET " <= firstLine || "HEAD " <= firstLine {
        return Some(KnownSize(0));
      } else if "POST " <= firstLine {
        var present := HasHeader("Content-Length");
        if !present {
          return None;
        }
        var length := GetHeaderValue("Content-Length");
        return ContentLength(length.value);
      } else {
        return None;
      }
    }

    /** `HTTPResponse::calculate_expected_body_size`. */
    method ResponseBodySize() returns (framing: Option<Framing>)
      ensures framing == ResponseFraming(firstLine, headers, requestLine)
    {
      hide Tokens, Equivalent, MyAtoi;
      var tokens := Split(firstLine, ' ');
      if |tokens| < 3 || tokens[1] == "" {
        return None;
      }
      if tokens[1][0] == '1' || tokens[1] == "204" || tokens[1] == "304" || IsHead(requestLine) {
        return Some(KnownSize(0));
      }
      var coding := GetHeaderValue("Transfer-Encoding");
      if coding.Some? {
        var codings := Split(coding.value, ',');
        if Equivalent(codings[|codings| - 1], "chunked") {
          var trailers := HasHeader("Trailer");
          return Some(ChunkedCoding(trailers));
        }
      }
      var length := GetHeaderValue("Content-Length");
      if coding.None? && length.Some? {
        return ContentLength(length.value);
      }
      var mime := GetHeaderValue("Content-Type");
      if mime.Some? {
        var types := Split(mime.value, ';');
        if types[0] == "" || Equivalent(types[0], "multipart/byteranges") {
          return None;
        }
      }
      return Some(ToEof);
    }

    /** `done_with_headers`. */
    method DoneWithHeaders() returns (ok: bool)
      requires state == HeadersPending && expectedBodySize.None? && chunked == null && !rule5
      modifies this`state, this`expectedBodySize, this`chunked, this`rule5
      ensures ok <==> WithBodyLength(old(View())).Some?
      ensures ok ==> View() == WithBodyLength(old(View())).value
      ensures state == BodyPending && (chunked == null || fresh(chunked))
    {
      state := BodyPending;
      var framing: Option<Framing>;
      if kind == Request {
        framing := RequestBodySize();
      } else {
        framing := ResponseBodySize();
      }
      if framing.None? {
        return false;
      }
      match framing.value {
        case KnownSize(n) => expectedBodySize := Some(n);
        case ChunkedCoding(trailers) => chunked := new ChunkedBodyParser(trailers);
        case ToEof => rule5 := true;
      }
      return true;
    }

    /** `read_in_body`. */
    method ReadInBody(s: string) returns (ok: bool, bytesRead: nat)
      requires state == BodyPending
      modifies this`body, this`state, chunked
      ensures ok <==> TakeBody(old(View()), s).BodyBytes?
      ensures ok ==> BodyBytes(View(), bytesRead) == TakeBody(old(View()), s)
      ensures state == BodyPending || state == Complete
    {
      if expectedBodySize.Some? {
        if |body| > expectedBodySize.value {
          return false, 0;
        }
        bytesRead := Min(expectedBodySize.value - |body|, |s|);
        body := body + s[..bytesRead];
        if |body| == expectedBodySize.value {
          state := Complete;
        }
        return true, bytesRead;
      } else if chunked != null {
        var r := chunked.Read(s);
        match r {
          case Refused => return false, 0;
          case AllOfIt =>
            body := body + s;
            return true, |s|;
          case Part(n) =>
            body := body + s[..Min(n, |s|)];
            state := Complete;
            return true, n;
        }
      } else if rule5 {
        body := body + s;
        return true, |s|;
      } else {
        return false, 0;
      }
    }

    /** `eof`. */
    method Eof() returns (ok: bool)
      modifies this`state
      ensures ok <==> AtEof(old(View())).Some?
      ensures ok ==> View() == AtEof(old(View())).value
    {
      match state {
        case FirstLinePending => return true;
        case HeadersPending => return false;
        case BodyPending =>
          if expectedBodySize.None? && (chunked != null || rule5) {
            state := Complete;
            return true;
          }
          return false;
        case Complete => return false;
      }
    }
  }
}
